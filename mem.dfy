/**
 * The MEM (simulation memory) writer: one three-digit hexadecimal token per
 * line, in pixel order, with no header and no terminator.
 */
module Mem {
  import opened Wrappers
  import opened Text
  import opened Pixels
  import opened HexToken
  import Coe

  /** The whole MEM file for a sequence of words. */
  function MemText(vals: seq<Word12>): string
  {
    if vals == [] then [] else Token(vals[0]) + "\n" + MemText(vals[1..])
  }

  /**
   * The writer loop: quantize each pixel and write its token on a line of its own.
   * The file text is what `MemText` describes for the quantized pixels.
   */
  method WriteMem(pixels: seq<Pixel>) returns (text: string)
    ensures text == MemText(QuantizeAll(pixels))
  {
    ghost var vals := QuantizeAll(pixels);
    text := [];
    for i := 0 to |pixels|
      invariant text + MemText(vals[i..]) == MemText(vals)
    {
      var val := Quantize(pixels[i]);
      ghost var written := text;
      text := text + Token(val) + "\n";
      AppendLine(written, text, vals, i);
    }
    assert vals[|pixels|..] == [];
  }

  /** One step of the writer loop: appending line i moves the invariant on by one. */
  lemma AppendLine(written: string, text: string, vals: seq<Word12>, i: nat)
    requires i < |vals|
    requires text == written + Token(vals[i]) + "\n"
    ensures text + MemText(vals[i + 1..]) == written + MemText(vals[i..])
  {
    assert vals[i..][1..] == vals[i + 1..];
  }

  /** Line i of the file (characters 4i to 4i + 3) is token i followed by its newline. */
  lemma {:induction false} MemLineAt(vals: seq<Word12>, i: nat)
    requires i < |vals|
    ensures |MemText(vals)| == 4 * |vals|
    ensures MemText(vals)[4 * i..4 * i + 3] == Token(vals[i])
    ensures MemText(vals)[4 * i + 3] == '\n'
    decreases |vals|
  {
    var m := MemText(vals);
    var rest := MemText(vals[1..]);
    assert m == Token(vals[0]) + "\n" + rest;
    if i == 0 {
      if |vals| > 1 {
        MemLineAt(vals[1..], 0);
      } else {
        assert vals[1..] == [];
      }
    } else {
      MemLineAt(vals[1..], i - 1);
      assert m[4 * i..4 * i + 3] == rest[4 * (i - 1)..4 * (i - 1) + 3];
    }
  }

  /** The file has exactly one line per pixel. */
  lemma {:induction false} MemLineCount(vals: seq<Word12>)
    ensures Count('\n', MemText(vals)) == |vals|
  {
    if vals != [] {
      var tok := Token(vals[0]);
      CountAbsent('\n', tok);
      CountAppend('\n', tok + "\n", MemText(vals[1..]));
      CountAppend('\n', tok, "\n");
      MemLineCount(vals[1..]);
    }
  }

  /** Line i of the MEM file is the same token as token i of the COE vector. */
  lemma MemMatchesCoe(vals: seq<Word12>, i: nat)
    requires i < |vals|
    ensures var c := Coe.CoeText(vals);
      |MemText(vals)| == 4 * |vals| &&
      |Coe.Header| + Coe.Offset(i) + 3 <= |c| &&
      MemText(vals)[4 * i..4 * i + 3] == c[|Coe.Header| + Coe.Offset(i)..|Coe.Header| + Coe.Offset(i) + 3]
  {
    MemLineAt(vals, i);
    Coe.CoeTokenAt(vals, i);
    var c := Coe.CoeText(vals);
    var start := |Coe.Header| + Coe.Offset(i);
    assert c[start..start + 3] == Coe.Entries(vals, 0)[Coe.Offset(i)..Coe.Offset(i) + 3];
  }

  /** Reads lines of exactly three hexadecimal digits, each ended by a newline. */
  function ParseMem(s: string): (r: Option<seq<Word12>>)
    decreases |s|
  {
    if s == [] then Some([])
    else if |s| < 4 || s[3] != '\n' then None
    else match (ParseToken(s[..3]), ParseMem(s[4..]))
      case (Some(v), Some(vs)) => Some([v] + vs)
      case _ => None
  }

  /** Reading back a written MEM file yields exactly the words written. */
  lemma {:induction false} MemRoundTrip(vals: seq<Word12>)
    ensures ParseMem(MemText(vals)) == Some(vals)
  {
    if vals != [] {
      var m := MemText(vals);
      assert m == Token(vals[0]) + "\n" + MemText(vals[1..]);
      assert m[..3] == Token(vals[0]) && m[3] == '\n' && m[4..] == MemText(vals[1..]);
      TokenRoundTrip(vals[0]);
      MemRoundTrip(vals[1..]);
      assert vals == [vals[0]] + vals[1..];
    }
  }
}

/**
 * The MEM file name: the COE output path with `.coe` replaced by `.mem`,
 * as `str.replace` does it: every occurrence, scanning left to right.
 */
module MemPath {

  const CoeExt: string := ".coe"
  const MemExt: string := ".mem"

  predicate CoeAt(s: string, i: nat)
  {
    i + 4 <= |s| && s[i..i + 4] == CoeExt
  }

  ghost predicate ContainsCoe(s: string)
  {
    exists i: nat :: CoeAt(s, i)
  }

  function MemPath(path: string): (r: string)
    ensures |r| == |path|
  {
    if |path| < 4 then path
    else if path[..4] == CoeExt then MemExt + MemPath(path[4..])
    else [path[0]] + MemPath(path[1..])
  }

  /** Away from an occurrence the scan keeps the first character and moves one on. */
  lemma MemPathStep(path: string)
    requires path != [] && !CoeAt(path, 0)
    ensures MemPath(path) == [path[0]] + MemPath(path[1..])
  {
  }

  lemma MemPathHead(path: string)
    requires path != []
    ensures MemPath(path)[0] == path[0]
  {
  }

  lemma CoeAtShift(s: string, i: nat)
    requires s != []
    ensures CoeAt(s[1..], i) <==> CoeAt(s, i + 1)
  {
    if i + 5 <= |s| {
      assert s[1..][i..i + 4] == s[i + 1..i + 5];
    }
  }

  /** The path is left as it is exactly when it contains no `.coe`. */
  lemma {:induction false} MemPathUnchangedIff(path: string)
    ensures MemPath(path) == path <==> !ContainsCoe(path)
    decreases |path|
  {
    if |path| < 4 {
    } else if CoeAt(path, 0) {
      assert MemPath(path)[1] == 'm' != path[1];
    } else {
      MemPathStep(path);
      MemPathUnchangedIff(path[1..]);
      if ContainsCoe(path) {
        var i: nat :| CoeAt(path, i);
        CoeAtShift(path, i - 1);
        assert ContainsCoe(path[1..]);
      }
      if ContainsCoe(path[1..]) {
        var i: nat :| CoeAt(path[1..], i);
        CoeAtShift(path, i);
      }
      assert path == [path[0]] + path[1..];
    }
  }

  lemma SecondKept(path: string)
    requires |path| >= 2 && path[0] != '.'
    ensures MemPath(path)[1] == path[1]
  {
    MemPathStep(path);
    MemPathHead(path[1..]);
  }

  lemma ThirdKept(path: string)
    requires |path| >= 3 && path[0] != '.' && path[1] != '.'
    ensures MemPath(path)[2] == path[2]
  {
    MemPathStep(path);
    SecondKept(path[1..]);
  }

  /** Where the source path has no `.coe` at 0, neither has the result. */
  lemma NoNewCoeAtStart(path: string)
    requires |path| >= 4 && !CoeAt(path, 0)
    ensures !CoeAt(MemPath(path), 0)
  {
    var r := MemPath(path);
    var k := FirstMismatch(path);
    assert r[..4][k] == r[k];
  }

  /** A position below 4 where the path differs from `.coe` and the result keeps the path's character. */
  lemma FirstMismatch(path: string) returns (k: nat)
    requires |path| >= 4 && !CoeAt(path, 0)
    ensures k < 4 && MemPath(path)[k] == path[k] != CoeExt[k]
  {
    MemPathHead(path);
    if path[0] != '.' {
      return 0;
    }
    var p1 := path[1..];
    MemPathStep(path);
    MemPathHead(p1);
    if path[1] != 'c' {
      return 1;
    }
    SecondKept(p1);
    if path[2] != 'o' {
      return 2;
    }
    ThirdKept(p1);
    assert path[..4] != CoeExt;
    assert path[3] != 'e';
    return 3;
  }

  /** Every `.coe` is replaced: the MEM path never contains `.coe`. */
  lemma {:induction false} MemPathHasNoCoe(path: string)
    ensures !ContainsCoe(MemPath(path))
    decreases |path|
  {
    var r := MemPath(path);
    if ContainsCoe(r) {
      var i: nat :| CoeAt(r, i);
      if |path| < 4 {
        assert false;
      } else if CoeAt(path, 0) {
        var rest := MemPath(path[4..]);
        MemPathHasNoCoe(path[4..]);
        assert r == MemExt + rest;
        assert r[i] == '.' && r[i + 1] == 'c' by {
          assert r[i..i + 4] == CoeExt;
          assert r[i..i + 4][0] == r[i] && r[i..i + 4][1] == r[i + 1];
        }
        if i < 4 {
          assert false;
        }
        assert r[4..] == rest;
        assert r[i..i + 4] == r[4..][i - 4..i];
        assert CoeAt(rest, i - 4);
        assert false;
      } else {
        MemPathStep(path);
        MemPathHasNoCoe(path[1..]);
        if i == 0 {
          NoNewCoeAtStart(path);
          assert false;
        }
        CoeAtShift(r, i - 1);
        assert false;
      }
    }
  }

  /** A name ending in `.coe` with no other `.coe` gets its extension swapped for `.mem`. */
  lemma {:induction false} MemPathOfCoeName(stem: string)
    requires !ContainsCoe(stem)
    ensures MemPath(stem + CoeExt) == stem + MemExt
    decreases |stem|
  {
    var p := stem + CoeExt;
    if stem == [] {
      assert p == CoeExt;
    } else {
      if |stem| >= 4 {
        assert stem[..4] == p[..4];
        assert !CoeAt(stem, 0);
      } else {
        assert p[..4][|stem|] == '.';
      }
      MemPathStep(p);
      assert p[1..] == stem[1..] + CoeExt;
      if ContainsCoe(stem[1..]) {
        var i: nat :| CoeAt(stem[1..], i);
        CoeAtShift(stem, i);
      }
      MemPathOfCoeName(stem[1..]);
    }
  }

  /** The single-image output `image.coe` pairs with `image.mem`. */
  lemma ImageMemPath()
    ensures MemPath("image.coe") == "image.mem"
  {
    var stem := "image";
    forall i: nat
      ensures !CoeAt(stem, i)
    {
      if i + 4 <= |stem| {
        assert stem[i..i + 4][0] == stem[i];
      }
    }
    MemPathOfCoeName(stem);
    assert stem + CoeExt == "image.coe";
  }
}
