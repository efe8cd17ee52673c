/**
 * The COE (coefficient file) writer: a two-line header, then every quantized
 * word as a three-digit hexadecimal token, separated by commas, with a
 * newline after every sixteenth comma and a semicolon after the last token.
 */
module Coe {
  import opened Wrappers
  import opened Text
  import opened Pixels
  import opened HexToken

  const RadixLine: string := "memory_initialization_radix=16;\n"
  const VectorLine: string := "memory_initialization_vector=\n"
  const Header: string := RadixLine + VectorLine

  /** What follows token i of n: a semicolon after the last, otherwise a comma and, after every 16th token, a newline. */
  function Separator(i: nat, n: nat): string
    requires i < n
  {
    if i == n - 1 then ";" else if (i + 1) % 16 == 0 then ",\n" else ","
  }

  /** The vector text for tokens `from` up to the end, each with its separator. */
  function Entries(vals: seq<Word12>, from: nat): string
    decreases |vals| - from
  {
    if from >= |vals| then [] else Token(vals[from]) + Separator(from, |vals|) + Entries(vals, from + 1)
  }

  /** The whole COE file for a sequence of words. */
  function CoeText(vals: seq<Word12>): string
  {
    Header + Entries(vals, 0)
  }

  /**
   * The writer loop: quantize each pixel and append its token and separator.
   * The file text is what `CoeText` describes for the quantized pixels.
   */
  method WriteCoe(pixels: seq<Pixel>) returns (text: string)
    ensures text == CoeText(QuantizeAll(pixels))
  {
    ghost var vals := QuantizeAll(pixels);
    text := RadixLine;
    text := text + VectorLine;
    var total := |pixels|;
    for i := 0 to |pixels|
      invariant text + Entries(vals, i) == CoeText(vals)
    {
      var val := Quantize(pixels[i]);
      ghost var written := text;
      if i == total - 1 {
        text := text + Token(val) + ";";
      } else {
        text := text + Token(val) + ",";
        if (i + 1) % 16 == 0 {
          text := text + "\n";
        }
      }
      AppendEntry(written, text, vals, i);
    }
    assert Entries(vals, |pixels|) == [];
  }

  /** One step of the writer loop: appending token i and its separator moves the invariant on by one. */
  lemma AppendEntry(written: string, text: string, vals: seq<Word12>, i: nat)
    requires i < |vals|
    requires text == written + Token(vals[i]) + Separator(i, |vals|)
    ensures text + Entries(vals, i + 1) == written + Entries(vals, i)
  {
  }


  // ---------------------------------------------------------------------------
  // Reading a vector back

  /**
   * Reads `TOKEN,` repeatedly (a newline may follow a comma) up to a final
   * `TOKEN;` that ends the text.
   */
  function ParseVector(s: string): (r: Option<seq<Word12>>)
    ensures r.Some? ==> |r.value| > 0
    decreases |s|
  {
    if |s| < 4 then None
    else match ParseToken(s[..3])
      case None => None
      case Some(v) =>
        if s[3] == ';' then (if |s| == 4 then Some([v]) else None)
        else if s[3] == ',' then
          var rest := if |s| > 4 && s[4] == '\n' then s[5..] else s[4..];
          match ParseVector(rest)
          case None => None
          case Some(vs) => Some([v] + vs)
        else None
  }

  /** Reads a COE file: the fixed header, then an empty or a terminated vector. */
  function ParseCoe(text: string): Option<seq<Word12>>
  {
    if |text| < |Header| || text[..|Header|] != Header then None
    else if |text| == |Header| then Some([])
    else ParseVector(text[|Header|..])
  }

  lemma {:induction false} EntriesRoundTrip(vals: seq<Word12>, from: nat)
    requires from < |vals|
    ensures ParseVector(Entries(vals, from)) == Some(vals[from..])
    decreases |vals| - from
  {
    var n := |vals|;
    var tail := Entries(vals, from + 1);
    EntriesStep(vals, from);
    if from == n - 1 {
      assert tail == [];
      ParseLastToken(vals[from]);
      assert vals[from..] == [vals[from]];
    } else {
      EntriesRoundTrip(vals, from + 1);
      EntriesStart(vals, from + 1);
      ParseInnerToken(vals[from], Separator(from, n), tail);
      assert vals[from..] == [vals[from]] + vals[from + 1..];
    }
  }

  lemma EntriesStep(vals: seq<Word12>, from: nat)
    requires from < |vals|
    ensures Entries(vals, from) == Token(vals[from]) + Separator(from, |vals|) + Entries(vals, from + 1)
  {
  }

  /** The last token, with its semicolon, reads as one word. */
  lemma ParseLastToken(v: Word12)
    ensures ParseVector(Token(v) + ";") == Some([v])
  {
    var s := Token(v) + ";";
    assert s[..3] == Token(v);
    TokenRoundTrip(v);
  }

  /** A token, a comma with or without a newline, then a vector: the word is read in front of the rest. */
  lemma ParseInnerToken(v: Word12, sep: string, tail: string)
    requires sep == "," || sep == ",\n"
    requires tail != [] && tail[0] != '\n'
    requires ParseVector(tail).Some?
    ensures ParseVector(Token(v) + sep + tail) == Some([v] + ParseVector(tail).value)
  {
    var s := Token(v) + sep + tail;
    assert s[..3] == Token(v);
    TokenRoundTrip(v);
    assert s[|sep| + 3..] == tail;
  }

  /** A non-empty vector text starts with a hexadecimal digit, never with a newline. */
  lemma EntriesStart(vals: seq<Word12>, from: nat)
    requires from < |vals|
    ensures |Entries(vals, from)| >= 4 && IsUpperHexDigit(Entries(vals, from)[0])
  {
    assert Entries(vals, from)[..3] == Token(vals[from]);
  }

  /** Reading back a written COE file yields exactly the words written, so it holds N tokens. */
  lemma CoeRoundTrip(vals: seq<Word12>)
    ensures ParseCoe(CoeText(vals)) == Some(vals)
  {
    var text := CoeText(vals);
    assert text[..|Header|] == Header;
    if vals == [] {
      assert text == Header;
    } else {
      assert text[|Header|..] == Entries(vals, 0);
      EntriesRoundTrip(vals, 0);
      assert vals[0..] == vals;
    }
  }

  // ---------------------------------------------------------------------------
  // Layout of the file

  /** Every COE file starts with the radix line and then the vector line. */
  lemma CoeStartsWithHeader(vals: seq<Word12>)
    ensures |CoeText(vals)| >= |Header|
    ensures CoeText(vals)[..|RadixLine|] == "memory_initialization_radix=16;\n"
    ensures CoeText(vals)[|RadixLine|..|Header|] == "memory_initialization_vector=\n"
  {
  }

  /** With no pixels the loop writes nothing: the file is the header alone. */
  lemma CoeEmpty()
    ensures CoeText([]) == "memory_initialization_radix=16;\nmemory_initialization_vector=\n"
  {
    assert Entries([], 0) == [];
  }

  /** Where token i starts inside the vector: four characters per token and one per earlier newline. */
  function Offset(i: nat): nat
  {
    4 * i + i / 16
  }

  lemma PieceLength(vals: seq<Word12>, i: nat)
    requires i + 1 < |vals|
    ensures |Token(vals[i]) + Separator(i, |vals|)| == Offset(i + 1) - Offset(i)
  {
    if (i + 1) % 16 == 0 {
      assert (i + 1) / 16 == i / 16 + 1;
    } else {
      assert (i + 1) / 16 == i / 16;
    }
  }

  /** From token `from` on, the text of token j and after sits at its offset. */
  lemma {:induction false} EntriesSuffix(vals: seq<Word12>, from: nat, j: nat)
    requires from <= j < |vals|
    ensures Offset(j) - Offset(from) <= |Entries(vals, from)|
    ensures Entries(vals, from)[Offset(j) - Offset(from)..] == Entries(vals, j)
    decreases j - from
  {
    if from < j {
      var piece := Token(vals[from]) + Separator(from, |vals|);
      var rest := Entries(vals, from + 1);
      EntriesStep(vals, from);
      PieceLength(vals, from);
      EntriesSuffix(vals, from + 1, j);
      DropPrefix(piece, rest, Offset(j) - Offset(from + 1));
    }
  }

  /** Dropping a prefix and then k more characters is dropping k characters of what follows it. */
  lemma DropPrefix(piece: string, rest: string, k: nat)
    requires k <= |rest|
    ensures (piece + rest)[|piece| + k..] == rest[k..]
  {
  }

  /**
   * The layout of the vector of n >= 1 tokens: token i is at Offset(i), then a
   * comma, or the semicolon if it is the last; a newline follows the comma of
   * token i exactly when (i + 1) % 16 == 0; the semicolon ends the file.
   */
  lemma CoeTokenAt(vals: seq<Word12>, i: nat)
    requires i < |vals|
    ensures var e := Entries(vals, 0);
      Offset(i) + 4 <= |e| &&
      e[Offset(i)..Offset(i) + 3] == Token(vals[i]) &&
      e[Offset(i) + 3] == (if i == |vals| - 1 then ';' else ',') &&
      (i < |vals| - 1 ==> Offset(i) + 4 < |e| && (e[Offset(i) + 4] == '\n' <==> (i + 1) % 16 == 0)) &&
      (i == |vals| - 1 ==> |e| == Offset(i) + 4)
  {
    var n := |vals|;
    EntriesSuffix(vals, 0, i);
    var e := Entries(vals, 0);
    var at := Entries(vals, i);
    assert e[Offset(i)..] == at;
    EntriesStep(vals, i);
    assert at[..3] == Token(vals[i]);
    if i < n - 1 {
      EntriesStart(vals, i + 1);
      if (i + 1) % 16 != 0 {
        assert at[4] == Entries(vals, i + 1)[0];
      }
    } else {
      assert Entries(vals, i + 1) == [];
    }
  }

  /** The last character of a COE file with at least one token is its only vector semicolon. */
  lemma CoeEndsWithSemicolon(vals: seq<Word12>)
    requires |vals| >= 1
    ensures CoeText(vals)[|CoeText(vals)| - 1] == ';'
  {
    CoeTokenAt(vals, |vals| - 1);
    var e := Entries(vals, 0);
    assert CoeText(vals)[|CoeText(vals)| - 1] == e[|e| - 1];
  }

  lemma TokenCounts(v: Word12)
    ensures Count(',', Token(v)) == 0 && Count(';', Token(v)) == 0 && Count('\n', Token(v)) == 0
  {
    CountAbsent(',', Token(v));
    CountAbsent(';', Token(v));
    CountAbsent('\n', Token(v));
  }

  lemma {:induction false} EntriesCounts(vals: seq<Word12>, from: nat)
    requires from < |vals|
    ensures var e := Entries(vals, from);
      Count(',', e) == |vals| - 1 - from &&
      Count(';', e) == 1 &&
      Count('\n', e) == (|vals| - 1) / 16 - from / 16
    decreases |vals| - from
  {
    var n := |vals|;
    var tok, sep, tail := Token(vals[from]), Separator(from, n), Entries(vals, from + 1);
    assert Entries(vals, from) == tok + sep + tail;
    TokenCounts(vals[from]);
    CountAppend(',', tok + sep, tail);
    CountAppend(';', tok + sep, tail);
    CountAppend('\n', tok + sep, tail);
    CountAppend(',', tok, sep);
    CountAppend(';', tok, sep);
    CountAppend('\n', tok, sep);
    if from == n - 1 {
      assert tail == [];
    } else {
      EntriesCounts(vals, from + 1);
      if (from + 1) % 16 == 0 {
        assert (from + 1) / 16 == from / 16 + 1;
      } else {
        assert (from + 1) / 16 == from / 16;
      }
    }
  }

  /**
   * A vector of N >= 1 tokens holds N - 1 commas, one semicolon, and one
   * newline per full group of 16 tokens that is followed by more.
   */
  lemma CoeVectorCounts(vals: seq<Word12>)
    requires |vals| >= 1
    ensures var e := CoeText(vals)[|Header|..];
      Count(',', e) == |vals| - 1 &&
      Count(';', e) == 1 &&
      Count('\n', e) == (|vals| - 1) / 16
  {
    assert CoeText(vals)[|Header|..] == Entries(vals, 0);
    EntriesCounts(vals, 0);
  }
}
