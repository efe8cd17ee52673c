/**
 * Multi-frame mode: the pixels of every input image that exists and decodes,
 * concatenated in argument order.
 */
module Frames {
  import opened Pixels

  /**
   * What checking, opening, resizing to 200x150 and converting one path to RGB
   * yields: its row-major pixels, or the reason it is skipped.
   */
  datatype LoadOutcome = Decoded(pixels: seq<Pixel>) | NotFound | DecodeFailed

  /** The pixels one path contributes: its frame when it decoded, nothing otherwise. */
  function Contribution(o: LoadOutcome): seq<Pixel>
  {
    if o.Decoded? then o.pixels else []
  }

  /** The combined pixel sequence of a list of paths. */
  function Combined(paths: seq<string>, load: string -> LoadOutcome): seq<Pixel>
  {
    if paths == [] then [] else Contribution(load(paths[0])) + Combined(paths[1..], load)
  }

  /** The number of pixels the decoded frames hold together. */
  function TotalSize(paths: seq<string>, load: string -> LoadOutcome): nat
  {
    if paths == [] then 0 else |Contribution(load(paths[0]))| + TotalSize(paths[1..], load)
  }

  /** The number of paths that decode. */
  function DecodedCount(paths: seq<string>, load: string -> LoadOutcome): nat
  {
    if paths == [] then 0 else (if load(paths[0]).Decoded? then 1 else 0) + DecodedCount(paths[1..], load)
  }

  /**
   * The accumulation loop: a missing path is skipped, a path that fails to
   * decode adds nothing, every other path extends the list with its frame.
   */
  method CombineFrames(paths: seq<string>, load: string -> LoadOutcome) returns (allPixels: seq<Pixel>)
    ensures allPixels == Combined(paths, load)
  {
    allPixels := [];
    for i := 0 to |paths|
      invariant allPixels + Combined(paths[i..], load) == Combined(paths, load)
    {
      assert paths[i..][1..] == paths[i + 1..];
      var outcome := load(paths[i]);
      if outcome == NotFound {
        continue;
      }
      if outcome.Decoded? {
        allPixels := allPixels + outcome.pixels;
      }
    }
    assert paths[|paths|..] == [];
  }

  /** Splitting the argument list splits the combined sequence the same way. */
  lemma {:induction false} CombinedAppend(a: seq<string>, b: seq<string>, load: string -> LoadOutcome)
    ensures Combined(a + b, load) == Combined(a, load) + Combined(b, load)
  {
    if a == [] {
      assert a + b == b;
    } else {
      assert (a + b)[1..] == a[1..] + b;
      CombinedAppend(a[1..], b, load);
    }
  }

  /**
   * Frame k sits after everything the earlier paths contributed and before
   * everything the later ones contributed.
   */
  lemma FrameOrder(paths: seq<string>, k: nat, load: string -> LoadOutcome)
    requires k < |paths|
    ensures Combined(paths, load) ==
      Combined(paths[..k], load) + Contribution(load(paths[k])) + Combined(paths[k + 1..], load)
  {
    assert paths == paths[..k] + paths[k..];
    CombinedAppend(paths[..k], paths[k..], load);
    assert paths[k..][1..] == paths[k + 1..];
  }

  /** A path that is missing or fails to decode can be dropped without changing the result. */
  lemma SkippedPathContributesNothing(paths: seq<string>, k: nat, load: string -> LoadOutcome)
    requires k < |paths| && !load(paths[k]).Decoded?
    ensures Combined(paths[..k] + paths[k + 1..], load) == Combined(paths, load)
  {
    FrameOrder(paths, k, load);
    CombinedAppend(paths[..k], paths[k + 1..], load);
  }

  /** The combined length is the sum of the lengths of the frames that decoded. */
  lemma {:induction false} CombinedLength(paths: seq<string>, load: string -> LoadOutcome)
    ensures |Combined(paths, load)| == TotalSize(paths, load)
  {
    if paths != [] {
      CombinedLength(paths[1..], load);
    }
  }

  /** When every decoded frame has the same size, the total is that size times the number of frames. */
  lemma {:induction false} UniformFrames(paths: seq<string>, size: nat, load: string -> LoadOutcome)
    requires forall i :: 0 <= i < |paths| && load(paths[i]).Decoded? ==> |load(paths[i]).pixels| == size
    ensures |Combined(paths, load)| == size * DecodedCount(paths, load)
  {
    if paths != [] {
      var rest := paths[1..];
      assert forall i :: 0 <= i < |rest| ==> rest[i] == paths[i + 1];
      UniformFrames(rest, size, load);
      var d := DecodedCount(rest, load);
      var here := |Contribution(load(paths[0]))|;
      assert |Combined(paths, load)| == here + size * d;
      if load(paths[0]).Decoded? {
        assert here == size;
        assert DecodedCount(paths, load) == d + 1;
        MulSucc(size, d);
      } else {
        assert here == 0;
        assert DecodedCount(paths, load) == d;
      }
    }
  }

  lemma MulSucc(a: nat, b: nat)
    ensures a * (b + 1) == a * b + a
  {
  }

  /** Three 200x150 arguments of which one is missing give 2 * 30000 pixels. */
  lemma TwoOfThreeFrames(a: string, b: string, c: string, load: string -> LoadOutcome)
    requires load(a).Decoded? && load(c).Decoded? && load(b) == NotFound
    requires |load(a).pixels| == 200 * 150 && |load(c).pixels| == 200 * 150
    ensures |Combined([a, b, c], load)| == 60000
    ensures Combined([a, b, c], load) == load(a).pixels + load(c).pixels
  {
    assert [a, b, c][1..] == [b, c];
    assert [b, c][1..] == [c];
    assert [c][1..] == [];
    assert Combined([c], load) == load(c).pixels + Combined([], load);
    assert Combined([b, c], load) == [] + Combined([c], load);
    assert Combined([a, b, c], load) == load(a).pixels + Combined([b, c], load);
  }
}
