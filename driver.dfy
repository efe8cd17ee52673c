/**
 * The command-line driver: which files a run writes, for each way of invoking
 * the program. Written files are modelled as a map from path to text.
 */
module Driver {
  import opened Pixels
  import opened HexToken
  import Coe
  import Mem
  import MemPath
  import Frames

  /** The text files a run leaves behind, by path. */
  type Files = map<string, string>

  const SingleOutputPath: string := "image.coe"
  const VideoOutputPath: string := "video.coe"
  const TestImagePath: string := "test_image.png"

  /** How the program runs, chosen once from the arguments after the program name. */
  datatype Mode = Dummy | SingleImage(path: string) | MultiFrame(paths: seq<string>)

  function SelectMode(args: seq<string>): (m: Mode)
    ensures m.Dummy? <==> |args| == 0
    ensures m.SingleImage? <==> |args| == 1
    ensures m.MultiFrame? <==> |args| >= 2
    ensures m.SingleImage? ==> m.path == args[0]
    ensures m.MultiFrame? ==> m.paths == args
  {
    if |args| == 0 then Dummy
    else if |args| == 1 then SingleImage(args[0])
    else MultiFrame(args)
  }

  /** What single-image mode writes for an image: the COE file, then the MEM file beside it. */
  function SingleImageFiles(outputPath: string, pixels: seq<Pixel>): Files
  {
    var vals := QuantizeAll(pixels);
    map[outputPath := Coe.CoeText(vals)][MemPath.MemPath(outputPath) := Mem.MemText(vals)]
  }

  /** What multi-frame mode writes: one COE file of all decoded frames, and no MEM file. */
  function MultiFrameFiles(paths: seq<string>, load: string -> Frames.LoadOutcome): Files
  {
    map[VideoOutputPath := Coe.CoeText(QuantizeAll(Frames.Combined(paths, load)))]
  }

  /**
   * Single-image conversion: a missing or undecodable image writes nothing;
   * otherwise the COE file and then the MEM file at the derived path.
   */
  method GenerateCoe(imagePath: string, outputPath: string, load: string -> Frames.LoadOutcome)
    returns (files: Files)
    ensures load(imagePath).Decoded? ==> files == SingleImageFiles(outputPath, load(imagePath).pixels)
    ensures !load(imagePath).Decoded? ==> files == map[]
  {
    files := map[];
    var outcome := load(imagePath);
    if outcome == Frames.NotFound {
      return;
    }
    if outcome.DecodeFailed? {
      return;
    }
    var coe := Coe.WriteCoe(outcome.pixels);
    files := files[outputPath := coe];
    var memPath := MemPath.MemPath(outputPath);
    var mem := Mem.WriteMem(outcome.pixels);
    files := files[memPath := mem];
  }

  /** Multi-frame conversion: concatenate the frames, then write `video.coe`. */
  method GenerateVideo(paths: seq<string>, load: string -> Frames.LoadOutcome) returns (files: Files)
    ensures files == MultiFrameFiles(paths, load)
    ensures files.Keys == {VideoOutputPath}
  {
    var allPixels := Frames.CombineFrames(paths, load);
    var coe := Coe.WriteCoe(allPixels);
    files := map[VideoOutputPath := coe];
  }

  /** The generated test image: 200x150 pixels of pure red. */
  function RedImage(): (ps: seq<Pixel>)
    ensures |ps| == 30000
  {
    seq(200 * 150, _ => Pixel(255, 0, 0))
  }

  /**
   * A whole run. Without arguments the test image is saved and then converted
   * as a single image; one argument converts that image; two or more are frames.
   */
  method Run(args: seq<string>, load: string -> Frames.LoadOutcome) returns (files: Files)
    ensures |args| == 0 ==> files == SingleImageFiles(SingleOutputPath, RedImage())
    ensures |args| == 1 && load(args[0]).Decoded? ==>
              files == SingleImageFiles(SingleOutputPath, load(args[0]).pixels)
    ensures |args| == 1 && !load(args[0]).Decoded? ==> files == map[]
    ensures |args| >= 2 ==> files == MultiFrameFiles(args, load)
  {
    match SelectMode(args)
    case Dummy =>
      var red := RedImage();
      var withTestImage := (p: string) => if p == TestImagePath then Frames.Decoded(red) else load(p);
      files := GenerateCoe(TestImagePath, SingleOutputPath, withTestImage);
    case SingleImage(path) =>
      files := GenerateCoe(path, SingleOutputPath, load);
    case MultiFrame(paths) =>
      files := GenerateVideo(paths, load);
  }

  /** Converting to `image.coe` writes exactly `image.coe` and `image.mem`, with the two encodings. */
  lemma SingleImageWritesBoth(pixels: seq<Pixel>)
    ensures var files := SingleImageFiles(SingleOutputPath, pixels);
      files.Keys == {"image.coe", "image.mem"} &&
      files["image.coe"] == Coe.CoeText(QuantizeAll(pixels)) &&
      files["image.mem"] == Mem.MemText(QuantizeAll(pixels))
  {
    MemPath.ImageMemPath();
  }

  /**
   * An output path with no `.coe` in it derives the same MEM path, so the MEM
   * text overwrites the COE text and only one file is left.
   */
  lemma SingleImageOverwrite(outputPath: string, pixels: seq<Pixel>)
    requires !MemPath.ContainsCoe(outputPath)
    ensures SingleImageFiles(outputPath, pixels) == map[outputPath := Mem.MemText(QuantizeAll(pixels))]
  {
    MemPath.MemPathUnchangedIff(outputPath);
  }

  lemma RedWord(i: nat)
    requires i < 30000
    ensures QuantizeAll(RedImage())[i] == 0xF00
  {
    assert RedImage()[i] == Pixel(255, 0, 0);
    QuantizeRed();
  }

  lemma RedToken()
    ensures Token(0xF00) == "F00"
  {
  }

  /** Every line of the test image's MEM file reads `F00`. */
  lemma RedImageMem(i: nat)
    requires i < 30000
    ensures var m := Mem.MemText(QuantizeAll(RedImage()));
      |m| == 4 * 30000 && m[4 * i..4 * i + 3] == "F00" && m[4 * i + 3] == '\n'
  {
    var vals := QuantizeAll(RedImage());
    RedWord(i);
    Mem.MemLineAt(vals, i);
    RedToken();
  }

  /** Every token of the test image's COE vector reads `F00`; the last one ends the file with `;`. */
  lemma RedImageCoe(i: nat)
    requires i < 30000
    ensures var e := Coe.Entries(QuantizeAll(RedImage()), 0);
      Coe.Offset(i) + 4 <= |e| &&
      e[Coe.Offset(i)..Coe.Offset(i) + 3] == "F00" &&
      e[Coe.Offset(i) + 3] == (if i == 29999 then ';' else ',')
  {
    var vals := QuantizeAll(RedImage());
    RedWord(i);
    Coe.CoeTokenAt(vals, i);
    RedToken();
  }
}
