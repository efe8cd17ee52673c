# image_gen: a verified model of the pixel-to-memory-file transcoder

`photos/image_gen.py` turns images into memory-initialisation text for a
hardware memory block. Each RGB pixel is reduced to a 12-bit word: the top
nibble of red, then green, then blue. The words are written out in two ways:

- a COE (coefficient) file. It has a two-line header
  (`memory_initialization_radix=16;`, `memory_initialization_vector=`), then
  one three-digit upper-case hexadecimal token per word. Tokens are separated
  by commas, a newline follows every sixteenth comma, and the last token ends
  with a semicolon.
- a MEM file, with one token per line.

The program has three modes:

- With one argument it converts that image to `image.coe`. It also writes
  `image.mem`, whose name is the COE path with `.coe` replaced by `.mem`.
- With two or more arguments it concatenates the frames of every image that
  exists and decodes, in argument order, into `video.coe`.
- With no argument it converts a generated 200x150 red test image.

The model, module by module:

- `Bits` defines Python's `>>`, `<<` and `|` on non-negative integers, digit by digit.
  `Pixels` defines the quantizer in those terms. It proves that the
  shift-and-or packing is base-16 place value, so the word's three hex digits
  are the three top nibbles.
- `HexToken` renders `f"{v:03X}"` and parses it back.
- `Coe` and `Mem` hold the two writer loops as methods. Each method is proved
  equal to a specification function, `CoeText` or `MemText`. The lemmas then
  prove the layout, the counts and round trips through parsers on those
  functions.
- `MemPath` models `str.replace(".coe", ".mem")`, which replaces every
  occurrence from left to right.
- `Frames` models the frame accumulation loop. Image loading is abstracted
  as a function from path to `LoadOutcome`.
- `Driver` models the three modes. The files they write are a map from path
  to text.

With no decoded frames in multi-frame mode, `video.coe` is the header alone
(`Coe.CoeEmpty`). Two 200x150 frames give 60000 tokens whether or not a
missing path sits between them (`Frames.TwoOfThreeFrames`).

## Model

| member | source | states |
|---|---|---|
| `Bits.ShiftRight` | photos/image_gen.py:25-27 | `x >> k` is x divided by 2^k rounded down: `2^k * r <= x < 2^k * (r + 1)` |
| `Bits.ShiftLeft` | photos/image_gen.py:28 | `x << k` is x times 2^k |
| `Bits.BitOr` | photos/image_gen.py:28 | `x \| y` is at least each operand and at most their sum |
| `Bits.BitOrDisjoint` | photos/image_gen.py:28 | or-ing `a << k` with a value below 2^k is their sum |
| `Bits.BitOrShiftLeft` | photos/image_gen.py:28 | `(x << k) \| (y << k) == (x \| y) << k` |
| `Pixels.PackNibbles` | photos/image_gen.py:28 | `(r4 << 8) \| (g4 << 4) \| b4` equals `256*r4 + 16*g4 + b4` for nibbles |
| `Pixels.Quantize` | photos/image_gen.py:23-28 | the packed word is below 4096; its high, middle and low hex digits are `r >> 4`, `g >> 4`, `b >> 4` |
| `Pixels.QuantizeEqualIff` | photos/image_gen.py:25-28 | two pixels give the same word if and only if every channel has the same top nibble |
| `Pixels.QuantizeIgnoresLowNibbles` | photos/image_gen.py:25-27 | clearing the low 4 bits of every channel leaves the word unchanged |
| `Pixels.QuantizeExpand` | photos/image_gen.py:25-28 | every 12-bit word is the quantization of some pixel (its nibbles times 16) |
| `Pixels.QuantizeIdempotent` | photos/image_gen.py:25-28 | re-quantizing the representative of a quantized colour gives the same word |
| `Pixels.QuantizeLossy` | photos/image_gen.py:25-27 | two different pixels (0,0,0) and (15,15,15) share the word 0 |
| `Pixels.QuantizeRed` | photos/image_gen.py:97 | pure red (255,0,0) quantizes to 0xF00 |
| `HexToken.Token` | photos/image_gen.py:31 | a word renders as exactly three upper-case hex digits |
| `HexToken.TokenRoundTrip` | photos/image_gen.py:33 | parsing a token as base 16 gives back the word |
| `HexToken.TokenCanonical` | photos/image_gen.py:47 | an upper-case three-digit token that parses to v is the token of v |
| `HexToken.TokenInjective` | photos/image_gen.py:31 | different words give different tokens |
| `Coe.WriteCoe` | photos/image_gen.py:16-35 | the writer loop's text is `CoeText` of the quantized pixels |
| `Coe.CoeRoundTrip` | photos/image_gen.py:22-35 | reading back a COE text gives exactly the N words written, in order |
| `Coe.CoeStartsWithHeader` | photos/image_gen.py:17-18 | the file begins with the radix line and then the vector line |
| `Coe.CoeEmpty` | photos/image_gen.py:74-88 | with no pixels the file is the two header lines only |
| `Coe.CoeTokenAt` | photos/image_gen.py:30-35 | token i sits at offset 4i + i/16 and is followed by a comma, or by the semicolon if last; a newline follows the comma exactly when (i+1) % 16 == 0; the semicolon is the final character |
| `Coe.CoeEndsWithSemicolon` | photos/image_gen.py:30-31 | with at least one word the file ends with `;` |
| `Coe.CoeVectorCounts` | photos/image_gen.py:30-35 | the vector of N >= 1 tokens has N-1 commas, one semicolon and (N-1)/16 newlines |
| `Coe.EntriesRoundTrip` | photos/image_gen.py:30-35 | the vector from token i on parses to the words from i on |
| `Mem.WriteMem` | photos/image_gen.py:40-47 | the writer loop's text is `MemText` of the quantized pixels |
| `Mem.MemLineAt` | photos/image_gen.py:41-47 | the text has 4N characters; line i is token i followed by a newline |
| `Mem.MemLineCount` | photos/image_gen.py:47 | the file has exactly N newlines, one per pixel |
| `Mem.MemMatchesCoe` | photos/image_gen.py:22-47 | line i of the MEM file is the same token as token i of the COE vector |
| `Mem.MemRoundTrip` | photos/image_gen.py:41-47 | reading back a MEM text gives exactly the words written, in order |
| `MemPath.MemPath` | photos/image_gen.py:39 | replacing `.coe` by `.mem` keeps the length of the path |
| `MemPath.MemPathUnchangedIff` | photos/image_gen.py:39 | the path is left as it is if and only if it has no `.coe` |
| `MemPath.MemPathHasNoCoe` | photos/image_gen.py:39 | every `.coe` is replaced: the result never contains `.coe` |
| `MemPath.MemPathOfCoeName` | photos/image_gen.py:39 | `stem + ".coe"` with no other `.coe` becomes `stem + ".mem"` |
| `MemPath.ImageMemPath` | photos/image_gen.py:92 | `image.coe` becomes `image.mem` |
| `Frames.CombineFrames` | photos/image_gen.py:58-70 | the accumulation loop yields `Combined`: the decoded frames in argument order |
| `Frames.CombinedAppend` | photos/image_gen.py:59-68 | the result for `a + b` is the result for `a` followed by the result for `b` |
| `Frames.FrameOrder` | photos/image_gen.py:59-68 | frame k follows all earlier paths' pixels and precedes all later ones |
| `Frames.SkippedPathContributesNothing` | photos/image_gen.py:60-70 | dropping a missing or undecodable path leaves the result unchanged |
| `Frames.CombinedLength` | photos/image_gen.py:68 | the length is the sum of the lengths of the decoded frames |
| `Frames.UniformFrames` | photos/image_gen.py:64-68 | with equal-size frames the length is size times the number of decoded frames |
| `Frames.TwoOfThreeFrames` | photos/image_gen.py:59-68 | two 200x150 frames and one missing path give the two frames' 60000 pixels, in order |
| `Driver.SelectMode` | photos/image_gen.py:54-93 | no argument, one argument and two or more select the dummy, single-image and multi-frame modes |
| `Driver.GenerateCoe` | photos/image_gen.py:5-51 | a missing or undecodable image writes nothing; otherwise the COE and MEM texts at the output and derived paths |
| `Driver.GenerateVideo` | photos/image_gen.py:56-89 | multi-frame mode writes only `video.coe`, the COE text of the combined frames |
| `Driver.Run` | photos/image_gen.py:53-99 | the files of a run, for each number of arguments |
| `Driver.RedImage` | photos/image_gen.py:97 | the test image has 200 * 150 pixels |
| `Driver.SingleImageWritesBoth` | photos/image_gen.py:36-40 | converting to `image.coe` writes exactly `image.coe` and `image.mem` with the two encodings |
| `Driver.SingleImageOverwrite` | photos/image_gen.py:39-40 | an output path without `.coe` gets the MEM text written over the COE text |
| `Driver.RedImageMem` | photos/image_gen.py:40-47 | the test image's MEM file is 30000 lines of `F00` |
| `Driver.RedImageCoe` | photos/image_gen.py:22-35 | the test image's COE vector is 30000 `F00` tokens with commas and a final semicolon |

## Left out

- PIL (`Image.open`, `resize((200, 150))`, `convert("RGB")`, `getdata`, `Image.new`, `save`) is a foreign library with floating-point resampling. A load is modelled as a function from path to `LoadOutcome`: the row-major pixels, or `NotFound`, or `DecodeFailed`. Frame sizes are therefore not enforced; lemmas that need 200x150 take it as a hypothesis.
- `os.path.exists` and file opening, writing and closing are I/O. A missing file is the `NotFound` outcome, and written files are a map from path to text. Write failures are not modelled.
- Dummy mode saves the red test image as `test_image.png` and loads it again. The model assumes this round trip through the PNG file gives back the same pixels, and the PNG file itself is not among the text files.
- Console messages, and the text of caught exceptions, are left out. Only their effect is modelled: the skipped frame, or no output files.
- Python's exceptions inside `getdata` after the output file was opened are not modelled; loading is all-or-nothing.
- File texts are the strings passed to `write`. Text-mode files translate each `\n` to the platform's line separator on the way to disk (CRLF on Windows, where a MEM file of N lines has 5N bytes); that translation is not modelled.
