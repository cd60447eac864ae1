# SpectraSVD compression core, modelled in Dafny

SpectraSVD compresses images by truncated singular value decomposition (SVD).
For each band of an image, a compressor keeps the factors `U`, `S`, `Vh` of
the band's pixel array. For a rank `k` it returns the rank-k reconstruction
`U[:, :k] @ diag(S[:k]) @ Vh[:k, :]`. The animation renderer turns a
compressor into an MP4 video showing ranks 1 to `min(width, height)`, one
frame each, labelled `n = k`. It has two backends, imageio and cv2.

The model covers three files:
- `worker/compressor.py`;
- its file-only copy `svd-compression-worker/compressor.py`;
- `worker/animate.py`.

The modules follow that structure:

- `Linear`:
  - SVD factors (`Svd`) are a conformable triple: `U` is rows×r, `S` has r entries, `Vh` is r×cols.
  - It defines matrix products over reals and the rank-k sum `Term`.
  - It proves that every entry of the truncated product, and of the full product, is the matching partial sum.
- `Py`: Python's None, its exceptions, and a call's outcome, `Py<T> = Return(value) | Raise(error)`.
- `Images`:
  - images, bands and Python objects;
  - the file system and the web, as maps from path or URL to file content;
  - `Image.open`, `convert('L')` and `getchannel`.
- `Engine`:
  - the compressor constructors and `rank_k_approx`, which behave identically in both copies of `compressor.py`;
  - numpy's depth-wise stacking (`dstack`) under `try`;
  - `singularValues`.
- `Worker` and `Standalone`: `minLength` and the two path-based constructors of each copy.
  - The `worker` copy also accepts `https://` URLs.
  - The standalone copy accepts local files only.
- `Text`:
  - `str.split` with a one-character separator, and `''.join`;
  - the decimal text that an f-string produces.
- `Animate`:
  - the guard, the geometry, the output name, the mode and the font size;
  - the frame loop (`RenderFrames`, a `while` loop proved equal to the function `Sweep`);
  - the two creators, `Mp4CreatorImageio` and `Mp4CreatorCv2`. Each is a method proved equal to a function of its inputs.

A compressor is a closure in the source. Here it is a datatype holding what
the closure captures:
- `Sentinel` stands for `lambda _: None`;
- `SingleChannel(svd)`;
- `MultiChannel(maxRank, channels)`.

Calling a compressor is `Engine.Apply`. Its result is one of:
- `NoneValue`;
- `FalseValue`, the failure value of the multi-channel call;
- a `Plane`, which is a 2-D array;
- a `Stack`, which is a 3-D array;
- a raised `AssertionError`.

An image's bands carry the factors of their arrays. The image also carries
the factors of the array that `convert('L')` produces.

The creators return `True` or `False`, or raise. Their result is an
`Outcome`:
- `Rejected` is `False`;
- `Written(video)` is `True`;
- `Crashed(error, partial)` is a raised exception. It keeps the partial video when the writer was already open.

A frame is the record of what would be drawn:
- its rank;
- its caption `n = k`;
- its mode;
- the canvas, paste box and label anchor;
- the reconstruction that is pasted.

The model follows the code in two places where the intended design says more:
- **Frame rate.** The frame rate is meant to spread all frames over `duration` seconds. Only the cv2 backend (`maxRank / duration`) does so (`Animate.RateSpreadsOverDuration`). The imageio backend uses `maxRank // duration`, which is 0 when the image is smaller than the duration (`Animate.ImageioRateVanishes`).
- **Partial videos.** No video is meant to remain after a failure. Both backends open their writer before the frame loop and do not remove its output when an exception ends the loop. The model records the frames appended to the already-open writer (`Crashed(e, Some(video))`); whether the encoder leaves a file on disk, possibly none when rank 1 fails, is not modelled.

## Model

| member | source | states |
|---|---|---|
| Linear.MatMul | worker/compressor.py:55 | a product of an m×n and an n×c matrix is m×c |
| Linear.Truncate | worker/compressor.py:55 | `U[:, :k]`, `S[:k]`, `Vh[:k, :]` are again conformable factors of the same rows×cols shape, with exactly k factors |
| Linear.Diag | worker/compressor.py:57 | `np.diag(S)` is a square matrix with one row and one column per singular value |
| Linear.Product | worker/compressor.py:57 | `U @ diag(S) @ Vh` has the rows×cols shape of the channel the factors came from |
| Linear.ProductEntry | worker/compressor.py:57 | `U @ diag(S) @ Vh` is rows×cols, and entry (i, j) is the sum over all r factors of U[i][t]·S[t]·Vh[t][j] |
| Linear.TruncatedEntry | worker/compressor.py:55 | the truncated product is rows×cols, and entry (i, j) is the sum over the first k factors |
| Linear.TruncateAll | worker/compressor.py:55-57 | slicing the factors to all r of them gives back the same factors and so the same product |
| Engine.ReconstructionEntries | worker/compressor.py:55-57 | for 1 ≤ k ≤ r, every entry of the truncated product is the rank-k sum, and at k = r so is every entry of the full product |
| Engine.Reconstruct | worker/compressor.py:55-57 | whichever product is chosen, the result is rows×cols and entry (i, j) is the sum over t < k of U[i][t]·S[t]·Vh[t][j] |
| Engine.Apply | worker/compressor.py:46-96 | the sentinel returns None for every k; a single-channel call raises AssertionError exactly when k < 1 or k > r, with no clamping, and otherwise returns a rows×cols plane of rank-k sums; only AssertionError is ever raised; a multi-channel call returns False or a stack |
| Engine.FullRankPathAgrees | worker/compressor.py:55-57 | the `k == r` full-product path equals the truncated formula at k = r |
| Engine.FullRankIsLossless | worker/compressor.py:56-57 | with exact factors of an array, a rank-r call returns that array |
| Engine.SingleChannelImageCompressor | worker/compressor.py:30-60 | the sentinel exactly when the argument is not a mode-'L' image; AssertionError exactly when r > min(width, height); otherwise a compressor over the image's own factors with r ≤ min(width, height) |
| Engine.ReducedFactorsPassAssert | worker/compressor.py:42-44 | for a height×width array with min(height, width) factors, the construction assert always passes |
| Engine.BuildChannels | worker/compressor.py:72-77 | one channel per band in `getbands()` order, each holding that band's factors; AssertionError exactly when some band has more factors than min(width, height) |
| Engine.MultiChannelImageCompressor | worker/compressor.py:62-77 | the sentinel exactly for a non-image; otherwise it captures min(width, height) and one channel per band in band order, or raises as `BuildChannels` does |
| Engine.ApplyChannels | worker/compressor.py:87-90 | it raises AssertionError exactly when some channel rejects k; otherwise result c is channel c's rank-k reconstruction |
| Engine.DStack | worker/compressor.py:91-96 | False exactly when there is nothing to stack or the shapes differ; otherwise a rows×cols×n volume whose cell [i][j][c] is entry (i, j) of plane c |
| Engine.MultiChannelResult | worker/compressor.py:78-96 | a multi-channel call raises exactly when k > min(width, height) or some channel rejects k; it returns False exactly when it does not raise and there are no channels or their shapes disagree; otherwise plane c of the stack is channel c's rank-k sum, one plane per band |
| Engine.MultiChannelLowerBound | worker/compressor.py:86 | the multi-channel call checks only k ≤ maxRank itself: for k < 1 it raises through a channel's assert, or returns False when there are no channels |
| Engine.MultiChannelOnReducedImage | worker/compressor.py:71-96 | for an image with reduced factors, every k from 1 to min(width, height) yields a height×width stack with one plane per band |
| Engine.MismatchedBandsGiveFalse | worker/compressor.py:91-94 | bands of different shapes make the call return False, which is distinct from the sentinel's None |
| Engine.SingularValues | worker/compressor.py:99-112 | an uninitialised array for a non-image; otherwise the singular values of each band in band order, with a ValueError exactly when the bands' counts differ |
| Images.Open | worker/compressor.py:124 | a path that is not a file raises FileNotFoundError; a file is decoded, so it returns an image exactly when the file holds one |
| Images.Fetch | worker/compressor.py:122 | a URL the web does not serve raises ConnectionError; a served URL is decoded, so it returns an image exactly when the response holds one |
| Images.ConvertL | worker/compressor.py:124 | conversion gives a mode-'L' image of the same size whose only band holds the luminance factors the image carries, and leaves an 'L' image unchanged |
| Images.GetChannel | worker/compressor.py:74 | a band becomes a mode-'L' image of the same size whose only band holds that band's factors, and a one-band image is returned unchanged |
| Worker.MinLength | worker/compressor.py:12-28 | None exactly for a non-image, non-string object, or a string that is neither an https URL nor a file; min(width, height) of an image, and of the image fetched from the URL or opened from the file; when fetching or opening raises, it raises that same exception |
| Worker.GrayScaleImageCompression | worker/compressor.py:114-127 | the sentinel exactly when the path is neither an https URL nor a file; for a URL or file it raises exactly when fetching or opening raises (the same exception) or the 'L' factors outnumber min(width, height) (AssertionError); otherwise the single-channel compressor of the fetched or opened image converted to 'L' |
| Worker.RGBImageCompression | worker/compressor.py:129-142 | the sentinel exactly when the path is neither an https URL nor a file; for a URL or file it raises exactly when fetching or opening raises (the same exception) or some band has more factors than min(width, height) (AssertionError); otherwise a multi-channel compressor with one channel per band of the image in band order |
| Standalone.MinLength | svd-compression-worker/compressor.py:10-21 | None exactly for a non-image, non-string object or a string that is not an existing file; otherwise min(width, height) of the image, or the same exception that opening the file raises |
| Standalone.GrayScaleImageCompression | svd-compression-worker/compressor.py:103-113 | the sentinel exactly when the path is not a file; for a file it raises exactly when opening raises (the same exception) or the 'L' factors outnumber min(width, height) (AssertionError); otherwise the single-channel compressor of the opened image converted to 'L' |
| Standalone.RGBImageCompression | svd-compression-worker/compressor.py:115-125 | the sentinel exactly when the path is not a file; for a file it raises exactly when opening raises (the same exception) or some band has more factors than min(width, height) (AssertionError); otherwise one channel per band of the opened image, in band order |
| Standalone.CopiesDifferOnlyOnUrls | svd-compression-worker/compressor.py:15-16 | on every argument that is not an https URL, the two copies of `minLength` and of both constructors agree; on a URL that is not a local file, the standalone copy gives None and the sentinel where the other copy fetches the image; both `minLength` copies agree on every image |
| Text.Split | worker/animate.py:26 | `str.split` always gives at least one piece |
| Text.Concat | worker/animate.py:26 | a character occurs in `''.join(pieces)` exactly when it occurs in one of the pieces |
| Text.AllButLast | worker/animate.py:26 | the stem `''.join(path.split('.')[:-1])` contains no dot |
| Text.JoinSplit | worker/animate.py:26 | joining the '.'-separated pieces back with '.' gives the path again |
| Text.SplitPieces | worker/animate.py:26 | a path has one more piece than it has dots, and no piece contains a dot |
| Text.NoSeparatorAllButLast | worker/animate.py:26 | a path without a dot gives the empty stem |
| Text.AllButLastIsPrefixWithoutSeparators | worker/animate.py:26 | the stem is the text before the last dot with every other dot deleted |
| Text.NatToString | worker/animate.py:56 | the decimal text of n is non-empty, all digits, with no leading zero |
| Text.ParseNatToString | worker/animate.py:56 | reading the decimal text back gives n |
| Text.NatToStringInjective | worker/animate.py:56 | different numbers have different decimal texts |
| Animate.Guard | worker/animate.py:18-25 | it passes exactly when `compressor(1)` neither returns None nor raises, the duration is at least 5, and the path is a string; the compressor is checked first, so the sentinel never passes |
| Animate.CanvasSide | worker/animate.py:35-36 | the square canvas side is a multiple of 16, exceeds s = 9·max(w, h)//8 by at least 1 and at most 16, and is larger than both sides of the image |
| Animate.PasteBox | worker/animate.py:37-40 | the paste offset is non-negative and the w×h image lies inside the canvas; the right margin equals the left or exceeds it by one; the top margin is four fifths of the vertical padding, rounded down |
| Animate.LabelAnchor | worker/animate.py:54-55 | the label's x-coordinate is exactly half the canvas side; its y-coordinate is four fifths of the image's top offset rounded down, so at most that top edge, and strictly above it whenever that edge is below the canvas top |
| Animate.FontSize | worker/animate.py:32 | the font size is the integer part of 20·maxRank/256 |
| Animate.BackgroundMode | worker/animate.py:28 | "L" exactly for a 2-D result and "RGB" exactly for a 3-D one; any other value raises as `.ndim` does |
| Animate.VideoName | worker/animate.py:26-27 | the output name ends in "-anim", the mode and ".mp4", and has no dot before that suffix |
| Animate.VideoNameStem | worker/animate.py:26-27 | the output name is the path before its last dot with the other dots deleted, followed by "-anim", the mode and ".mp4", with an empty stem when the path has no dot |
| Animate.Prepare | worker/animate.py:18-40 | declines exactly when the guard fails; past the guard it is ready exactly when `compressor(1)` is an array, `minLength` returns a number and the image opens, and otherwise it aborts with AttributeError, `minLength`'s error, TypeError for None, or the open error, in that order; when ready, the name, mode, maxRank from `minLength`, the font size for that maxRank, and the canvas, box and anchor of the opened image are those computed above |
| Animate.FalseAtRankOneRaises | worker/animate.py:28 | a rank-1 result of False passes the guard, then raises AttributeError at `.ndim` |
| Animate.UrlPathAborts | worker/animate.py:29-34 | an https path that is not a local file never gets past opening the image |
| Animate.Label | worker/animate.py:56 | the caption is "n = " followed by the decimal text of the rank |
| Animate.LabelsDistinct | worker/animate.py:56 | different ranks get different captions |
| Animate.Render | worker/animate.py:49-60 | a frame is produced exactly when `compressor(n)` returns an array that `Image.fromarray` accepts in the plan's mode; it carries rank n, caption "n = n", the plan's mode and geometry, and `compressor(n)`'s array; an exception of `compressor(n)` passes through, None or False raises AttributeError, and an array of the wrong dimensions for the mode raises ValueError |
| Animate.Sweep | worker/animate.py:48-64 | the loop never produces more than maxRank frames, and exactly maxRank when it ends without an exception |
| Animate.SweepFrames | worker/animate.py:48-64 | frame i is the frame rendered for rank i + 1; a loop ending without an exception has exactly maxRank frames; one ending with an exception stopped at the first rank whose frame failed |
| Animate.SweepSucceeds | worker/animate.py:48-64 | the loop ends without an exception exactly when every rank from 1 to maxRank renders |
| Animate.SweepStops | worker/animate.py:48-64 | once the loop has raised, later ranks add nothing |
| Animate.SweepComplete | worker/animate.py:48 | when every rank renders, the loop ends normally with exactly maxRank frames, in rank order |
| Animate.AnimationFrames | worker/animate.py:48-60 | when every rank renders, frames carry ranks 1 to maxRank and captions "n = 1" to "n = maxRank", in strictly increasing rank order with distinct captions, frame i showing `compressor(i + 1)` |
| Animate.RenderFrames | worker/animate.py:48-64 | the `for` loop over ranks 1..maxRank, calling the compressor through the frame renderer, returns exactly the frames and the exception of the function `Sweep` |
| Animate.ImageioOutcome | worker/animate.py:13-65 | rejected exactly when the guard fails; crashed before opening the writer exactly when preparation aborts; a written video has maxRank frames on the prepared square canvas at `maxRank // duration` fps |
| Animate.Cv2Outcome | worker/animate.py:67-140 | rejected exactly when the guard fails; crashed before opening the writer exactly when preparation aborts or the rank-1 sizing frame fails; a written video has maxRank frames on the prepared square canvas at `maxRank / duration` fps |
| Animate.ImageioLoopOutcome | worker/animate.py:43-65 | once prepared, imageio writes a video exactly when every rank renders, its frames rendered in rank order; otherwise it crashes with rank m + 1's exception, the writer holding the frames of ranks 1 to m under the video's name at `maxRank // duration` fps |
| Animate.Cv2LoopOutcome | worker/animate.py:98-140 | once prepared, cv2 crashes with no video if the rank-1 sizing frame raises; otherwise it writes a video exactly when every rank renders, and a crash raises rank m + 1's exception with the writer holding the frames of ranks 1 to m under the video's name at `maxRank / duration` fps |
| Animate.Mp4CreatorImageio | worker/animate.py:13-65 | the imageio creator's outcome: rejected, crashed before or inside the loop, or written with the swept frames at `maxRank // duration` fps |
| Animate.Mp4CreatorCv2 | worker/animate.py:67-140 | the cv2 creator's outcome, including the extra rank-1 sizing frame before the loop and the rate `maxRank / duration` |
| Animate.BackendsAgree | worker/animate.py:43-116 | both backends reject the same inputs, exactly those failing the guard; whenever cv2 writes a video, imageio writes one with the same name, frame size and frames, at the integer part of cv2's rate; when imageio writes one, cv2 does too exactly when frame 1 can be drawn, which holds whenever maxRank ≥ 1 |
| Animate.FloorOfQuotient | worker/animate.py:46 | `maxRank // duration` is the floor of `maxRank / duration` |
| Animate.WrittenVideo | worker/animate.py:43-65 | a video written by imageio has exactly maxRank frames with ranks 1..maxRank and captions "n = k", under the name built from path and mode, at rate `maxRank // duration` |
| Animate.ImageioRateVanishes | worker/animate.py:46 | a video written by imageio with fewer frames than the duration in seconds has rate 0 |
| Animate.RateSpreadsOverDuration | worker/animate.py:97 | a video written by cv2 has a rate at which its frames play for exactly `duration` seconds |
| Animate.TooFewBandsForRgb | worker/animate.py:28-51 | for an image file with one or two bands, the stack is 3-D so the mode is "RGB", and `Image.fromarray` raises ValueError on rank 1: imageio crashes with an empty partial video, cv2 before its writer opens |
| Animate.AnimatingAnImageFile | worker/animate.py:13-140 | for an image file with at least three bands carrying reduced factors, the RGB compressor of that path makes both backends write exactly min(width, height) frames in mode "RGB", cv2 at min(width, height)/duration fps |

`svd-compression-worker/compressor.py` has its own copies of
`singleChannelImageCompressor` (lines 23-53), `multiChannelImageCompressor`
(lines 55-90) and `singularValues` (lines 92-101). They differ from the
`worker` copies only in annotations and docstrings, and in each file both
`singleChannelImageCompressor` and `multiChannelImageCompressor` call that
file's own `minLength`. The two `minLength` functions agree on every image argument, which is the only kind
these functions pass on. So the copies behave identically, and `Engine`
models them once, for both.

## Left out

- `np.linalg.svd` is a floating-point foreign call. Each band's factors are an input. The model assumes only their shapes (`Linear.Svd`). It does not assume or prove that singular values are sorted or non-negative.
- Arithmetic is over exact reals. Floating-point rounding is not modelled.
- The `astype(np.uint8)` cast (worker/compressor.py:58) is not modelled. For out-of-range values numpy leaves it unspecified, so results are reals.
- Engine.Apply: the proved result is the reconstruction before the `uint8` cast.
- Image decoding and colour conversion are abstracted:
  - an image carries the factors of its bands and of its 'L' conversion;
  - `Image.open`, `requests.get` and `os.path.isfile` are lookups in the model's file and web maps.
- PIL drawing, font loading (`ImageFont.truetype`), the PNG round trip, `cv2.cvtColor`, fourcc and the video encoders are abstracted. A frame is the record of what would be drawn. A video is its name, rate, frame size and frame sequence.
- Not modelled: font loading failing.
- Animate.Render: the message and the exact exception Pillow gives for an array of the wrong dimensions are abstracted to ValueError. An array of zero area is judged by its dimensions like any other.
- Animate.Render: a stack of more than three planes is accepted in mode "RGB", where Pillow reads only as many bytes as three planes hold. The picture that results is not modelled.
- imageio's treatment of a zero frame rate is not modelled. The model records the rate that is passed.
- Determinism: repeated calls with equal k cannot differ, because every compressor call is a function of its captured factors and k.
- numpy's `dstack` of None entries, or of a mix of 2-D and 3-D arrays, is not modelled. Every modelled image has 'L' channels (see the Images.GetChannel line), so every channel compressor returns a 2-D array and those inputs cannot arise. Planes of different shapes are modelled: they return False (`Engine.DStack`).
- Images.GetChannel: images in Pillow's other one-band modes ('1', 'P', 'I', 'F', 'I;16') are not modelled. Pillow's `getchannel` copies a '1' or 'P' image in its own mode, which the single-channel constructor turns into the sentinel, so `np.dstack((None,))` gives a 1×1×1 object array. It raises ValueError for 'I', 'F' and 'I;16'. The model's images are mode 'L' or have two or more 8-bit bands, whose channels are all 'L'. This also leaves out grayscale compression of such images, which converts them to 'L' before compressing.
- Engine.SingularValues: the raise on unequal counts is that of recent numpy versions; older versions built an object array instead.
- `main.py` (the Streamlit user interface) and `worker/examples.py` (demo scripts) are not part of this model.
- Not modelled: releasing the cv2 writer, or deleting a partial video after an exception. The code does neither.
