# embedly, modelled in Dafny

embedly shows images as a UMAP scatter plot. Each point is a row of a CSV
table. Hovering over a point opens a tooltip with the point's thumbnail and
some of its columns. This project models the decisions the repository makes
along the way and proves what they guarantee:

- `create_thumbnail` (embedly/utils.py and its older copy in utils.py):
  how the decoded array is re-arranged, which channel is kept, and what size
  the thumbnail gets (module `Thumbnail`). Only array shapes are modelled, not
  pixel values. `ThumbnailWriter` models the output directory as a map from
  output path to written shape.
- `encode_image_to_base64` (embedly/utils.py): the `data:image/jpeg;base64,`
  URI (module `DataUri`). Its Base64 step follows section 4 of RFC 4648 and
  is proved to round-trip against a strict decoder (module `Base64`).
- `quick_dir` and `list_files` (embedly/utils.py): path normalisation, the
  created directory, and the removal of `.DS_Store` (module `Paths`).
- `display_hover` in embedly/visualizer.py: hidden or shown, bounding box,
  direction, the row read by position, and the order of the tooltip's
  children. The module `Visualizer` also covers the marker colours and the
  scatter coordinates taken from the same table.
- the older `display_hover` in utils.py, with its fixed name, pixel-size,
  url and cluster columns (module `LegacyVisualizer`).
- `f"{n}px"` needs the decimal text of an integer, and module `Text` proves
  that text round-trips.

A loaded CSV is a `Table`: a set of column names plus rows by position, and
each row maps every column to the text `str()` gives for its cell. Exceptions
are `Err` values of a `Result`. Outside effects are inputs instead: the
decoded image shape (`None` for a failed decode), the directory listing, the
JPEG bytes, and the hover data.

Where the code and its comment disagree, the model follows the code. In
`create_thumbnail`, the comment at embedly/utils.py:68 (and utils.py:37)
says a small first axis means channel-first. The code does the reverse: a
first axis below 4 keeps the array as it is, and every other array is
transposed with axes (1, 2, 0). `Thumbnail.Plan` follows the code.
`Thumbnail.PlanIntended` follows the comment. The section "Findings" below
sets them side by side.

## Model

| member | source | states |
|---|---|---|
| Thumbnail.Arrange | embedly/utils.py:69-72 | the re-arrangement only permutes the three axis lengths (same multiset) |
| Thumbnail.ChannelIndex | embedly/utils.py:78 | the index k names a channel of an axis of length c exactly when -c <= k < c, and that channel is (k + c) mod c, so negative indices count from the back |
| Thumbnail.FitsIsUnchanged | embedly/utils.py:81 | an image whose sides are both at most max_size is not resized (no upscaling) |
| Thumbnail.TallerFixesHeight | embedly/utils.py:81-84 | when h > w and a side exceeds max_size: new_h == max_size, new_w == floor(w*max_size/h) <= max_size, and 0 <= max_size*w - new_w*h < h |
| Thumbnail.WiderFixesWidth | embedly/utils.py:85-87 | when w >= h (ties included) and a side exceeds max_size: new_w == max_size, new_h == floor(h*max_size/w) <= max_size, 0 <= max_size*h - new_h*w < w, and a square gives max_size on both sides |
| Thumbnail.ResizeTarget | embedly/utils.py:80-88 | the target fits the max_size box, is no larger than the source on either side, and equals the source size exactly when the source fits; the older copy at utils.py:49-57 has the same rule |
| Thumbnail.Scaled | embedly/utils.py:84-87 | the shorter side `int(w * (max_size / h))`, taken as an exact floor, is at most max_size and at most the shorter side it scales |
| Thumbnail.ResizeBounds | embedly/utils.py:81-87 | a resized target has its longer side equal to max_size |
| Thumbnail.ResizeIdempotent | embedly/utils.py:80-88 | resizing the target again with the same max_size changes nothing |
| Thumbnail.Plan | embedly/utils.py:57-95 | a failed decode raises FileNotFoundError; every thumbnail written has 3 channels, fits the max_size box and is no larger than the arranged source |
| Thumbnail.PlanIntended | embedly/utils.py:64-72 | the pipeline with the comment's arrangement keeps the same guarantees: FileNotFoundError for a failed decode, and every thumbnail has 3 channels, fits the box and is no larger than the arranged source |
| Thumbnail.NotFoundIsReported | embedly/utils.py:58-61 | a failed decode raises FileNotFoundError, whatever the size and channel arguments; the same holds for the older copy at utils.py:27-30 |
| Thumbnail.PlanLayout | embedly/utils.py:64-75 | a 2-D (a,b) gives an (a,b,3) array sized from a,b; a 3-D (a,b,c) with a < 4 is kept, sized from a,b and needs c in {3,4}; any other 3-D array becomes (b,c,a), sized from b,c, and needs a == 4; the older copy at utils.py:33-44 has the same rule |
| Thumbnail.ChannelPickKeepsSize | embedly/utils.py:75-79 | picking a channel in [-3, 3) gives the same thumbnail shape as picking none, since h and w are read before the pick; any other index raises; an earlier error is unchanged |
| Thumbnail.AsWrittenRejectsChannelLast | embedly/utils.py:68-72 | as written, a channel-last (h,w,c) image with h > 4 and c in {3,4} is transposed and the colour conversion rejects it, reporting h channels |
| Thumbnail.AsWrittenRejectsChannelFirst | embedly/utils.py:68-70 | as written, a channel-first (3,h,w) array is not transposed, and the conversion reports w channels unless w is 3 or 4 |
| Thumbnail.AsWrittenRejectsRgbPhoto | embedly/utils.py:68-72 | as written, a 100x100 RGB image (shape (100,100,3)) fails with 100 channels |
| Thumbnail.IntendedArrange | embedly/utils.py:68 | the arrangement the comment describes only permutes the axis lengths |
| Thumbnail.IntendedArrangePutsChannelsLast | embedly/utils.py:68 | the arrangement the comment describes maps both (h,w,c) and (c,h,w) to (h,w,c) when c < 4 <= h |
| Thumbnail.IntendedAcceptsBothLayouts | embedly/utils.py:68-75 | with that arrangement, both a channel-last colour image and a 3-channel channel-first array give an RGB thumbnail sized from their height and width |
| Thumbnail.ThumbnailWriter.CreateThumbnail | embedly/utils.py:49-95 | returns the planned shape or the raised error; on success the output path now holds that shape and nothing else changes; on error nothing is written |
| Base64.ValueOf | embedly/utils.py:116 | every character of the Base64 alphabet decodes to the value that encodes to it |
| Base64.ValueOfCharOf | embedly/utils.py:116 | decoding an encoded 6-bit value gives it back |
| Base64.Group | embedly/utils.py:116 | three bytes make one 24-bit group |
| Base64.Sextets | embedly/utils.py:116 | a group is written as exactly k characters |
| Base64.Encode | embedly/utils.py:116 | the Base64 text uses only the 64 alphabet characters and the = pad, and non-empty input gives at least one 4-character quantum |
| Base64.EncodedLength | embedly/utils.py:116 | the encoded text has 4*ceil(n/3) characters for n bytes, padding included |
| Base64.DecodeEncode | embedly/utils.py:116 | decoding the Base64 text of any bytes gives those bytes back |
| Base64.EncodeDecode | embedly/utils.py:116 | every text the strict decoder accepts is exactly the encoding of what it decodes to, so the encoding is a bijection onto the accepted texts |
| DataUri.EncodeImageToBase64 | embedly/utils.py:107-116 | a missing file raises FileNotFoundError; an image whose mode Pillow's JPEG writer cannot save raises OSError; any other image gives text that starts with data:image/jpeg;base64, and parses back to its JPEG bytes |
| DataUri.ParseIsInverse | embedly/utils.py:116 | every URI the parser accepts is the encoder's output for the bytes it parses to, for an image in any writable mode |
| Paths.QuickDirPath | embedly/utils.py:39-47 | an empty path raises IndexError; otherwise the result is path+f+"/" when path ends in "/" and path+"/"+f+"/" otherwise, always ends in "/" and starts with path |
| Paths.QuickDirNests | embedly/utils.py:40-47 | calling quick_dir on a quick_dir result appends the folder directly, with no doubled separator |
| Paths.FileSystem.QuickDir | embedly/utils.py:32-47 | returns the quick_dir path and makes the folder exist, leaving every other path as it was; an empty path raises and creates nothing |
| Paths.RemoveFirstAt | embedly/utils.py:27-28 | removing a name whose first occurrence is at index k gives the entries before k and after k, in order; a name that is absent leaves the listing unchanged |
| Paths.RemoveFirst | embedly/utils.py:27-28 | the length drops by exactly one iff the name was present, and the remaining entries are the old ones less one copy of the name |
| Paths.RemoveFirstOfDistinct | embedly/utils.py:26-28 | in a listing that names each entry once, no .DS_Store is left |
| Paths.ListFiles | embedly/utils.py:20-29 | returns the listing with its first .DS_Store removed; one entry shorter when it was present, unchanged when it was not |
| Text.NatString | embedly/visualizer.py:120 | the decimal text of a natural number is non-empty digits with no leading zero, one digit exactly below 10 |
| Text.NatStringValue | embedly/visualizer.py:120 | the digits of n have the value n |
| Text.IntStringRoundTrip | embedly/visualizer.py:120 | parsing the printed integer gives the integer back |
| Text.ParseIntCanonical | embedly/visualizer.py:120 | every canonical integer text is what the parsed number prints as |
| Text.PixelLength | embedly/visualizer.py:120 | f"{n}px" ends in "px" and what precedes it parses back to n |
| Visualizer.Column | embedly/visualizer.py:38 | a column has one cell per row, the i-th from the i-th row |
| Visualizer.Scatter | embedly/visualizer.py:45-48 | the scatter's x and y are the two embedding columns in row order; a missing column raises KeyError, the first one checked first |
| Visualizer.MarkerColours | embedly/visualizer.py:36-40 | the colours are None iff cluster_col is None; otherwise they are that column in row order, or KeyError for a missing column |
| Visualizer.ColoursAlignWithPoints | embedly/visualizer.py:36-50 | marker i's colour and coordinates come from the same row |
| Visualizer.CollectDisplayData | embedly/visualizer.py:113-115 | the loop succeeds iff the row has every display column, and then holds each column's value in order; otherwise it raises for the first missing column |
| Visualizer.DisplayHover | embedly/visualizer.py:97-125 | no hover data gives Hidden; otherwise points[0] is used, with positional row pointNumber; shown with that point's bbox, direction Bottom iff y > 1.5, children of length 1+len(display_columns): first the image (src from url_col, width_px px, height_px px), then "col: value" lines in display_columns order; errors in the source's order: IndexError for no points, then for an out-of-range row, then KeyError for url_col, then KeyError for the first missing display column |
| Visualizer.DirectionAtThreshold | embedly/visualizer.py:107-108 | a point exactly at y == 1.5 opens the tooltip at the top |
| LegacyVisualizer.DisplayHover | utils.py:151-178 | no hover data gives Hidden; otherwise shown exactly when the label is a row and all five columns exist, with the first point's bbox, direction Bottom iff y > 1.5, and exactly three children: the image with width from y_px and height from x_px, P(name), and P("Cluster: " + cluster); the x_px column is checked first, then the row label, and any later failure is a missing column |

## Left out

- Pixel values: what `cv2.resize` (INTER_AREA), the colour conversions and `convertScaleAbs` do to pixels, and the contrast gain, which changes no shape. Only shapes are modelled.
- Decoding and encoding: what `cv2.imread` decodes, `PIL.Image.open`, and JPEG encoding. Their results are inputs: the decoded shape or `None`, and for the encoder the image's mode and JPEG bytes, or a missing file.
- DataUri.EncodeImageToBase64: the `UnidentifiedImageError` that `Image.open` raises for a file that exists but is not an image is not modelled.
- Thumbnail.ConvertBgrToRgb: checks channel counts only, not OpenCV's element-depth rules.
- Thumbnail.ConvertBgrToRgb: takes the last axis as the channel count at any length. OpenCV does so only up to 512 channels and reads a longer last axis as a single-channel 3-D array, which it rejects as well. So the conversion raises in both cases, but for a last axis over 512 the count in `UnsupportedChannels` is the model's label, not OpenCV's message.
- Thumbnail.ResizeTarget: OpenCV's error for a zero-sized target is not modelled.
- Thumbnail.ResizeTarget: uses exact integer floor in place of `int(w * (max_size / h))`. Floats can come out one lower, e.g. 255 for a 392x392 image with max_size 256.
- Thumbnail.ResizeTarget: takes max_size as a natural number, so a negative max_size is not modelled.
- Thumbnail.ThumbnailWriter.CreateThumbnail: a failing `cv2.imwrite` is not modelled, and a write always succeeds.
- Paths.FileSystem.QuickDir: adds only the folder itself to the set of existing paths. The missing parents that `os.makedirs` also creates are not modelled.
- Paths.ListFiles: takes the directory listing as its input, so a missing directory (an error from `os.listdir`) is not modelled.
- The root utils.py `encode_image_to_base64` is not modelled. It uses `os` without importing it, so it always fails with a NameError, and it would return Base64 with no URI prefix. The embedly copy is modelled.
- Visualizer.DisplayHover: cell values are the text Python prints for them. Numeric formatting of pandas values, such as NaN and floats, is not modelled, and `y` is a real number, so NaN is not modelled.
- Visualizer.Table: column names form a set, so a CSV with duplicate column names is not modelled.
- LegacyVisualizer.DisplayHover: rows are labelled 0, 1, ... in order, so the label lookup `data_df[col][n]` reads row n. Other index labels are not modelled.
- The legacy scatter's marker colours (utils.py:105) are always the cluster column. This is `Visualizer.MarkerColours` with a cluster column given.
- `display_fraction` sampling is random and happens before this point. The table given to `Visualizer` is the one after sampling.
- Loading the CSV, the Dash and Plotly figure and layout, `app.run_server`, `webbrowser.open`, and the command-line blocks are UI, server and I/O plumbing.
- embedly/embeddings.py, data/download_mnist.py and vizumap.py are wrappers around library calls and command-line glue. They are not part of this model.

## Findings

| source | as written | input that shows it | evidently intended | confidence | as-written member | corrected member |
|---|---|---|---|---|---|---|
| embedly/utils.py:68-72 (same in utils.py:37-41) | a first axis below 4 keeps the array, and any other array is transposed with axes (1, 2, 0) before the BGR-to-RGB conversion | a colour image decoded as shape (100, 100, 3) becomes (100, 3, 100), and the conversion gets 100 channels and raises | as the comment says: a small first axis is a channel count, so that channel-first array is transposed to pixel-last, and a channel-last image is kept | not executed | Thumbnail.AsWrittenRejectsRgbPhoto | Thumbnail.IntendedAcceptsBothLayouts |
