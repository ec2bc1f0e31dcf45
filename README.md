# OpenSlide MEX entry points: a verified model

This project models two MEX entry points that let MATLAB read whole-slide
images through the OpenSlide library: `openslide_read_regions` and
`openslide_check_levels`.

- **`openslide_read_regions(File, level, x, y, h, w)`** (modules `ReadRegions`
  and `Planar`).
  - It validates its six arguments in a fixed order.
  - It opens the slide and reads the level count.
  - Then it serves the requests in order. Each request reads a `w*h` buffer
    of 32-bit ARGB words from the library. `ARGBtoRGB` converts that buffer,
    which is row-major, into a uint8 `h x w x 3` array. The array holds
    three column-major planes: red, then green, then blue.
  - Cell `i` of a cell array receives the image of request `i`. The cell
    array has the shape of the level vector.
  - The first request whose level is not below the level count aborts the
    whole call.
- **`openslide_check_levels(File)`** (module `CheckLevels`).
  - It checks its arguments and opens the slide.
  - Its level loop fills two double matrices. `Dims` is `levels x 2`, with
    the height of each level in column 1 and the width in column 2.
    `Factors` is `levels x 1` and holds the downsample factors.

Supporting modules:

- `Layout` holds the index arithmetic of the two layouts. Row-major is how
  the library delivers pixels; column-major is how MATLAB stores arrays. It
  also proves that the column-major map is a bijection.
- `Mex` holds the host's argument arrays.
- `OpenSlide` is the library, seen only through its answers. A slide is a
  value whose fields are the answers to each query. A `Library` value maps a
  path to `can_open` and to the slide that `open` returns. These values are
  parameters of the entry points. Every entry point also returns a ghost
  `trace` of the library calls it made. The trace is how the model states
  that argument errors happen before any library call.
- `Results` holds `Option` and `Result`. A host error raised with
  `mexErrMsgTxt` is an `Err` value. `Message` gives its text.

`ARGBtoRGB` (`Planar.ArgbToRgb`) is proved against the function
`PlanarRgb`. Its inner loop over one row is the method `ConvertRow`, and
the three stores of one pixel are the method `ConvertPixel`.
`PlanarRgb` builds each plane column by column. Lemmas prove the following
about it:

- byte `k*w*h + j*h + i` is channel `k` of input word `i*w + j`
  (`PlanarRgbAt`);
- alpha never reaches the output (`PlanarRgbIgnoresAlpha`);
- the stores of two different pixels never overlap (`StorePixel`, from
  `Layout.ColMajorOthers`), and every plane byte is the offset of some pixel
  (`PlaneFromPixels`, from `Layout.ColMajorEntry`); `Layout.ColMajorBijective`
  states both facts about the layout as a bijection.

The library calls are abstractions, so floating-point request values become
naturals. Downsample factors are an opaque type `D`.

The model keeps three behaviours of the code that a reader might not
expect:

- The code never checks the library's error state after
  `openslide_read_region`.
- The level check runs after the slide is opened, and after the reads of
  the requests before the failing one. It does not run before any library
  call.
- Neither entry point calls `openslide_close`.

Some error texts do not match what the code checks, and `Message` keeps them
as written:

- `openslide_read_regions` requires six inputs but says "requires one input
  argument".
- `openslide_check_levels` allows five outputs but says "produces two
  outputs".
- Each of the checks on inputs 3 to 6 tests the length of the level vector
  instead of its own input's length. This does not change which calls are
  accepted, as `CheckArguments` proves against `Accepted`. An empty or
  non-vector input 3 to 6 is then reported as a length mismatch.

## Model

| member | source | states |
|---|---|---|
| Layout.ColMajor | OpenSlide/openslide_read_regions.C:65-67 | the offset `j*h + i` of row i, column j lies inside the `w*h` plane |
| Layout.RowMajor | OpenSlide/openslide_read_regions.C:63-68 | the input word `i*w + j` that `input++` reaches at row i, column j lies inside the `w*h` buffer |
| Layout.ColMajorInjective | OpenSlide/openslide_read_regions.C:63-67 | two grid entries with the same column-major offset are the same entry |
| Layout.ColMajorOthers | OpenSlide/openslide_read_regions.C:63-67 | a store to entry (i, j) hits no other entry's offset |
| Layout.ColMajorEntry | OpenSlide/openslide_read_regions.C:63-67 | every offset below `w*h` is the offset of some grid entry |
| Layout.ColMajorBijective | OpenSlide/openslide_read_regions.C:57-70 | `(i, j) -> j*h + i` is a bijection from `[0,h) x [0,w)` onto `[0, w*h)` |
| Layout.MatrixExtensional | OpenSlide/openslide_check_levels.C:68-88 | two valid host matrices of one shape that agree at every (i, j) hold the same data |
| Planar.Red | OpenSlide/openslide_read_regions.C:65 | the red byte is the word's value divided by 2^16, modulo 2^8 |
| Planar.Green | OpenSlide/openslide_read_regions.C:66 | the green byte is the word's value divided by 2^8, modulo 2^8 |
| Planar.Blue | OpenSlide/openslide_read_regions.C:67 | the blue byte is the word's value modulo 2^8 |
| Planar.Alpha | OpenSlide/openslide_read_regions.C:65-67 | the alpha byte is the word's value divided by 2^24, the byte none of the three stores reads |
| Planar.UnpackPack | OpenSlide/openslide_read_regions.C:65-67 | the masks and shifts extract red bits 16-23, green bits 8-15, blue bits 0-7, and alpha bits 24-31 of a packed word |
| Planar.PackUnpack | OpenSlide/openslide_read_regions.C:65-67 | the four extracted bytes determine the word |
| Planar.ChannelIgnoresAlpha | OpenSlide/openslide_read_regions.C:65-67 | words with equal low 24 bits have equal red, green and blue bytes |
| Planar.Columns | OpenSlide/openslide_read_regions.C:63-67 | the first k columns of a plane occupy `k*h` bytes |
| Planar.ColumnsAt | OpenSlide/openslide_read_regions.C:63-67 | within the first k columns, byte `j*h + i` is channel c of word `i*w + j` |
| Planar.PlanarRgb | OpenSlide/openslide_read_regions.C:58-60 | the output is three planes of `w*h` bytes, `3*w*h` bytes in all |
| Planar.PlanarRgbAt | OpenSlide/openslide_read_regions.C:57-68 | bytes `j*h+i`, `w*h + j*h+i` and `2*w*h + j*h+i` hold the red, green and blue byte of word `i*w+j` |
| Planar.PlanarRgbOfPacked | OpenSlide/openslide_read_regions.C:65-67 | a pixel packed from (a, r, g, b) yields r, g and b in the three planes, whatever a is |
| Planar.PlanarRgbIgnoresAlpha | OpenSlide/openslide_read_regions.C:65-67 | inputs that differ only in their alpha bytes give the same output |
| Planar.ColumnsAgree | OpenSlide/openslide_read_regions.C:65-67 | inputs that agree in channel c give the same columns of plane c |
| Planar.StorePixel | OpenSlide/openslide_read_regions.C:65-67 | the three stores of one pixel put its bytes in place and leave every other pixel's bytes and the bytes past `3*w*h` as they were |
| Planar.StoreNext | OpenSlide/openslide_read_regions.C:64-69 | one inner-loop step extends the stored pixels, in row-major order, by pixel (i, j) |
| Planar.StoreKeepsOtherRows | OpenSlide/openslide_read_regions.C:65-67 | the three stores of a pixel in row i leave the plane bytes of every pixel outside row i as they were |
| Planar.RowStep | OpenSlide/openslide_read_regions.C:64-69 | one inner-loop step stores pixel (i, j) after the pixels before it and keeps the other rows and the bytes past `3*w*h` |
| Planar.ConvertPixel | OpenSlide/openslide_read_regions.C:65-67 | the new output is the old one with the red, green and blue bytes of the input word at offset o of the three planes, and nothing else changed |
| Planar.PlaneFromPixels | OpenSlide/openslide_read_regions.C:63-70 | a plane-sized buffer with channel c of every pixel at its column-major offset equals plane c |
| Planar.PlanarRgbFromPixels | OpenSlide/openslide_read_regions.C:63-70 | a buffer in which every pixel is stored begins with the full planar output |
| Planar.ConvertRow | OpenSlide/openslide_read_regions.C:64-69 | the inner loop stores every pixel of row i after the rows above it, advances the input by w, and leaves the plane bytes of every other row and the bytes past `3*w*h` as they were |
| Planar.ArgbToRgb | OpenSlide/openslide_read_regions.C:48-71 | the first `3*w*h` output bytes become `PlanarRgb` of the first `w*h` input words; no other output byte changes |
| OpenSlide.Region | OpenSlide/openslide_read_regions.C:175-190 | the library fills a buffer of exactly `w*h` words for a request |
| ReadRegions.IsVector | OpenSlide/openslide_read_regions.C:29-46 | a row or column shape gives its number of entries, `m*n`; any other shape gives 0 |
| ReadRegions.Message | OpenSlide/openslide_read_regions.C:90-171 | the errors about the call (input count, output count, opening) start with the script name `'openslide_read_regions.m' `; a bad input k of 2 to 6 reads "Input k must be a vector of doubles." with k as one digit |
| ReadRegions.VectorLength | OpenSlide/openslide_read_regions.C:97-138 | a double input of positive vector length holds exactly that many values |
| ReadRegions.CheckArguments | OpenSlide/openslide_read_regions.C:89-148 | it accepts exactly the `Accepted` calls; a wrong input count, too many outputs and a non-character file are reported in that order, and a rejected call past those checks is a bad vector or a length mismatch; input k is reported as not a double vector only when every earlier input passed its check in full and input k is not double or the level vector is empty; a length mismatch only when all five are double arrays, the level vector is non-empty, and some input's vector length differs from the level vector's; an accepted batch has request i made of the i-th entries of the five vectors and a cell shape equal to the level vector's extents |
| ReadRegions.MakeBatch | OpenSlide/openslide_read_regions.C:133-148 | for arguments that passed every check, request i is made of the i-th entries of the five vectors, each vector holds one entry per request, and the cell shape is the level vector's `m x n` |
| ReadRegions.FirstBadLevel | OpenSlide/openslide_read_regions.C:167-171 | every request before k has a level below the level count, and at k, if any, the level is not below it |
| ReadRegions.ReadCalls | OpenSlide/openslide_read_regions.C:190 | a run of requests makes one region read per request |
| ReadRegions.ReadCallsAt | OpenSlide/openslide_read_regions.C:190 | read i passes request i's x, y, level, w and h, in that order |
| ReadRegions.ReadCallsSnoc | OpenSlide/openslide_read_regions.C:167-190 | serving one more request appends exactly its read to the reads so far |
| ReadRegions.RegionImage | OpenSlide/openslide_read_regions.C:178-193 | a request's image has dimensions `[h, w, 3]` and `3*w*h` bytes |
| ReadRegions.RegionImageAt | OpenSlide/openslide_read_regions.C:178-193 | image subscript (i+1, j+1, c+1) is channel c of the region's pixel at row i, column j |
| ReadRegions.ReadRegionImage | OpenSlide/openslide_read_regions.C:175-196 | allocating, reading and converting one request yields its `RegionImage` |
| ReadRegions.ServeRequests | OpenSlide/openslide_read_regions.C:164-203 | requests are read in order up to the first bad level, which aborts with "Level index exceeded" before its own read; otherwise cell i is the image of request i |
| ReadRegions.MexFunction | OpenSlide/openslide_read_regions.C:89-208 | argument errors make no library call; open failures stop after `can_open` or after `open` and `get_error`; otherwise the level count is read and `ServeRequests` decides the result, a valid cell matrix of the level vector's shape |
| CheckLevels.Message | OpenSlide/openslide_check_levels.C:38-103 | every error other than the bad input starts with the script name `'openslide_check_levels.m' ` |
| CheckLevels.MessagesDistinct | OpenSlide/openslide_check_levels.C:38-103 | two different errors never share a text |
| CheckLevels.TabulatesUnique | OpenSlide/openslide_check_levels.C:68-88 | at most one pair of Dims and Factors matrices tabulates a slide |
| CheckLevels.LevelCalls | OpenSlide/openslide_check_levels.C:76-80 | the loop makes two library calls per level |
| CheckLevels.LevelCallsAt | OpenSlide/openslide_check_levels.C:76-80 | calls 2i and 2i+1 are the dimension query and the downsample query of level i |
| CheckLevels.StoreLevel | OpenSlide/openslide_check_levels.C:79-86 | one loop step stores level i's factor at `ds`, its height at `dims` and its width at `dims + levels`, keeping the earlier levels |
| CheckLevels.StoredLevelsTabulate | OpenSlide/openslide_check_levels.C:68-88 | buffers with every level stored, read as `levels x 2` and `levels x 1` matrices, have height in column 1, width in column 2 and the factor in row i |
| CheckLevels.ReadLevels | OpenSlide/openslide_check_levels.C:64-88 | after the loop, offset i holds level i's height, offset `levels + i` its width and factor slot i its downsample; each level is queried once, in order |
| CheckLevels.MexFunction | OpenSlide/openslide_check_levels.C:37-103 | a wrong input count, too many outputs or a non-character input errors before any library call; open failures error after `can_open` or after `open` and `get_error`, with no level read; otherwise the result tabulates the slide, followed by the three property reads |

## Left out

- Memory allocation: `malloc`, `mxCreateNumericArray`, `mxCreateDoubleMatrix` and `mxCreateCellArray` never fail in the model. The "Could not allocate" branch (OpenSlide/openslide_read_regions.C:185-186) is therefore not modelled. This includes `malloc(0)` returning NULL for an empty request.
- Floating point: request values are naturals. The casts of `w[i]` and `h[i]` to `size_t`, negative or fractional values, and the double comparison `level[i] >= levels` are not modelled. Dims entries are integers, not doubles rounded from `int64_t`.
- Fixed-width wrap-around: `w*h` in `size_t`, the `int32_t` level count and the `int` loop counter are unbounded in the model.
- OpenSlide itself: decoding, `openslide_read_region`'s own error state (which the code never checks), and `-1` from `openslide_get_layer_count` are not modelled. The level count is a natural, which the code relies on once `get_error` has reported no error.
- Alpha premultiplication: the code does not undo it, and neither does the model.
- Property strings: the three `openslide_get_property_value` results and the `Objective`, `MppX` and `MppY` outputs are not modelled. Only the three calls appear in the trace.
- MEX marshaling: `mxArrayToString` is the `text` of a character row, and `mxGetPr` is `values`. Arrays with more than two dimensions are not modelled. Output cells hold a dimension vector and bytes, not `mxArray` objects.
- Slide lifetime: neither entry point closes the slide, and the model has no handles.
- OpenSlide/openslide_can_open.C is not part of this model. It only passes its argument to `openslide_can_open`.
