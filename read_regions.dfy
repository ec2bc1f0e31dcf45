/**
 * The entry point openslide_read_regions(File, level, x, y, h, w): argument
 * validation, the opening of the slide, and the loop that reads, converts
 * and stores one region per request into a cell array.
 */
module ReadRegions {
  import opened Results
  import opened Layout
  import opened Mex
  import opened OpenSlide
  import opened Planar

  /**
   * IsVector: the number of entries of an argument whose shape is a row or
   * a column, and 0 for any other shape.
   */
  function IsVector(p: MxArray): (len: nat)
    ensures p.m == 1 || p.n == 1 ==> len == p.m * p.n
    ensures p.m != 1 && p.n != 1 ==> len == 0
  {
    if p.n != 1 then
      if p.m != 1 then 0 else p.n
    else
      p.m
  }

  /** The reasons for which the entry point raises an error on the host. */
  datatype Error =
    | WrongInputCount
    | TooManyOutputs
    | FileNotCharArray
    // input number 2 to 6 is not a double array, or the level vector is empty
    | NotDoubleVector(input: nat)
    | LengthMismatch
    | CannotOpenSlide
    | LevelIndexExceeded

  /** The script name that opens the texts of the errors about the call itself. */
  const Script := "'openslide_read_regions.m' "

  /**
   * The text the entry point hands to mexErrMsgTxt for each error. Errors
   * about the call itself name the script; an input that is not a vector of
   * doubles is named by its one-digit position.
   */
  function Message(e: Error): (msg: string)
    ensures e.WrongInputCount? || e.TooManyOutputs? || e.CannotOpenSlide? ==> Script <= msg
    ensures e.NotDoubleVector? && 2 <= e.input <= 6 ==>
      msg == "Input " + [('0' as int + e.input) as char] + " must be a vector of doubles."
  {
    match e
    case WrongInputCount => Script + "requires one input argument."
    case TooManyOutputs => Script + "produces one output."
    case FileNotCharArray => "Input 1 must be character array."
    case NotDoubleVector(k) =>
      "Input " + (if k == 2 then "2" else if k == 3 then "3" else if k == 4 then "4" else if k == 5 then "5" else "6")
      + " must be a vector of doubles."
    case LengthMismatch => "Inputs 2 through 6 must have same length"
    case CannotOpenSlide => Script + "cannot open slide."
    case LevelIndexExceeded => "Level index exceeded."
  }

  /** A non-empty double vector holds as many values as IsVector reports. */
  lemma VectorLength(p: MxArray)
    requires p.Valid() && p.DoubleArray? && IsVector(p) > 0
    ensures |p.values| == IsVector(p)
  {
  }

  /** One region request: the i-th entries of the five request vectors. */
  datatype Request = Request(level: nat, x: nat, y: nat, h: nat, w: nat)

  /** Accepted arguments: the slide's path, the requests in order and the shape of the output cell array. */
  datatype Batch = Batch(path: string, requests: seq<Request>, rows: nat, cols: nat)

  /** A double row or column holding exactly len entries. */
  predicate RequestVector(p: MxArray, len: nat) {
    p.DoubleArray? && (p.m == 1 || p.n == 1) && p.m * p.n == len
  }

  /**
   * The calls the entry point accepts, stated independently of the order of
   * its checks: six inputs and at most one output, a one-row character
   * array, and five double vectors that all have the (positive) length of
   * the level vector.
   */
  predicate Accepted(nlhs: int, prhs: seq<MxArray>) {
    |prhs| == 6 && nlhs <= 1 && prhs[0].IsCharRow() && prhs[1].m * prhs[1].n > 0 &&
    forall k :: 1 <= k < 6 ==> RequestVector(prhs[k], prhs[1].m * prhs[1].n)
  }

  /**
   * The argument checks in their order (input count, output count, the
   * file name, the five vectors one by one, their common length), and on
   * success the batch the request loop works on. The output cell array
   * takes the orientation of the level vector, which the code decides by
   * comparing its extents.
   */
  function CheckArguments(nlhs: int, prhs: seq<MxArray>): (r: Result<Batch, Error>)
    requires forall k :: 0 <= k < |prhs| ==> prhs[k].Valid()
    ensures r.Ok? <==> Accepted(nlhs, prhs)
    ensures |prhs| != 6 ==> r == Err(WrongInputCount)
    ensures |prhs| == 6 && nlhs > 1 ==> r == Err(TooManyOutputs)
    ensures |prhs| == 6 && nlhs <= 1 && !prhs[0].IsCharRow() ==> r == Err(FileNotCharArray)
    ensures |prhs| == 6 && nlhs <= 1 && prhs[0].IsCharRow() && !Accepted(nlhs, prhs) ==>
      r.Err? && (r.error.NotDoubleVector? || r.error == LengthMismatch)
    ensures r.Err? && r.error.NotDoubleVector? ==>
      var k := r.error.input;
      2 <= k <= 6 && prhs[0].IsCharRow() &&
      (forall t :: 1 <= t < k - 1 ==> prhs[t].DoubleArray?) &&
      (k > 2 ==> prhs[1].DoubleArray? && IsVector(prhs[1]) > 0) &&
      (!prhs[k - 1].DoubleArray? || IsVector(prhs[1]) == 0)
    ensures r == Err(LengthMismatch) ==>
      IsVector(prhs[1]) > 0 && (forall t :: 1 <= t < 6 ==> prhs[t].DoubleArray?) &&
      exists t :: 1 < t < 6 && IsVector(prhs[t]) != IsVector(prhs[1])
    ensures r.Ok? ==>
      var b := r.value;
      b.path == prhs[0].text && b.rows == prhs[1].m && b.cols == prhs[1].n &&
      |b.requests| == b.cols * b.rows &&
      (forall t :: 1 <= t < 6 ==> prhs[t].DoubleArray? && |prhs[t].values| == |b.requests|) &&
      forall i :: 0 <= i < |b.requests| ==>
        b.requests[i] == Request(prhs[1].values[i], prhs[2].values[i], prhs[3].values[i],
                                 prhs[4].values[i], prhs[5].values[i])
  {
    if |prhs| != 6 then Err(WrongInputCount)
    else if nlhs > 1 then Err(TooManyOutputs)
    else
      var llevel, lx, ly, lh, lw :=
        IsVector(prhs[1]), IsVector(prhs[2]), IsVector(prhs[3]), IsVector(prhs[4]), IsVector(prhs[5]);
      if !prhs[0].IsCharRow() then Err(FileNotCharArray)
      // every one of these five checks tests the length of the level vector
      else if !prhs[1].DoubleArray? || !(llevel > 0) then Err(NotDoubleVector(2))
      else if !prhs[2].DoubleArray? || !(llevel > 0) then Err(NotDoubleVector(3))
      else if !prhs[3].DoubleArray? || !(llevel > 0) then Err(NotDoubleVector(4))
      else if !prhs[4].DoubleArray? || !(llevel > 0) then Err(NotDoubleVector(5))
      else if !prhs[5].DoubleArray? || !(llevel > 0) then Err(NotDoubleVector(6))
      else if llevel != lx || lx != ly || ly != lw || lw != lh then Err(LengthMismatch)
      else Ok(MakeBatch(prhs))
  }

  /**
   * The batch of arguments that passed every check: the path, request i
   * made of the i-th entries of the five vectors, and the cell shape that
   * follows the level vector's orientation.
   */
  function MakeBatch(prhs: seq<MxArray>): (b: Batch)
    requires |prhs| == 6 && (forall k :: 0 <= k < 6 ==> prhs[k].Valid()) && prhs[0].CharArray?
    requires IsVector(prhs[1]) > 0
    requires forall t :: 1 <= t < 6 ==> prhs[t].DoubleArray? && IsVector(prhs[t]) == IsVector(prhs[1])
    ensures b.path == prhs[0].text && b.rows == prhs[1].m && b.cols == prhs[1].n
    ensures |b.requests| == b.cols * b.rows
    ensures forall t :: 1 <= t < 6 ==> |prhs[t].values| == |b.requests|
    ensures forall i :: 0 <= i < |b.requests| ==>
      b.requests[i] == Request(prhs[1].values[i], prhs[2].values[i], prhs[3].values[i],
                               prhs[4].values[i], prhs[5].values[i])
  {
    var llevel := IsVector(prhs[1]);
    VectorLength(prhs[1]);
    VectorLength(prhs[2]);
    VectorLength(prhs[3]);
    VectorLength(prhs[4]);
    VectorLength(prhs[5]);
    var level, x, y, h, w := prhs[1].values, prhs[2].values, prhs[3].values, prhs[4].values, prhs[5].values;
    var requests := seq(llevel, (i: int) requires 0 <= i < llevel => Request(level[i], x[i], y[i], h[i], w[i]));
    var outputdims := if prhs[1].m > prhs[1].n then (llevel, 1) else (1, llevel);
    Batch(prhs[0].text, requests, outputdims.0, outputdims.1)
  }

  /**
   * The position of the first request whose level is not below the slide's
   * level count, or the number of requests when there is none.
   */
  function FirstBadLevel(requests: seq<Request>, levels: nat): (k: nat)
    ensures k <= |requests|
    ensures forall i :: 0 <= i < k ==> requests[i].level < levels
    ensures k < |requests| ==> requests[k].level >= levels
    decreases |requests|
  {
    if requests == [] then 0
    else if requests[0].level >= levels then 0
    else 1 + FirstBadLevel(requests[1..], levels)
  }

  /** The region reads a run of requests makes, one per request and in request order. */
  function ReadCalls(requests: seq<Request>): (calls: seq<Call>)
    ensures |calls| == |requests|
  {
    seq(|requests|, (i: int) requires 0 <= i < |requests| =>
      var q := requests[i]; ReadRegion(q.x, q.y, q.level, q.w, q.h))
  }

  /**
   * Call i of a run is the read of request i: its position, level and extent,
   * in the argument order of openslide_read_region (x, y, level, w, h).
   */
  lemma ReadCallsAt(requests: seq<Request>, i: nat)
    requires i < |requests|
    ensures var q := requests[i];
      ReadCalls(requests)[i] == ReadRegion(q.x, q.y, q.level, q.w, q.h)
  {
  }

  /** The reads of a run extended by one request are the reads of the run followed by that request's read. */
  lemma ReadCallsSnoc(requests: seq<Request>, q: Request)
    ensures ReadCalls(requests + [q]) == ReadCalls(requests) + [ReadRegion(q.x, q.y, q.level, q.w, q.h)]
  {
    assert forall i :: 0 <= i < |requests| ==> (requests + [q])[i] == requests[i];
  }

  /** The h x w x 3 uint8 image that a request's cell receives. */
  function RegionImage<D>(s: Slide<D>, q: Request): (img: Uint8Array)
    ensures img.dims == [q.h, q.w, 3]
    ensures |img.data| == 3 * (q.w * q.h)
  {
    Uint8Array([q.h, q.w, 3], PlanarRgb(Region(s, q.x, q.y, q.level, q.w, q.h), q.w, q.h))
  }

  /**
   * The host subscript img(i+1, j+1, c+1) of a request's image is colour
   * channel c (red, green, blue) of the region's pixel at row i, column j,
   * the word at row-major position i*w + j of the library's buffer.
   */
  lemma RegionImageAt<D>(s: Slide<D>, q: Request, i: nat, j: nat, c: nat)
    requires i < q.h && j < q.w && c < 3
    ensures RegionImage(s, q).data[c * (q.w * q.h) + ColMajor(i, j, q.h, q.w)] ==
      Channel(c, s.regionWord(q.x, q.y, q.level, q.w, q.h, RowMajor(i, j, q.h, q.w)))
  {
    PlanarRgbAt(Region(s, q.x, q.y, q.level, q.w, q.h), q.w, q.h, i, j);
  }

  /**
   * The body of the request loop for one request: a w*h word
   * buffer that openslide_read_region fills, a zeroed h x w x 3 uint8 array,
   * and the conversion of the one into the other.
   */
  method ReadRegionImage<D>(slide: Slide<D>, q: Request) returns (img: Uint8Array)
    ensures img == RegionImage(slide, q)
  {
    var n := q.w * q.h;
    var px := Region(slide, q.x, q.y, q.level, q.w, q.h);
    var image := new bv32[n](k requires 0 <= k < n => px[k]);
    var rgb := new bv8[3 * n];
    ArgbToRgb(image, q.w, q.h, rgb);
    assert image[..n] == image[..] == px;
    assert rgb[..] == rgb[..3 * n];
    img := Uint8Array([q.h, q.w, 3], rgb[..]);
  }

  /**
   * The request loop on an opened slide: requests are served
   * in order until the first one whose level is not below the level count,
   * which raises an error before any allocation or read for it and discards
   * the regions read so far; when there is none, cell i holds the image of
   * request i. `calls` are the region reads made, in order.
   */
  method ServeRequests<D>(slide: Slide<D>, requests: seq<Request>)
      returns (r: Result<seq<Option<Uint8Array>>, Error>, ghost calls: seq<Call>)
    ensures var k := FirstBadLevel(requests, slide.layerCount);
      calls == ReadCalls(requests[..k]) &&
      (k < |requests| ==> r == Err(LevelIndexExceeded)) &&
      (k == |requests| ==>
         r.Ok? && |r.value| == |requests| &&
         forall i :: 0 <= i < |requests| ==> r.value[i] == Some(RegionImage(slide, requests[i])))
  {
    var levels := slide.layerCount;
    calls := [];
    var cells := new Option<Uint8Array>[|requests|](_ => None);
    var i := 0;
    while i < |requests|
      invariant 0 <= i <= |requests|
      invariant forall t :: 0 <= t < i ==> requests[t].level < levels
      invariant calls == ReadCalls(requests[..i])
      invariant forall t :: 0 <= t < i ==> cells[t] == Some(RegionImage(slide, requests[t]))
    {
      var q := requests[i];
      if q.level >= levels {
        assert FirstBadLevel(requests, levels) == i;
        return Err(LevelIndexExceeded), calls;
      }
      var img := ReadRegionImage(slide, q);
      calls := calls + [ReadRegion(q.x, q.y, q.level, q.w, q.h)];
      cells[i] := Some(img);
      assert requests[..i + 1] == requests[..i] + [q];
      ReadCallsSnoc(requests[..i], q);
      i := i + 1;
    }
    assert requests[..i] == requests;
    r := Ok(cells[..]);
  }

  /**
   * mexFunction of openslide_read_regions. `trace` is the sequence of library
   * calls made. Arguments that fail a check raise an error before any call;
   * a slide that cannot be opened raises an error after the open attempt;
   * otherwise the level count is read and the requests are served, and on
   * success the cells form an array of the level vector's shape.
   */
  method MexFunction<D>(nlhs: int, prhs: seq<MxArray>, lib: Library<D>)
      returns (r: Result<Matrix<Option<Uint8Array>>, Error>, ghost trace: seq<Call>)
    requires forall k :: 0 <= k < |prhs| ==> prhs[k].Valid()
    ensures CheckArguments(nlhs, prhs).Err? ==>
      r == Err(CheckArguments(nlhs, prhs).error) && trace == []
    ensures CheckArguments(nlhs, prhs).Ok? ==>
      var b := CheckArguments(nlhs, prhs).value;
      var openCalls := [CanOpen(b.path), Open(b.path), GetError];
      if !lib.canOpen(b.path) then
        r == Err(CannotOpenSlide) && trace == [CanOpen(b.path)]
      else if lib.open(b.path).hasError then
        r == Err(CannotOpenSlide) && trace == openCalls
      else
        var s := lib.open(b.path);
        var k := FirstBadLevel(b.requests, s.layerCount);
        trace == openCalls + [GetLayerCount] + ReadCalls(b.requests[..k]) &&
        (k < |b.requests| ==> r == Err(LevelIndexExceeded)) &&
        (k == |b.requests| ==>
          r.Ok? && r.value.rows == b.rows && r.value.cols == b.cols && r.value.Valid() &&
          forall i :: 0 <= i < |b.requests| ==> r.value.data[i] == Some(RegionImage(s, b.requests[i])))
  {
    var checked := CheckArguments(nlhs, prhs);
    if checked.Err? {
      return Err(checked.error), [];
    }
    var b := checked.value;
    trace := [CanOpen(b.path)];
    if !lib.canOpen(b.path) {
      return Err(CannotOpenSlide), trace;
    }
    var slide := lib.open(b.path);
    trace := trace + [Open(b.path), GetError];
    if slide.hasError {
      return Err(CannotOpenSlide), trace;
    }
    trace := trace + [GetLayerCount];
    var served, calls := ServeRequests(slide, b.requests);
    trace := trace + calls;
    if served.Err? {
      return Err(served.error), trace;
    }
    r := Ok(Matrix(b.rows, b.cols, served.value));
  }
}
