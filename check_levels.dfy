/**
 * The entry point [Dims, Factors, Objective, MppX, MppY] =
 * openslide_check_levels(File): argument checks, the opening of the slide,
 * and the loop that tabulates the dimensions and downsample factor of every
 * level of the slide's image pyramid.
 */
module CheckLevels {
  import opened Results
  import opened Layout
  import opened Mex
  import opened OpenSlide

  /** The reasons for which the entry point raises an error on the host. */
  datatype Error =
    | WrongInputCount
    | TooManyOutputs
    | FileNotCharArray
    | CannotOpenSlide

  /** The script name that opens the texts of the errors about the call itself. */
  const Script := "'openslide_check_levels.m' "

  /**
   * The text the entry point hands to mexErrMsgTxt for each error. Errors
   * about the call itself name the script; the one about the input does not.
   */
  function Message(e: Error): (msg: string)
    ensures !e.FileNotCharArray? ==> Script <= msg
  {
    match e
    case WrongInputCount => Script + "requires one input argument."
    case TooManyOutputs => Script + "produces two outputs."
    case FileNotCharArray => "Input must be character array."
    case CannotOpenSlide => Script + "cannot open slide."
  }

  /** Different errors have different texts. */
  lemma MessagesDistinct(e1: Error, e2: Error)
    requires e1 != e2
    ensures Message(e1) != Message(e2)
  {
  }

  /**
   * The two numeric outputs: Dims, a levels x 2 matrix with the height of
   * each level in its first column and the width in its second, and
   * Factors, a levels x 1 matrix of downsample factors.
   */
  datatype Levels<D> = Levels(dims: Matrix<int>, factors: Matrix<D>)

  /** The level table of a slide, entry by entry, as the host reads Dims and Factors. */
  ghost predicate Tabulates<D>(t: Levels<D>, s: Slide<D>) {
    var n := s.layerCount;
    t.dims.rows == n && t.dims.cols == 2 && t.dims.Valid() &&
    t.factors.rows == n && t.factors.cols == 1 && t.factors.Valid() &&
    forall i: nat :: i < n ==>
      t.dims.At(i, 0) == s.layerHeight(i) && t.dims.At(i, 1) == s.layerWidth(i) &&
      t.factors.At(i, 0) == s.layerDownsample(i)
  }

  /** At most one level table tabulates a slide: the entries the loop stores fill both outputs. */
  lemma TabulatesUnique<D>(t: Levels<D>, u: Levels<D>, s: Slide<D>)
    requires Tabulates(t, s) && Tabulates(u, s)
    ensures t == u
  {
    forall i: nat, j: nat | i < t.dims.rows && j < 2
      ensures t.dims.At(i, j) == u.dims.At(i, j)
    {
      // Dims has two columns: height in column 0, width in column 1
      assert j == 0 || j == 1;
    }
    MatrixExtensional(t.dims, u.dims);
    MatrixExtensional(t.factors, u.factors);
  }

  /** The library calls the loop makes for the first n levels: dimensions, then downsample, level by level. */
  function LevelCalls(n: nat): (calls: seq<Call>)
    ensures |calls| == 2 * n
  {
    if n == 0 then [] else LevelCalls(n - 1) + [GetLayerDimensions(n - 1), GetLayerDownsample(n - 1)]
  }

  /** Calls 2i and 2i + 1 of the loop are the dimension and the downsample query of level i. */
  lemma {:induction false} LevelCallsAt(n: nat, i: nat)
    requires i < n
    ensures LevelCalls(n)[2 * i] == GetLayerDimensions(i)
    ensures LevelCalls(n)[2 * i + 1] == GetLayerDownsample(i)
  {
    if i < n - 1 {
      LevelCallsAt(n - 1, i);
    }
  }

  /**
   * The first i levels of the slide are stored in the two output buffers:
   * height at offset t and width at offset levels + t of `dims`, downsample
   * factor at offset t of `factors`.
   */
  ghost predicate StoredLevels<D>(dims: seq<int>, factors: seq<D>, s: Slide<D>, i: nat) {
    var levels := s.layerCount;
    |dims| == 2 * levels && |factors| == levels && i <= levels &&
    forall t :: 0 <= t < i ==>
      dims[t] == s.layerHeight(t) && dims[levels + t] == s.layerWidth(t) && factors[t] == s.layerDownsample(t)
  }

  /** One step of the level loop extends the stored levels by level i and keeps the earlier ones. */
  lemma StoreLevel<D>(dims: seq<int>, factors: seq<D>, s: Slide<D>, i: nat)
    requires StoredLevels(dims, factors, s, i) && i < s.layerCount
    ensures StoredLevels(dims[i := s.layerHeight(i)][s.layerCount + i := s.layerWidth(i)],
                         factors[i := s.layerDownsample(i)], s, i + 1)
  {
  }

  /** Buffers holding every level of the slide, read as matrices, tabulate the slide. */
  lemma StoredLevelsTabulate<D>(dims: seq<int>, factors: seq<D>, s: Slide<D>)
    requires StoredLevels(dims, factors, s, s.layerCount)
    ensures Tabulates(Levels(Matrix(s.layerCount, 2, dims), Matrix(s.layerCount, 1, factors)), s)
  {
    var n := s.layerCount;
    forall i: nat | i < n
      ensures ColMajor(i, 0, n, 2) == i && ColMajor(i, 1, n, 2) == n + i && ColMajor(i, 0, n, 1) == i
    {
    }
  }

  /**
   * The level loop on an opened slide, returning the contents
   * of the Dims and Factors buffers. `dims` and `ds` stand for the two
   * output pointers: each step stores the downsample factor at `ds`, the
   * height at `dims` and the width `levels` places further on, and advances
   * both pointers by one.
   */
  method ReadLevels<D(0)>(slide: Slide<D>) returns (dimsData: seq<int>, factorsData: seq<D>, ghost calls: seq<Call>)
    ensures StoredLevels(dimsData, factorsData, slide, slide.layerCount)
    ensures calls == LevelCalls(slide.layerCount)
  {
    var levels := slide.layerCount;
    // mxCreateDoubleMatrix zero-fills both outputs
    var dimsOut := new int[2 * levels];
    var dsOut := new D[levels];
    var dims, ds := 0, 0;
    calls := [];
    var i := 0;
    while i < levels
      invariant 0 <= i <= levels && dims == i && ds == i
      invariant StoredLevels(dimsOut[..], dsOut[..], slide, i)
      invariant calls == LevelCalls(i)
    {
      ghost var dimsBefore, dsBefore := dimsOut[..], dsOut[..];
      StoreLevel(dimsBefore, dsBefore, slide, i);
      var w, h := slide.layerWidth(i), slide.layerHeight(i);
      dsOut[ds] := slide.layerDownsample(i);
      calls := calls + [GetLayerDimensions(i), GetLayerDownsample(i)];
      ds := ds + 1;
      dimsOut[dims] := h;
      dimsOut[dims + levels] := w;
      dims := dims + 1;
      assert dimsOut[..] == dimsBefore[i := h][levels + i := w];
      assert dsOut[..] == dsBefore[i := slide.layerDownsample(i)];
      i := i + 1;
    }
    dimsData, factorsData := dimsOut[..], dsOut[..];
  }

  /** The names of the three properties the entry point reads after the level loop. */
  const ObjectivePower := "openslide.objective-power"
  const MppX := "openslide.mpp-x"
  const MppY := "openslide.mpp-y"

  /**
   * mexFunction of openslide_check_levels. `trace` is the sequence of library
   * calls made. Argument errors are raised before any call; a slide that
   * cannot be opened, or whose opening reports an error, raises an error
   * and no level is read; otherwise the result is the slide's level table.
   */
  method MexFunction<D(0)>(nlhs: int, prhs: seq<MxArray>, lib: Library<D>)
      returns (r: Result<Levels<D>, Error>, ghost trace: seq<Call>)
    ensures |prhs| != 1 ==> r == Err(WrongInputCount) && trace == []
    ensures |prhs| == 1 && nlhs > 5 ==> r == Err(TooManyOutputs) && trace == []
    ensures |prhs| == 1 && nlhs <= 5 && !prhs[0].IsCharRow() ==> r == Err(FileNotCharArray) && trace == []
    ensures |prhs| == 1 && nlhs <= 5 && prhs[0].IsCharRow() ==>
      var path := prhs[0].text;
      var s := lib.open(path);
      if !lib.canOpen(path) then
        r == Err(CannotOpenSlide) && trace == [CanOpen(path)]
      else if s.hasError then
        r == Err(CannotOpenSlide) && trace == [CanOpen(path), Open(path), GetError]
      else
        r.Ok? && Tabulates(r.value, s) &&
        trace == [CanOpen(path), Open(path), GetError, GetLayerCount] + LevelCalls(s.layerCount) +
          [GetPropertyValue(ObjectivePower), GetPropertyValue(MppX), GetPropertyValue(MppY)]
  {
    if |prhs| != 1 {
      return Err(WrongInputCount), [];
    }
    if nlhs > 5 {
      return Err(TooManyOutputs), [];
    }
    if !prhs[0].IsCharRow() {
      return Err(FileNotCharArray), [];
    }
    var path := prhs[0].text;
    trace := [CanOpen(path)];
    if !lib.canOpen(path) {
      return Err(CannotOpenSlide), trace;
    }
    var slide := lib.open(path);
    trace := trace + [Open(path), GetError];
    if slide.hasError {
      return Err(CannotOpenSlide), trace;
    }
    trace := trace + [GetLayerCount];
    var dims, factors, calls := ReadLevels(slide);
    trace := trace + calls;
    StoredLevelsTabulate(dims, factors, slide);
    var t := Levels(Matrix(slide.layerCount, 2, dims), Matrix(slide.layerCount, 1, factors));
    trace := trace + [GetPropertyValue(ObjectivePower), GetPropertyValue(MppX), GetPropertyValue(MppY)];
    r := Ok(t);
  }
}
