/**
 * Conversion of the library's interleaved 32-bit ARGB pixels into the three
 * 8-bit colour planes (red, then green, then blue) that the host expects,
 * each plane in column-major order. The alpha byte is dropped; no
 * un-premultiplication is done.
 */
module Planar {
  import opened Layout

  /** Bits 16..23 of a word: the red byte, the word's value divided by 2^16, modulo 2^8. */
  function Red(p: bv32): (r: bv8)
    ensures r as bv32 == p / 0x1_0000 % 0x100
  {
    ((p & 0x00ff0000) >> 16) as bv8
  }

  /** Bits 8..15 of a word: the green byte, the word's value divided by 2^8, modulo 2^8. */
  function Green(p: bv32): (g: bv8)
    ensures g as bv32 == p / 0x100 % 0x100
  {
    ((p & 0x0000ff00) >> 8) as bv8
  }

  /** Bits 0..7 of a word: the blue byte, the word's value modulo 2^8. */
  function Blue(p: bv32): (b: bv8)
    ensures b as bv32 == p % 0x100
  {
    (p & 0x000000ff) as bv8
  }

  /** Bits 24..31 of a word: the alpha byte, the word's value divided by 2^24; the conversion never reads it. */
  function Alpha(p: bv32): (a: bv8)
    ensures a as bv32 == p / 0x100_0000
  {
    (p >> 24) as bv8
  }

  /** The red, green and blue bits of a word, with the alpha byte cleared. */
  function ColourBits(p: bv32): bv32 {
    p & 0x00ffffff
  }

  /** The ARGB word with the given bytes, alpha most significant. */
  function Pack(a: bv8, r: bv8, g: bv8, b: bv8): bv32 {
    (a as bv32 << 24) | (r as bv32 << 16) | (g as bv32 << 8) | (b as bv32)
  }

  /** Unpacking a packed word gives back each of its four bytes. */
  lemma UnpackPack(a: bv8, r: bv8, g: bv8, b: bv8)
    ensures Alpha(Pack(a, r, g, b)) == a
    ensures Red(Pack(a, r, g, b)) == r
    ensures Green(Pack(a, r, g, b)) == g
    ensures Blue(Pack(a, r, g, b)) == b
  {
  }

  /** Packing the four bytes of a word gives back the word. */
  lemma PackUnpack(p: bv32)
    ensures Pack(Alpha(p), Red(p), Green(p), Blue(p)) == p
  {
  }

  /** Colour channel c of a word: 0 is red, 1 green, 2 blue. */
  function Channel(c: nat, p: bv32): bv8
    requires c < 3
  {
    if c == 0 then Red(p) else if c == 1 then Green(p) else Blue(p)
  }

  /** Column j of plane c: channel c of the pixels of column j of the h x w input, top to bottom. */
  function Column(px: seq<bv32>, w: nat, h: nat, c: nat, j: nat): (col: seq<bv8>)
    requires |px| == w * h && c < 3 && j < w
    ensures |col| == h
  {
    seq(h, (i: int) requires 0 <= i < h => Channel(c, px[RowMajor(i, j, h, w)]))
  }

  /** The first k columns of plane c, one after another: the column-major order. */
  function Columns(px: seq<bv32>, w: nat, h: nat, c: nat, k: nat): (cols: seq<bv8>)
    requires |px| == w * h && c < 3 && k <= w
    ensures |cols| == k * h
    decreases k
  {
    if k == 0 then [] else Columns(px, w, h, c, k - 1) + Column(px, w, h, c, k - 1)
  }

  /** Plane c of the output for a row-major h x w pixel buffer: all w of its columns. */
  function Plane(px: seq<bv32>, w: nat, h: nat, c: nat): (plane: seq<bv8>)
    requires |px| == w * h && c < 3
    ensures |plane| == w * h
  {
    Columns(px, w, h, c, w)
  }

  /** Within the first k columns, the byte at column-major offset j*h + i is channel c of pixel (i, j). */
  lemma {:induction false} ColumnsAt(px: seq<bv32>, w: nat, h: nat, c: nat, k: nat, i: nat, j: nat)
    requires |px| == w * h && c < 3 && k <= w && i < h && j < k
    ensures Columns(px, w, h, c, k)[ColMajor(i, j, h, w)] == Channel(c, px[RowMajor(i, j, h, w)])
    decreases k
  {
    var prefix, o := Columns(px, w, h, c, k - 1), ColMajor(i, j, h, w);
    assert Columns(px, w, h, c, k) == prefix + Column(px, w, h, c, k - 1);
    if j < k - 1 {
      MulMonotone(j + 1, k - 1, h);
      assert o < (j + 1) * h == j * h + h;
      ColumnsAt(px, w, h, c, k - 1, i, j);
    } else {
      assert o == |prefix| + i;
    }
  }

  /** The whole planar output: the red, green and blue planes one after another. */
  function PlanarRgb(px: seq<bv32>, w: nat, h: nat): (rgb: seq<bv8>)
    requires |px| == w * h
    ensures |rgb| == 3 * (w * h)
  {
    Plane(px, w, h, 0) + Plane(px, w, h, 1) + Plane(px, w, h, 2)
  }

  /**
   * The pixel at row i, column j of the input (word i*w + j) lands at offset
   * j*h + i of each plane: red in the first w*h bytes, green in the next,
   * blue in the last.
   */
  lemma PlanarRgbAt(px: seq<bv32>, w: nat, h: nat, i: nat, j: nat)
    requires |px| == w * h && i < h && j < w
    ensures var rgb, o, p := PlanarRgb(px, w, h), ColMajor(i, j, h, w), px[RowMajor(i, j, h, w)];
      rgb[o] == Red(p) && rgb[w * h + o] == Green(p) && rgb[2 * (w * h) + o] == Blue(p)
  {
    ColumnsAt(px, w, h, 0, w, i, j);
    ColumnsAt(px, w, h, 1, w, i, j);
    ColumnsAt(px, w, h, 2, w, i, j);
  }

  /**
   * A pixel packed from (a, r, g, b) contributes r, g and b to the three
   * planes, whatever its alpha byte a.
   */
  lemma PlanarRgbOfPacked(px: seq<bv32>, w: nat, h: nat, i: nat, j: nat, a: bv8, r: bv8, g: bv8, b: bv8)
    requires |px| == w * h && i < h && j < w
    requires px[RowMajor(i, j, h, w)] == Pack(a, r, g, b)
    ensures var rgb, o := PlanarRgb(px, w, h), ColMajor(i, j, h, w);
      rgb[o] == r && rgb[w * h + o] == g && rgb[2 * (w * h) + o] == b
  {
    PlanarRgbAt(px, w, h, i, j);
    UnpackPack(a, r, g, b);
  }

  /** Two buffers that differ only in their alpha bytes convert to the same planes. */
  lemma PlanarRgbIgnoresAlpha(px: seq<bv32>, qx: seq<bv32>, w: nat, h: nat)
    requires |px| == w * h && |qx| == w * h
    requires forall k :: 0 <= k < |px| ==> ColourBits(px[k]) == ColourBits(qx[k])
    ensures PlanarRgb(px, w, h) == PlanarRgb(qx, w, h)
  {
    forall c: nat, k | c < 3 && 0 <= k < |px|
      ensures Channel(c, px[k]) == Channel(c, qx[k])
    {
      ChannelIgnoresAlpha(c, px[k], qx[k]);
    }
    ColumnsAgree(px, qx, w, h, 0, w);
    ColumnsAgree(px, qx, w, h, 1, w);
    ColumnsAgree(px, qx, w, h, 2, w);
  }

  /** Buffers whose pixels agree in channel c agree in the first k columns of plane c. */
  lemma {:induction false} ColumnsAgree(px: seq<bv32>, qx: seq<bv32>, w: nat, h: nat, c: nat, k: nat)
    requires |px| == w * h && |qx| == w * h && c < 3 && k <= w
    requires forall n :: 0 <= n < |px| ==> Channel(c, px[n]) == Channel(c, qx[n])
    ensures Columns(px, w, h, c, k) == Columns(qx, w, h, c, k)
    decreases k
  {
    if k > 0 {
      ColumnsAgree(px, qx, w, h, c, k - 1);
      assert Column(px, w, h, c, k - 1) == Column(qx, w, h, c, k - 1);
    }
  }

  /** Words that agree in their low 24 bits have the same colour channels. */
  lemma ChannelIgnoresAlpha(c: nat, p: bv32, q: bv32)
    requires c < 3 && ColourBits(p) == ColourBits(q)
    ensures Channel(c, p) == Channel(c, q)
  {
  }

  /**
   * The three channel bytes of the pixel at row i, column j of `px` sit at
   * that pixel's column-major offset in the three planes of `s`.
   */
  ghost predicate Stored(s: seq<bv8>, px: seq<bv32>, w: nat, h: nat, i: nat, j: nat)
    requires |px| == w * h && 3 * (w * h) <= |s| && i < h && j < w
  {
    var o, p := ColMajor(i, j, h, w), px[RowMajor(i, j, h, w)];
    s[o] == Red(p) && s[w * h + o] == Green(p) && s[2 * (w * h) + o] == Blue(p)
  }

  /**
   * Storing the three bytes of pixel (i, j) makes that pixel stored and
   * leaves whether any other pixel is stored as it was: the stores of two
   * different pixels never overlap.
   */
  lemma StorePixel(s: seq<bv8>, px: seq<bv32>, w: nat, h: nat, i: nat, j: nat)
    requires |px| == w * h && 3 * (w * h) <= |s| && i < h && j < w
    ensures var n, o, p := w * h, ColMajor(i, j, h, w), px[RowMajor(i, j, h, w)];
      var s' := s[o := Red(p)][n + o := Green(p)][2 * n + o := Blue(p)];
      Stored(s', px, w, h, i, j) && s'[3 * n..] == s[3 * n..] &&
      forall ii: nat, jj: nat :: ii < h && jj < w && (ii != i || jj != j) ==>
        Stored(s', px, w, h, ii, jj) == Stored(s, px, w, h, ii, jj)
  {
    ColMajorOthers(i, j, h, w);
  }

  /**
   * Every pixel before (i, j) in row-major order, that is every pixel of the
   * rows above i and the first j pixels of row i, is stored in `s`.
   */
  ghost predicate StoredBefore(s: seq<bv8>, px: seq<bv32>, w: nat, h: nat, i: nat, j: nat)
    requires |px| == w * h && 3 * (w * h) <= |s|
  {
    forall ii: nat, jj: nat :: ii < h && jj < w && (ii < i || (ii == i && jj < j)) ==>
      Stored(s, px, w, h, ii, jj)
  }

  /**
   * One step of the conversion loop: storing pixel (i, j) into a buffer that
   * holds every pixel before it extends the stored prefix by that pixel, and
   * leaves the bytes after the three planes alone.
   */
  lemma StoreNext(s: seq<bv8>, px: seq<bv32>, w: nat, h: nat, i: nat, j: nat)
    requires |px| == w * h && 3 * (w * h) <= |s| && i < h && j < w
    requires StoredBefore(s, px, w, h, i, j)
    ensures var n, o, p := w * h, ColMajor(i, j, h, w), px[RowMajor(i, j, h, w)];
      var s' := s[o := Red(p)][n + o := Green(p)][2 * n + o := Blue(p)];
      StoredBefore(s', px, w, h, i, j + 1) && s'[3 * n..] == s[3 * n..]
  {
    StorePixel(s, px, w, h, i, j);
  }

  /** Pixel (i, j) has the same three plane bytes in `s` as in `t`. */
  ghost predicate SamePixel(s: seq<bv8>, t: seq<bv8>, w: nat, h: nat, i: nat, j: nat)
    requires 3 * (w * h) <= |s| && 3 * (w * h) <= |t| && i < h && j < w
  {
    var o := ColMajor(i, j, h, w);
    s[o] == t[o] && s[w * h + o] == t[w * h + o] && s[2 * (w * h) + o] == t[2 * (w * h) + o]
  }

  /** Every pixel outside row i has the same plane bytes in `s` as in `t`. */
  ghost predicate OtherRowsKept(s: seq<bv8>, t: seq<bv8>, w: nat, h: nat, i: nat)
    requires 3 * (w * h) <= |s| && 3 * (w * h) <= |t|
  {
    forall ii: nat, jj: nat :: ii < h && jj < w && ii != i ==> SamePixel(s, t, w, h, ii, jj)
  }

  /**
   * Storing the three bytes of a pixel of row i into a buffer whose other
   * rows agree with `t` keeps them in agreement with `t`.
   */
  lemma StoreKeepsOtherRows(s: seq<bv8>, t: seq<bv8>, w: nat, h: nat, i: nat, j: nat, r: bv8, g: bv8, b: bv8)
    requires 3 * (w * h) <= |s| && 3 * (w * h) <= |t| && i < h && j < w
    requires OtherRowsKept(s, t, w, h, i)
    ensures var n, o := w * h, ColMajor(i, j, h, w);
      OtherRowsKept(s[o := r][n + o := g][2 * n + o := b], t, w, h, i)
  {
    var n, o := w * h, ColMajor(i, j, h, w);
    var s' := s[o := r][n + o := g][2 * n + o := b];
    forall ii: nat, jj: nat | ii < h && jj < w && ii != i
      ensures SamePixel(s', t, w, h, ii, jj)
    {
      var o' := ColMajor(ii, jj, h, w);
      ColMajorOthers(i, j, h, w);
      assert o' != o;
      assert SamePixel(s, t, w, h, ii, jj);
    }
  }

  /**
   * The state of `s` part-way through row i, starting from `t`: every pixel
   * before (i, j) is stored, the other rows and the bytes past the planes
   * are as in `t`.
   */
  ghost predicate RowProgress(s: seq<bv8>, t: seq<bv8>, px: seq<bv32>, w: nat, h: nat, i: nat, j: nat)
    requires |px| == w * h && 3 * (w * h) <= |s| && 3 * (w * h) <= |t|
  {
    StoredBefore(s, px, w, h, i, j) && OtherRowsKept(s, t, w, h, i) && s[3 * (w * h)..] == t[3 * (w * h)..]
  }

  /** One step of the inner loop keeps RowProgress, one pixel further on. */
  lemma RowStep(s: seq<bv8>, t: seq<bv8>, px: seq<bv32>, w: nat, h: nat, i: nat, j: nat)
    requires |px| == w * h && 3 * (w * h) <= |s| && 3 * (w * h) <= |t| && i < h && j < w
    requires RowProgress(s, t, px, w, h, i, j)
    ensures var n, o, p := w * h, ColMajor(i, j, h, w), px[RowMajor(i, j, h, w)];
      RowProgress(s[o := Red(p)][n + o := Green(p)][2 * n + o := Blue(p)], t, px, w, h, i, j + 1)
  {
    var p := px[RowMajor(i, j, h, w)];
    StoreNext(s, px, w, h, i, j);
    StoreKeepsOtherRows(s, t, w, h, i, j, Red(p), Green(p), Blue(p));
  }

  /** A byte buffer in which every pixel of `px` is stored begins with PlanarRgb(px, w, h). */
  lemma PlanarRgbFromPixels(s: seq<bv8>, px: seq<bv32>, w: nat, h: nat)
    requires |px| == w * h && 3 * (w * h) <= |s|
    requires StoredBefore(s, px, w, h, h, 0)
    ensures s[..3 * (w * h)] == PlanarRgb(px, w, h)
  {
    var n := w * h;
    var red, green, blue := s[..n], s[n..2 * n], s[2 * n..3 * n];
    assert s[..3 * n] == red + green + blue;
    forall i: nat, j: nat | i < h && j < w
      ensures var o, p := ColMajor(i, j, h, w), px[RowMajor(i, j, h, w)];
        red[o] == Red(p) && green[o] == Green(p) && blue[o] == Blue(p)
    {
      assert Stored(s, px, w, h, i, j);
    }
    PlaneFromPixels(red, px, w, h, 0);
    PlaneFromPixels(green, px, w, h, 1);
    PlaneFromPixels(blue, px, w, h, 2);
  }

  /** A plane-sized buffer holding channel c of every pixel at its column-major offset is Plane c. */
  lemma PlaneFromPixels(s: seq<bv8>, px: seq<bv32>, w: nat, h: nat, c: nat)
    requires |px| == w * h && |s| == w * h && c < 3
    requires forall i: nat, j: nat :: i < h && j < w ==>
      s[ColMajor(i, j, h, w)] == Channel(c, px[RowMajor(i, j, h, w)])
    ensures s == Plane(px, w, h, c)
  {
    var plane := Plane(px, w, h, c);
    forall o | 0 <= o < w * h
      ensures s[o] == plane[o]
    {
      var i, j := ColMajorEntry(o, h, w);
      ColumnsAt(px, w, h, c, w, i, j);
    }
    assert s == plane;
  }

  /**
   * ARGBtoRGB: converts the first w*h words of `argb` (row-major) into the
   * first 3*w*h bytes of `rgb` (three column-major planes). No other byte of
   * `rgb` changes, and `argb` is only read.
   */
  method ArgbToRgb(argb: array<bv32>, w: nat, h: nat, rgb: array<bv8>)
    requires w * h <= argb.Length && 3 * (w * h) <= rgb.Length
    modifies rgb
    ensures rgb[..3 * (w * h)] == PlanarRgb(argb[..w * h], w, h)
    ensures rgb[3 * (w * h)..] == old(rgb[3 * (w * h)..])
  {
    var n := w * h;
    var input := 0;
    var i := 0;
    while i < h
      invariant 0 <= i <= h
      invariant input == i * w
      invariant rgb[3 * n..] == old(rgb[3 * n..])
      invariant StoredBefore(rgb[..], argb[..n], w, h, i, 0)
    {
      input := ConvertRow(argb, w, h, rgb, i, input);
      i := i + 1;
    }
    PlanarRgbFromPixels(rgb[..], argb[..n], w, h);
    assert rgb[..][..3 * n] == rgb[..3 * n];
  }

  /**
   * The three stores of one pixel: the red, green and blue bytes of word
   * `input` go to offset `o` of the red, green and blue planes, each plane
   * `n` bytes long and the green plane starting `n` bytes after the red
   * one, the blue `n` bytes after the green.
   */
  method ConvertPixel(argb: array<bv32>, input: nat, rgb: array<bv8>, n: nat, o: nat)
    requires input < argb.Length && o < n && 3 * n <= rgb.Length
    modifies rgb
    ensures var p := argb[input];
      rgb[..] == old(rgb[..])[o := Red(p)][n + o := Green(p)][2 * n + o := Blue(p)]
  {
    var outR, outG, outB := 0, n, 2 * n;
    rgb[outR + o] := Red(argb[input]);
    rgb[outG + o] := Green(argb[input]);
    rgb[outB + o] := Blue(argb[input]);
  }

  /**
   * The inner loop of ARGBtoRGB: converts row i, whose first word is at
   * `input`, and returns the position of the next row's first word. The
   * plane bytes of every other row and the bytes past the planes keep
   * their values.
   */
  method ConvertRow(argb: array<bv32>, w: nat, h: nat, rgb: array<bv8>, i: nat, input: nat) returns (next: nat)
    requires w * h <= argb.Length && 3 * (w * h) <= rgb.Length && i < h && input == i * w
    requires StoredBefore(rgb[..], argb[..w * h], w, h, i, 0)
    modifies rgb
    ensures next == input + w
    ensures StoredBefore(rgb[..], argb[..w * h], w, h, i + 1, 0)
    ensures OtherRowsKept(rgb[..], old(rgb[..]), w, h, i)
    ensures rgb[3 * (w * h)..] == old(rgb[3 * (w * h)..])
  {
    ghost var px, orig := argb[..w * h], rgb[..];
    next := input;
    var j := 0;
    while j < w
      invariant 0 <= j <= w
      invariant next == i * w + j
      invariant RowProgress(rgb[..], orig, px, w, h, i, j)
    {
      var o := ColMajor(i, j, h, w);
      assert next == RowMajor(i, j, h, w);
      RowStep(rgb[..], orig, px, w, h, i, j);
      ConvertPixel(argb, next, rgb, w * h, o);
      next := next + 1;
      j := j + 1;
    }
    assert StoredBefore(rgb[..], px, w, h, i + 1, 0);
  }
}
