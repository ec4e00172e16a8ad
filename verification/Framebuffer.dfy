/** Painting clipped rectangles into a framebuffer: 32-bit column arithmetic and a flat byte buffer. */
module Framebuffer {
  import opened Prelude

  datatype Rgb = Rgb(r: Byte, g: Byte, b: Byte)

  /** The four bytes of a pixel, blue first. */
  function Pixel(c: Rgb): (px: seq<Byte>)
    ensures |px| == 4
  {
    [c.b, c.g, c.r, 255]
  }

  /** Byte `k` of a pixel: blue, green, red, then opaque. */
  function Shade(c: Rgb, k: nat): Byte {
    if k == 0 then c.b else if k == 1 then c.g else if k == 2 then c.r else 255
  }

  lemma PixelShades(c: Rgb)
    ensures forall k :: 0 <= k < 4 ==> Pixel(c)[k] == Shade(c, k)
  {
  }

  const U32: nat := 0x1_0000_0000
  const QUARTER: nat := 0x4000_0000

  /** Casting to 32 bits keeps the low bits, and so does multiplying. */
  function ByteOffset(column: int): nat {
    column % U32 * 4 % U32
  }

  /** The span of bytes the code paints in each row. */
  function SpanStart(x: int): nat {
    ByteOffset(Max(x, 0))
  }

  function SpanEnd(x: int, w: nat, width: nat): nat {
    ByteOffset(Min(x + w, width))
  }

  /** Byte `b` of a row belongs to a column of the rectangle that is on the screen. */
  predicate InRect(x: int, w: nat, width: nat, b: nat) {
    var column := b / 4;
    x <= column < x + w && column < width
  }

  predicate InSpan(x: int, w: nat, width: nat, b: nat) {
    SpanStart(x) <= b < SpanEnd(x, w, width)
  }

  lemma OffsetIs(column: int)
    ensures ByteOffset(column) == 4 * (column % QUARTER)
  {
    var q, c := column / U32, column % U32;
    var k, m := c / QUARTER, c % QUARTER;
    assert column == (4 * q + k) * QUARTER + m;
    assert 4 * c == k * U32 + 4 * m && 4 * m < U32;
  }

  /** The span is computed without losing bits. */
  predicate SpanFits(x: int, w: nat, width: nat) {
    if x + w >= 0 then x < QUARTER || width <= x % QUARTER
    else (x + w) % QUARTER == 0
  }

  /**
   The code paints exactly the bytes of the rectangle's columns that are on the screen when
   the span fits, and only then. In particular it does so whenever the right edge is not
   left of the screen and the left edge is below 2^30.
   */
  lemma SpanExactIff(x: int, w: nat, width: nat)
    requires width < QUARTER
    ensures SpanFits(x, w, width) <==> forall b: nat :: InSpan(x, w, width, b) <==> InRect(x, w, width, b)
  {
    if SpanFits(x, w, width) {
      forall b: nat ensures InSpan(x, w, width, b) <==> InRect(x, w, width, b) { SpanExact(x, w, width, b); }
    } else {
      SpanWrong(x, w, width);
    }
  }

  lemma SpanExact(x: int, w: nat, width: nat, b: nat)
    requires width < QUARTER && SpanFits(x, w, width)
    ensures InSpan(x, w, width, b) <==> InRect(x, w, width, b)
  {
    OffsetIs(Max(x, 0));
    OffsetIs(Min(x + w, width));
    if x + w >= 0 {
      assert Min(x + w, width) % QUARTER == Min(x + w, width);
    }
  }

  /** Otherwise the first byte of the span lies outside the rectangle. */
  lemma SpanWrong(x: int, w: nat, width: nat)
    requires width < QUARTER && !SpanFits(x, w, width)
    ensures InSpan(x, w, width, SpanStart(x)) && !InRect(x, w, width, SpanStart(x))
  {
    OffsetIs(Max(x, 0));
    OffsetIs(Min(x + w, width));
    if x + w >= 0 {
      assert Min(x + w, width) == width && width % QUARTER == width;
    }
  }

  // ---- rows and bytes of the flat buffer ----

  function RowOf(i: nat, stride: nat): nat
    requires stride > 0
  {
    i / stride
  }

  function ByteOf(i: nat, stride: nat): (b: nat)
    requires stride > 0
    ensures b < stride
  {
    i % stride
  }

  function Base(r: nat, stride: nat): nat {
    r * stride
  }

  lemma DivisionIs(i: nat, stride: nat, r: nat, m: nat)
    requires i == Base(r, stride) + m && m < stride
    ensures RowOf(i, stride) == r && ByteOf(i, stride) == m
  {
    var q, n := i / stride, i % stride;
    assert i == q * stride + n;
    if q < r {
      ScaleKeepsOrder(q + 1, r, stride);
    } else if r < q {
      ScaleKeepsOrder(r + 1, q, stride);
    }
  }

  lemma IndexIs(i: nat, stride: nat)
    requires stride > 0
    ensures i == Base(RowOf(i, stride), stride) + ByteOf(i, stride)
  {
  }

  /** Byte `i` of the buffer lies in row `r`, between bytes `s` and `e` of that row. */
  lemma InRow(i: nat, stride: nat, r: nat, s: nat, e: nat)
    requires s <= e <= stride && stride > 0
    ensures Base(r, stride) + s <= i < Base(r, stride) + e <==> RowOf(i, stride) == r && s <= ByteOf(i, stride) < e
    ensures RowOf(i, stride) == r ==> i - Base(r, stride) == ByteOf(i, stride)
  {
    hide RowOf, ByteOf, Base;
    if Base(r, stride) + s <= i < Base(r, stride) + e {
      DivisionIs(i, stride, r, i - Base(r, stride));
    }
    IndexIs(i, stride);
  }

  lemma RowFits(r: nat, stride: nat, height: nat)
    requires r < height
    ensures Base(r, stride) + stride <= stride * height
  {
    ScaleKeepsOrder(r + 1, height, stride);
    assert (r + 1) * stride == r * stride + stride;
  }

  lemma RowOfIndex(i: nat, stride: nat, height: nat)
    requires stride > 0 && i < stride * height
    ensures RowOf(i, stride) < height
  {
    IndexIs(i, stride);
    if height <= RowOf(i, stride) {
      ScaleKeepsOrder(height, RowOf(i, stride), stride);
    }
  }

  // ---- rectangles on a screen ----

  datatype Area = Area(x: int, y: int, w: nat, h: nat)

  datatype Geometry = Geometry(width: nat, height: nat, stride: nat)

  /** A row holds its pixels, and its length fits 32 bits. */
  predicate Sane(g: Geometry) {
    4 * g.width <= g.stride < U32
  }

  predicate Visible(a: Area, g: Geometry, row: nat) {
    Max(a.y, 0) <= row < Min(a.y + a.h, g.height)
  }

  predicate NoRows(a: Area, g: Geometry) {
    Min(a.y + a.h, g.height) <= Max(a.y, 0)
  }

  predicate InRowSpan(i: nat, a: Area, g: Geometry, row: nat) {
    Base(row, g.stride) + SpanStart(a.x) <= i < Base(row, g.stride) + SpanEnd(a.x, a.w, g.width)
  }

  /** Byte `i` of the buffer is one the code writes. */
  ghost predicate Selected(i: nat, a: Area, g: Geometry) {
    exists row :: Visible(a, g, row) && InRowSpan(i, a, g, row)
  }

  /** The rows the code writes all end within a buffer of `len` bytes; otherwise it panics at the first that does not. */
  ghost predicate InBounds(a: Area, g: Geometry, len: nat) {
    forall row :: Visible(a, g, row) && SpanStart(a.x) < SpanEnd(a.x, a.w, g.width) ==>
      Base(row, g.stride) + SpanEnd(a.x, a.w, g.width) <= len
  }

  /** Byte `i` of the buffer belongs to a pixel of the rectangle that is on the screen. */
  predicate Covered(i: nat, a: Area, g: Geometry)
    requires g.stride > 0
  {
    InRect(a.x, a.w, g.width, ByteOf(i, g.stride)) && a.y <= RowOf(i, g.stride) < a.y + a.h
  }

  /** Both ends of a span are whole pixels. */
  lemma SpanAligned(a: Area, g: Geometry)
    ensures SpanStart(a.x) % 4 == 0 && SpanEnd(a.x, a.w, g.width) % 4 == 0
  {
    OffsetIs(Max(a.x, 0));
    OffsetIs(Min(a.x + a.w, g.width));
  }

  lemma SpanWithinRow(a: Area, g: Geometry)
    requires Sane(g) && SpanFits(a.x, a.w, g.width) && SpanStart(a.x) < SpanEnd(a.x, a.w, g.width)
    ensures SpanEnd(a.x, a.w, g.width) <= g.stride
  {
    OffsetIs(Max(a.x, 0));
    OffsetIs(Min(a.x + a.w, g.width));
    SpanExact(a.x, a.w, g.width, SpanEnd(a.x, a.w, g.width) - 1);
  }

  /** When the span fits, the bytes written in a visible row are the covered ones of that row. */
  lemma SpanIsRow(i: nat, a: Area, g: Geometry, row: nat)
    requires Sane(g) && g.stride > 0 && SpanFits(a.x, a.w, g.width) && Visible(a, g, row)
    ensures InRowSpan(i, a, g, row) <==> Covered(i, a, g) && RowOf(i, g.stride) == row
    ensures InRowSpan(i, a, g, row) ==> (i - Base(row, g.stride) - SpanStart(a.x)) % 4 == ByteOf(i, g.stride) % 4
  {
    hide RowOf, ByteOf, Base, SpanFits, SpanStart, SpanEnd, InRect;
    SpanAligned(a, g);
    SpanExact(a.x, a.w, g.width, ByteOf(i, g.stride));
    if SpanStart(a.x) < SpanEnd(a.x, a.w, g.width) {
      SpanWithinRow(a, g);
      InRow(i, g.stride, row, SpanStart(a.x), SpanEnd(a.x, a.w, g.width));
    }
  }

  /** The code neither panics nor writes any byte but those of the rectangle's pixels on the screen, and writes all of those. */
  ghost predicate PaintsRight(a: Area, g: Geometry) {
    && InBounds(a, g, g.stride * g.height)
    && (g.stride > 0 ==> forall i: nat :: i < g.stride * g.height ==> (Selected(i, a, g) <==> Covered(i, a, g)))
  }

  /** A rectangle is painted right exactly when its span fits or it has no row on the screen. */
  lemma PaintsRightIff(a: Area, g: Geometry)
    requires Sane(g)
    ensures PaintsRight(a, g) <==> SpanFits(a.x, a.w, g.width) || NoRows(a, g)
  {
    hide SpanFits, SpanStart, SpanEnd, Covered, Selected, RowOf, ByteOf, Base, InRowSpan;
    if SpanFits(a.x, a.w, g.width) || NoRows(a, g) {
      RowsInBounds(a, g);
      if g.stride > 0 {
        forall i: nat | i < g.stride * g.height ensures Selected(i, a, g) <==> Covered(i, a, g) { SelectedIsCovered(i, a, g); }
      }
    } else if PaintsRight(a, g) {
      WrongByte(a, g);
    }
  }

  lemma RowsInBounds(a: Area, g: Geometry)
    requires Sane(g) && (SpanFits(a.x, a.w, g.width) || NoRows(a, g))
    ensures InBounds(a, g, g.stride * g.height)
  {
    hide SpanFits, SpanStart, SpanEnd, Base;
    forall row: nat | Visible(a, g, row) && SpanStart(a.x) < SpanEnd(a.x, a.w, g.width)
      ensures Base(row, g.stride) + SpanEnd(a.x, a.w, g.width) <= g.stride * g.height
    {
      SpanWithinRow(a, g);
      RowFits(row, g.stride, g.height);
    }
  }

  lemma SelectedIsCovered(i: nat, a: Area, g: Geometry)
    requires Sane(g) && g.stride > 0 && i < g.stride * g.height
    requires SpanFits(a.x, a.w, g.width) || NoRows(a, g)
    ensures Selected(i, a, g) <==> Covered(i, a, g)
  {
    hide SpanFits, RowOf, ByteOf, InRowSpan, InRect;
    RowOfIndex(i, g.stride, g.height);
    if Selected(i, a, g) {
      var row :| Visible(a, g, row) && InRowSpan(i, a, g, row);
      SpanIsRow(i, a, g, row);
    } else if Covered(i, a, g) {
      SpanIsRow(i, a, g, RowOf(i, g.stride));
    }
  }

  /** A visible row with a span that does not fit: the first byte written there is outside the rectangle. */
  lemma WrongByte(a: Area, g: Geometry)
    requires Sane(g) && !SpanFits(a.x, a.w, g.width) && !NoRows(a, g) && InBounds(a, g, g.stride * g.height)
    ensures g.stride > 0
    ensures var i := Base(Max(a.y, 0), g.stride) + SpanStart(a.x);
            i < g.stride * g.height && Selected(i, a, g) && !Covered(i, a, g)
  {
    hide SpanFits, SpanEnd, RowOf, ByteOf, Base, InRect;
    var row, start := Max(a.y, 0), SpanStart(a.x);
    SpanWrong(a.x, a.w, g.width);
    assert Visible(a, g, row);
    StartWithinRow(a, g);
    if g.stride > 0 {
      DivisionIs(Base(row, g.stride) + start, g.stride, row, start);
      assert InRowSpan(Base(row, g.stride) + start, a, g, row);
    }
  }

  lemma StartWithinRow(a: Area, g: Geometry)
    requires Sane(g) && !SpanFits(a.x, a.w, g.width) && Visible(a, g, Max(a.y, 0)) && InBounds(a, g, g.stride * g.height)
    ensures g.stride > 0 && SpanStart(a.x) < g.stride
  {
    hide SpanFits, SpanStart, SpanEnd;
    SpanWrong(a.x, a.w, g.width);
    WrongStart(a.x, a.w, g.width);
    assert Base(Max(a.y, 0), g.stride) + SpanEnd(a.x, a.w, g.width) <= g.stride * g.height;
  }

  lemma WrongStart(x: int, w: nat, width: nat)
    requires width < QUARTER && !SpanFits(x, w, width)
    ensures SpanStart(x) == 0 || SpanStart(x) < 4 * width
  {
    OffsetIs(Max(x, 0));
  }

  // ---- painting row by row ----

  ghost predicate SelectedAbove(i: nat, a: Area, g: Geometry, row: nat) {
    exists r: nat :: r < row && Visible(a, g, r) && InRowSpan(i, a, g, r)
  }

  predicate Exact(a: Area, g: Geometry) {
    Sane(g) && g.stride > 0 && SpanFits(a.x, a.w, g.width)
  }

  /** What byte `i` holds once the rows above `row` are done: `now`, having held `was`. */
  ghost predicate ByteDone(i: nat, now: Byte, was: Byte, a: Area, g: Geometry, row: nat, px: seq<Byte>)
    requires |px| == 4
  {
    && (!SelectedAbove(i, a, g, row) ==> now == was)
    && (SelectedAbove(i, a, g, row) ==> now in px)
    && (Exact(a, g) ==> now == if Covered(i, a, g) && RowOf(i, g.stride) < row then px[ByteOf(i, g.stride) % 4] else was)
  }

  lemma ByteAtStart(i: nat, was: Byte, a: Area, g: Geometry, px: seq<Byte>)
    requires |px| == 4
    ensures ByteDone(i, was, was, a, g, Max(a.y, 0), px)
  {
    hide SpanFits, InRowSpan, InRect, ByteOf, RowOf;
  }

  lemma ByteNext(i: nat, before: Byte, now: Byte, was: Byte, a: Area, g: Geometry, row: nat, px: seq<Byte>)
    requires |px| == 4 && Visible(a, g, row) && ByteDone(i, before, was, a, g, row, px)
    requires if InRowSpan(i, a, g, row) then now == px[(i - Base(row, g.stride) - SpanStart(a.x)) % 4] else now == before
    ensures ByteDone(i, now, was, a, g, row + 1, px)
  {
    hide SpanFits, SpanStart, RowOf, ByteOf, Base, InRowSpan, Covered, Sane;
    if Exact(a, g) {
      SpanIsRow(i, a, g, row);
    }
    assert InRowSpan(i, a, g, row) ==> SelectedAbove(i, a, g, row + 1);
    assert SelectedAbove(i, a, g, row) ==> SelectedAbove(i, a, g, row + 1);
    if SelectedAbove(i, a, g, row + 1) && !InRowSpan(i, a, g, row) {
      var r: nat :| r < row + 1 && Visible(a, g, r) && InRowSpan(i, a, g, r);
      assert r < row;
    }
  }

  lemma Untouched(i: nat, now: Byte, was: Byte, a: Area, g: Geometry, row: nat, px: seq<Byte>)
    requires |px| == 4 && ByteDone(i, now, was, a, g, row, px) && !Selected(i, a, g)
    ensures now == was
  {
    hide SpanFits, InRowSpan, Covered;
  }

  /** After the last visible row. */
  lemma ByteAtEnd(i: nat, now: Byte, was: Byte, a: Area, g: Geometry, row: nat, px: seq<Byte>)
    requires |px| == 4 && ByteDone(i, now, was, a, g, row, px) && Min(a.y + a.h, g.height) <= row
    ensures !Selected(i, a, g) ==> now == was
    ensures Selected(i, a, g) ==> now in px
    ensures Sane(g) && g.stride > 0 && i < g.stride * g.height && (SpanFits(a.x, a.w, g.width) || NoRows(a, g)) ==>
              now == if Covered(i, a, g) then px[ByteOf(i, g.stride) % 4] else was
  {
    hide SpanFits, RowOf, ByteOf, InRowSpan, InRect;
    if Selected(i, a, g) {
      var r :| Visible(a, g, r) && InRowSpan(i, a, g, r);
      assert SelectedAbove(i, a, g, row);
    }
    if g.stride > 0 && i < g.stride * g.height {
      RowOfIndex(i, g.stride, g.height);
    }
  }

  /** On a screen of one pixel: a column 2^30 to the right paints it, a column one off to the left panics. */
  lemma WrongCalls()
    ensures var g, right, left := Geometry(1, 1, 4), Area(QUARTER, 0, 1, 1), Area(-2, 0, 1, 1);
            && InBounds(right, g, 4) && Selected(0, right, g) && !Covered(0, right, g)
            && !InBounds(left, g, 4)
  {
    var g, right, left := Geometry(1, 1, 4), Area(QUARTER, 0, 1, 1), Area(-2, 0, 1, 1);
    OffsetIs(QUARTER);
    OffsetIs(1);
    OffsetIs(-1);
    assert Visible(right, g, 0) && InRowSpan(0, right, g, 0);
    assert Visible(left, g, 0);
  }

  class Screen {
    const width: nat
    const height: nat
    const stride: nat
    const buf: array<Byte>

    ghost predicate Valid()
    {
      Sane(Shape()) && buf.Length == stride * height
    }

    ghost function Shape(): Geometry {
      Geometry(width, height, stride)
    }

    /** Any geometry is taken; the size of the buffer is computed on 32 bits. */
    constructor (width: nat, height: nat, stride: nat)
      requires width < U32 && height < U32 && stride < U32
      ensures Shape() == Geometry(width, height, stride) && fresh(buf) && buf.Length == stride * height % U32
      ensures Valid() <==> 4 * width <= stride && stride * height < U32
      ensures forall i :: 0 <= i < buf.Length ==> buf[i] == 0
    {
      this.width, this.height, this.stride := width, height, stride;
      buf := new Byte[stride * height % U32](_ => 0);
    }

    /** Fills the bytes `from` to `to` with copies of the pixel. */
    method PaintSpan(from: nat, to: nat, px: seq<Byte>)
      requires from <= to <= buf.Length && |px| == 4 && (to - from) % 4 == 0
      modifies buf
      ensures forall i :: 0 <= i < buf.Length ==> buf[i] == if from <= i < to then px[(i - from) % 4] else old(buf[i])
    {
      var pos := from;
      while pos < to
        invariant from <= pos <= to && (pos - from) % 4 == 0
        invariant forall i :: 0 <= i < buf.Length ==> buf[i] == if from <= i < pos then px[(i - from) % 4] else old(buf[i])
      {
        buf[pos], buf[pos + 1], buf[pos + 2], buf[pos + 3] := px[0], px[1], px[2], px[3];
        pos := pos + 4;
      }
    }

    /** Paints one row of the rectangle; `ok` is false if its slice of the buffer does not exist. */
    method PaintRow(ghost a: Area, row: nat, start: nat, end: nat, px: seq<Byte>) returns (ok: bool)
      requires Visible(a, Shape(), row) && |px| == 4
      requires start == SpanStart(a.x) && end == SpanEnd(a.x, a.w, width)
      modifies buf
      ensures ok <==> end <= start || Base(row, stride) + end <= buf.Length
      ensures !ok ==> forall i :: 0 <= i < buf.Length ==> buf[i] == old(buf[i])
      ensures ok ==> forall i :: 0 <= i < buf.Length ==>
                if InRowSpan(i, a, Shape(), row) then buf[i] == px[(i - Base(row, stride) - start) % 4] else buf[i] == old(buf[i])
    {
      hide SpanStart, SpanEnd, Base;
      if end <= start { return true; }
      var base := Base(row, stride);
      if base + end > buf.Length { return false; }
      SpanAligned(a, Shape());
      PaintSpan(base + start, base + end, px);
      ok := true;
    }

    /**
     For any call: `ok` is false exactly when the code panics, no byte outside the selected
     spans changes, and without a panic every byte inside them holds a byte of the pixel.
     On a valid screen, when the span fits or no row is visible, there is no panic, every byte
     of every covered pixel gets its colour and no other byte changes.
     */
    method Rect(x: int, y: int, w: nat, h: nat, c: Rgb) returns (ok: bool)
      modifies buf
      ensures ok <==> InBounds(Area(x, y, w, h), Shape(), buf.Length)
      ensures forall i :: 0 <= i < buf.Length && !Selected(i, Area(x, y, w, h), Shape()) ==> buf[i] == old(buf[i])
      ensures ok ==> forall i :: 0 <= i < buf.Length && Selected(i, Area(x, y, w, h), Shape()) ==> buf[i] in Pixel(c)
      ensures Valid() && (SpanFits(x, w, width) || NoRows(Area(x, y, w, h), Shape())) ==>
                && ok
                && (stride > 0 ==> forall i :: 0 <= i < buf.Length ==>
                      buf[i] == if Covered(i, Area(x, y, w, h), Shape()) then Shade(c, ByteOf(i, stride) % 4) else old(buf[i]))
    {
      hide SpanFits, SpanStart, SpanEnd, Covered, RowOf, ByteOf, Base, InRowSpan, Selected, ByteDone, Pixel;
      PixelShades(c);
      ghost var a, g := Area(x, y, w, h), Shape();
      var px := Pixel(c);
      var start, end := SpanStart(x), SpanEnd(x, w, width);
      var first, last := Max(y, 0), Min(y + h, height);
      var row := first;
      forall i | 0 <= i < buf.Length ensures ByteDone(i, buf[i], buf[i], a, g, row, px) { ByteAtStart(i, buf[i], a, g, px); }
      while row < last
        invariant first <= row && (row <= last || row == first)
        invariant forall r :: first <= r < row && start < end ==> Base(r, stride) + end <= buf.Length
        invariant forall i :: 0 <= i < buf.Length ==> ByteDone(i, buf[i], old(buf[i]), a, g, row, px)
      {
        ghost var before := buf[..];
        ok := PaintRow(a, row, start, end, px);
        if !ok {
          assert Visible(a, g, row);
          forall i | 0 <= i < buf.Length && !Selected(i, a, g) ensures buf[i] == old(buf[i]) {
            Untouched(i, buf[i], old(buf[i]), a, g, row, px);
          }
          if Valid() && (SpanFits(x, w, width) || NoRows(a, g)) { RowsInBounds(a, g); }
          return;
        }
        forall i | 0 <= i < buf.Length ensures ByteDone(i, buf[i], old(buf[i]), a, g, row + 1, px) {
          ByteNext(i, before[i], buf[i], old(buf[i]), a, g, row, px);
        }
        row := row + 1;
      }
      ok := true;
      forall i | 0 <= i < buf.Length
        ensures !Selected(i, a, g) ==> buf[i] == old(buf[i])
        ensures Selected(i, a, g) ==> buf[i] in px
        ensures Valid() && stride > 0 && (SpanFits(x, w, width) || NoRows(a, g)) ==>
                  buf[i] == if Covered(i, a, g) then px[ByteOf(i, stride) % 4] else old(buf[i])
      {
        ByteAtEnd(i, buf[i], old(buf[i]), a, g, row, px);
      }
    }
  }
}
