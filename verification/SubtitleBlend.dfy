/** blend_subrect of ffplay: alpha-blend a palettised subtitle rectangle into a planar
    picture whose two chroma planes are subsampled by two in both directions.

    The code walks pointers over the planes, two rows and two columns at a time, with
    separate branches for odd edges.  The specification is per sample: LumaSpec gives one
    luma sample, CellAt the pixels that a chroma sample covers; BlendSubrect is proved
    against both. */
module SubtitleBlend {

  import opened Bytes

  /** One palette entry, already converted to YCrCb. */
  datatype Yuva = Yuva(y: byte, u: byte, v: byte, a: byte)

  /** rect->pict: palette indices with a line size, and 256 packed palette words. */
  datatype Bitmap = Bitmap(data: seq<byte>, linesize: nat, palette: seq<nat>)

  // ---------- One sample ----------

  /** YUVA_IN. */
  function Unpack(word: nat): Yuva {
    Yuva(word / 0x10000 % 256, word / 0x100 % 256, word % 256, word / 0x1000000 % 256)
  }

  function Entry(b: Bitmap, k: int): Yuva
    requires 0 <= k < |b.data| && |b.palette| == 256
  {
    Unpack(b.palette[b.data[k]])
  }

  function Scale(s: nat): nat {
    if s == 0 then 1 else if s == 1 then 2 else 4
  }

  /** ALPHA_BLEND.  A blend of byte samples is a byte; alpha 0 keeps the old sample and
      alpha 255 replaces it. */
  function AlphaBlend(a: nat, oldp: byte, newp: nat, s: nat): (r: byte)
    requires a <= 255 && s <= 2 && newp <= 255 * Scale(s)
    ensures a == 0 ==> r == oldp
    ensures a == 255 ==> r == newp / Scale(s)
  {
    BlendStaysByte(a, oldp, newp, Scale(s));
    (oldp * Scale(s) * (255 - a) + newp * a) / (255 * Scale(s))
  }

  lemma {:induction false} Nonnegative(p: nat, k: nat)
    ensures 0 <= p * k
  {
    if k > 0 {
      Nonnegative(p, k - 1);
      assert p * k == p * (k - 1) + p;
    }
  }

  lemma TimesMono(p: nat, top: nat, k: nat)
    requires p <= top
    ensures 0 <= p * k <= top * k
  {
    Nonnegative(p, k);
    Nonnegative(top - p, k);
    assert top * k == p * k + (top - p) * k;
  }

  lemma MixBound(p: nat, q: nat, a: nat, top: nat)
    requires p <= top && q <= top && a <= 255
    ensures 0 <= p * (255 - a) + q * a <= 255 * top
  {
    TimesMono(p, top, 255 - a);
    TimesMono(q, top, a);
    TimesSplit(top, a);
    AddsUp(p * (255 - a), q * a, top * (255 - a), top * a, 255 * top);
  }

  lemma TimesSplit(top: nat, a: nat)
    requires a <= 255
    ensures top * (255 - a) + top * a == 255 * top
  {
  }

  lemma AddsUp(x: int, y: int, xTop: int, yTop: int, top: int)
    requires 0 <= x <= xTop && 0 <= y <= yTop && xTop + yTop == top
    ensures 0 <= x + y <= top
  {
  }

  lemma BlendStaysByte(a: nat, oldp: byte, newp: nat, k: nat)
    requires a <= 255 && (k == 1 || k == 2 || k == 4) && newp <= 255 * k
    ensures 0 <= (oldp * k * (255 - a) + newp * a) / (255 * k) <= 255
    ensures a == 0 ==> (oldp * k * (255 - a) + newp * a) / (255 * k) == oldp
    ensures a == 255 ==> (oldp * k * (255 - a) + newp * a) / (255 * k) == newp / k
  {
    MixBound(oldp * k, newp, a, 255 * k);
    var num := oldp * k * (255 - a) + newp * a;
    assert a == 0 ==> num == oldp * k * 255;
    assert a == 255 ==> num == newp * 255;
    Shares(num, oldp, newp, k);
  }

  lemma Shares(num: nat, oldp: nat, newp: nat, k: nat)
    requires (k == 1 || k == 2 || k == 4) && num <= 255 * (255 * k)
    ensures num / (255 * k) <= 255
    ensures num == oldp * k * 255 ==> num / (255 * k) == oldp
    ensures num == newp * 255 ==> num / (255 * k) == newp / k
  {
    if k == 1 {
      assert num / 255 <= 255;
    } else if k == 2 {
      assert num / 510 <= 255;
    } else {
      assert num / 1020 <= 255;
    }
  }

  // ---------- What a blend is ----------

  lemma MixIsAffine(base: nat, newp: nat, a: nat)
    requires a <= 255
    ensures base * (255 - a) + newp * a == 255 * base + a * (newp - base)
  {
  }

  lemma DivideMono(x: nat, y: nat, k: nat)
    requires x <= y && (k == 1 || k == 2 || k == 4)
    ensures x / (255 * k) <= y / (255 * k)
  {
    if k == 1 {
      assert x / 255 <= y / 255;
    } else if k == 2 {
      assert x / 510 <= y / 510;
    } else {
      assert x / 1020 <= y / 1020;
    }
  }

  lemma Quotient(x: nat, k: nat, r: nat)
    requires (k == 1 || k == 2 || k == 4) && r == x / (255 * k)
    ensures 255 * k * r <= x < 255 * k * r + 255 * k
  {
    if k == 1 {
      assert r == x / 255;
    } else if k == 2 {
      assert r == x / 510;
    } else {
      assert r == x / 1020;
    }
  }

  /** A blend is the weighted sum of the old sample and of the sum of new ones, divided by 255
      times their number, rounded down. */
  lemma BlendIsMix(a: nat, oldp: byte, newp: nat, s: nat)
    requires a <= 255 && s <= 2 && newp <= 255 * Scale(s)
    ensures var k := if s == 0 then 1 else if s == 1 then 2 else 4;
      var r, mix := AlphaBlend(a, oldp, newp, s), oldp * k * (255 - a) + newp * a;
      255 * k * r <= mix < 255 * k * r + 255 * k
  {
    var k := Scale(s);
    MixBound(oldp * k, newp, a, 255 * k);
    Quotient(oldp * k * (255 - a) + newp * a, k, AlphaBlend(a, oldp, newp, s));
  }

  /** The mixes for two alphas, in the order of the alphas. */
  lemma MixMoves(base: nat, newp: nat, a: nat, b: nat)
    requires a <= b <= 255
    ensures newp >= base ==> base * (255 - a) + newp * a <= base * (255 - b) + newp * b
    ensures newp <= base ==> base * (255 - a) + newp * a >= base * (255 - b) + newp * b
  {
    MixIsAffine(base, newp, a);
    MixIsAffine(base, newp, b);
    if newp >= base {
      TimesMono(a, b, newp - base);
    } else {
      TimesMono(a, b, base - newp);
      assert a * (newp - base) == -(a * (base - newp)) && b * (newp - base) == -(b * (base - newp));
    }
  }

  /** With a growing alpha the blend moves from the old sample towards the mean of the new
      ones. */
  lemma BlendMoves(a: nat, b: nat, oldp: byte, newp: nat, s: nat)
    requires a <= b <= 255 && s <= 2 && newp <= 255 * Scale(s)
    ensures newp >= oldp * Scale(s) ==> AlphaBlend(a, oldp, newp, s) <= AlphaBlend(b, oldp, newp, s)
    ensures newp <= oldp * Scale(s) ==> AlphaBlend(a, oldp, newp, s) >= AlphaBlend(b, oldp, newp, s)
  {
    var k := Scale(s);
    var base := oldp * k;
    MixBound(base, newp, a, 255 * k);
    MixBound(base, newp, b, 255 * k);
    MixMoves(base, newp, a, b);
    var x, y := base * (255 - a) + newp * a, base * (255 - b) + newp * b;
    if newp >= base { DivideMono(x, y, k); }
    if newp <= base { DivideMono(y, x, k); }
  }

  /** The blend lies between the old sample and the mean of the new ones. */
  lemma BlendLiesBetween(a: nat, oldp: byte, newp: nat, s: nat)
    requires a <= 255 && s <= 2 && newp <= 255 * Scale(s)
    ensures newp >= oldp * Scale(s) ==> oldp <= AlphaBlend(a, oldp, newp, s) <= newp / Scale(s)
    ensures newp <= oldp * Scale(s) ==> newp / Scale(s) <= AlphaBlend(a, oldp, newp, s) <= oldp
  {
    hide AlphaBlend;
    BlendMoves(0, a, oldp, newp, s);
    BlendMoves(a, 255, oldp, newp, s);
  }

  /** The bitmap pixels under one chroma sample: how many, and their summed entries. */
  datatype Sum = Sum(n: nat, a: nat, u: nat, v: nat)
  type Cover = c: Sum | c.a <= 255 * c.n && c.u <= 255 * c.n && c.v <= 255 * c.n
    witness Sum(0, 0, 0, 0)

  datatype Channel = U | V

  function Plus(p: Cover, q: Cover): Cover {
    Sum(p.n + q.n, p.a + q.a, p.u + q.u, p.v + q.v)
  }

  function Single(e: Yuva): Cover {
    Sum(1, e.a, e.u, e.v)
  }

  function LumaMix(e: Yuva, oldp: byte): byte {
    AlphaBlend(e.a, oldp, e.y, 0)
  }

  /** A chroma sample blended once with the sum of the entries it covers; the alpha is
      always a quarter of the summed alpha. */
  function Mixed(k: Cover, ch: Channel, oldp: byte): byte
    requires k.n <= 4
  {
    if k.n == 0 then oldp
    else AlphaBlend(k.a / 4, oldp, if ch.U? then k.u else k.v,
                    if k.n == 1 then 0 else if k.n == 2 then 1 else 2)
  }

  // ---------- The specification of the whole call ----------

  /** The clipped destination rectangle. */
  datatype Area = Area(x: nat, y: nat, w: nat, h: nat)

  function Clip(v: int, lo: int, hi: int): int {
    if v < lo then lo else if v > hi then hi else v
  }

  /** Both the size and the position are clipped to the image. */
  function ClippedArea(x: int, y: int, w: int, h: int, imgw: int, imgh: int): (r: Area)
    requires w >= 1 && h >= 1 && imgw >= 1 && imgh >= 1
    ensures 1 <= r.w && r.x + r.w <= imgw && 1 <= r.h && r.y + r.h <= imgh
    ensures 0 <= x && x + w <= imgw ==> r.x == x && r.w == w
    ensures 0 <= y && y + h <= imgh ==> r.y == y && r.h == h
    ensures r.w == (if w < imgw then w else imgw) && r.h == (if h < imgh then h else imgh)
    ensures (x < 0 ==> r.x == 0) && (x > imgw - r.w ==> r.x == imgw - r.w)
    ensures (y < 0 ==> r.y == 0) && (y > imgh - r.h ==> r.y == imgh - r.h)
    ensures (0 <= x <= imgw - r.w ==> r.x == x) && (0 <= y <= imgh - r.h ==> r.y == y)
  {
    var dstw, dsth := Clip(w, 0, imgw), Clip(h, 0, imgh);
    Area(Clip(x, 0, imgw - dstw), Clip(y, 0, imgh - dsth), dstw, dsth)
  }

  /** Index of the first sample of a row. */
  function RowStart(row: nat, stride: nat): nat {
    if row == 0 then 0 else RowStart(row - 1, stride) + stride
  }

  /** The bitmap holds a pixel for every row and column of the area. */
  ghost predicate Covers(b: Bitmap, r: Area) {
    |b.palette| == 256 && forall k :: 0 <= k < r.h ==> RowStart(k, b.linesize) + r.w <= |b.data|
  }

  predicate Inside(r: Area, row: int, col: int) {
    r.y <= row < r.y + r.h && r.x <= col < r.x + r.w
  }

  ghost function PixelAt(b: Bitmap, r: Area, row: int, col: int): Yuva
    requires Covers(b, r) && Inside(r, row, col)
  {
    Entry(b, RowStart(row - r.y, b.linesize) + (col - r.x))
  }

  /** Luma sample i of a plane with the given line size. */
  ghost function LumaSpec(b: Bitmap, r: Area, wrap: nat, was: seq<byte>, i: nat): byte
    requires Covers(b, r) && 1 <= wrap && i < |was|
  {
    if Inside(r, i / wrap, i % wrap) then LumaMix(PixelAt(b, r, i / wrap, i % wrap), was[i]) else was[i]
  }

  ghost function CoverAt(b: Bitmap, r: Area, row: int, col: int): (k: Cover)
    requires Covers(b, r)
    ensures k.n == if Inside(r, row, col) then 1 else 0
  {
    if Inside(r, row, col) then Single(PixelAt(b, r, row, col)) else Sum(0, 0, 0, 0)
  }

  ghost function HalfCell(b: Bitmap, r: Area, row: int, col: int): (k: Cover)
    requires Covers(b, r)
    ensures k.n <= 2
  {
    Plus(CoverAt(b, r, row, col), CoverAt(b, r, row, col + 1))
  }

  /** The pixels of the area under the 2x2 cell of chroma sample (row, col). */
  ghost function CellAt(b: Bitmap, r: Area, row: int, col: int): (k: Cover)
    requires Covers(b, r)
    ensures k.n <= 4
  {
    Plus(HalfCell(b, r, 2 * row, 2 * col), HalfCell(b, r, 2 * row + 1, 2 * col))
  }

  /** The last row of the area is handled on its own and has a full pair of columns. */
  predicate LastRowHalves(r: Area) {
    (r.h - r.y % 2) % 2 == 1 && r.w - r.x % 2 >= 2
  }

  /** The first row is handled on its own, ends with a single column, and more rows
      follow: its tail forgets to advance the chroma pointers. */
  predicate FirstRowDrifts(r: Area) {
    r.y % 2 == 1 && (r.w - r.x % 2) % 2 == 1 && r.h >= 2
  }

  /** What the code blends: the same pixels, except that in a last row handled on its
      own a full pair of columns counts only the right-hand chroma. */
  ghost function CodeCell(b: Bitmap, r: Area, row: int, col: int): (k: Cover)
    requires Covers(b, r)
    ensures k.n <= 4
  {
    RightChroma(LastRowHalves(r) && 2 * row == r.y + r.h - 1,
                CellAt(b, r, row, col), CoverAt(b, r, 2 * row, 2 * col + 1))
  }

  /** Two columns with the chroma of the right-hand one; anything else is left alone. */
  function RightChroma(halve: bool, k: Cover, right: Cover): (r: Cover)
    requires right.n <= 1
    ensures r.n == k.n && r.a == k.a
  {
    if halve && k.n == 2 then Sum(2, k.a, right.u, right.v) else k
  }

  /** Chroma sample j blended once with the pixels of the area under its cell. */
  ghost function ChromaSpec(b: Bitmap, r: Area, wrap: nat, was: seq<byte>, ch: Channel, j: nat): byte
    requires Covers(b, r) && 1 <= wrap && j < |was|
  {
    Mixed(CellAt(b, r, j / wrap, j % wrap), ch, was[j])
  }

  /** Chroma sample j blended with what the code makes of its cell. */
  ghost function ChromaInPlace(b: Bitmap, r: Area, wrap: nat, was: seq<byte>, ch: Channel, j: nat): byte
    requires Covers(b, r) && 1 <= wrap && j < |was|
  {
    Mixed(CodeCell(b, r, j / wrap, j % wrap), ch, was[j])
  }

  /** The cell that the passes blend when the chroma pointers lag: once they do, the first
      chroma row of the area is done. */
  ghost function StepCell(b: Bitmap, r: Area, row: int, col: int, lag: nat): (k: Cover)
    requires Covers(b, r)
    ensures k.n <= 4
  {
    if lag > 0 && row <= r.y / 2 then Sum(0, 0, 0, 0) else CodeCell(b, r, row, col)
  }

  /** Chroma sample j after the whole call.  If the first row drifts, the first chroma row
      is blended in place and the cells of all later rows land one sample to the left. */
  ghost function ChromaResult(b: Bitmap, r: Area, wrap: nat, was: seq<byte>, ch: Channel, j: nat): byte
    requires Covers(b, r) && 1 <= wrap && j < |was|
  {
    if !FirstRowDrifts(r) then ChromaInPlace(b, r, wrap, was, ch, j)
    else
      var first := if j < RowStart(r.y / 2 + 1, wrap) then ChromaInPlace(b, r, wrap, was, ch, j) else was[j];
      Mixed(StepCell(b, r, (j + 1) / wrap, (j + 1) % wrap, 1), ch, first)
  }

  /** The code blends the sum of all covered pixels exactly when the sample is not in a
      halved last row, or covers one pixel only, or its left-hand pixel adds no chroma. */
  lemma CodeCellIsCell(b: Bitmap, r: Area, row: int, col: int)
    requires Covers(b, r)
    ensures var left := CoverAt(b, r, 2 * row, 2 * col);
      CodeCell(b, r, row, col) == CellAt(b, r, row, col) <==>
        !LastRowHalves(r) || 2 * row != r.y + r.h - 1 || CellAt(b, r, row, col).n != 2 || left.u == left.v == 0
  {
    hide CoverAt;
    if LastRowHalves(r) && 2 * row == r.y + r.h - 1 {
      hide Plus;
      var half := HalfCell(b, r, 2 * row, 2 * col);
      EmptyHalfCell(b, r, 2 * row + 1, 2 * col);
      PlusNothing(half);
      TwoColumns(CoverAt(b, r, 2 * row, 2 * col), CoverAt(b, r, 2 * row, 2 * col + 1));
    }
  }

  lemma TwoColumns(left: Cover, right: Cover)
    requires left.n <= 1 && right.n <= 1
    ensures var k := Plus(left, right);
      k.n == 2 ==> (RightChroma(true, k, right) == k <==> left.u == left.v == 0)
  {
  }

  // ---------- What the specification says in bytes ----------

  /** The palette word of a pixel of the area: alpha, luma and the two chromas, from the high
      byte down. */
  ghost function WordAt(b: Bitmap, r: Area, row: int, col: int): nat
    requires Covers(b, r) && Inside(r, row, col)
  {
    b.palette[b.data[RowStart(row - r.y, b.linesize) + (col - r.x)]]
  }

  ghost function AlphaAt(b: Bitmap, r: Area, row: int, col: int): nat
    requires Covers(b, r)
  {
    if Inside(r, row, col) then WordAt(b, r, row, col) / 0x1000000 % 256 else 0
  }

  ghost function ChromaAt(b: Bitmap, r: Area, ch: Channel, row: int, col: int): nat
    requires Covers(b, r)
  {
    if !Inside(r, row, col) then 0
    else if ch.U? then WordAt(b, r, row, col) / 0x100 % 256
    else WordAt(b, r, row, col) % 256
  }

  /** A luma sample inside the area is the mix of the old sample and the luma of its palette
      word by the alpha of that word; any other sample is kept. */
  lemma LumaIsMix(b: Bitmap, r: Area, wrap: nat, was: seq<byte>, i: nat)
    requires Covers(b, r) && 1 <= wrap && i < |was|
    ensures var row, col, now := i / wrap, i % wrap, LumaSpec(b, r, wrap, was, i);
      if r.y <= row < r.y + r.h && r.x <= col < r.x + r.w then
        var word := WordAt(b, r, row, col);
        var a, y := word / 0x1000000 % 256, word / 0x10000 % 256;
        255 * now <= was[i] * (255 - a) + y * a < 255 * now + 255
      else now == was[i]
  {
    if Inside(r, i / wrap, i % wrap) {
      var e := PixelAt(b, r, i / wrap, i % wrap);
      BlendIsMix(e.a, was[i], e.y, 0);
    }
  }

  /** The cell of a chroma sample sums up its four pixels. */
  lemma CellSums(b: Bitmap, r: Area, row: int, col: int)
    requires Covers(b, r)
    ensures var k, y, x := CellAt(b, r, row, col), 2 * row, 2 * col;
      && k.n == (if Inside(r, y, x) then 1 else 0) + (if Inside(r, y, x + 1) then 1 else 0) +
                (if Inside(r, y + 1, x) then 1 else 0) + (if Inside(r, y + 1, x + 1) then 1 else 0)
      && k.a == AlphaAt(b, r, y, x) + AlphaAt(b, r, y, x + 1) +
                AlphaAt(b, r, y + 1, x) + AlphaAt(b, r, y + 1, x + 1)
      && k.u == ChromaAt(b, r, U, y, x) + ChromaAt(b, r, U, y, x + 1) +
                ChromaAt(b, r, U, y + 1, x) + ChromaAt(b, r, U, y + 1, x + 1)
      && k.v == ChromaAt(b, r, V, y, x) + ChromaAt(b, r, V, y, x + 1) +
                ChromaAt(b, r, V, y + 1, x) + ChromaAt(b, r, V, y + 1, x + 1)
  {
    hide CellAt, CoverAt, AlphaAt, ChromaAt, Inside, Covers, Plus;
    CellIsFour(b, r, row, col);
    CoverWord(b, r, 2 * row, 2 * col);
    CoverWord(b, r, 2 * row, 2 * col + 1);
    CoverWord(b, r, 2 * row + 1, 2 * col);
    CoverWord(b, r, 2 * row + 1, 2 * col + 1);
  }

  lemma CellIsFour(b: Bitmap, r: Area, row: int, col: int)
    requires Covers(b, r)
    ensures var k, y, x := CellAt(b, r, row, col), 2 * row, 2 * col;
      var p, q := CoverAt(b, r, y, x), CoverAt(b, r, y, x + 1);
      var s, t := CoverAt(b, r, y + 1, x), CoverAt(b, r, y + 1, x + 1);
      && k.n == p.n + q.n + s.n + t.n && k.a == p.a + q.a + s.a + t.a
      && k.u == p.u + q.u + s.u + t.u && k.v == p.v + q.v + s.v + t.v
  {
    hide CoverAt, Covers, Plus, Inside;
    var y, x := 2 * row, 2 * col;
    PlusAdds(CoverAt(b, r, y, x), CoverAt(b, r, y, x + 1));
    PlusAdds(CoverAt(b, r, y + 1, x), CoverAt(b, r, y + 1, x + 1));
    PlusAdds(HalfCell(b, r, y, x), HalfCell(b, r, y + 1, x));
  }

  lemma PlusAdds(p: Cover, q: Cover)
    ensures var k := Plus(p, q); k.n == p.n + q.n && k.a == p.a + q.a && k.u == p.u + q.u && k.v == p.v + q.v
  {
  }

  lemma CoverWord(b: Bitmap, r: Area, row: int, col: int)
    requires Covers(b, r)
    ensures CoverAt(b, r, row, col) == Sum(if Inside(r, row, col) then 1 else 0, AlphaAt(b, r, row, col),
                                           ChromaAt(b, r, U, row, col), ChromaAt(b, r, V, row, col))
  {
  }

  /** A chroma sample that covers n pixels is the mix of the old sample and the mean of their
      chromas, by a quarter of their summed alpha; a sample that covers none is kept. */
  lemma ChromaIsMix(b: Bitmap, r: Area, wrap: nat, was: seq<byte>, ch: Channel, j: nat)
    requires Covers(b, r) && 1 <= wrap && j < |was|
    ensures
      var y, x, now := 2 * (j / wrap), 2 * (j % wrap), ChromaSpec(b, r, wrap, was, ch, j);
      var n := (if Inside(r, y, x) then 1 else 0) + (if Inside(r, y, x + 1) then 1 else 0) +
               (if Inside(r, y + 1, x) then 1 else 0) + (if Inside(r, y + 1, x + 1) then 1 else 0);
      var a := (AlphaAt(b, r, y, x) + AlphaAt(b, r, y, x + 1) +
                AlphaAt(b, r, y + 1, x) + AlphaAt(b, r, y + 1, x + 1)) / 4;
      var sum := ChromaAt(b, r, ch, y, x) + ChromaAt(b, r, ch, y, x + 1) +
                 ChromaAt(b, r, ch, y + 1, x) + ChromaAt(b, r, ch, y + 1, x + 1);
      if n == 0 then now == was[j]
      else n != 3 && a <= 255 && 255 * n * now <= was[j] * n * (255 - a) + sum * a < 255 * n * now + 255 * n
  {
    hide AlphaAt, ChromaAt, CellAt, Mixed, Inside, Covers;
    CellSums(b, r, j / wrap, j % wrap);
    NeverThree(r, 2 * (j / wrap), 2 * (j % wrap));
    MixedIsMean(CellAt(b, r, j / wrap, j % wrap), ch, was[j]);
  }

  /** A rectangle covers no, one, two or four pixels of a square. */
  lemma NeverThree(r: Area, y: int, x: int)
    ensures (if Inside(r, y, x) then 1 else 0) + (if Inside(r, y, x + 1) then 1 else 0) +
            (if Inside(r, y + 1, x) then 1 else 0) + (if Inside(r, y + 1, x + 1) then 1 else 0) != 3
  {
  }

  lemma MixedIsMean(k: Cover, ch: Channel, oldp: byte)
    requires k.n <= 4 && k.n != 3
    ensures var now, a, sum := Mixed(k, ch, oldp), k.a / 4, if ch.U? then k.u else k.v;
      if k.n == 0 then now == oldp
      else a <= 255 && 255 * k.n * now <= oldp * k.n * (255 - a) + sum * a < 255 * k.n * now + 255 * k.n
  {
    hide AlphaBlend;
    if k.n != 0 {
      BlendIsMix(k.a / 4, oldp, if ch.U? then k.u else k.v, if k.n == 1 then 0 else if k.n == 2 then 1 else 2);
    }
  }

  // ---------- One step of the row loop, as an update of three planes ----------

  predicate Readable(b: Bitmap, q: int, w: int) {
    0 <= q && q + w <= |b.data| && |b.palette| == 256
  }

  function Dot(b: Bitmap, p: int): Cover
    requires Readable(b, p, 1)
  {
    Single(Entry(b, p))
  }

  /** Which rows a pass over the columns works on. */
  datatype Rows = First | Pair | Last

  /** The pixels of one column, or of two columns, that a step sums up. */
  function ColumnCover(b: Bitmap, rows: Rows, p: int): (k: Cover)
    requires Readable(b, p, 1) && (rows.Pair? ==> Readable(b, p + b.linesize, 1))
    ensures k.n <= 2
  {
    if rows.Pair? then Plus(Dot(b, p), Dot(b, p + b.linesize)) else Dot(b, p)
  }

  function QuadCover(b: Bitmap, rows: Rows, p: int): (k: Cover)
    requires Readable(b, p, 2) && (rows.Pair? ==> Readable(b, p + b.linesize, 2))
    ensures k.n <= 4
  {
    var top := Plus(Dot(b, p), Dot(b, p + 1));
    if rows.Pair? then Plus(top, Plus(Dot(b, p + b.linesize), Dot(b, p + b.linesize + 1)))
    else RightChroma(rows.Last?, top, Dot(b, p + 1))
  }

  datatype Planes = Planes(lum: seq<byte>, cb: seq<byte>, cr: seq<byte>) {
    function Luma(b: Bitmap, l: nat, p: nat): (r: Planes)
      requires l < |lum| && Readable(b, p, 1)
    {
      this.(lum := lum[l := LumaMix(Entry(b, p), lum[l])])
    }

    function Chroma(k: Cover, c: nat, d: nat): (r: Planes)
      requires c < |cb| && d < |cr| && k.n <= 4
    {
      this.(cb := cb[c := Mixed(k, U, cb[c])], cr := cr[d := Mixed(k, V, cr[d])])
    }

    function Column(b: Bitmap, rows: Rows, wrap: nat, l: nat, c: nat, d: nat, p: nat): (r: Planes)
      requires 1 <= wrap && l < |lum| && c < |cb| && d < |cr| && Readable(b, p, 1)
      requires rows.Pair? ==> l + wrap < |lum| && Readable(b, p + b.linesize, 1)
    {
      var top := Luma(b, l, p);
      (if rows.Pair? then top.Luma(b, l + wrap, p + b.linesize) else top)
        .Chroma(ColumnCover(b, rows, p), c, d)
    }

    function Quad(b: Bitmap, rows: Rows, wrap: nat, l: nat, c: nat, d: nat, p: nat): (r: Planes)
      requires 2 <= wrap && l + 1 < |lum| && c < |cb| && d < |cr| && Readable(b, p, 2)
      requires rows.Pair? ==> l + wrap + 1 < |lum| && Readable(b, p + b.linesize, 2)
    {
      var top := Luma(b, l, p).Luma(b, l + 1, p + 1);
      (if rows.Pair? then top.Luma(b, l + wrap, p + b.linesize).Luma(b, l + wrap + 1, p + b.linesize + 1) else top)
        .Chroma(QuadCover(b, rows, p), c, d)
    }
  }

  method BlendColumn(lum: array<byte>, cb: array<byte>, cr: array<byte>, b: Bitmap, rows: Rows,
                     wrap: nat, l0: nat, c: nat, d: nat, p0: nat)
    requires lum != cb && cb != cr && cr != lum
    requires 1 <= wrap && l0 < lum.Length && c < cb.Length && d < cr.Length && Readable(b, p0, 1)
    requires rows.Pair? ==> l0 + wrap < lum.Length && Readable(b, p0 + b.linesize, 1)
    modifies lum, cb, cr
    ensures Planes(lum[..], cb[..], cr[..])
         == old(Planes(lum[..], cb[..], cr[..])).Column(b, rows, wrap, l0, c, d, p0)
  {
    hide AlphaBlend, Entry;
    var p, l := p0, l0;
    var e := Entry(b, p);
    var u1, v1, a1 := e.u, e.v, e.a;
    lum[l] := AlphaBlend(e.a, lum[l], e.y, 0);
    if rows.Pair? {
      p, l := p + b.linesize, l + wrap;
      e := Entry(b, p);
      u1, v1, a1 := u1 + e.u, v1 + e.v, a1 + e.a;
      lum[l] := AlphaBlend(e.a, lum[l], e.y, 0);
      cb[c] := AlphaBlend(a1 / 4, cb[c], u1, 1);
      cr[d] := AlphaBlend(a1 / 4, cr[d], v1, 1);
    } else {
      cb[c] := AlphaBlend(e.a / 4, cb[c], e.u, 0);
      cr[d] := AlphaBlend(e.a / 4, cr[d], e.v, 0);
    }
  }

  method BlendQuad(lum: array<byte>, cb: array<byte>, cr: array<byte>, b: Bitmap, rows: Rows,
                   wrap: nat, l0: nat, c: nat, d: nat, p0: nat)
    requires lum != cb && cb != cr && cr != lum
    requires 2 <= wrap && l0 + 1 < lum.Length && c < cb.Length && d < cr.Length && Readable(b, p0, 2)
    requires rows.Pair? ==> l0 + wrap + 1 < lum.Length && Readable(b, p0 + b.linesize, 2)
    modifies lum, cb, cr
    ensures Planes(lum[..], cb[..], cr[..])
         == old(Planes(lum[..], cb[..], cr[..])).Quad(b, rows, wrap, l0, c, d, p0)
  {
    hide AlphaBlend, Entry;
    var p, l := p0, l0;
    var e := Entry(b, p);
    var u1, v1, a1 := e.u, e.v, e.a;
    lum[l] := AlphaBlend(e.a, lum[l], e.y, 0);
    e := Entry(b, p + 1);
    u1, v1, a1 := u1 + e.u, v1 + e.v, a1 + e.a;
    lum[l + 1] := AlphaBlend(e.a, lum[l + 1], e.y, 0);
    if rows.Pair? {
      p, l := p + b.linesize, l + wrap;
      e := Entry(b, p);
      u1, v1, a1 := u1 + e.u, v1 + e.v, a1 + e.a;
      lum[l] := AlphaBlend(e.a, lum[l], e.y, 0);
      e := Entry(b, p + 1);
      u1, v1, a1 := u1 + e.u, v1 + e.v, a1 + e.a;
      lum[l + 1] := AlphaBlend(e.a, lum[l + 1], e.y, 0);
      cb[c] := AlphaBlend(a1 / 4, cb[c], u1, 2);
      cr[d] := AlphaBlend(a1 / 4, cr[d], v1, 2);
    } else if rows.First? {
      cb[c] := AlphaBlend(a1 / 4, cb[c], u1, 1);
      cr[d] := AlphaBlend(a1 / 4, cr[d], v1, 1);
    } else {
      cb[c] := AlphaBlend(a1 / 4, cb[c], e.u, 1);
      cr[d] := AlphaBlend(a1 / 4, cr[d], e.v, 1);
    }
  }

  // ---------- One pass over the columns ----------

  /** width2: chroma samples touched by w columns when the left edge has parity x. */
  function Cells(w: nat, x: nat): nat {
    (w + 1) / 2 + (if x % 2 == 1 && w % 2 == 0 then 1 else 0)
  }

  /** The last of them is the one over the last column. */
  lemma LastColumn(x: nat, w: nat)
    requires w >= 1
    ensures Cells(w, x % 2) >= 1
    ensures var col := x / 2 + Cells(w, x % 2) - 1; x + w - 1 == 2 * col || x + w - 1 == 2 * col + 1
  {
    assert x == 2 * (x / 2) + x % 2;
  }

  lemma CellsFit(x: nat, w: nat)
    requires w >= 1
    ensures x / 2 + Cells(w, x % 2) <= (x + w + 1) / 2
    ensures 2 * (x / 2 + Cells(w, x % 2)) >= x + w
  {
  }

  /** With w columns to go after m chroma samples. */
  lemma CellsLeft(all: nat, x: nat, m: int, w: nat)
    requires x <= 1 <= all && all - w == 2 * m - x
    ensures w > 0 ==> m < Cells(all, x)
    ensures w <= 1 ==> Cells(all, x) == m + w && (all - x) % 2 == w
  {
  }

  /** The pixels of a w-wide row starting at bitmap index q, by column. */
  function RowPixel(b: Bitmap, q: int, w: int, col: int): (k: Cover)
    requires Readable(b, q, w)
    ensures k.n <= 1
  {
    if 0 <= col < w then Dot(b, q + col) else Sum(0, 0, 0, 0)
  }

  function RowCell(b: Bitmap, q: int, w: int, col: int): (k: Cover)
    requires Readable(b, q, w)
    ensures k.n <= 2
  {
    Plus(RowPixel(b, q, w, col), RowPixel(b, q, w, col + 1))
  }

  function PassCell(b: Bitmap, rows: Rows, q: int, w: int, col: int): (k: Cover)
    requires Readable(b, q, w) && (rows.Pair? ==> Readable(b, q + b.linesize, w))
    ensures k.n <= 4
  {
    var top := RowCell(b, q, w, col);
    if rows.Pair? then Plus(top, RowCell(b, q + b.linesize, w, col))
    else RightChroma(rows.Last?, top, RowPixel(b, q, w, col + 1))
  }

  /** One pass: the first samples of the row in each plane and in the bitmap, the width,
      the parity of the left edge, and the planes before the pass. */
  datatype Pass = Pass(b: Bitmap, rows: Rows, wrap: nat, l: nat, c: nat, d: nat, q: nat, w: nat, x: nat, was: Planes) {
    ghost predicate Valid() {
      && x <= 1 <= w <= wrap && l + w <= |was.lum|
      && c + Cells(w, x) <= |was.cb| && d + Cells(w, x) <= |was.cr|
      && Readable(b, q, w)
      && (rows.Pair? ==> l + wrap + w <= |was.lum| && Readable(b, q + b.linesize, w))
    }

    ghost predicate LumaDone(now: seq<byte>, n: nat)
      requires Valid() && n <= w
    {
      |now| == |was.lum| &&
      forall i :: 0 <= i < |now| ==>
        (now[i] ==
          if l <= i < l + n then LumaMix(Entry(b, q + (i - l)), was.lum[i])
          else if rows.Pair? && l + wrap <= i < l + wrap + n then
            LumaMix(Entry(b, q + b.linesize + (i - l - wrap)), was.lum[i])
          else was.lum[i])
    }

    ghost predicate ChromaDone(before: seq<byte>, now: seq<byte>, start: nat, m: nat, ch: Channel)
      requires Valid()
    {
      |now| == |before| &&
      forall j :: 0 <= j < |now| ==>
        (now[j] == if start <= j < start + m then Mixed(PassCell(b, rows, q, w, 2 * (j - start) - x), ch, before[j])
                   else before[j])
    }

    /** n columns and m chroma samples are blended, everything else is untouched. */
    ghost predicate Done(now: Planes, n: nat, m: nat)
      requires Valid() && n <= w
    {
      LumaDone(now.lum, n) && ChromaDone(was.cb, now.cb, c, m, U) && ChromaDone(was.cr, now.cr, d, m, V)
    }

    lemma Inside(before: seq<byte>, now: seq<byte>, start: nat, m: nat, ch: Channel, j: nat)
      requires Valid() && ChromaDone(before, now, start, m, ch) && j < |now| && start <= j < start + m
      ensures j < |before| && Readable(b, q, w) && (rows.Pair? ==> Readable(b, q + b.linesize, w))
      ensures now[j] == Mixed(PassCell(b, rows, q, w, 2 * (j - start) - x), ch, before[j])
    {
      hide Mixed, PassCell, Cells;
    }

    lemma Elsewhere(before: seq<byte>, now: seq<byte>, start: nat, m: nat, ch: Channel, j: nat)
      requires Valid() && ChromaDone(before, now, start, m, ch) && j < |now| && !(start <= j < start + m)
      ensures j < |before| && now[j] == before[j]
    {
      hide Valid, PassCell;
    }

    lemma SameChromaLength(before: seq<byte>, now: seq<byte>, start: nat, m: nat, ch: Channel)
      requires Valid() && ChromaDone(before, now, start, m, ch)
      ensures |now| == |before|
    {
    }

    lemma SameLength(now: Planes, n: nat, m: nat)
      requires Valid() && n <= w && Done(now, n, m)
      ensures |now.lum| == |was.lum| && |now.cb| == |was.cb| && |now.cr| == |was.cr|
    {
    }

    lemma Start()
      requires Valid()
      ensures Done(was, 0, 0)
    {
    }

    lemma LumaStep(now: Planes, next: Planes, n: nat)
      requires Valid() && n < w && LumaDone(now.lum, n)
      requires next.lum == (var top := now.Luma(b, l + n, q + n);
                            if rows.Pair? then top.Luma(b, l + wrap + n, q + b.linesize + n) else top).lum
      ensures LumaDone(next.lum, n + 1)
    {
      hide LumaMix, Entry;
    }

    lemma ChromaStep(before: seq<byte>, now: seq<byte>, next: seq<byte>, start: nat, m: nat, ch: Channel, k: Cover)
      requires Valid() && start + m < |before| && ChromaDone(before, now, start, m, ch)
      requires k.n <= 4 && k == PassCell(b, rows, q, w, 2 * m - x)
      requires next == now[start + m := Mixed(k, ch, now[start + m])]
      ensures ChromaDone(before, next, start, m + 1, ch)
    {
      hide Mixed, PassCell;
    }

    lemma LumaTwice(now: Planes, next: Planes, n: nat, cAt: nat, dAt: nat)
      requires Valid() && n + 2 <= w && LumaDone(now.lum, n) && cAt < |now.cb| && dAt < |now.cr|
      requires |now.lum| == |was.lum| && next == now.Quad(b, rows, wrap, l + n, cAt, dAt, q + n)
      ensures LumaDone(next.lum, n + 2)
    {
      hide LumaMix, Entry, Mixed, PassCell, Plus, LumaDone;
      var top := now.Luma(b, l + n, q + n);
      var mid := if rows.Pair? then top.Luma(b, l + wrap + n, q + b.linesize + n) else top;
      LumaStep(now, mid, n);
      LumaStep(mid, next, n + 1);
    }

    lemma ColumnStep(now: Planes, n: nat, m: nat)
      requires Valid() && n < w && m < Cells(w, x)
      requires (n == 0 && m == 0 && x == 1) || n == w - 1 == 2 * m - x
      requires Done(now, n, m)
      ensures |now.lum| == |was.lum| && |now.cb| == |was.cb| && |now.cr| == |was.cr|
      ensures Done(now.Column(b, rows, wrap, l + n, c + m, d + m, q + n), n + 1, m + 1)
    {
      hide LumaMix, Entry, Mixed, PassCell, Plus, LumaDone, ChromaDone;
      SameLength(now, n, m);
      ColumnIsCell(b, rows, q, w, 2 * m - x);
      var next := now.Column(b, rows, wrap, l + n, c + m, d + m, q + n);
      LumaStep(now, next, n);
      ChromaStep(was.cb, now.cb, next.cb, c, m, U, ColumnCover(b, rows, q + n));
      ChromaStep(was.cr, now.cr, next.cr, d, m, V, ColumnCover(b, rows, q + n));
    }

    lemma QuadStep(now: Planes, n: nat, m: nat)
      requires Valid() && n + 2 <= w && m < Cells(w, x) && n == 2 * m - x
      requires Done(now, n, m)
      ensures |now.lum| == |was.lum| && |now.cb| == |was.cb| && |now.cr| == |was.cr|
      ensures Done(now.Quad(b, rows, wrap, l + n, c + m, d + m, q + n), n + 2, m + 1)
    {
      hide LumaMix, Entry, Mixed, PassCell, Plus, LumaDone, ChromaDone;
      SameLength(now, n, m);
      QuadIsCell(b, rows, q, w, n);
      var next := now.Quad(b, rows, wrap, l + n, c + m, d + m, q + n);
      LumaTwice(now, next, n, c + m, d + m);
      ChromaStep(was.cb, now.cb, next.cb, c, m, U, QuadCover(b, rows, q + n));
      ChromaStep(was.cr, now.cr, next.cr, d, m, V, QuadCover(b, rows, q + n));
    }
  }

  lemma ColumnIsCell(b: Bitmap, rows: Rows, q: int, w: int, col: int)
    requires Readable(b, q, w) && (rows.Pair? ==> Readable(b, q + b.linesize, w)) && w >= 1
    requires col == -1 || col == w - 1
    ensures ColumnCover(b, rows, if col == -1 then q else q + col) == PassCell(b, rows, q, w, col)
  {
    hide Entry;
  }

  lemma QuadIsCell(b: Bitmap, rows: Rows, q: int, w: int, col: int)
    requires Readable(b, q, w) && (rows.Pair? ==> Readable(b, q + b.linesize, w)) && 0 <= col && col + 2 <= w
    ensures QuadCover(b, rows, q + col) == PassCell(b, rows, q, w, col)
  {
    hide Entry;
  }

  /** One pass over the columns of a row or of a pair of rows: an odd left edge, then two
      columns at a time, then an odd right edge.  The tail of the first-row pass moves
      the luma and bitmap pointers but not the chroma pointers. */
  method BlendPass(lum: array<byte>, cb: array<byte>, cr: array<byte>, b: Bitmap, rows: Rows,
                   wrap: nat, l0: nat, c0: nat, d0: nat, q0: nat, dstw: nat, x: nat)
    returns (l: nat, c: nat, d: nat, p: nat)
    requires lum != cb && cb != cr && cr != lum
    requires Pass(b, rows, wrap, l0, c0, d0, q0, dstw, x, Planes(lum[..], cb[..], cr[..])).Valid()
    modifies lum, cb, cr
    ensures Pass(b, rows, wrap, l0, c0, d0, q0, dstw, x, old(Planes(lum[..], cb[..], cr[..])))
              .Done(Planes(lum[..], cb[..], cr[..]), dstw, Cells(dstw, x))
    ensures l == l0 + dstw && p == q0 + dstw
    ensures c - c0 == d - d0 == Cells(dstw, x) - (if !rows.Pair? && (dstw - x) % 2 == 1 then 1 else 0)
  {
    hide Pass.Done, Planes.Column, Planes.Quad, Cells;
    ghost var pass := Pass(b, rows, wrap, l0, c0, d0, q0, dstw, x, Planes(lum[..], cb[..], cr[..]));
    pass.Start();
    l, c, d, p := l0, c0, d0, q0;
    if x == 1 {
      CellsLeft(dstw, x, 0, dstw + 1);
      pass.ColumnStep(Planes(lum[..], cb[..], cr[..]), 0, 0);
      BlendColumn(lum, cb, cr, b, rows, wrap, l, c, d, p);
      l, c, d, p := l + 1, c + 1, d + 1, p + 1;
    }
    var w := dstw - x;
    while w >= 2
      invariant 0 <= w && p - q0 == l - l0 == dstw - w == 2 * (c - c0) - x && d - d0 == c - c0
      invariant 0 <= p - q0 <= dstw && c0 <= c
      invariant pass.Done(Planes(lum[..], cb[..], cr[..]), dstw - w, c - c0)
    {
      CellsLeft(dstw, x, c - c0, w);
      pass.QuadStep(Planes(lum[..], cb[..], cr[..]), dstw - w, c - c0);
      BlendQuad(lum, cb, cr, b, rows, wrap, l, c, d, p);
      l, c, d, p := l + 2, c + 1, d + 1, p + 2;
      w := w - 2;
    }
    CellsLeft(dstw, x, c - c0, w);
    if w != 0 {
      pass.ColumnStep(Planes(lum[..], cb[..], cr[..]), dstw - w, c - c0);
      BlendColumn(lum, cb, cr, b, rows, wrap, l, c, d, p);
      l, p := l + 1, p + 1;
      if rows.Pair? {
        c, d := c + 1, d + 1;
      }
    }
  }

  // ---------- From passes to the whole area ----------

  lemma {:induction false} RowIsProduct(row: nat, stride: nat)
    ensures RowStart(row, stride) == row * stride
  {
    if row > 0 {
      RowIsProduct(row - 1, stride);
      assert row * stride == (row - 1) * stride + stride;
    }
  }

  lemma {:induction false} RowsAscend(row: nat, later: nat, stride: nat)
    requires row <= later
    ensures RowStart(row, stride) <= RowStart(later, stride)
    ensures row < later ==> RowStart(row, stride) + stride <= RowStart(later, stride)
  {
    if row < later {
      RowsAscend(row, later - 1, stride);
    }
  }

  lemma IndexInRow(i: nat, stride: nat)
    requires stride >= 1
    ensures RowStart(i / stride, stride) + i % stride == i && i % stride < stride
  {
    RowIsProduct(i / stride, stride);
  }

  lemma RowOfIndex(i: nat, row: nat, stride: nat)
    requires RowStart(row, stride) <= i < RowStart(row, stride) + stride
    ensures i / stride == row && i % stride == i - RowStart(row, stride)
  {
    IndexInRow(i, stride);
    if i / stride < row {
      RowsAscend(i / stride, row, stride);
    } else {
      RowsAscend(row, i / stride, stride);
    }
  }

  /** Samples before a row are as specified, the rest as they were. */
  ghost predicate LumaRows(b: Bitmap, r: Area, wrap: nat, was: seq<byte>, now: seq<byte>, row: nat)
    requires Covers(b, r) && 1 <= wrap
  {
    |now| == |was| &&
    forall i :: 0 <= i < |now| ==> (now[i] == if i < RowStart(row, wrap) then LumaSpec(b, r, wrap, was, i) else was[i])
  }

  /** Sample j when the cells of the chroma rows before a row are blended into base, each lag
      samples to the left of where it belongs. */
  ghost function ChromaAfter(b: Bitmap, r: Area, wrap: nat, base: seq<byte>, ch: Channel,
                             row: nat, lag: nat, j: nat): byte
    requires Covers(b, r) && 1 <= wrap && j < |base|
  {
    if j + lag < RowStart(row, wrap) then Mixed(StepCell(b, r, (j + lag) / wrap, (j + lag) % wrap, lag), ch, base[j])
    else base[j]
  }

  ghost predicate ChromaRows(b: Bitmap, r: Area, wrap: nat, base: seq<byte>, now: seq<byte>, ch: Channel,
                             row: nat, lag: nat)
    requires Covers(b, r) && 1 <= wrap
  {
    |now| == |base| && forall j :: 0 <= j < |now| ==> now[j] == ChromaAfter(b, r, wrap, base, ch, row, lag, j)
  }

  lemma LumaOutside(b: Bitmap, r: Area, wrap: nat, was: seq<byte>, i: nat)
    requires Covers(b, r) && 1 <= wrap && i < |was|
    requires i < RowStart(r.y, wrap) || i >= RowStart(r.y + r.h, wrap)
    ensures LumaSpec(b, r, wrap, was, i) == was[i]
  {
    IndexInRow(i, wrap);
    if i < RowStart(r.y, wrap) {
      if i / wrap >= r.y { RowsAscend(r.y, i / wrap, wrap); }
    } else if i / wrap < r.y + r.h {
      RowsAscend(i / wrap, r.y + r.h, wrap);
    }
  }

  lemma UncoveredCell(b: Bitmap, r: Area, row: int, col: int)
    requires Covers(b, r)
    requires 2 * row + 1 < r.y || 2 * row >= r.y + r.h || 2 * col + 1 < r.x || 2 * col >= r.x + r.w
    ensures CodeCell(b, r, row, col).n == 0
  {
    hide CoverAt, LastRowHalves;
    assert HalfCell(b, r, 2 * row, 2 * col).n == 0;
    assert HalfCell(b, r, 2 * row + 1, 2 * col).n == 0;
  }

  lemma ChromaOutside(b: Bitmap, r: Area, wrap: nat, was: seq<byte>, ch: Channel, j: nat)
    requires Covers(b, r) && 1 <= wrap && j < |was|
    requires j < RowStart(r.y / 2, wrap) || j >= RowStart((r.y + r.h + 1) / 2, wrap)
    ensures ChromaInPlace(b, r, wrap, was, ch, j) == was[j]
  {
    hide CodeCell;
    IndexInRow(j, wrap);
    var row := j / wrap;
    if j < RowStart(r.y / 2, wrap) {
      if row >= r.y / 2 { RowsAscend(r.y / 2, row, wrap); }
    } else if row < (r.y + r.h + 1) / 2 {
      RowsAscend(row, (r.y + r.h + 1) / 2, wrap);
    }
    UncoveredCell(b, r, row, j % wrap);
  }

  /** A luma row of a pass, row t of the area, is as specified. */
  lemma LumaRowIsSpec(b: Bitmap, r: Area, wrap: nat, was: seq<byte>, t: nat, i: nat)
    requires Covers(b, r) && t < r.h && r.x + r.w <= wrap && i < |was| && r.w >= 1
    requires RowStart(r.y + t, wrap) <= i < RowStart(r.y + t, wrap) + wrap
    ensures RowStart(t, b.linesize) + r.w <= |b.data|
    ensures var l := RowStart(r.y + t, wrap) + r.x;
            LumaSpec(b, r, wrap, was, i) ==
              if l <= i < l + r.w then LumaMix(Entry(b, RowStart(t, b.linesize) + (i - l)), was[i]) else was[i]
  {
    hide LumaMix, Entry;
    RowOfIndex(i, r.y + t, wrap);
  }

  lemma LumaPass(b: Bitmap, r: Area, wrap: nat, was: seq<byte>, pass: Pass, next: seq<byte>, t: nat)
    requires Covers(b, r) && r.x + r.w <= wrap && r.w >= 1
    requires pass.Valid() && pass.b == b && pass.wrap == wrap && pass.w == r.w
    requires pass.l == RowStart(r.y + t, wrap) + r.x && pass.q == RowStart(t, b.linesize)
    requires t + (if pass.rows.Pair? then 2 else 1) <= r.h
    requires LumaRows(b, r, wrap, was, pass.was.lum, r.y + t)
    requires pass.LumaDone(next, r.w)
    ensures LumaRows(b, r, wrap, was, next, r.y + t + if pass.rows.Pair? then 2 else 1)
  {
    hide LumaMix, Entry, LumaSpec;
    var start := RowStart(r.y + t, wrap);
    forall i | 0 <= i < |next|
      ensures next[i] == if i < RowStart(r.y + t + if pass.rows.Pair? then 2 else 1, wrap)
                         then LumaSpec(b, r, wrap, was, i) else was[i]
    {
      if start <= i < start + wrap {
        LumaRowIsSpec(b, r, wrap, was, t, i);
      } else if pass.rows.Pair? && start + wrap <= i < start + 2 * wrap {
        LumaRowIsSpec(b, r, wrap, was, t + 1, i);
      }
    }
  }

  /** Row t of the area, seen as bitmap columns and as picture columns. */
  lemma RowPixelIsCoverAt(b: Bitmap, r: Area, t: nat, col: int)
    requires Covers(b, r) && t < r.h
    ensures Readable(b, RowStart(t, b.linesize), r.w)
    ensures RowPixel(b, RowStart(t, b.linesize), r.w, col - r.x) == CoverAt(b, r, r.y + t, col)
  {
    hide Entry;
  }

  lemma RowCellIsHalfCell(b: Bitmap, r: Area, t: nat, col: int)
    requires Covers(b, r) && t < r.h
    ensures Readable(b, RowStart(t, b.linesize), r.w)
    ensures RowCell(b, RowStart(t, b.linesize), r.w, col - r.x) == HalfCell(b, r, r.y + t, col)
    ensures RowPixel(b, RowStart(t, b.linesize), r.w, col + 1 - r.x) == CoverAt(b, r, r.y + t, col + 1)
  {
    hide CoverAt, RowPixel;
    RowPixelIsCoverAt(b, r, t, col);
    RowPixelIsCoverAt(b, r, t, col + 1);
  }

  lemma EmptyHalfCell(b: Bitmap, r: Area, row: int, col: int)
    requires Covers(b, r) && !(r.y <= row < r.y + r.h)
    ensures HalfCell(b, r, row, col) == Sum(0, 0, 0, 0)
  {
    hide PixelAt, Plus;
    assert CoverAt(b, r, row, col) == CoverAt(b, r, row, col + 1) == Sum(0, 0, 0, 0);
    PlusNothing(Sum(0, 0, 0, 0));
  }

  /** Chroma row that a pass starting at row t of the area writes. */
  function ChromaRow(r: Area, t: nat): nat {
    (r.y + t) / 2
  }

  /** The kind of pass the code runs at row t: a lone first row, pairs, a lone last row. */
  predicate RightRows(r: Area, rows: Rows, t: nat) {
    match rows
    case First => t == 0 && r.y % 2 == 1 && t < r.h
    case Pair => (r.y + t) % 2 == 0 && t + 2 <= r.h
    case Last => (r.y + t) % 2 == 0 && t + 1 == r.h
  }

  lemma PassCellIsCodeCell(b: Bitmap, r: Area, rows: Rows, t: nat, col: int)
    requires Covers(b, r) && RightRows(r, rows, t) && r.w >= 1
    ensures Readable(b, RowStart(t, b.linesize), r.w)
    ensures rows.Pair? ==> Readable(b, RowStart(t, b.linesize) + b.linesize, r.w)
    ensures PassCell(b, rows, RowStart(t, b.linesize), r.w, 2 * col - r.x) == CodeCell(b, r, ChromaRow(r, t), col)
  {
    hide Entry, RowCell, HalfCell, CoverAt, RowPixel, Plus;
    RowCellIsHalfCell(b, r, t, 2 * col);
    var row := ChromaRow(r, t);
    match rows
    case First =>
      EmptyHalfCell(b, r, 2 * row, 2 * col);
      PlusNothing(HalfCell(b, r, 2 * row + 1, 2 * col));
      assert CodeCell(b, r, row, col) == CellAt(b, r, row, col);
    case Pair =>
      RowCellIsHalfCell(b, r, t + 1, 2 * col);
      assert CodeCell(b, r, row, col) == CellAt(b, r, row, col);
    case Last =>
      EmptyHalfCell(b, r, 2 * row + 1, 2 * col);
      PlusNothing(HalfCell(b, r, 2 * row, 2 * col));
      if !LastRowHalves(r) { HalvesWithTwo(b, r, row, col); }
  }

  lemma PlusNothing(k: Cover)
    ensures Plus(k, Sum(0, 0, 0, 0)) == k == Plus(Sum(0, 0, 0, 0), k)
  {
  }

  /** A lone last row has two columns under one chroma sample only if it halves. */
  lemma HalvesWithTwo(b: Bitmap, r: Area, row: int, col: int)
    requires Covers(b, r) && r.w >= 1 && (r.h - r.y % 2) % 2 == 1 && !LastRowHalves(r)
    ensures HalfCell(b, r, 2 * row, 2 * col).n <= 1
  {
    hide PixelAt;
  }

  lemma ChromaPass(b: Bitmap, r: Area, wrap: nat, base: seq<byte>, pass: Pass, before: seq<byte>, next: seq<byte>,
                   start: nat, ch: Channel, t: nat, lag: nat)
    requires Covers(b, r) && r.w >= 1 && (r.x + r.w + 1) / 2 <= wrap && RightRows(r, pass.rows, t)
    requires pass.Valid() && pass.b == b && pass.w == r.w && pass.x == r.x % 2 && pass.q == RowStart(t, b.linesize)
    requires start + lag == RowStart(ChromaRow(r, t), wrap) + r.x / 2 && (lag > 0 ==> ChromaRow(r, t) > r.y / 2)
    requires ChromaRows(b, r, wrap, base, before, ch, ChromaRow(r, t), lag)
    requires pass.ChromaDone(before, next, start, Cells(r.w, r.x % 2), ch)
    ensures ChromaRows(b, r, wrap, base, next, ch, ChromaRow(r, t) + 1, lag)
  {
    hide ChromaAfter, Covers, ChromaRow, RightRows, Pass.Valid, Pass.ChromaDone, RowStart;
    assert |before| == |next| == |base| by { pass.SameChromaLength(before, next, start, Cells(r.w, r.x % 2), ch); }
    forall j | 0 <= j < |next|
      ensures next[j] == ChromaAfter(b, r, wrap, base, ch, ChromaRow(r, t) + 1, lag, j)
    {
      ChromaAdvances(b, r, wrap, base, pass, before, next, start, ch, t, j, lag);
    }
  }

  /** One sample when a pass is done: in the row of the pass, before it, or after it. */
  lemma ChromaAdvances(b: Bitmap, r: Area, wrap: nat, base: seq<byte>, pass: Pass, before: seq<byte>, next: seq<byte>,
                       start: nat, ch: Channel, t: nat, j: nat, lag: nat)
    requires Covers(b, r) && r.w >= 1 && (r.x + r.w + 1) / 2 <= wrap && RightRows(r, pass.rows, t)
    requires pass.Valid() && pass.b == b && pass.w == r.w && pass.x == r.x % 2 && pass.q == RowStart(t, b.linesize)
    requires start + lag == RowStart(ChromaRow(r, t), wrap) + r.x / 2 && (lag > 0 ==> ChromaRow(r, t) > r.y / 2)
    requires pass.ChromaDone(before, next, start, Cells(r.w, r.x % 2), ch)
    requires j < |next| == |before| == |base| && before[j] == ChromaAfter(b, r, wrap, base, ch, ChromaRow(r, t), lag, j)
    ensures next[j] == ChromaAfter(b, r, wrap, base, ch, ChromaRow(r, t) + 1, lag, j)
  {
    hide Mixed, PassCell, StepCell, Covers, ChromaRow, RightRows, Pass.Valid, Pass.ChromaDone, Cells, RowStart;
    var row := ChromaRow(r, t);
    RowAfter(row, wrap);
    if RowStart(row, wrap) <= j + lag < RowStart(row, wrap) + wrap {
      RowOfIndex(j + lag, row, wrap);
      ChromaSample(b, r, wrap, base, pass, before, next, start, ch, t, j, lag);
    } else {
      CellsFit(r.x, r.w);
      pass.Elsewhere(before, next, start, Cells(r.w, r.x % 2), ch, j);
    }
  }

  lemma RowAfter(row: nat, stride: nat)
    ensures RowStart(row + 1, stride) == RowStart(row, stride) + stride
  {
  }

  lemma ChromaSample(b: Bitmap, r: Area, wrap: nat, base: seq<byte>, pass: Pass, before: seq<byte>, next: seq<byte>,
                     start: nat, ch: Channel, t: nat, j: nat, lag: nat)
    requires Covers(b, r) && r.w >= 1 && (r.x + r.w + 1) / 2 <= wrap && RightRows(r, pass.rows, t)
    requires pass.Valid() && pass.b == b && pass.w == r.w && pass.x == r.x % 2 && pass.q == RowStart(t, b.linesize)
    requires start + lag == RowStart(ChromaRow(r, t), wrap) + r.x / 2 && (lag > 0 ==> ChromaRow(r, t) > r.y / 2)
    requires pass.ChromaDone(before, next, start, Cells(r.w, r.x % 2), ch)
    requires j < |next| && |base| == |next| && before[j] == base[j]
    requires RowStart(ChromaRow(r, t), wrap) <= j + lag && (j + lag) / wrap == ChromaRow(r, t)
    requires (j + lag) % wrap == j + lag - RowStart(ChromaRow(r, t), wrap)
    ensures next[j] == Mixed(StepCell(b, r, (j + lag) / wrap, (j + lag) % wrap, lag), ch, base[j])
  {
    hide Mixed, PassCell, CodeCell, Covers, Cells, RowStart, ChromaRow, RightRows, Pass.Valid, Pass.ChromaDone;
    var col := (j + lag) % wrap;
    CellsFit(r.x, r.w);
    if start <= j < start + Cells(r.w, r.x % 2) {
      pass.Inside(before, next, start, Cells(r.w, r.x % 2), ch, j);
      PassCellIsCodeCell(b, r, pass.rows, t, col);
      assert 2 * (j - start) - pass.x == 2 * col - r.x;
    } else {
      pass.Elsewhere(before, next, start, Cells(r.w, r.x % 2), ch, j);
      UncoveredCell(b, r, ChromaRow(r, t), col);
      Untouched(CodeCell(b, r, ChromaRow(r, t), col), ch, base[j]);
    }
  }

  lemma Untouched(k: Cover, ch: Channel, oldp: byte)
    requires k.n == 0
    ensures Mixed(k, ch, oldp) == oldp
  {
  }

  /** One call: the bitmap, the clipped area, the image size, the line sizes and the
      planes before the call. */
  datatype Call = Call(b: Bitmap, r: Area, imgw: nat, imgh: nat, wrap: nat, cbWrap: nat, crWrap: nat, was: Planes) {
    /** The planes and the bitmap are large enough for the image and the clipped area. */
    ghost predicate Fits() {
      && Covers(b, r) && 1 <= r.w && r.x + r.w <= imgw <= wrap && 1 <= r.h && r.y + r.h <= imgh
      && (imgw + 1) / 2 <= cbWrap && (imgw + 1) / 2 <= crWrap
      && RowStart(imgh, wrap) <= |was.lum|
      && RowStart((imgh + 1) / 2, cbWrap) <= |was.cb| && RowStart((imgh + 1) / 2, crWrap) <= |was.cr|
    }

    /** The pointers stand at row t of the area, the chroma ones drift samples behind. */
    ghost predicate At(l: int, c: int, d: int, p: int, t: nat, drift: nat) {
      && l == RowStart(r.y + t, wrap) && p == RowStart(t, b.linesize)
      && c == RowStart(ChromaRow(r, t), cbWrap) - drift && d == RowStart(ChromaRow(r, t), crWrap) - drift
    }

    /** All luma rows before row t of the area are as specified, and the chroma rows before
        chromaRow are blended into base. */
    ghost predicate Blended(now: Planes, t: nat, chromaRow: nat, base: Planes, lag: nat)
      requires Fits()
    {
      && |now.lum| == |was.lum| && |now.cb| == |was.cb| && |now.cr| == |was.cr|
      && LumaRows(b, r, wrap, was.lum, now.lum, r.y + t)
      && ChromaRows(b, r, cbWrap, base.cb, now.cb, U, chromaRow, lag)
      && ChromaRows(b, r, crWrap, base.cr, now.cr, V, chromaRow, lag)
    }

    ghost function PassAt(rows: Rows, l: nat, c: nat, d: nat, p: nat, now: Planes): Pass {
      Pass(b, rows, wrap, l, c, d, p, r.w, r.x % 2, now)
    }

    /** The pass the code runs at row t stays inside every plane, even with the chroma
        pointers one sample behind. */
    lemma PassFits(rows: Rows, l: nat, c: nat, d: nat, p: nat, now: Planes, t: nat, drift: nat)
      requires Fits() && RightRows(r, rows, t) && At(l, c, d, p, t, drift)
      requires |now.lum| == |was.lum| && |now.cb| == |was.cb| && |now.cr| == |was.cr|
      ensures PassAt(rows, l + r.x, c + r.x / 2, d + r.x / 2, p, now).Valid()
    {
      hide Covers, RowStart, Cells, Readable, RightRows, ChromaRow;
      LumaFits(rows, t);
      BitmapFits(rows, t);
      ChromaFits(rows, t, cbWrap, c, drift, |was.cb|);
      ChromaFits(rows, t, crWrap, d, drift, |was.cr|);
    }

    lemma ChromaFits(rows: Rows, t: nat, stride: nat, c: nat, drift: nat, size: nat)
      requires Fits() && RightRows(r, rows, t)
      requires (imgw + 1) / 2 <= stride && RowStart((imgh + 1) / 2, stride) <= size
      requires c == RowStart(ChromaRow(r, t), stride) - drift
      ensures c + r.x / 2 + Cells(r.w, r.x % 2) <= size
    {
      hide Covers, RowStart, Cells;
      CellsFit(r.x, r.w);
      RowsAscend(ChromaRow(r, t), (imgh + 1) / 2, stride);
    }

    lemma LumaFits(rows: Rows, t: nat)
      requires Fits() && RightRows(r, rows, t)
      ensures RowStart(r.y + t, wrap) + (if rows.Pair? then 2 * wrap else wrap) <= |was.lum|
    {
      var k := if rows.Pair? then 2 else 1;
      RowsAscend(r.y + t, imgh, wrap);
      RowsAscend(r.y + t + k - 1, imgh, wrap);
    }

    lemma BitmapFits(rows: Rows, t: nat)
      requires Fits() && RightRows(r, rows, t)
      ensures Readable(b, RowStart(t, b.linesize), r.w)
      ensures rows.Pair? ==> Readable(b, RowStart(t, b.linesize) + b.linesize, r.w)
    {
      assert RowStart(t, b.linesize) + r.w <= |b.data|;
      if rows.Pair? {
        assert RowStart(t + 1, b.linesize) + r.w <= |b.data|;
      }
    }

    /** One pass advances the blended part by one row, or by two. */
    lemma PassAdvances(rows: Rows, l: nat, c: nat, d: nat, p: nat, now: Planes, next: Planes, t: nat,
                       base: Planes, lag: nat)
      requires Fits() && RightRows(r, rows, t) && At(l, c, d, p, t, lag) && (lag > 0 ==> ChromaRow(r, t) > r.y / 2)
      requires Blended(now, t, ChromaRow(r, t), base, lag)
      requires var pass := PassAt(rows, l + r.x, c + r.x / 2, d + r.x / 2, p, now);
               pass.Valid() && pass.Done(next, r.w, Cells(r.w, r.x % 2))
      ensures Blended(next, t + (if rows.Pair? then 2 else 1), ChromaRow(r, t) + 1, base, lag)
    {
      hide LumaRows, ChromaRows, Pass.LumaDone, Pass.ChromaDone, Pass.Valid, Covers, RowStart, ChromaRow, Cells;
      var pass := PassAt(rows, l + r.x, c + r.x / 2, d + r.x / 2, p, now);
      LumaPass(b, r, wrap, was.lum, pass, next.lum, t);
      pass.SameLength(next, r.w, Cells(r.w, r.x % 2));
      ChromaPass(b, r, cbWrap, base.cb, pass, now.cb, next.cb, pass.c, U, t, lag);
      ChromaPass(b, r, crWrap, base.cr, pass, now.cr, next.cr, pass.d, V, t, lag);
    }

    lemma EndInSpec()
      requires Fits()
      ensures !FirstRowDrifts(r) && !LastRowHalves(r) ==>
        && (forall j: nat :: j < |was.cb| ==>
              ChromaResult(b, r, cbWrap, was.cb, U, j) == ChromaSpec(b, r, cbWrap, was.cb, U, j))
        && (forall j: nat :: j < |was.cr| ==>
              ChromaResult(b, r, crWrap, was.cr, V, j) == ChromaSpec(b, r, crWrap, was.cr, V, j))
    {
      hide ChromaResult, ChromaSpec, Covers;
      if !FirstRowDrifts(r) && !LastRowHalves(r) {
        forall j: nat | j < |was.cb|
          ensures ChromaResult(b, r, cbWrap, was.cb, U, j) == ChromaSpec(b, r, cbWrap, was.cb, U, j)
        {
          InSpec(b, r, cbWrap, was.cb, U, j);
        }
        forall j: nat | j < |was.cr|
          ensures ChromaResult(b, r, crWrap, was.cr, V, j) == ChromaSpec(b, r, crWrap, was.cr, V, j)
        {
          InSpec(b, r, crWrap, was.cr, V, j);
        }
      }
    }

    /** The base of the later rows: the planes before the call, or after the first row. */
    ghost predicate BaseFor(base: Planes, lag: nat)
      requires Fits()
    {
      lag == (if FirstRowDrifts(r) then 1 else 0) &&
      if lag == 0 then base == was
      else ChromaRows(b, r, cbWrap, was.cb, base.cb, U, r.y / 2 + 1, 0) &&
           ChromaRows(b, r, crWrap, was.cr, base.cr, V, r.y / 2 + 1, 0)
    }

    lemma BaseAtStart()
      requires Fits() && !FirstRowDrifts(r)
      ensures BaseFor(was, 0)
    {
    }

    /** After the first row the chroma pointers may lag: what is blended so far becomes the
        base of the later rows. */
    lemma StartLagging(now: Planes, t: nat, chromaRow: nat)
      requires Fits() && Blended(now, t, chromaRow, was, 0) && chromaRow == r.y / 2 + 1 && FirstRowDrifts(r)
      ensures Blended(now, t, chromaRow, now, 1) && BaseFor(now, 1)
    {
      hide LumaRows, ChromaAfter, Covers, RowStart;
      Relag(b, r, cbWrap, now.cb, U);
      Relag(b, r, crWrap, now.cr, V);
    }

    lemma NextRow(rows: Rows, t: nat)
      requires RightRows(r, rows, t)
      ensures var k := if rows.Pair? then 2 else 1;
        && RowStart(r.y + t + k, wrap) == RowStart(r.y + t, wrap) + k * wrap
        && RowStart(t + k, b.linesize) == RowStart(t, b.linesize) + k * b.linesize
      ensures RowStart(ChromaRow(r, t) + 1, cbWrap) == RowStart(ChromaRow(r, t), cbWrap) + cbWrap
      ensures RowStart(ChromaRow(r, t) + 1, crWrap) == RowStart(ChromaRow(r, t), crWrap) + crWrap
    {
    }

    /** Where the pointers stand after a pass: the tail of a lone first row leaves the chroma
        pointers behind. */
    lemma MovesOn(rows: Rows, l: int, c: int, d: int, p: int, t: nat, drift: nat)
      requires RightRows(r, rows, t) && !rows.Last? && At(l, c, d, p, t, drift)
      ensures rows.Pair? ==>
        At(l + wrap + wrap, c + cbWrap, d + crWrap, p + b.linesize + b.linesize, t + 2, drift)
      ensures rows.First? ==> var gap := (r.w - r.x % 2) % 2;
        At(l + wrap, c + cbWrap - gap, d + crWrap - gap, p + b.linesize, 1, drift + gap)
    {
      hide RowStart;
      NextRow(rows, t);
      assert ChromaRow(r, t + if rows.Pair? then 2 else 1) == ChromaRow(r, t) + 1;
    }

    lemma Start()
      requires Fits()
      ensures At(r.y * wrap, r.y / 2 * cbWrap, r.y / 2 * crWrap, 0, 0, 0)
      ensures Blended(was, 0, r.y / 2, was, 0)
    {
      hide LumaSpec, ChromaInPlace, Covers;
      RowIsProduct(r.y, wrap);
      RowIsProduct(r.y / 2, cbWrap);
      RowIsProduct(r.y / 2, crWrap);
      forall i | 0 <= i < |was.lum| && i < RowStart(r.y, wrap)
        ensures LumaSpec(b, r, wrap, was.lum, i) == was.lum[i]
      {
        LumaOutside(b, r, wrap, was.lum, i);
      }
      NothingYet(b, r, cbWrap, was.cb, U);
      NothingYet(b, r, crWrap, was.cr, V);
    }

    /** When all luma rows are done, every luma sample is as specified. */
    lemma LumaEnd(now: Planes)
      requires Fits() && LumaRows(b, r, wrap, was.lum, now.lum, r.y + r.h)
      ensures forall i :: 0 <= i < |now.lum| ==> now.lum[i] == LumaSpec(b, r, wrap, was.lum, i)
    {
      hide LumaSpec, Covers;
      forall i | 0 <= i < |now.lum|
        ensures now.lum[i] == LumaSpec(b, r, wrap, was.lum, i)
      {
        if i >= RowStart(r.y + r.h, wrap) { LumaOutside(b, r, wrap, was.lum, i); }
      }
    }

    /** When all rows are done, every sample of every plane is known. */
    lemma End(now: Planes, base: Planes, lag: nat)
      requires Fits() && Blended(now, r.h, (r.y + r.h + 1) / 2, base, lag) && BaseFor(base, lag)
      ensures forall i :: 0 <= i < |now.lum| ==> now.lum[i] == LumaSpec(b, r, wrap, was.lum, i)
      ensures forall j :: 0 <= j < |now.cb| ==> now.cb[j] == ChromaResult(b, r, cbWrap, was.cb, U, j)
      ensures forall j :: 0 <= j < |now.cr| ==> now.cr[j] == ChromaResult(b, r, crWrap, was.cr, V, j)
    {
      hide LumaRows, LumaSpec, ChromaRows, ChromaResult, Covers;
      LumaEnd(now);
      ChromaEnd(b, r, cbWrap, was.cb, base.cb, now.cb, U, lag);
      ChromaEnd(b, r, crWrap, was.cr, base.cr, now.cr, V, lag);
    }
  }

  lemma NothingYet(b: Bitmap, r: Area, wrap: nat, was: seq<byte>, ch: Channel)
    requires Covers(b, r) && 1 <= wrap
    ensures ChromaRows(b, r, wrap, was, was, ch, r.y / 2, 0)
  {
    hide CodeCell, Covers, Mixed;
    forall j | 0 <= j < |was| && j < RowStart(r.y / 2, wrap)
      ensures Mixed(CodeCell(b, r, j / wrap, j % wrap), ch, was[j]) == was[j]
    {
      ChromaOutside(b, r, wrap, was, ch, j);
    }
  }

  lemma Relag(b: Bitmap, r: Area, wrap: nat, now: seq<byte>, ch: Channel)
    requires Covers(b, r) && 1 <= wrap
    ensures ChromaRows(b, r, wrap, now, now, ch, r.y / 2 + 1, 1)
  {
    hide CodeCell, Covers, Mixed;
    forall j | 0 <= j < |now|
      ensures now[j] == ChromaAfter(b, r, wrap, now, ch, r.y / 2 + 1, 1, j)
    {
      if j + 1 < RowStart(r.y / 2 + 1, wrap) {
        IndexInRow(j + 1, wrap);
        if (j + 1) / wrap >= r.y / 2 + 1 { RowsAscend(r.y / 2 + 1, (j + 1) / wrap, wrap); }
        Untouched(StepCell(b, r, (j + 1) / wrap, (j + 1) % wrap, 1), ch, now[j]);
      }
    }
  }

  /** Beyond the last chroma row of the area there is nothing to blend. */
  lemma ChromaEnd(b: Bitmap, r: Area, wrap: nat, was: seq<byte>, base: seq<byte>, now: seq<byte>, ch: Channel, lag: nat)
    requires Covers(b, r) && 1 <= wrap && lag == (if FirstRowDrifts(r) then 1 else 0)
    requires ChromaRows(b, r, wrap, base, now, ch, (r.y + r.h + 1) / 2, lag)
    requires if lag == 0 then base == was else ChromaRows(b, r, wrap, was, base, ch, r.y / 2 + 1, 0)
    ensures |now| == |was| && forall j :: 0 <= j < |now| ==> now[j] == ChromaResult(b, r, wrap, was, ch, j)
  {
    hide CodeCell, Covers, Mixed;
    forall j | 0 <= j < |now|
      ensures now[j] == ChromaResult(b, r, wrap, was, ch, j)
    {
      if j + lag >= RowStart((r.y + r.h + 1) / 2, wrap) {
        BeyondArea(b, r, wrap, j + lag);
        Untouched(CodeCell(b, r, (j + lag) / wrap, (j + lag) % wrap), ch, base[j]);
      }
    }
  }

  lemma BeyondArea(b: Bitmap, r: Area, wrap: nat, k: nat)
    requires Covers(b, r) && 1 <= wrap && k >= RowStart((r.y + r.h + 1) / 2, wrap)
    ensures CodeCell(b, r, k / wrap, k % wrap).n == 0
  {
    hide CodeCell;
    IndexInRow(k, wrap);
    if k / wrap < (r.y + r.h + 1) / 2 {
      RowsAscend(k / wrap, (r.y + r.h + 1) / 2, wrap);
    }
    UncoveredCell(b, r, k / wrap, k % wrap);
  }

  // ---------- When chroma is as specified ----------

  /** The last chroma sample under the area. */
  function LastSample(r: Area, wrap: nat): nat
    requires r.w >= 1 && r.h >= 1
  {
    LastColumn(r.x, r.w);
    RowStart((r.y + r.h - 1) / 2, wrap) + (r.x / 2 + Cells(r.w, r.x % 2) - 1)
  }

  lemma LastSampleIsCovered(b: Bitmap, r: Area, wrap: nat)
    requires Covers(b, r) && r.w >= 1 && r.h >= 1 && (r.x + r.w + 1) / 2 <= wrap
    ensures var j := LastSample(r, wrap); j / wrap == (r.y + r.h - 1) / 2 && CodeCell(b, r, j / wrap, j % wrap).n >= 1
  {
    hide CoverAt, RightChroma, Cells;
    LastColumn(r.x, r.w);
    var row, col, last := (r.y + r.h - 1) / 2, r.x / 2 + Cells(r.w, r.x % 2) - 1, r.y + r.h - 1;
    RowOfIndex(LastSample(r, wrap), row, wrap);
    assert CoverAt(b, r, last, r.x + r.w - 1).n == 1;
    assert CellAt(b, r, row, col).n >= 1 by {
      if last == 2 * row {
        assert HalfCell(b, r, 2 * row, 2 * col).n >= 1;
      } else {
        assert HalfCell(b, r, 2 * row + 1, 2 * col).n >= 1;
      }
    }
  }

  /** In every call that drifts, in both planes, the last sample under the area keeps its
      value though it covers a pixel. */
  lemma DriftMissesLastSample(b: Bitmap, r: Area, wrap: nat, was: seq<byte>, ch: Channel)
    requires Covers(b, r) && r.w >= 1 && (r.x + r.w + 1) / 2 <= wrap && FirstRowDrifts(r)
    requires LastSample(r, wrap) < |was|
    ensures var j := LastSample(r, wrap);
      ChromaResult(b, r, wrap, was, ch, j) == was[j] && CodeCell(b, r, j / wrap, j % wrap).n >= 1
  {
    hide CodeCell, Cells, Covers, Mixed;
    var j := LastSample(r, wrap);
    LastSampleIsCovered(b, r, wrap);
    LastColumn(r.x, r.w);
    RowsAscend(r.y / 2 + 1, (r.y + r.h - 1) / 2, wrap);
    AfterLastSample(b, r, wrap);
    Untouched(StepCell(b, r, (j + 1) / wrap, (j + 1) % wrap, 1), ch, was[j]);
  }

  /** The sample after it covers nothing: it is right of the area or in the row below. */
  lemma AfterLastSample(b: Bitmap, r: Area, wrap: nat)
    requires Covers(b, r) && r.w >= 1 && r.h >= 1 && (r.x + r.w + 1) / 2 <= wrap
    ensures var k := LastSample(r, wrap) + 1; CodeCell(b, r, k / wrap, k % wrap).n == 0
  {
    hide CodeCell, Cells, Covers;
    LastColumn(r.x, r.w);
    var row, k := (r.y + r.h - 1) / 2, LastSample(r, wrap) + 1;
    if k < RowStart(row, wrap) + wrap {
      RowOfIndex(k, row, wrap);
      UncoveredCell(b, r, k / wrap, k % wrap);
    } else {
      BeyondArea(b, r, wrap, k);
    }
  }

  /** Every bitmap leaves every chroma sample of every plane as specified. */
  ghost predicate MeetsChromaSpec(r: Area, wrap: nat)
    requires wrap >= 1
  {
    forall b, was, ch, j: nat :: Covers(b, r) && j < |was| ==>
      ChromaResult(b, r, wrap, was, ch, j) == ChromaSpec(b, r, wrap, was, ch, j)
  }

  lemma InSpec(b: Bitmap, r: Area, wrap: nat, was: seq<byte>, ch: Channel, j: nat)
    requires Covers(b, r) && 1 <= wrap && j < |was| && !FirstRowDrifts(r) && !LastRowHalves(r)
    ensures ChromaResult(b, r, wrap, was, ch, j) == ChromaSpec(b, r, wrap, was, ch, j)
  {
    hide CellAt, Mixed, CoverAt;
  }

  /** A bitmap of one opaque colour. */
  ghost function OpaqueBitmap(r: Area): Bitmap {
    Bitmap(seq(RowStart(r.h, r.w), _ => 0), r.w, seq(256, _ => 0xFFFF_FFFF))
  }

  lemma OpaqueCovers(r: Area)
    ensures Covers(OpaqueBitmap(r), r)
  {
    forall k | 0 <= k < r.h
      ensures RowStart(k, r.w) + r.w <= RowStart(r.h, r.w)
    {
      RowsAscend(k, r.h, r.w);
    }
  }

  predicate Opaque(k: Cover) {
    k.a == k.u == k.v == 255 * k.n
  }

  lemma OpaqueSum(p: Cover, q: Cover)
    requires Opaque(p) && Opaque(q)
    ensures Opaque(Plus(p, q))
  {
  }

  lemma OpaqueHalf(r: Area, row: int, col: int)
    requires Covers(OpaqueBitmap(r), r)
    ensures Opaque(HalfCell(OpaqueBitmap(r), r, row, col))
  {
    hide CoverAt, Covers, OpaqueBitmap;
    OpaquePixel(r, row, col);
    OpaquePixel(r, row, col + 1);
    OpaqueSum(CoverAt(OpaqueBitmap(r), r, row, col), CoverAt(OpaqueBitmap(r), r, row, col + 1));
  }

  lemma OpaqueCell(r: Area, row: int, col: int)
    requires Covers(OpaqueBitmap(r), r)
    ensures Opaque(CellAt(OpaqueBitmap(r), r, row, col))
  {
    var b := OpaqueBitmap(r);
    hide Covers, OpaqueBitmap, CoverAt, HalfCell, Plus;
    OpaqueHalf(r, 2 * row, 2 * col);
    OpaqueHalf(r, 2 * row + 1, 2 * col);
    OpaqueSum(HalfCell(b, r, 2 * row, 2 * col), HalfCell(b, r, 2 * row + 1, 2 * col));
  }

  lemma OpaquePixel(r: Area, row: int, col: int)
    requires Covers(OpaqueBitmap(r), r)
    ensures Opaque(CoverAt(OpaqueBitmap(r), r, row, col))
  {
    if Inside(r, row, col) { RowsAscend(row - r.y, r.h - 1, r.w); }
  }

  /** An opaque white cell changes a black sample. */
  lemma OpaqueChanges(k: Cover, ch: Channel)
    requires 1 <= k.n <= 4 && k.a == 255 * k.n && k.u >= 255 && k.v >= 255
    ensures Mixed(k, ch, 0) != 0
  {
    hide AlphaBlend;
    var newp := if ch.U? then k.u else k.v;
    if k.n == 1 {
      BlendOnBlack(63, newp, 0);
    } else if k.n == 2 {
      BlendOnBlack(127, newp, 1);
    } else if k.n == 3 {
      BlendOnBlack(191, newp, 2);
    } else {
      BlendOnBlack(255, newp, 2);
    }
  }

  lemma BlendOnBlack(a: nat, newp: nat, s: nat)
    requires a <= 255 && s <= 2 && 255 <= newp <= 255 * Scale(s) && a >= Scale(s)
    ensures AlphaBlend(a, 0, newp, s) >= 1
  {
    TimesMono(255, newp, a);
    assert 0 * Scale(s) * (255 - a) == 0;
    assert newp * a >= 255 * Scale(s);
  }

  /** An opaque black bitmap with one white dot: the left-hand pixel of the first full pair of
      columns in the last row. */
  ghost function DotBitmap(r: Area): Bitmap
    requires r.h >= 1
  {
    var dot := RowStart(r.h - 1, r.w) + r.x % 2;
    Bitmap(seq(RowStart(r.h, r.w), i => if i == dot then 1 else 0), r.w,
           seq(256, i => if i == 1 then 0xFFFF_FFFF else 0xFF00_0000))
  }

  lemma DotCovers(r: Area)
    requires r.h >= 1
    ensures Covers(DotBitmap(r), r)
  {
    forall k | 0 <= k < r.h
      ensures RowStart(k, r.w) + r.w <= RowStart(r.h, r.w)
    {
      RowsAscend(k, r.h, r.w);
    }
  }

  lemma DotPixels(r: Area)
    requires r.h >= 1 && r.w - r.x % 2 >= 2
    ensures Covers(DotBitmap(r), r)
    ensures var b, last, col := DotBitmap(r), r.y + r.h - 1, r.x + r.x % 2;
      CoverAt(b, r, last, col) == Sum(1, 255, 255, 255) && CoverAt(b, r, last, col + 1) == Sum(1, 255, 0, 0)
  {
    DotCovers(r);
  }

  /** In the last row the code blends the right-hand chroma of the pair only. */
  lemma DotIsLost(r: Area, row: nat, col: nat)
    requires r.h >= 1 && LastRowHalves(r) && 2 * row == r.y + r.h - 1 && 2 * col == r.x + r.x % 2
    ensures var b := DotBitmap(r);
      Covers(b, r) && CellAt(b, r, row, col) == Sum(2, 510, 255, 255) && CodeCell(b, r, row, col) == Sum(2, 510, 0, 0)
  {
    var b := DotBitmap(r);
    DotPixels(r);
    hide Covers, DotBitmap, CoverAt;
    EmptyHalfCell(b, r, 2 * row + 1, 2 * col);
  }

  lemma DotSample(r: Area, wrap: nat) returns (j: nat)
    requires r.w >= 1 && r.h >= 1 && (r.x + r.w + 1) / 2 <= wrap && LastRowHalves(r)
    ensures 2 * (j / wrap) == r.y + r.h - 1 && 2 * (j % wrap) == r.x + r.x % 2
  {
    var row, col := (r.y + r.h - 1) / 2, (r.x + r.x % 2) / 2;
    j := RowStart(row, wrap) + col;
    EvenHalves(r);
    hide RowStart, LastRowHalves;
    RowOfIndex(j, row, wrap);
  }

  lemma EvenHalves(r: Area)
    requires r.h >= 1 && LastRowHalves(r)
    ensures 2 * ((r.y + r.h - 1) / 2) == r.y + r.h - 1 && 2 * ((r.x + r.x % 2) / 2) == r.x + r.x % 2
    ensures r.x + r.x % 2 < r.x + r.w
  {
  }

  lemma DotMixed()
    ensures Mixed(Sum(2, 510, 0, 0), U, 0) == 0 != Mixed(Sum(2, 510, 255, 255), U, 0)
  {
    hide AlphaBlend;
    BlendOnBlack(127, 255, 1);
    NothingOnBlack(127, 1);
  }

  lemma NothingOnBlack(a: nat, s: nat)
    requires a <= 255 && s <= 2
    ensures AlphaBlend(a, 0, 0, s) == 0
  {
    assert 0 * Scale(s) * (255 - a) == 0 && 0 * a == 0;
  }

  lemma LosesAt(b: Bitmap, r: Area, wrap: nat, was: seq<byte>, j: nat)
    requires Covers(b, r) && 1 <= wrap && j < |was| && was[j] == 0 && !FirstRowDrifts(r)
    requires CellAt(b, r, j / wrap, j % wrap) == Sum(2, 510, 255, 255)
    requires CodeCell(b, r, j / wrap, j % wrap) == Sum(2, 510, 0, 0)
    ensures ChromaResult(b, r, wrap, was, U, j) != ChromaSpec(b, r, wrap, was, U, j)
  {
    hide Covers, CellAt, CodeCell, FirstRowDrifts, Mixed;
    DotMixed();
  }

  /** A white dot in the last row leaves no chroma. */
  lemma LastRowLosesChroma(r: Area, wrap: nat)
    requires r.w >= 1 && r.h >= 1 && (r.x + r.w + 1) / 2 <= wrap && LastRowHalves(r) && !FirstRowDrifts(r)
    ensures !MeetsChromaSpec(r, wrap)
  {
    hide Covers, LastRowHalves, FirstRowDrifts, DotBitmap, ChromaResult, ChromaSpec, CellAt, CodeCell;
    var b := DotBitmap(r);
    var j := DotSample(r, wrap);
    var was := seq(j + 1, _ => 0 as byte);
    DotIsLost(r, j / wrap, j % wrap);
    LosesAt(b, r, wrap, was, j);
    assert ChromaResult(b, r, wrap, was, U, j) != ChromaSpec(b, r, wrap, was, U, j);
  }

  /** The first row drifts if the area starts in an odd row, a single column is left of that row,
      and more rows follow; the last row halves if it is left alone and has a pair of columns. */
  lemma RowsAlone(r: Area)
    ensures FirstRowDrifts(r) <==> r.y % 2 == 1 && (r.w - r.x % 2) % 2 == 1 && r.h >= 2
    ensures LastRowHalves(r) <==> (r.h - r.y % 2) % 2 == 1 && r.w - r.x % 2 >= 2
  {
  }

  /** For an area and any line size that has room for it, chroma is as specified for every
      bitmap and every planes exactly if the first row does not drift and the last row does
      not halve. */
  lemma ChromaMeetsSpecIff(r: Area, wrap: nat)
    requires r.w >= 1 && r.h >= 1 && (r.x + r.w + 1) / 2 <= wrap
    ensures MeetsChromaSpec(r, wrap) <==>
      && !(r.y % 2 == 1 && (r.w - r.x % 2) % 2 == 1 && r.h >= 2)
      && !((r.h - r.y % 2) % 2 == 1 && r.w - r.x % 2 >= 2)
  {
    RowsAlone(r);
    hide ChromaResult, ChromaSpec, Covers, FirstRowDrifts, LastRowHalves;
    if FirstRowDrifts(r) {
      DriftLosesSample(r, wrap);
    } else if LastRowHalves(r) {
      LastRowLosesChroma(r, wrap);
    } else {
      forall b, was, ch, j: nat | Covers(b, r) && j < |was|
        ensures ChromaResult(b, r, wrap, was, ch, j) == ChromaSpec(b, r, wrap, was, ch, j)
      {
        InSpec(b, r, wrap, was, ch, j);
      }
    }
  }

  /** A white bitmap leaves its last sample black. */
  lemma DriftLosesSample(r: Area, wrap: nat)
    requires r.w >= 1 && r.h >= 1 && (r.x + r.w + 1) / 2 <= wrap && FirstRowDrifts(r)
    ensures !MeetsChromaSpec(r, wrap)
  {
    hide ChromaResult, Mixed, CellAt, RightChroma;
    var b, j := OpaqueBitmap(r), LastSample(r, wrap);
    var was := seq(j + 1, _ => 0 as byte);
    OpaqueCovers(r);
    DriftMissesLastSample(b, r, wrap, was, U);
    assert CodeCell(b, r, j / wrap, j % wrap).n == CellAt(b, r, j / wrap, j % wrap).n;
    OpaqueCell(r, j / wrap, j % wrap);
    OpaqueChanges(CellAt(b, r, j / wrap, j % wrap), U);
    assert ChromaResult(b, r, wrap, was, U, j) != ChromaSpec(b, r, wrap, was, U, j);
  }

  // ---------- The call ----------

  /** One row, or one pair of rows: step to the left edge of the area, run the pass, and
      step to the start of the next row. */
  method BlendRows(lum: array<byte>, cb: array<byte>, cr: array<byte>, b: Bitmap, r: Area, rows: Rows,
                   wrap: nat, cbWrap: nat, crWrap: nat, l0: nat, c0: int, d0: int, p0: nat,
                   ghost call: Call, ghost t: nat, ghost base: Planes, ghost drift: nat)
    returns (l: int, c: int, d: int, p: int)
    requires lum != cb && cb != cr && cr != lum
    requires call.Fits() && call.b == b && call.r == r && call.wrap == wrap
    requires call.cbWrap == cbWrap && call.crWrap == crWrap
    requires RightRows(r, rows, t) && call.At(l0, c0, d0, p0, t, drift) && drift <= 1
    requires drift == 1 ==> r.y % 2 == 1 && t >= 1
    requires call.Blended(Planes(lum[..], cb[..], cr[..]), t, ChromaRow(r, t), base, drift)
    modifies lum, cb, cr
    ensures call.Blended(Planes(lum[..], cb[..], cr[..]), t + (if rows.Pair? then 2 else 1), ChromaRow(r, t) + 1,
                         base, drift)
    ensures rows.Pair? ==> call.At(l, c, d, p, t + 2, drift)
    ensures rows.First? ==> call.At(l, c, d, p, 1, drift + (r.w - r.x % 2) % 2)
  {
    hide Call.Blended, Call.At, Pass.Done, Pass.Valid, RowStart, Covers;
    var width2 := (r.w + 1) / 2 + (if r.x % 2 == 1 && r.w % 2 == 0 then 1 else 0);
    var skip2 := r.x / 2;
    ghost var now := Planes(lum[..], cb[..], cr[..]);
    assert c0 >= 0 && d0 >= 0 by { PointersInside(call, l0, c0, d0, p0, t, drift); }
    assert |now.lum| == |call.was.lum| && |now.cb| == |call.was.cb| && |now.cr| == |call.was.cr| by {
      BlendedLengths(call, now, t, ChromaRow(r, t), base, drift);
    }
    call.PassFits(rows, l0, c0, d0, p0, now, t, drift);
    l, c, d, p := BlendPass(lum, cb, cr, b, rows, wrap, l0 + r.x, c0 + skip2, d0 + skip2, p0, r.w, r.x % 2);
    call.PassAdvances(rows, l0, c0, d0, p0, now, Planes(lum[..], cb[..], cr[..]), t, base, drift);
    if !rows.Last? {
      call.MovesOn(rows, l0, c0, d0, p0, t, drift);
      p := p + b.linesize - r.w;
      l := l + wrap - r.w - r.x;
      if rows.Pair? {
        p := p + b.linesize;
        l := l + wrap;
      }
      c := c + cbWrap - width2 - skip2;
      d := d + crWrap - width2 - skip2;
    }
  }

  lemma BlendedLengths(call: Call, now: Planes, t: nat, chromaRow: nat, base: Planes, lag: nat)
    requires call.Fits() && call.Blended(now, t, chromaRow, base, lag)
    ensures |now.lum| == |call.was.lum| && |now.cb| == |call.was.cb| && |now.cr| == |call.was.cr|
  {
  }

  lemma PointersInside(call: Call, l: int, c: int, d: int, p: int, t: nat, drift: nat)
    requires call.Fits() && call.At(l, c, d, p, t, drift)
    requires drift <= 1 && (drift == 1 ==> t >= 1 && (call.r.y + t) % 2 == 0)
    ensures 0 <= l && 0 <= p && 0 <= c && 0 <= d
  {
    if drift == 1 {
      RowsAscend(0, ChromaRow(call.r, t), call.cbWrap);
      RowsAscend(0, ChromaRow(call.r, t), call.crWrap);
    }
  }

  /** blend_subrect for a rectangle of at least one pixel, for every parity of position and
      size: what every sample of the three planes becomes. */
  method BlendSubrect(lum: array<byte>, cb: array<byte>, cr: array<byte>, wrap: nat, cbWrap: nat, crWrap: nat,
                      b: Bitmap, x: int, y: int, w: int, h: int, imgw: nat, imgh: nat)
    requires lum != cb && cb != cr && cr != lum
    requires w >= 1 && h >= 1 && imgw >= 1 && imgh >= 1
    requires Call(b, ClippedArea(x, y, w, h, imgw, imgh), imgw, imgh, wrap, cbWrap, crWrap,
                  Planes(lum[..], cb[..], cr[..])).Fits()
    modifies lum, cb, cr
    ensures var r := ClippedArea(x, y, w, h, imgw, imgh);
      forall i :: 0 <= i < lum.Length ==> lum[i] == LumaSpec(b, r, wrap, old(lum[..]), i)
    ensures var r := ClippedArea(x, y, w, h, imgw, imgh);
      forall j :: 0 <= j < cb.Length ==> cb[j] == ChromaResult(b, r, cbWrap, old(cb[..]), U, j)
    ensures var r := ClippedArea(x, y, w, h, imgw, imgh);
      forall j :: 0 <= j < cr.Length ==> cr[j] == ChromaResult(b, r, crWrap, old(cr[..]), V, j)
    ensures var r := ClippedArea(x, y, w, h, imgw, imgh); !FirstRowDrifts(r) && !LastRowHalves(r) ==>
      && (forall j :: 0 <= j < cb.Length ==> cb[j] == ChromaSpec(b, r, cbWrap, old(cb[..]), U, j))
      && (forall j :: 0 <= j < cr.Length ==> cr[j] == ChromaSpec(b, r, crWrap, old(cr[..]), V, j))
  {
    hide LumaSpec, ChromaResult, ChromaSpec, Covers, RowStart, ClippedArea, Call.Blended, Call.Fits, ChromaRows;
    hide LastRowHalves, Call.BaseFor;
    var r := ClippedArea(x, y, w, h, imgw, imgh);
    ghost var call := Call(b, r, imgw, imgh, wrap, cbWrap, crWrap, Planes(lum[..], cb[..], cr[..]));
    call.Start();
    var l: int, c: int, d: int, p: int := r.y * wrap, r.y / 2 * cbWrap, r.y / 2 * crWrap, 0;
    ghost var t, lag, base := 0, 0, call.was;
    if r.y % 2 == 1 {
      l, c, d, p := BlendRows(lum, cb, cr, b, r, First, wrap, cbWrap, crWrap, l, c, d, p, call, 0, base, 0);
      t := 1;
      if FirstRowDrifts(r) {
        lag, base := 1, Planes(lum[..], cb[..], cr[..]);
        call.StartLagging(base, 1, ChromaRow(r, 1));
      }
    }
    if !FirstRowDrifts(r) { call.BaseAtStart(); }
    var rows := r.h - r.y % 2;
    while rows >= 2
      invariant 0 <= rows && t == r.h - rows && (r.y + t) % 2 == 0
      invariant lag <= 1 && (lag == 1 ==> r.y % 2 == 1 && t >= 1)
      invariant rows > 0 ==> call.At(l, c, d, p, t, lag)
      invariant call.Blended(Planes(lum[..], cb[..], cr[..]), t, ChromaRow(r, t), base, lag)
    {
      l, c, d, p := BlendRows(lum, cb, cr, b, r, Pair, wrap, cbWrap, crWrap, l, c, d, p, call, t, base, lag);
      t := t + 2;
      rows := rows - 2;
    }
    if rows != 0 {
      l, c, d, p := BlendRows(lum, cb, cr, b, r, Last, wrap, cbWrap, crWrap, l, c, d, p, call, t, base, lag);
      t := t + 1;
    }
    call.End(Planes(lum[..], cb[..], cr[..]), base, lag);
    call.EndInSpec();
  }
}
