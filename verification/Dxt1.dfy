/**
  The DXT1 to BMP conversion of src/vita/mtp_thumb.c. `Texel` defines each pixel from the two block
  colours and the two selector bits of its row byte; the conversion, which shifts a 32-bit selector
  word and writes rows bottom-up in place, is proved to produce exactly these pixels.
 */
module Dxt1 {
  import opened Bytes

  function Le16(d: Text, at: nat): (n: nat)
    requires at + 2 <= |d|
    ensures n < U16
  {
    d[at] as int + 256 * (d[at + 1] as int)
  }

  function Le32(d: Text, at: nat): (n: nat)
    requires at + 4 <= |d|
    ensures n < U32
  {
    Le16(d, at) + U16 * Le16(d, at + 2)
  }

  // ---- colours ----

  datatype Color = Color(red: byte, green: byte, blue: byte)

  /** Five or six bits widened to eight by repeating the high bits. */
  function Widen5(v: nat): byte requires v < 32 { v * 8 + v / 4 }

  function Widen6(v: nat): byte requires v < 64 { v * 4 + v / 16 }

  function Unpack565(c: nat): Color
    requires c < U16
  {
    Color(Widen5(c / 2048), Widen6(c / 32 % 64), Widen5(c % 32))
  }

  function Blend(a: byte, b: byte, wa: nat, wb: nat): byte
    requires 1 <= wa + wb <= 3
  {
    Between(a as int, b as int, wa, wb);
    (wa * (a as int) + wb * (b as int)) / (wa + wb)
  }

  /** A weighted mean of channels is a channel. */
  lemma {:induction false} Between(a: nat, b: nat, wa: nat, wb: nat)
    requires a < 256 && b < 256 && 1 <= wa + wb <= 3
    ensures 0 <= (wa * a + wb * b) / (wa + wb) < 256
  {
    assert wa * a <= wa * 255 && wb * b <= wb * 255;
    assert wa * a + wb * b <= 255 * (wa + wb);
  }

  function BlendColor(a: Color, b: Color, wa: nat, wb: nat): Color
    requires 1 <= wa + wb <= 3
  {
    Color(Blend(a.red, b.red, wa, wb), Blend(a.green, b.green, wa, wb), Blend(a.blue, b.blue, wa, wb))
  }

  const BLACK := Color(0, 0, 0)

  /** The four colours of a block: two more steps between the ends, or one and black. */
  function Palette(c0: nat, c1: nat): (colors: seq<Color>)
    requires c0 < U16 && c1 < U16
    ensures |colors| == 4
  {
    var a, b := Unpack565(c0), Unpack565(c1);
    if c0 > c1 then [a, b, BlendColor(a, b, 2, 1), BlendColor(a, b, 1, 2)]
    else [a, b, BlendColor(a, b, 1, 1), BLACK]
  }

  /** Widening keeps the high bits, repeats them below, and so stays within one of the exact proportion. */
  lemma {:induction false} WidenedFive(v: nat, w: nat)
    requires v < 32 && w == Widen5(v)
    ensures w / 8 == v && w % 8 == v / 4 && -31 < 31 * w - 255 * v < 31
  {
    var q, r := v / 4, v % 4;
    assert v == 4 * q + r && w == 8 * v + q;
  }

  lemma {:induction false} WidenedSix(v: nat, w: nat)
    requires v < 64 && w == Widen6(v)
    ensures w / 4 == v && w % 4 == v / 16 && -63 < 63 * w - 255 * v < 63
  {
    var q, r := v / 16, v % 16;
    assert v == 16 * q + r && w == 4 * v + q;
  }

  /** Five bits of red, six of green, five of blue. */
  function Pack565(u: Color): nat { u.red as int / 8 * 2048 + u.green as int / 4 * 32 + u.blue as int / 8 }

  /** A block colour can be packed again. */
  lemma {:induction false} UnpackedPacks(c: nat)
    requires c < U16
    ensures Pack565(Unpack565(c)) == c
  {
    hide Widen5, Widen6;
    var u := Unpack565(c);
    WidenedFive(c / 2048, u.red);
    WidenedSix(c / 32 % 64, u.green);
    WidenedFive(c % 32, u.blue);
    Parts(c);
  }

  lemma {:induction false} Parts(c: nat)
    requires c < U16
    ensures c / 2048 * 2048 + c / 32 % 64 * 32 + c % 32 == c && c / 2048 < 32
  {
    var h := c / 32;
    assert h / 64 == c / 2048;
    assert h == h / 64 * 64 + h % 64;
  }

  function Channel(c: Color, i: nat): nat { if i == 0 then c.red else if i == 1 then c.green else c.blue }

  /** m is wa parts of a and wb parts of b, rounded down. */
  predicate Mixes(m: nat, a: nat, b: nat, wa: nat, wb: nat) {
    (wa + wb) * m <= wa * a + wb * b < (wa + wb) * (m + 1)
  }

  lemma {:induction false} BlendMixes(a: byte, b: byte, wa: nat, wb: nat)
    requires 1 <= wa + wb <= 3
    ensures Mixes(Blend(a, b, wa, wb), a, b, wa, wb)
  {
    var n, w := wa * (a as int) + wb * (b as int), wa + wb;
    assert n == w * (n / w) + n % w;
  }

  /**
    In each channel the first two colours are the block's own; if the first is the greater as a number the
    other two stand a third and two thirds of the way, and otherwise the third stands halfway and the fourth
    is black.
   */
  lemma {:induction false} PaletteMixes(c0: nat, c1: nat, i: nat)
    requires c0 < U16 && c1 < U16
    ensures var p := Palette(c0, c1);
            var a, b := Channel(p[0], i), Channel(p[1], i);
            && p[0] == Unpack565(c0) && p[1] == Unpack565(c1)
            && (c0 > c1 ==> Mixes(Channel(p[2], i), a, b, 2, 1) && Mixes(Channel(p[3], i), a, b, 1, 2))
            && (c0 <= c1 ==> Mixes(Channel(p[2], i), a, b, 1, 1) && Channel(p[3], i) == 0)
  {
    hide Blend, Mixes, Unpack565;
    var a, b := Unpack565(c0), Unpack565(c1);
    BlendedColor(a, b, 2, 1, i);
    BlendedColor(a, b, 1, 2, i);
    BlendedColor(a, b, 1, 1, i);
  }

  lemma {:induction false} BlendedColor(a: Color, b: Color, wa: nat, wb: nat, i: nat)
    requires 1 <= wa + wb <= 3
    ensures Mixes(Channel(BlendColor(a, b, wa, wb), i), Channel(a, i), Channel(b, i), wa, wb)
  {
    hide Blend, Mixes;
    BlendMixes(a.red, b.red, wa, wb);
    BlendMixes(a.green, b.green, wa, wb);
    BlendMixes(a.blue, b.blue, wa, wb);
  }

  // ---- accepted images ----

  function Width(dds: Text): nat { if |dds| < 128 then 0 else Le32(dds, 16) }

  function Height(dds: Text): nat { if |dds| < 128 then 0 else Le32(dds, 12) }

  /** A DXT1 surface of whole blocks, at most 256 by 256, with exactly its blocks behind the header. */
  predicate Accepted(dds: Text) {
    && |dds| >= 128
    && Le32(dds, 0) == 0x20534444 && Le32(dds, 4) == 124 && Le32(dds, 76) == 32 && Le32(dds, 84) == 0x31545844
    && 0 < Width(dds) <= 256 && 0 < Height(dds) <= 256
    && Width(dds) % 4 == 0 && Height(dds) % 4 == 0
    && |dds| == 128 + Width(dds) * Height(dds) / 2
  }

  /** Rows are padded to four bytes. */
  function Stride(width: nat): nat { (width * 3 + 3) / 4 * 4 }

  /** What the snapshot announces for a thumbnail of these dimensions. */
  function AnnouncedSize(width: nat, height: nat): nat { 54 + Rows(height, Stride(width)) }

  function Rows(count: nat, stride: nat): nat { count * stride }

  lemma {:induction false} StrideOfBlocks(width: nat)
    requires width % 4 == 0
    ensures Stride(width) == 3 * width
  {
  }

  // ---- the reference ----

  function BlockAt(width: nat, x: nat, y: nat): nat { 128 + (y / 4 * (width / 4) + x / 4) * 8 }

  /** Every block lies inside the file. */
  lemma {:induction false} BlockInside(dds: Text, col: nat, row: nat)
    requires Accepted(dds) && col < Width(dds) / 4 && row < Height(dds) / 4
    ensures 128 + (row * (Width(dds) / 4) + col) * 8 + 8 <= |dds|
  {
    hide Accepted, Width, Height;
    AcceptedSize(dds);
    BlocksFit(Width(dds) / 4, Height(dds) / 4, col, row);
  }

  lemma {:induction false} AcceptedSize(dds: Text)
    requires Accepted(dds)
    ensures |dds| == 128 + 8 * ((Width(dds) / 4) * (Height(dds) / 4))
  {
    var w, h := Width(dds) / 4, Height(dds) / 4;
    assert Width(dds) == 4 * w && Height(dds) == 4 * h;
    assert (4 * w) * (4 * h) == 16 * (w * h);
  }

  lemma {:induction false} BlocksFit(w: nat, h: nat, col: nat, row: nat)
    requires col < w && row < h
    ensures (row * w + col) * 8 + 8 <= 8 * (w * h)
  {
    assert (row + 1) * w <= h * w;
  }

  /** Two selector bits: of row byte y % 4, pair x % 4. */
  function Selector(dds: Text, block: nat, x: nat, y: nat): (s: nat)
    requires block + 8 <= |dds|
    ensures s < 4
  {
    dds[block + 4 + y % 4] as int / Quarter(x % 4) % 4
  }

  function Quarter(k: nat): (p: nat)
    ensures p > 0
  {
    if k == 0 then 1 else if k == 1 then 4 else if k == 2 then 16 else 64
  }

  function Texel(dds: Text, x: nat, y: nat): Color
    requires Accepted(dds) && x < Width(dds) && y < Height(dds)
  {
    BlockInside(dds, x / 4, y / 4);
    var block := BlockAt(Width(dds), x, y);
    Palette(Le16(dds, block), Le16(dds, block + 2))[Selector(dds, block, x, y)]
  }

  // ---- the shifted selector word ----

  function Pow4(k: nat): (p: nat)
    ensures p > 0
  {
    if k == 0 then 1 else 4 * Pow4(k - 1)
  }

  lemma {:induction false} Pow4Values(y: nat, x: nat)
    requires y < 4 && x < 4
    ensures Pow4(y * 4 + x) == (if y == 0 then 1 else if y == 1 then 0x100 else if y == 2 then 0x10000 else 0x1000000) * Quarter(x)
  {
    assert Pow4(1) == 4 && Pow4(2) == 16 && Pow4(3) == 64 && Pow4(4) == 0x100;
    assert Pow4(5) == 0x400 && Pow4(6) == 0x1000 && Pow4(7) == 0x4000 && Pow4(8) == 0x10000;
    assert Pow4(9) == 0x40000 && Pow4(10) == 0x100000 && Pow4(11) == 0x400000 && Pow4(12) == 0x1000000;
    assert Pow4(13) == 0x4000000 && Pow4(14) == 0x10000000 && Pow4(15) == 0x40000000;
  }

  /** A row byte inside a longer word: the bits below shift out and the bits above mask out. */
  lemma {:induction false} RowBits(b: nat, high: nat, q: nat)
    requires b < 256 && (q == 1 || q == 4 || q == 16 || q == 64)
    ensures (b + 256 * high) / q % 4 == b / q % 4
  {
    if q == 1 {
      PlusFours(b, 64 * high);
    } else if q == 4 {
      assert (b + 256 * high) / 4 == b / 4 + 4 * (16 * high);
      PlusFours(b / 4, 16 * high);
    } else if q == 16 {
      assert (b + 256 * high) / 16 == b / 16 + 4 * (4 * high);
      PlusFours(b / 16, 4 * high);
    } else {
      assert (b + 256 * high) / 64 == b / 64 + 4 * high;
      PlusFours(b / 64, high);
    }
  }

  lemma {:induction false} PlusFours(a: nat, m: nat)
    ensures (a + 4 * m) % 4 == a % 4
  {
  }

  lemma {:induction false} DivByRow(low: nat, t: nat, q: nat)
    requires q == 1 || q == 4 || q == 16 || q == 64
    ensures low < 0x100 ==> (low + 0x100 * t) / (0x100 * q) == t / q
    ensures low < 0x10000 ==> (low + 0x10000 * t) / (0x10000 * q) == t / q
    ensures low < 0x1000000 ==> (low + 0x1000000 * t) / (0x1000000 * q) == t / q
  {
    if q == 1 {
      assert low < 0x100 ==> (low + 0x100 * t) / 0x100 == t;
    } else if q == 4 {
      assert low < 0x100 ==> (low + 0x100 * t) / 0x400 == t / 4;
    } else if q == 16 {
      assert low < 0x100 ==> (low + 0x100 * t) / 0x1000 == t / 16;
    } else {
      assert low < 0x100 ==> (low + 0x100 * t) / 0x4000 == t / 64;
    }
  }

  lemma {:induction false} RowOfWord(b0: nat, b1: nat, b2: nat, b3: nat, y: nat, q: nat)
    requires b0 < 256 && b1 < 256 && b2 < 256 && b3 < 256
    requires y < 4 && (q == 1 || q == 4 || q == 16 || q == 64)
    ensures var word := b0 + 256 * b1 + U16 * (b2 + 256 * b3);
            var row := if y == 0 then 1 else if y == 1 then 0x100 else if y == 2 then 0x10000 else 0x1000000;
            var b := if y == 0 then b0 else if y == 1 then b1 else if y == 2 then b2 else b3;
            word / (row * q) % 4 == b / q % 4
  {
    var word := b0 + 256 * b1 + U16 * (b2 + 256 * b3);
    match y
    case 0 =>
      RowBits(b0, b1 + 256 * (b2 + 256 * b3), q);
      assert word == b0 + 256 * (b1 + 256 * (b2 + 256 * b3)) && 1 * q == q;
    case 1 =>
      RowBits(b1, b2 + 256 * b3, q);
      DivByRow(b0, b1 + 256 * (b2 + 256 * b3), q);
      assert word == b0 + 0x100 * (b1 + 256 * (b2 + 256 * b3));
    case 2 =>
      RowBits(b2, b3, q);
      DivByRow(b0 + 256 * b1, b2 + 256 * b3, q);
    case _ =>
      RowBits(b3, 0, q);
      DivByRow(b0 + 256 * b1 + U16 * b2, b3, q);
      assert word == b0 + 256 * b1 + U16 * b2 + 0x1000000 * b3;
  }

  /** Shifting the little-endian word selects the same bits as the row byte. */
  lemma {:induction false} SelectorOfWord(dds: Text, block: nat, x: nat, y: nat)
    requires block + 8 <= |dds| && x < 4 && y < 4
    ensures Le32(dds, block + 4) / Pow4(y * 4 + x) % 4 == Selector(dds, block, x, y)
  {
    Pow4Values(y, x);
    RowOfWord(dds[block + 4] as int, dds[block + 5] as int, dds[block + 6] as int, dds[block + 7] as int, y, Quarter(x));
  }

  // ---- the bitmap ----

  /** Where the pixel (x, y) stands: rows bottom-up, three bytes a pixel. */
  function Pos(w: nat, h: nat, x: nat, y: nat): nat
    requires x < w && y < h
  {
    54 + Rows(h - 1 - y, Stride(w)) + x * 3
  }

  lemma {:induction false} RowsApart(a: nat, b: nat, s: nat)
    requires a < b
    ensures Rows(a, s) + s <= Rows(b, s)
  {
    assert (a + 1) * s <= b * s;
  }

  lemma {:induction false} PosInside(w: nat, h: nat, x: nat, y: nat)
    requires w % 4 == 0 && x < w && y < h
    ensures 54 <= Pos(w, h, x, y) && Pos(w, h, x, y) + 3 <= AnnouncedSize(w, h)
  {
    StrideOfBlocks(w);
    hide Stride, Rows;
    RowsApart(h - 1 - y, h, Stride(w));
  }

  lemma {:induction false} PosApart(w: nat, h: nat, x: nat, y: nat, x': nat, y': nat)
    requires w % 4 == 0 && x < w && y < h && x' < w && y' < h && (x, y) != (x', y')
    ensures Pos(w, h, x, y) + 3 <= Pos(w, h, x', y') || Pos(w, h, x', y') + 3 <= Pos(w, h, x, y)
  {
    StrideOfBlocks(w);
    hide Stride, Rows;
    if y < y' {
      RowsApart(h - 1 - y', h - 1 - y, Stride(w));
    } else if y' < y {
      RowsApart(h - 1 - y, h - 1 - y', Stride(w));
    }
  }

  function PixelAt(data: Text, w: nat, h: nat, x: nat, y: nat): Color
    requires w % 4 == 0 && x < w && y < h && AnnouncedSize(w, h) <= |data|
  {
    PosInside(w, h, x, y);
    var p := Pos(w, h, x, y);
    Color(data[p + 2], data[p + 1], data[p])
  }

  /** The bitmap with one pixel written. */
  function SetPixel(data: Text, w: nat, h: nat, x: nat, y: nat, c: Color): (r: Text)
    requires w % 4 == 0 && x < w && y < h && AnnouncedSize(w, h) <= |data|
    ensures |r| == |data|
  {
    PosInside(w, h, x, y);
    var p := Pos(w, h, x, y);
    data[p := c.blue][p + 1 := c.green][p + 2 := c.red]
  }

  lemma {:induction false} PixelAfterSet(data: Text, w: nat, h: nat, x: nat, y: nat, c: Color, x': nat, y': nat)
    requires w % 4 == 0 && x < w && y < h && x' < w && y' < h && AnnouncedSize(w, h) <= |data|
    ensures PixelAt(SetPixel(data, w, h, x, y, c), w, h, x', y')
         == if (x, y) == (x', y') then c else PixelAt(data, w, h, x', y')
  {
    hide Pos, AnnouncedSize;
    PosInside(w, h, x, y);
    PosInside(w, h, x', y');
    if (x, y) != (x', y') {
      PosApart(w, h, x, y, x', y');
    }
  }

  lemma {:induction false} FrameAfterSet(data: Text, w: nat, h: nat, x: nat, y: nat, c: Color)
    requires w % 4 == 0 && x < w && y < h && AnnouncedSize(w, h) <= |data|
    ensures SameFrame(data, SetPixel(data, w, h, x, y, c), AnnouncedSize(w, h))
  {
    hide Pos, AnnouncedSize;
    PosInside(w, h, x, y);
  }

  // ---- the four loops ----

  /** The pixels written before the loops reach block (col, row), line y, column x of the block. */
  predicate Before(px: nat, py: nat, row: nat, col: nat, y: nat, x: nat) {
    || py / 4 < row
    || (py / 4 == row && px / 4 < col)
    || (py / 4 == row && px / 4 == col && (py % 4 < y || (py % 4 == y && px % 4 < x)))
  }

  predicate Filled(data: Text, dds: Text, row: nat, col: nat, y: nat, x: nat)
    requires Accepted(dds) && AnnouncedSize(Width(dds), Height(dds)) <= |data|
  {
    forall px, py :: 0 <= px < Width(dds) && 0 <= py < Height(dds) && Before(px, py, row, col, y, x) ==>
      PixelAt(data, Width(dds), Height(dds), px, py) == Texel(dds, px, py)
  }

  lemma {:induction false} FillOne(data: Text, dds: Text, row: nat, col: nat, y: nat, x: nat)
    requires Accepted(dds) && AnnouncedSize(Width(dds), Height(dds)) <= |data|
    requires x < 4 && y < 4 && col < Width(dds) / 4 && row < Height(dds) / 4
    requires Filled(data, dds, row, col, y, x)
    ensures col * 4 + x < Width(dds) && row * 4 + y < Height(dds)
    ensures Filled(SetPixel(data, Width(dds), Height(dds), col * 4 + x, row * 4 + y,
                            Texel(dds, col * 4 + x, row * 4 + y)), dds, row, col, y, x + 1)
  {
    hide Accepted, Width, Height, Texel, PixelAt, SetPixel, AnnouncedSize;
    AcceptedBlocks(dds);
    var w, h := Width(dds), Height(dds);
    var px, py := col * 4 + x, row * 4 + y;
    var data' := SetPixel(data, w, h, px, py, Texel(dds, px, py));
    forall qx, qy | 0 <= qx < w && 0 <= qy < h && Before(qx, qy, row, col, y, x + 1)
      ensures PixelAt(data', w, h, qx, qy) == Texel(dds, qx, qy)
    {
      PixelAfterSet(data, w, h, px, py, Texel(dds, px, py), qx, qy);
      BeforeNext(qx, qy, row, col, y, x);
    }
  }

  lemma {:induction false} AcceptedBlocks(dds: Text)
    requires Accepted(dds)
    ensures Width(dds) % 4 == 0 && Height(dds) % 4 == 0
  {
  }

  lemma {:induction false} BeforeNext(qx: nat, qy: nat, row: nat, col: nat, y: nat, x: nat)
    requires x < 4 && y < 4 && Before(qx, qy, row, col, y, x + 1)
    ensures Before(qx, qy, row, col, y, x) || (qx == col * 4 + x && qy == row * 4 + y)
  {
  }

  /** A finished line, block or block row is the start of the next. */
  lemma {:induction false} Carry(data: Text, dds: Text, row: nat, col: nat, y: nat)
    requires Accepted(dds) && AnnouncedSize(Width(dds), Height(dds)) <= |data|
    ensures Filled(data, dds, row, col, y, 4) ==> Filled(data, dds, row, col, y + 1, 0)
    ensures Filled(data, dds, row, col, 4, 0) ==> Filled(data, dds, row, col + 1, 0, 0)
    ensures Filled(data, dds, row, Width(dds) / 4, 0, 0) ==> Filled(data, dds, row + 1, 0, 0, 0)
  {
    hide Accepted, Width, Height, Texel, PixelAt, AnnouncedSize;
    AcceptedBlocks(dds);
  }

  /** The innermost body: one pixel of a block. */
  method DecodePixel(dds: Text, bmp: array<byte>, row: nat, col: nat, y: nat, x: nat,
                     colors: seq<Color>, selectors: nat)
    requires Accepted(dds) && AnnouncedSize(Width(dds), Height(dds)) <= bmp.Length
    requires x < 4 && y < 4 && col < Width(dds) / 4 && row < Height(dds) / 4
    requires |colors| == 4
    requires var block := 128 + (row * (Width(dds) / 4) + col) * 8;
             block + 8 <= |dds| && colors == Palette(Le16(dds, block), Le16(dds, block + 2)) && selectors == Le32(dds, block + 4)
    requires Filled(bmp[..], dds, row, col, y, x)
    modifies bmp
    ensures Filled(bmp[..], dds, row, col, y, x + 1)
    ensures SameFrame(old(bmp[..]), bmp[..], AnnouncedSize(Width(dds), Height(dds)))
  {
    hide Filled, Texel, Accepted, Width, Height, AnnouncedSize, Pos, Palette, Le32, Le16, Pow4, SetPixel;
    AcceptedBlocks(dds);
    var width, height := Width(dds), Height(dds);
    FillOne(bmp[..], dds, row, col, y, x);
    TexelOfWord(dds, row, col, y, x);
    var color := colors[selectors / Pow4(y * 4 + x) % 4];
    FrameAfterSet(bmp[..], width, height, col * 4 + x, row * 4 + y, color);
    WritePixel(bmp, width, height, col * 4 + x, row * 4 + y, color);
  }

  /** The header and whatever follows the image are the same. */
  predicate SameFrame(a: Text, b: Text, size: nat) {
    && |a| == |b| && 54 <= size <= |a|
    && a[..54] == b[..54] && a[size..] == b[size..]
  }

  /** The two inner loops: one block, with its palette and selector word. */
  method DecodeBlock(dds: Text, bmp: array<byte>, row: nat, col: nat)
    requires Accepted(dds) && AnnouncedSize(Width(dds), Height(dds)) <= bmp.Length
    requires col < Width(dds) / 4 && row < Height(dds) / 4
    requires Filled(bmp[..], dds, row, col, 0, 0)
    modifies bmp
    ensures Filled(bmp[..], dds, row, col + 1, 0, 0)
    ensures SameFrame(old(bmp[..]), bmp[..], AnnouncedSize(Width(dds), Height(dds)))
  {
    hide Filled, Accepted, Width, Height, Palette, Le32, Le16, Stride, Rows;
    BlockInside(dds, col, row);
    var size := AnnouncedSize(Width(dds), Height(dds));
    var block := 128 + (row * (Width(dds) / 4) + col) * 8;
    var colors := Palette(Le16(dds, block), Le16(dds, block + 2));
    var selectors := Le32(dds, block + 4);
    var y := 0;
    while y < 4
      invariant 0 <= y <= 4 && Filled(bmp[..], dds, row, col, y, 0)
      invariant SameFrame(old(bmp[..]), bmp[..], size)
    {
      var x := 0;
      while x < 4
        invariant 0 <= x <= 4 && Filled(bmp[..], dds, row, col, y, x)
        invariant SameFrame(old(bmp[..]), bmp[..], size)
      {
        DecodePixel(dds, bmp, row, col, y, x, colors, selectors);
        x := x + 1;
      }
      Carry(bmp[..], dds, row, col, y);
      y := y + 1;
    }
    Carry(bmp[..], dds, row, col, 0);
  }

  method WritePixel(bmp: array<byte>, w: nat, h: nat, x: nat, y: nat, c: Color)
    requires w % 4 == 0 && x < w && y < h && AnnouncedSize(w, h) <= bmp.Length
    modifies bmp
    ensures bmp[..] == SetPixel(old(bmp[..]), w, h, x, y, c)
  {
    PosInside(w, h, x, y);
    var out := Pos(w, h, x, y);
    bmp[out] := c.blue;
    bmp[out + 1] := c.green;
    bmp[out + 2] := c.red;
  }

  /** The colour the loop picks is the texel of the definition. */
  lemma {:induction false} TexelOfWord(dds: Text, row: nat, col: nat, y: nat, x: nat)
    requires Accepted(dds) && x < 4 && y < 4 && col < Width(dds) / 4 && row < Height(dds) / 4
    ensures var block := 128 + (row * (Width(dds) / 4) + col) * 8;
            && block + 8 <= |dds| && col * 4 + x < Width(dds) && row * 4 + y < Height(dds)
            && Palette(Le16(dds, block), Le16(dds, block + 2))[Le32(dds, block + 4) / Pow4(y * 4 + x) % 4]
               == Texel(dds, col * 4 + x, row * 4 + y)
  {
    hide Palette, Le32, Le16, Pow4, Accepted, Width, Height, Selector;
    BlockInside(dds, col, row);
    var block := 128 + (row * (Width(dds) / 4) + col) * 8;
    SelectorOfWord(dds, block, x, y);
    SelectorByRemainder(dds, block, col * 4 + x, row * 4 + y, x, y);
    assert (col * 4 + x) / 4 == col && (row * 4 + y) / 4 == row;
  }

  lemma {:induction false} SelectorByRemainder(dds: Text, block: nat, px: nat, py: nat, x: nat, y: nat)
    requires block + 8 <= |dds| && x < 4 && y < 4 && px % 4 == x && py % 4 == y
    ensures Selector(dds, block, px, py) == Selector(dds, block, x, y)
  {
  }

  // ---- header and whole image ----

  predicate Word16(data: Text, at: nat, v: nat) { at + 2 <= |data| && Le16(data, at) == v }

  predicate Word32(data: Text, at: nat, v: nat) { at + 4 <= |data| && Le32(data, at) == v }

  /** A 24-bit bottom-up bitmap header for these dimensions. */
  predicate BitmapHeader(data: Text, w: nat, h: nat) {
    && |data| >= 54 && data[0] == 66 && data[1] == 77
    && Word32(data, 2, AnnouncedSize(w, h)) && Word32(data, 6, 0) && Word32(data, 10, 54)
    && Word32(data, 14, 40) && Word32(data, 18, w) && Word32(data, 22, h)
    && Word16(data, 26, 1) && Word16(data, 28, 24) && Word32(data, 30, 0)
    && Word32(data, 34, Rows(h, Stride(w)))
    && forall i :: 38 <= i < 54 ==> data[i] == 0
  }

  /** Everything outside [at, at + count) is as before. */
  predicate ChangedOnly(a: Text, b: Text, at: nat, count: nat) {
    |a| == |b| && forall i :: 0 <= i < |a| && !(at <= i < at + count) ==> a[i] == b[i]
  }

  method Put16(bmp: array<byte>, at: nat, value: nat)
    requires at + 2 <= bmp.Length && value < U16
    modifies bmp
    ensures Word16(bmp[..], at, value) && ChangedOnly(old(bmp[..]), bmp[..], at, 2)
  {
    bmp[at] := value % 256;
    bmp[at + 1] := value / 256;
  }

  method Put32(bmp: array<byte>, at: nat, value: nat)
    requires at + 4 <= bmp.Length && value < U32
    modifies bmp
    ensures Word32(bmp[..], at, value) && ChangedOnly(old(bmp[..]), bmp[..], at, 4)
  {
    Put16(bmp, at, value % U16);
    Put16(bmp, at + 2, value / U16);
  }

  lemma {:induction false} WordsStay(a: Text, b: Text, at: nat, count: nat)
    requires ChangedOnly(a, b, at, count)
    ensures forall k: nat, v: nat :: Word32(a, k, v) && (k + 4 <= at || at + count <= k) ==> Word32(b, k, v)
    ensures forall k: nat, v: nat :: Word16(a, k, v) && (k + 2 <= at || at + count <= k) ==> Word16(b, k, v)
  {
    hide Word16, Word32;
    forall k: nat, v: nat | Word32(a, k, v) && (k + 4 <= at || at + count <= k) ensures Word32(b, k, v) {
      WordLength(a, k, v);
      WordCopy(a, b, k, v);
    }
    forall k: nat, v: nat | Word16(a, k, v) && (k + 2 <= at || at + count <= k) ensures Word16(b, k, v) {
      WordLength(a, k, v);
      HalfCopy(a, b, k, v);
    }
  }

  lemma {:induction false} WordLength(a: Text, k: nat, v: nat)
    ensures Word32(a, k, v) ==> k + 4 <= |a|
    ensures Word16(a, k, v) ==> k + 2 <= |a|
  {
  }

  method WriteHeader(bmp: array<byte>, w: nat, h: nat)
    requires 0 < w <= 256 && 0 < h <= 256 && w % 4 == 0 && AnnouncedSize(w, h) <= bmp.Length
    modifies bmp
    ensures BitmapHeader(bmp[..], w, h)
    ensures bmp[AnnouncedSize(w, h)..] == old(bmp[AnnouncedSize(w, h)..])
  {
    SizeFits(w, h);
    var size := AnnouncedSize(w, h);
    var i := 0;
    while i < size
      invariant 0 <= i <= size
      invariant forall j :: 0 <= j < i ==> bmp[j] == 0
      invariant forall j :: size <= j < bmp.Length ==> bmp[j] == old(bmp[j])
    {
      bmp[i] := 0;
      i := i + 1;
    }
    bmp[0], bmp[1] := 66, 77;
    WriteFields(bmp, w, h);
  }

  lemma {:induction false} SizeFits(w: nat, h: nat)
    requires 0 < w <= 256 && 0 < h <= 256
    ensures 54 <= AnnouncedSize(w, h) && Rows(h, Stride(w)) + 54 < U32
  {
    assert Stride(w) <= 771;
    hide Stride;
    RowsBounded(h, Stride(w));
  }

  lemma {:induction false} RowsBounded(h: nat, s: nat)
    requires h <= 256 && s <= 771
    ensures Rows(h, s) <= 256 * 771
  {
    assert h * s <= 256 * s;
  }

  method WriteFields(bmp: array<byte>, w: nat, h: nat)
    requires 0 < w <= 256 && 0 < h <= 256 && 54 <= AnnouncedSize(w, h) <= bmp.Length
    requires Rows(h, Stride(w)) + 54 < U32
    requires bmp[0] == 66 && bmp[1] == 77 && forall i :: 2 <= i < 54 ==> bmp[i] == 0
    modifies bmp
    ensures BitmapHeader(bmp[..], w, h) && ChangedOnly(old(bmp[..]), bmp[..], 2, 52)
  {
    hide Rows, Stride, Word16, Word32;
    ghost var s0 := bmp[..];
    ZeroWord(s0, 6);
    ZeroWord(s0, 30);
    Put32(bmp, 2, AnnouncedSize(w, h));
    ghost var s1 := bmp[..]; WordsStay(s0, s1, 2, 4);
    Put32(bmp, 10, 54);
    ghost var s2 := bmp[..]; WordsStay(s1, s2, 10, 4);
    Put32(bmp, 14, 40);
    ghost var s3 := bmp[..]; WordsStay(s2, s3, 14, 4);
    Put32(bmp, 18, w);
    ghost var s4 := bmp[..]; WordsStay(s3, s4, 18, 4);
    Put32(bmp, 22, h);
    ghost var s5 := bmp[..]; WordsStay(s4, s5, 22, 4);
    Put16(bmp, 26, 1);
    ghost var s6 := bmp[..]; WordsStay(s5, s6, 26, 2);
    Put16(bmp, 28, 24);
    ghost var s7 := bmp[..]; WordsStay(s6, s7, 28, 2);
    Put32(bmp, 34, Rows(h, Stride(w)));
    ghost var s8 := bmp[..]; WordsStay(s7, s8, 34, 4);
  }

  lemma {:induction false} ZeroWord(data: Text, at: nat)
    requires at + 4 <= |data| && data[at] == 0 && data[at + 1] == 0 && data[at + 2] == 0 && data[at + 3] == 0
    ensures Word32(data, at, 0)
  {
  }

  lemma {:induction false} HeaderStays(a: Text, b: Text, w: nat, h: nat, size: nat)
    requires BitmapHeader(a, w, h) && SameFrame(a, b, size)
    ensures BitmapHeader(b, w, h)
  {
    hide AnnouncedSize, Rows, Stride, Word16, Word32;
    assert forall i :: 0 <= i < 54 ==> a[..54][i] == a[i] && b[..54][i] == b[i];
    assert forall i :: 0 <= i < 54 ==> a[i] == b[i];
    forall k: nat, v: nat | k + 4 <= 54 && Word32(a, k, v) ensures Word32(b, k, v) { WordCopy(a, b, k, v); }
    forall k: nat, v: nat | k + 2 <= 54 && Word16(a, k, v) ensures Word16(b, k, v) { HalfCopy(a, b, k, v); }
  }

  lemma {:induction false} WordCopy(a: Text, b: Text, k: nat, v: nat)
    requires Word32(a, k, v) && |a| == |b| && forall i :: k <= i < k + 4 ==> a[i] == b[i]
    ensures Word32(b, k, v)
  {
  }

  lemma {:induction false} HalfCopy(a: Text, b: Text, k: nat, v: nat)
    requires Word16(a, k, v) && |a| == |b| && forall i :: k <= i < k + 2 ==> a[i] == b[i]
    ensures Word16(b, k, v)
  {
  }

  /** Every pixel of the image is the texel the blocks define. */
  predicate Decoded(data: Text, dds: Text)
    requires Accepted(dds) && AnnouncedSize(Width(dds), Height(dds)) <= |data|
  {
    forall x, y :: 0 <= x < Width(dds) && 0 <= y < Height(dds) ==>
      PixelAt(data, Width(dds), Height(dds), x, y) == Texel(dds, x, y)
  }

  lemma {:induction false} AllFilled(data: Text, dds: Text)
    requires Accepted(dds) && AnnouncedSize(Width(dds), Height(dds)) <= |data|
    requires Filled(data, dds, Height(dds) / 4, 0, 0, 0)
    ensures Decoded(data, dds)
  {
    hide Accepted, Width, Height, Texel, PixelAt, AnnouncedSize;
    AcceptedBlocks(dds);
    assert forall y :: 0 <= y < Height(dds) ==> y / 4 < Height(dds) / 4;
  }

  lemma {:induction false} NothingFilled(data: Text, dds: Text)
    requires Accepted(dds) && AnnouncedSize(Width(dds), Height(dds)) <= |data|
    ensures Filled(data, dds, 0, 0, 0, 0)
  {
  }

  /** The two outer loops over the blocks. */
  method DecodeBlocks(dds: Text, bmp: array<byte>)
    requires Accepted(dds) && 54 <= AnnouncedSize(Width(dds), Height(dds)) <= bmp.Length
    modifies bmp
    ensures Decoded(bmp[..], dds)
    ensures SameFrame(old(bmp[..]), bmp[..], AnnouncedSize(Width(dds), Height(dds)))
  {
    hide Filled, Accepted, Width, Height, Stride, Rows, Decoded;
    var size := AnnouncedSize(Width(dds), Height(dds));
    NothingFilled(bmp[..], dds);
    var row := 0;
    while row < Height(dds) / 4
      invariant 0 <= row <= Height(dds) / 4 && Filled(bmp[..], dds, row, 0, 0, 0)
      invariant SameFrame(old(bmp[..]), bmp[..], size)
    {
      var col := 0;
      while col < Width(dds) / 4
        invariant 0 <= col <= Width(dds) / 4 && Filled(bmp[..], dds, row, col, 0, 0)
        invariant SameFrame(old(bmp[..]), bmp[..], size)
      {
        DecodeBlock(dds, bmp, row, col);
        col := col + 1;
      }
      Carry(bmp[..], dds, row, col, 0);
      row := row + 1;
    }
    AllFilled(bmp[..], dds);
  }

  /**
    The conversion. An accepted surface that fits gives a bitmap of exactly the announced size whose
    every pixel is its texel, and nothing behind it is touched; anything else is refused untouched.
   */
  method Convert(dds: Text, bmp: array<byte>) returns (size: int)
    modifies bmp
    ensures Accepted(dds) && AnnouncedSize(Width(dds), Height(dds)) <= bmp.Length ==>
              && size == AnnouncedSize(Width(dds), Height(dds))
              && BitmapHeader(bmp[..], Width(dds), Height(dds)) && Decoded(bmp[..], dds)
              && bmp[size..] == old(bmp[size..])
    ensures !(Accepted(dds) && AnnouncedSize(Width(dds), Height(dds)) <= bmp.Length) ==>
              size == -1 && bmp[..] == old(bmp[..])
  {
    hide Decoded, Stride, Rows, BitmapHeader;
    if !Accepted(dds) { return -1; }
    var width, height := Width(dds), Height(dds);
    SizeFits(width, height);
    if bmp.Length < AnnouncedSize(width, height) { return -1; }
    size := AnnouncedSize(width, height);
    WriteHeader(bmp, width, height);
    ghost var before := bmp[..];
    DecodeBlocks(dds, bmp);
    HeaderStays(before, bmp[..], width, height, size);
  }

  // ---- a viewer ----

  /** Rows of 24-bit pixels take whole 32-bit words. */
  function RowBytes(w: nat): nat { (w * 24 + 31) / 32 * 4 }

  /** A viewer of 24-bit bitmaps: it knows only the header's fields, rows padded to 32 bits and stored from the bottom. */
  function View(bmp: Text, x: nat, y: nat): Option<Color> {
    if |bmp| < 54 || Le16(bmp, 28) != 24 || x >= Le32(bmp, 18) || y >= Le32(bmp, 22) then None
    else
      var at := Le32(bmp, 10) + Rows(Le32(bmp, 22) - 1 - y, RowBytes(Le32(bmp, 18))) + 3 * x;
      if at + 3 > |bmp| then None else Some(Color(bmp[at + 2], bmp[at + 1], bmp[at]))
  }

  lemma {:induction false} StrideInBits(w: nat)
    ensures RowBytes(w) == Stride(w)
  {
    var n := w * 3 + 3;
    assert (w * 24 + 31) / 32 == n / 4;
  }

  /** A viewer that opens a converted bitmap shows the texel at every pixel. */
  lemma {:induction false} ViewerShowsTexels(dds: Text, bmp: Text, x: nat, y: nat)
    requires Accepted(dds) && AnnouncedSize(Width(dds), Height(dds)) <= |bmp|
    requires BitmapHeader(bmp, Width(dds), Height(dds)) && Decoded(bmp, dds) && x < Width(dds) && y < Height(dds)
    ensures View(bmp, x, y) == Some(Texel(dds, x, y))
  {
    hide Accepted, Decoded, Texel, Width, Height, Le16, Le32, Stride, RowBytes, Rows, PixelAt, AnnouncedSize, BitmapHeader;
    WholeBlocks(dds);
    DecodedAt(bmp, dds, x, y);
    ViewedAt(bmp, Width(dds), Height(dds), x, y);
  }

  lemma {:induction false} WholeBlocks(dds: Text)
    requires Accepted(dds)
    ensures Width(dds) % 4 == 0
  {
    hide Le32;
  }

  lemma {:induction false} DecodedAt(bmp: Text, dds: Text, x: nat, y: nat)
    requires Accepted(dds) && AnnouncedSize(Width(dds), Height(dds)) <= |bmp| && Decoded(bmp, dds)
    requires x < Width(dds) && y < Height(dds) && Width(dds) % 4 == 0
    ensures PixelAt(bmp, Width(dds), Height(dds), x, y) == Texel(dds, x, y)
  {
    hide Accepted, Width, Height, PixelAt, Texel, AnnouncedSize;
  }

  lemma {:induction false} ViewedAt(bmp: Text, w: nat, h: nat, x: nat, y: nat)
    requires w % 4 == 0 && x < w && y < h && AnnouncedSize(w, h) <= |bmp| && BitmapHeader(bmp, w, h)
    ensures View(bmp, x, y) == Some(PixelAt(bmp, w, h, x, y))
  {
    hide Le16, Le32, Stride, RowBytes, Rows;
    StrideInBits(w);
    PosInside(w, h, x, y);
  }
}
