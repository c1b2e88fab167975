/** The image requests themselves, on a byte array that is painted in place. */
module RasterWindow {
  import opened Bytes
  import opened Raster

  method PutPixel(d: array<byte>, off: nat, v: U32, order: byte)
    requires off + 4 <= d.Length
    modifies d
    ensures d[off..off + 4] == PutU32(v, order)
    ensures forall k :: 0 <= k < d.Length && !(off <= k < off + 4) ==> d[k] == old(d[k])
  {
    var p := PutU32(v, order);
    d[off], d[off + 1], d[off + 2], d[off + 3] := p[0], p[1], p[2], p[3];
  }

  // ---- how far a clear has come ----

  /** (px, py) comes before (col, row) in the order of the loops. */
  predicate Before(px: int, py: int, col: int, row: int) {
    py < row || (py == row && px < col)
  }

  /** The covered points before (col, row) are painted and nothing else is. */
  ghost predicate Partial(before: seq<byte>, after: seq<byte>, w: nat, h: nat, c: Clear, order: byte,
                          col: int, row: int) {
    |after| == |before| &&
    (forall px: nat, py: nat :: Inside(w, h, |before|, px, py) ==>
       Pixel(after, w, px, py) ==
         (if Covers(c, px, py) && Before(px, py, col, row) then PutU32(c.color, order)
          else Pixel(before, w, px, py))) &&
    (forall k :: 0 <= k < |before| && !Touched(w, h, |before|, c, k) ==> after[k] == before[k])
  }

  /** Moving the mark over points that are not in the image or not covered changes nothing. */
  lemma PartialMoves(before: seq<byte>, after: seq<byte>, w: nat, h: nat, c: Clear, order: byte,
                     col: int, row: int, col': int, row': int)
    requires Partial(before, after, w, h, c, order, col, row)
    requires forall px: nat, py: nat :: Inside(w, h, |before|, px, py) && Covers(c, px, py) ==>
               (Before(px, py, col, row) <==> Before(px, py, col', row'))
    ensures Partial(before, after, w, h, c, order, col', row')
  {
  }

  lemma PartialPaints(before: seq<byte>, prev: seq<byte>, after: seq<byte>, w: nat, h: nat, c: Clear, order: byte,
                      col: nat, row: nat)
    requires Partial(before, prev, w, h, c, order, col, row) && |after| == |prev|
    requires Inside(w, h, |before|, col, row) && Covers(c, col, row)
    requires Pixel(after, w, col, row) == PutU32(c.color, order)
    requires forall k :: 0 <= k < |prev| && !(Offset(w, col, row) <= k < Offset(w, col, row) + 4) ==>
               after[k] == prev[k]
    ensures Partial(before, after, w, h, c, order, col + 1, row)
  {
    forall px: nat, py: nat | Inside(w, h, |before|, px, py)
      ensures Pixel(after, w, px, py) ==
              (if Covers(c, px, py) && Before(px, py, col + 1, row) then PutU32(c.color, order)
               else Pixel(before, w, px, py))
    {
      if px != col || py != row {
        PixelsApart(w, px, py, col, row);
        assert Pixel(after, w, px, py) == Pixel(prev, w, px, py);
      }
    }
    forall k | 0 <= k < |before| && !Touched(w, h, |before|, c, k) ensures after[k] == before[k] {
      assert !(Offset(w, col, row) <= k < Offset(w, col, row) + 4);
    }
  }

  /** One row of the clear. rw is the number of columns the source walks. */
  method ClearRow(d: array<byte>, w: nat, h: nat, c: Clear, order: byte, py: nat, rw: nat, ghost before: seq<byte>)
    requires py < h && Covers(c, c.x, py)
    requires forall px :: 0 <= px < w && Covers(c, px, py) ==> px < c.x + rw
    requires c.w != 0 ==> rw == c.w
    requires Partial(before, d[..], w, h, c, order, c.x, py)
    modifies d
    ensures Partial(before, d[..], w, h, c, order, c.x, py + 1)
  {
    for col := 0 to rw
      invariant Partial(before, d[..], w, h, c, order, c.x + col, py)
    {
      var px := c.x + col;
      if 0 <= px < w {
        RowStartIsProduct(w, py);
        var off := (py * w + px) * 4;
        assert off == Offset(w, px, py);
        if off + 4 <= d.Length {
          ghost var prev := d[..];
          PutPixel(d, off, c.color, order);
          PartialPaints(before, prev, d[..], w, h, c, order, px, py);
          continue;
        }
      }
      PartialMoves(before, d[..], w, h, c, order, px, py, px + 1, py);
    }
    PartialMoves(before, d[..], w, h, c, order, c.x + rw, py, c.x, py + 1);
  }

  /** The painting loops of ClearArea. */
  method PaintRect(d: array<byte>, w: nat, h: nat, c: Clear, order: byte)
    modifies d
    ensures Cleared(old(d[..]), d[..], w, h, c, order)
  {
    ghost var before := d[..];
    var rw := if c.w == 0 then w - c.x else c.w;
    var rh := if c.h == 0 then h - c.y else c.h;
    rw := if rw < 0 then 0 else rw;
    rh := if rh < 0 then 0 else rh;
    for row := 0 to rh
      invariant Partial(before, d[..], w, h, c, order, c.x, c.y + row)
    {
      var py := c.y + row;
      if py < 0 || py >= h {
        PartialMoves(before, d[..], w, h, c, order, c.x, py, c.x, py + 1);
      } else {
        ClearRow(d, w, h, c, order, py, rw, before);
      }
    }
    assert forall px: nat, py: nat :: Inside(w, h, |before|, px, py) && Covers(c, px, py) ==>
             Before(px, py, c.x, c.y + rh);
  }

  // ---- reading back ----

  /** What a reply pixel shows: the image point under it, or zero bytes outside the image. */
  function Seen(d: seq<byte>, w: nat, h: nat, px: int, py: int): (p: seq<byte>)
    ensures |p| == 4
  {
    if Inside(w, h, |d|, px, py) then Pixel(d, w, px, py) else [0, 0, 0, 0]
  }

  /** Reply bytes, after the 32-byte header, that show the rectangle at (x, y) of size rw by rh up to a mark. */
  ghost predicate Copied(reply: seq<byte>, d: seq<byte>, w: nat, h: nat, x: int, y: int, rw: nat, rh: nat,
                         col: int, row: int) {
    |reply| == 32 + Offset(rw, 0, rh) &&
    forall i: nat, j: nat :: i < rw && j < rh ==>
      32 + Offset(rw, i, j) + 4 <= |reply| &&
      reply[32 + Offset(rw, i, j)..32 + Offset(rw, i, j) + 4] ==
        if Before(i, j, col, row) then Seen(d, w, h, x + i, y + j) else [0, 0, 0, 0]
  }

  lemma ReplyHasRoom(rw: nat, rh: nat, i: nat, j: nat)
    requires i < rw && j < rh
    ensures Offset(rw, i, j) + 4 <= Offset(rw, 0, rh)
  {
    RowsApart(rw, j, rh);
  }

  lemma SameBytes(prev: seq<byte>, next: seq<byte>, o: nat, at: nat)
    requires |next| == |prev| && o + 4 <= |prev| && (o + 4 <= at || at + 4 <= o)
    requires forall k :: 0 <= k < |prev| && !(at <= k < at + 4) ==> next[k] == prev[k]
    ensures next[o..o + 4] == prev[o..o + 4]
  {
  }

  lemma CopyAdvances(prev: seq<byte>, next: seq<byte>, d: seq<byte>, w: nat, h: nat, x: int, y: int,
                     rw: nat, rh: nat, col: nat, row: nat)
    requires Copied(prev, d, w, h, x, y, rw, rh, col, row) && |next| == |prev| && col < rw && row < rh
    requires 32 + Offset(rw, col, row) + 4 <= |prev|
    requires next[32 + Offset(rw, col, row)..32 + Offset(rw, col, row) + 4] == Seen(d, w, h, x + col, y + row)
    requires forall k :: 0 <= k < |prev| && !(32 + Offset(rw, col, row) <= k < 32 + Offset(rw, col, row) + 4) ==>
               next[k] == prev[k]
    ensures Copied(next, d, w, h, x, y, rw, rh, col + 1, row)
  {
    forall i: nat, j: nat | i < rw && j < rh
      ensures 32 + Offset(rw, i, j) + 4 <= |next|
      ensures next[32 + Offset(rw, i, j)..32 + Offset(rw, i, j) + 4] ==
              if Before(i, j, col + 1, row) then Seen(d, w, h, x + i, y + j) else [0, 0, 0, 0]
    {
      ReplyHasRoom(rw, rh, i, j);
      if i != col || j != row {
        PixelsApart(rw, i, j, col, row);
        SameBytes(prev, next, 32 + Offset(rw, i, j), 32 + Offset(rw, col, row));
      }
    }
  }

  /** One pixel of the reply. */
  method CopyPixel(reply: array<byte>, d: array<byte>, w: nat, h: nat, x: int, y: int, rw: nat, rh: nat,
                   col: nat, row: nat)
    requires reply != d && col < rw && row < rh
    requires Copied(reply[..], d[..], w, h, x, y, rw, rh, col, row)
    modifies reply
    ensures Copied(reply[..], d[..], w, h, x, y, rw, rh, col + 1, row)
    ensures reply[..32] == old(reply[..32])
  {
    ReplyHasRoom(rw, rh, col, row);
    ghost var prev := reply[..];
    var px, py := x + col, y + row;
    RowStartIsProduct(rw, row);
    var dst := 32 + (row * rw + col) * 4;
    if 0 <= px < w && 0 <= py < h {
      RowStartIsProduct(w, py);
      var src := (py * w + px) * 4;
      if src + 4 <= d.Length {
        assert src == Offset(w, px, py);
        reply[dst], reply[dst + 1], reply[dst + 2], reply[dst + 3] := d[src], d[src + 1], d[src + 2], d[src + 3];
        assert reply[dst..dst + 4] == d[src..src + 4];
      }
    }
    assert Before(col, row, col, row) == false;
    assert reply[..][dst..dst + 4] == Seen(d[..], w, h, px, py);
    CopyAdvances(prev, reply[..], d[..], w, h, x, y, rw, rh, col, row);
  }

  /** The copying loops of GetImage. */
  method CopyRect(reply: array<byte>, d: array<byte>, w: nat, h: nat, x: int, y: int, rw: nat, rh: nat)
    requires reply != d && Copied(reply[..], d[..], w, h, x, y, rw, rh, 0, 0)
    modifies reply
    ensures Copied(reply[..], d[..], w, h, x, y, rw, rh, 0, rh)
    ensures reply[..32] == old(reply[..32])
  {
    for row := 0 to rh
      invariant Copied(reply[..], d[..], w, h, x, y, rw, rh, 0, row)
      invariant reply[..32] == old(reply[..32])
    {
      for col := 0 to rw
        invariant Copied(reply[..], d[..], w, h, x, y, rw, rh, col, row)
        invariant reply[..32] == old(reply[..32])
      {
        CopyPixel(reply, d, w, h, x, y, rw, rh, col, row);
      }
      assert forall i: nat, j: nat :: i < rw && j < rh ==> (Before(i, j, rw, row) <==> Before(i, j, 0, row + 1));
    }
  }

  // ---- the window ----

  const MAX_IMAGE_BYTES := 65536

  datatype ImageError = NoError | ValueError | AllocError

  /** The 32 bytes before the pixels of a GetImage reply. */
  function ReplyHeader(depth: byte, sequence: U16, units: U32, visual: U32, order: byte): (r: seq<byte>)
    ensures |r| == 32
  {
    [1, depth] + PutU16(sequence, order) + PutU32(units, order) + PutU32(visual, order) + seq(20, i => 0)
  }

  /** What a client reads in the header: kind 1, depth, sequence number, length in 4-byte units, visual, zeros. */
  lemma HeaderReadsBack(depth: byte, sequence: U16, units: U32, visual: U32, order: byte)
    ensures var r := ReplyHeader(depth, sequence, units, visual, order);
            r[0] == 1 && r[1] == depth && GetU16(r[2..], order) == sequence && GetU32(r[4..], order) == units &&
            GetU32(r[8..], order) == visual && forall k :: 12 <= k < 32 ==> r[k] == 0
  {
    var r := ReplyHeader(depth, sequence, units, visual, order);
    RoundTrip16(sequence, order);
    RoundTrip32(units, order);
    RoundTrip32(visual, order);
    assert r[2..4] == PutU16(sequence, order) && r[4..8] == PutU32(units, order) && r[8..12] == PutU32(visual, order);
    SameBytes16(r[2..], PutU16(sequence, order), order);
    SameBytes32(r[4..], PutU32(units, order), order);
    SameBytes32(r[8..], PutU32(visual, order), order);
  }

  lemma SameBytes16(s: seq<byte>, p: seq<byte>, order: byte)
    requires |s| >= 2 && |p| == 2 && s[..2] == p
    ensures GetU16(s, order) == GetU16(p, order)
  {
  }

  lemma SameBytes32(s: seq<byte>, p: seq<byte>, order: byte)
    requires |s| >= 4 && |p| == 4 && s[..4] == p
    ensures GetU32(s, order) == GetU32(p, order)
  {
  }

  /** The length of a reply counts one unit for each pixel. */
  lemma AreaIs(w: U16, h: U16)
    ensures Area(w, h) == h * w
  {
    RowStartIsProduct(w, h);
  }

  class Window {
    const order: byte
    var image: array?<byte>
    var w: U16
    var h: U16
    var depth: byte
    var format: byte
    var background: U32
    // History: the bytes of the last PutImage, the clears painted since, and the image after each.
    ghost var put: seq<byte>
    ghost var clears: seq<Clear>
    ghost var states: seq<seq<byte>>

    /** The image is stored and of the one kind that is painted and read back. */
    predicate Paintable()
      reads this
    {
      image != null && format == ZPIXMAP && depth == 24
    }

    ghost predicate Valid()
      reads this, image
    {
      image != null ==>
        ClearRun(states, clears, w, h, order) && states[0] == put && states[|clears|] == image[..]
    }

    constructor (order: byte)
      ensures Valid() && image == null && this.order == order
    {
      this.order := order;
      image, w, h, depth, format, background := null, 0, 0, 0, 0, 0;
      put, clears, states := [], [], [[]];
    }

    /** Replaces the backing image; empty data leaves the window without one. */
    method PutImage(format: byte, depth: byte, w: U16, h: U16, data: seq<byte>) returns (e: ImageError)
      requires Valid()
      modifies this
      ensures Valid() && background == old(background)
      ensures e == if format > 2 then ValueError else if |data| > 65536 then AllocError else NoError
      ensures e == NoError ==> (Paintable() <==> data != [] && format == 2 && depth == 24)
      ensures e == NoError ==> (image != null <==> data != []) && put == data && clears == []
      ensures e == NoError && data != [] ==>
                this.format == format && this.depth == depth && this.w == w && this.h == h
      ensures e != NoError ==>
                image == old(image) && this.w == old(this.w) && this.h == old(this.h) &&
                this.depth == old(this.depth) && this.format == old(this.format) &&
                put == old(put) && clears == old(clears) && states == old(states)
    {
      if format > 2 {
        return ValueError;
      }
      if |data| > MAX_IMAGE_BYTES {
        return AllocError;
      }
      image, this.w, this.h, this.depth, this.format := null, 0, 0, 0, 0;
      if |data| > 0 {
        var copy := new byte[|data|](i requires 0 <= i < |data| => data[i]);
        assert copy[..] == data;
        image, this.w, this.h, this.depth, this.format := copy, w, h, depth, format;
      }
      put, clears, states := data, [], [data];
      return NoError;
    }

    /** Paints the rectangle with the background, if the image can be painted. */
    method ClearArea(x: int, y: int, w: U16, h: U16)
      requires Valid()
      modifies this`clears, this`states, image
      ensures Valid()
      ensures put == old(put)
      ensures clears == if Paintable() then old(clears) + [Clear(x, y, w, h, background)] else old(clears)
      ensures image != null && !Paintable() ==> image[..] == old(image[..])
    {
      if image != null && format == ZPIXMAP && depth == 24 {
        var c := Clear(x, y, w, h, background);
        PaintRect(image, this.w, this.h, c, order);
        clears, states := clears + [c], states + [image[..]];
      }
    }

    /**
     An unknown format is refused. Otherwise the reply shows at every pixel the latest background painted
     over that image point, else the pixel that was put, else zero.
     */
    method GetImage(format: byte, x: int, y: int, w: U16, h: U16, sequence: U16, visual: U32, winDepth: byte)
      returns (e: ImageError, reply: array?<byte>)
      requires Valid()
      ensures e == if format > 2 then ValueError else NoError
      ensures reply == null <==> e != NoError
      ensures reply != null ==> fresh(reply) && reply.Length == 32 + Offset(w, 0, h)
      ensures reply != null ==> reply[..32] == ReplyHeader(winDepth, sequence, Area(w, h), visual, order)
      ensures reply != null ==>
                Displays(reply[..], w, h, x, y, Paintable() && format == ZPIXMAP, put, this.w, this.h, clears, order)
    {
      if format > 2 {
        return ValueError, null;
      }
      e := NoError;
      reply := NewReply(w, h, ReplyHeader(winDepth, sequence, Area(w, h), visual, order));
      if image != null && this.format == ZPIXMAP && depth == 24 && format == ZPIXMAP {
        CopyRect(reply, image, this.w, this.h, x, y, w, h);
        ShowsEverywhere(states, clears, this.w, this.h, order);
        CopyDisplays(reply[..], w, h, x, y, put, image[..], this.w, this.h, clears, order);
      }
    }
  }

  /** Pixel (i, j) of the reply, for all of them: what the point shows, or zero when it is off or outside. */
  ghost predicate Displays(reply: seq<byte>, rw: nat, rh: nat, x: int, y: int, on: bool,
                           put: seq<byte>, w: nat, h: nat, clears: seq<Clear>, order: byte) {
    forall i: nat, j: nat :: i < rw && j < rh ==>
      32 + Offset(rw, i, j) + 4 <= |reply| &&
      reply[32 + Offset(rw, i, j)..32 + Offset(rw, i, j) + 4] ==
        if on && Inside(w, h, |put|, x + i, y + j) then Shows(put, w, x + i, y + j, clears, order) else [0, 0, 0, 0]
  }

  lemma CopyDisplays(reply: seq<byte>, rw: nat, rh: nat, x: int, y: int, put: seq<byte>, d: seq<byte>,
                     w: nat, h: nat, clears: seq<Clear>, order: byte)
    requires |d| == |put| && Copied(reply, d, w, h, x, y, rw, rh, 0, rh)
    requires forall px: nat, py: nat :: Inside(w, h, |put|, px, py) ==>
               Pixel(d, w, px, py) == Shows(put, w, px, py, clears, order)
    ensures Displays(reply, rw, rh, x, y, true, put, w, h, clears, order)
  {
  }

  /** Pixels of a w by h rectangle; fits the reply's 32-bit length field. */
  function Area(w: U16, h: U16): U32 {
    AreaFits(w, h);
    RowStart(w, h)
  }

  lemma {:induction false} AreaFits(w: nat, h: nat)
    requires w <= 0xFFFF
    ensures RowStart(w, h) <= 0xFFFF * h
  {
    if h > 0 {
      AreaFits(w, h - 1);
    }
  }

  /** A zeroed reply with its header filled in. */
  method NewReply(rw: nat, rh: nat, header: seq<byte>) returns (reply: array<byte>)
    requires |header| == 32
    ensures fresh(reply) && reply.Length == 32 + Offset(rw, 0, rh) && reply[..32] == header
    ensures forall i: nat, j: nat :: i < rw && j < rh ==>
              32 + Offset(rw, i, j) + 4 <= reply.Length &&
              reply[32 + Offset(rw, i, j)..32 + Offset(rw, i, j) + 4] == [0, 0, 0, 0]
  {
    RowStartIsProduct(rw, rh);
    reply := new byte[32 + rh * rw * 4](i => 0);
    for i := 0 to 32
      invariant reply[..i] == header[..i]
      invariant forall k :: i <= k < reply.Length ==> reply[k] == 0
    {
      reply[i] := header[i];
    }
    ZeroPixels(reply[..], rw, rh);
  }

  lemma ZeroPixels(reply: seq<byte>, rw: nat, rh: nat)
    requires |reply| == 32 + Offset(rw, 0, rh) && forall k :: 32 <= k < |reply| ==> reply[k] == 0
    ensures forall i: nat, j: nat :: i < rw && j < rh ==>
              32 + Offset(rw, i, j) + 4 <= |reply| &&
              reply[32 + Offset(rw, i, j)..32 + Offset(rw, i, j) + 4] == [0, 0, 0, 0]
  {
    forall i: nat, j: nat | i < rw && j < rh
      ensures 32 + Offset(rw, i, j) + 4 <= |reply|
      ensures reply[32 + Offset(rw, i, j)..32 + Offset(rw, i, j) + 4] == [0, 0, 0, 0]
    {
      ReplyHasRoom(rw, rh, i, j);
    }
  }

  lemma {:induction false} LengthKept(states: seq<seq<byte>>, clears: seq<Clear>, w: nat, h: nat, order: byte)
    requires ClearRun(states, clears, w, h, order)
    ensures |states[|clears|]| == |states[0]|
    decreases |clears|
  {
    if clears != [] {
      var n := |clears| - 1;
      assert Cleared(states[n], states[n + 1], w, h, clears[n], order);
      LengthKept(states[..|clears|], clears[..n], w, h, order);
    }
  }

  lemma ShowsEverywhere(states: seq<seq<byte>>, clears: seq<Clear>, w: nat, h: nat, order: byte)
    requires ClearRun(states, clears, w, h, order)
    ensures |states[|clears|]| == |states[0]|
    ensures forall px: nat, py: nat :: Inside(w, h, |states[0]|, px, py) ==>
              Pixel(states[|clears|], w, px, py) == Shows(states[0], w, px, py, clears, order)
  {
    LengthKept(states, clears, w, h, order);
    forall px: nat, py: nat | Inside(w, h, |states[0]|, px, py)
      ensures Pixel(states[|clears|], w, px, py) == Shows(states[0], w, px, py, clears, order)
    {
      RasterLaw(states, clears, w, h, order, px, py);
    }
  }
}
