/**
 The raster backing image of a window: PutImage stores it, ClearArea paints rectangles of it in place,
 GetImage copies rectangles out (x11bridge/x11_client.c). Pixels are 4 bytes, rows follow each other.
 */
module Raster {
  import opened Bytes

  const ZPIXMAP := 2

  // ---- row-major addresses ----

  /** Pixels before row py of an image of width w. */
  function RowStart(w: nat, py: nat): nat {
    if py == 0 then 0 else RowStart(w, py - 1) + w
  }

  function Offset(w: nat, px: nat, py: nat): nat {
    4 * (RowStart(w, py) + px)
  }

  lemma {:induction false} RowStartIsProduct(w: nat, py: nat)
    ensures RowStart(w, py) == py * w
  {
    if py > 0 {
      RowStartIsProduct(w, py - 1);
    }
  }

  lemma {:induction false} RowsApart(w: nat, a: nat, b: nat)
    requires a < b
    ensures RowStart(w, a) + w <= RowStart(w, b)
  {
    if a + 1 < b {
      RowsApart(w, a, b - 1);
    }
  }

  /** Different pixels share no byte. */
  lemma PixelsApart(w: nat, px: nat, py: nat, qx: nat, qy: nat)
    requires px < w && qx < w && (px != qx || py != qy)
    ensures Offset(w, px, py) + 4 <= Offset(w, qx, qy) || Offset(w, qx, qy) + 4 <= Offset(w, px, py)
  {
    if py < qy {
      RowsApart(w, py, qy);
    } else if qy < py {
      RowsApart(w, qy, py);
    }
  }

  /** Four bytes a pixel, row after row. */
  lemma OffsetIs(w: nat, px: nat, py: nat)
    ensures Offset(w, px, py) == 4 * (py * w + px)
  {
    RowStartIsProduct(w, py);
  }

  /** The point is in the image and its four bytes are in the stored data. */
  predicate Inside(w: nat, h: nat, len: nat, px: int, py: int) {
    0 <= px < w && 0 <= py < h && Offset(w, px, py) + 4 <= len
  }

  /** A point is shown if it is in the image and the image has all of its bytes. */
  lemma InsideIff(w: nat, h: nat, len: nat, px: int, py: int)
    ensures Inside(w, h, len, px, py) <==> 0 <= px < w && 0 <= py < h && 4 * (py * w + px) + 4 <= len
  {
    if 0 <= px < w && 0 <= py < h {
      OffsetIs(w, px, py);
    }
  }

  function Pixel(d: seq<byte>, w: nat, px: nat, py: nat): seq<byte>
    requires Offset(w, px, py) + 4 <= |d|
  {
    d[Offset(w, px, py)..Offset(w, px, py) + 4]
  }

  // ---- what a clear means ----

  /** A ClearArea request with the background it paints. Zero width or height means to the edge. */
  datatype Clear = Clear(x: int, y: int, w: nat, h: nat, color: U32)

  predicate Covers(c: Clear, px: int, py: int) {
    c.x <= px && (c.w == 0 || px < c.x + c.w) && c.y <= py && (c.h == 0 || py < c.y + c.h)
  }

  /** Which points of an image of width w and height h a request clears: zero reaches to the edge. */
  lemma ClearReaches(c: Clear, w: nat, h: nat, px: int, py: int)
    requires 0 <= px < w && 0 <= py < h
    ensures Covers(c, px, py) <==>
            c.x <= px < (if c.w == 0 then w else c.x + c.w) && c.y <= py < (if c.h == 0 then h else c.y + c.h)
  {
  }

  /** Byte k belongs to a point that the clear covers. */
  ghost predicate Touched(w: nat, h: nat, len: nat, c: Clear, k: int) {
    exists px: nat, py: nat ::
      Inside(w, h, len, px, py) && Covers(c, px, py) && Offset(w, px, py) <= k < Offset(w, px, py) + 4
  }

  /** `after` is `before` with exactly the covered points painted. */
  ghost predicate Cleared(before: seq<byte>, after: seq<byte>, w: nat, h: nat, c: Clear, order: byte) {
    |after| == |before| &&
    (forall px: nat, py: nat :: Inside(w, h, |before|, px, py) ==>
       Pixel(after, w, px, py) == (if Covers(c, px, py) then PutU32(c.color, order) else Pixel(before, w, px, py))) &&
    (forall k :: 0 <= k < |before| && !Touched(w, h, |before|, c, k) ==> after[k] == before[k])
  }

  // ---- the law ----

  /** What a point shows after a run of clears: the latest colour painted over it, else what was put. */
  function Shows(put: seq<byte>, w: nat, px: nat, py: nat, clears: seq<Clear>, order: byte): seq<byte>
    requires Offset(w, px, py) + 4 <= |put|
  {
    if clears == [] then Pixel(put, w, px, py)
    else
      var last := clears[|clears| - 1];
      if Covers(last, px, py) then PutU32(last.color, order)
      else Shows(put, w, px, py, clears[..|clears| - 1], order)
  }

  /** states[i + 1] is what clears[i] makes of states[i]. */
  ghost predicate ClearRun(states: seq<seq<byte>>, clears: seq<Clear>, w: nat, h: nat, order: byte) {
    |states| == |clears| + 1 &&
    forall i :: 0 <= i < |clears| ==> Cleared(states[i], states[i + 1], w, h, clears[i], order)
  }

  /** After any run of clears each point of the image shows the latest colour over it, else the put pixel. */
  lemma {:induction false} RasterLaw(states: seq<seq<byte>>, clears: seq<Clear>, w: nat, h: nat, order: byte,
                                     px: nat, py: nat)
    requires ClearRun(states, clears, w, h, order) && Inside(w, h, |states[0]|, px, py)
    ensures |states[|clears|]| == |states[0]|
    ensures Pixel(states[|clears|], w, px, py) == Shows(states[0], w, px, py, clears, order)
    decreases |clears|
  {
    if clears != [] {
      var n := |clears| - 1;
      assert Cleared(states[n], states[n + 1], w, h, clears[n], order);
      RasterLaw(states[..|clears|], clears[..n], w, h, order, px, py);
    }
  }
}
