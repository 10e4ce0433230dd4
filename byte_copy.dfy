/** Byte-for-byte copying between two one-byte channels, as the two plain copy loops of
    `copyPixelsFrom` do it: the 4:2:0 to 4:2:0 plane copy, which steps by each channel's
    sample stride, and the same-format copy, which moves the first `row_size` bytes of
    every row of every plane.

    `RectCopied` is the memory the loops produce, defined store by store in loop order, so
    a byte read later sees the stores made before it; no disjointness of source and target
    is needed for the definition, only for the lemmas that say what ends up where. */
module ByteCopy {
  import opened Memory

  /** A channel of one byte per sample: the first sample at `data`, the samples of a row
      `stride` bytes apart, the rows `pitch` bytes apart. */
  datatype Strip = Strip(data: Ptr, stride: int, pitch: int) {
    /** The channel seen from its next sample on. */
    function Next(): Strip {
      this.(data := data + stride)
    }

    /** The channel without its first row. */
    function Below(): Strip {
      this.(data := data + pitch)
    }
  }

  /** The address of column `j` of row `i`, reached by walking as the loops do. */
  function Cell(s: Strip, i: nat, j: nat): Ptr
    decreases i, j
  {
    if i > 0 then Cell(s.Below(), i - 1, j)
    else if j > 0 then Cell(s.Next(), 0, j - 1)
    else s.data
  }

  /** Column `j` of row `i` is `i` pitches and `j` strides past the first sample. */
  lemma {:induction false} CellAddress(s: Strip, i: nat, j: nat)
    ensures Cell(s, i, j) == s.data + i * s.pitch + j * s.stride
    decreases i, j
  {
    if i > 0 {
      CellAddress(s.Below(), i - 1, j);
      assert (i - 1) * s.pitch + s.pitch == i * s.pitch;
    } else if j > 0 {
      CellAddress(s.Next(), 0, j - 1);
      assert (j - 1) * s.stride + s.stride == j * s.stride;
    }
  }

  // ----- Geometry -----

  /** Every byte of the `w` samples starting at `s.data` lies in a memory of `n` bytes. */
  predicate RowIn(n: nat, s: Strip, w: nat)
    decreases w
  {
    w == 0 || (Addressable(n, s.data) && RowIn(n, s.Next(), w - 1))
  }

  /** Every byte of a `w` by `h` rectangle of the channel lies in a memory of `n` bytes. */
  predicate RectIn(n: nat, s: Strip, w: nat, h: nat)
    decreases h
  {
    h == 0 || (RowIn(n, s, w) && RectIn(n, s.Below(), w, h - 1))
  }

  /** `a` is one of the `w` samples of the row starting at `s.data`. */
  predicate RowHas(s: Strip, w: nat, a: Ptr)
    decreases w
  {
    w > 0 && (s.data == a || RowHas(s.Next(), w - 1, a))
  }

  /** `a` is one of the samples of the `w` by `h` rectangle. */
  predicate RectHas(s: Strip, w: nat, h: nat, a: Ptr)
    decreases h
  {
    h > 0 && (RowHas(s, w, a) || RectHas(s.Below(), w, h - 1, a))
  }

  /** No two samples of the row are the same byte. */
  ghost predicate RowSeparated(s: Strip, w: nat)
    decreases w
  {
    w == 0 || (!RowHas(s.Next(), w - 1, s.data) && RowSeparated(s.Next(), w - 1))
  }

  /** No two samples of the rectangle are the same byte. */
  ghost predicate RectSeparated(s: Strip, w: nat, h: nat)
    decreases h
  {
    h == 0
    || (RowSeparated(s, w)
        && (forall a :: RowHas(s, w, a) ==> !RectHas(s.Below(), w, h - 1, a))
        && RectSeparated(s.Below(), w, h - 1))
  }

  /** The cell of each column of a row is one of the row's samples. */
  lemma {:induction false} RowHasCell(s: Strip, w: nat, j: nat)
    requires j < w
    ensures RowHas(s, w, Cell(s, 0, j))
    decreases j
  {
    if j > 0 {
      RowHasCell(s.Next(), w - 1, j - 1);
    }
  }

  /** The cell of each row and column of a rectangle is one of its samples. */
  lemma {:induction false} RectHasCell(s: Strip, w: nat, h: nat, i: nat, j: nat)
    requires i < h && j < w
    ensures RectHas(s, w, h, Cell(s, i, j))
    decreases i
  {
    if i > 0 {
      RectHasCell(s.Below(), w, h - 1, i - 1, j);
    } else {
      RowHasCell(s, w, j);
    }
  }

  /** A row of adjacent bytes (stride 1) holds exactly the `w` bytes from its start on. */
  lemma {:induction false} DenseRowHas(s: Strip, w: nat, a: Ptr)
    requires s.stride == 1
    ensures RowHas(s, w, a) <==> s.data <= a < s.data + w
    decreases w
  {
    if w > 0 {
      DenseRowHas(s.Next(), w - 1, a);
    }
  }

  /** A rectangle of adjacent-byte rows holds exactly the first `w` bytes of each of its
      `h` rows: the bytes from `w` on up to the next row are not part of it. */
  lemma {:induction false} DenseRectHas(s: Strip, w: nat, h: nat, a: Ptr)
    requires s.stride == 1
    ensures RectHas(s, w, h, a) <==> exists i: int :: 0 <= i < h && Cell(s, i, 0) <= a < Cell(s, i, 0) + w
    decreases h
  {
    if h > 0 {
      var s', h' := s.Below(), h - 1;
      DenseRowHas(s, w, a);
      DenseRectHas(s', w, h', a);
      if RowHas(s, w, a) {
        assert 0 <= 0 < h && Cell(s, 0, 0) <= a < Cell(s, 0, 0) + w;
      } else if RectHas(s', w, h', a) {
        var i :| 0 <= i < h' && Cell(s', i, 0) <= a < Cell(s', i, 0) + w;
        assert 0 <= i + 1 < h && Cell(s, i + 1, 0) <= a < Cell(s, i + 1, 0) + w;
      }
      if exists i: int :: 0 <= i < h && Cell(s, i, 0) <= a < Cell(s, i, 0) + w {
        var i :| 0 <= i < h && Cell(s, i, 0) <= a < Cell(s, i, 0) + w;
        if i > 0 {
          var k: nat := i - 1;
          assert 0 <= k < h' && Cell(s', k, 0) <= a < Cell(s', k, 0) + w;
          assert exists l :: 0 <= l < h' && Cell(s', l, 0) <= a < Cell(s', l, 0) + w;
          assert RectHas(s', w, h', a);
        } else {
          assert Cell(s, 0, 0) == s.data;
          assert RowHas(s, w, a);
          assert RectHas(s, w, h, a);
        }
      }
    }
  }

  // ----- The copy, store by store -----

  /** Memory after copying the `w` samples of a source row to a target row, left to right. */
  function RowCopied(m: seq<Byte>, s: Strip, d: Strip, w: nat): (r: seq<Byte>)
    ensures |r| == |m|
    decreases w
  {
    if w == 0 then m
    else RowCopied(Poke(m, d.data, Peek(m, s.data)), s.Next(), d.Next(), w - 1)
  }

  /** Memory after copying a `w` by `h` rectangle, row by row from the top. */
  function RectCopied(m: seq<Byte>, s: Strip, d: Strip, w: nat, h: nat): (r: seq<Byte>)
    ensures |r| == |m|
    decreases h
  {
    if h == 0 then m
    else RectCopied(RowCopied(m, s, d, w), s.Below(), d.Below(), w, h - 1)
  }

  /** The inner loop: `*ds = *ss`, then both cursors move on by their strides. */
  method CopyRowBytes(mem: array<Byte>, s: Strip, d: Strip, w: nat)
    requires RowIn(mem.Length, s, w) && RowIn(mem.Length, d, w)
    modifies mem
    ensures mem[..] == RowCopied(old(mem[..]), s, d, w)
  {
    var ss, ds := s, d;
    var j := 0;
    while j < w
      invariant 0 <= j <= w
      invariant RowIn(mem.Length, ss, w - j) && RowIn(mem.Length, ds, w - j)
      invariant RowCopied(old(mem[..]), s, d, w) == RowCopied(mem[..], ss, ds, w - j)
    {
      ghost var m := mem[..];
      mem[ds.data] := mem[ss.data];
      assert mem[..] == Poke(m, ds.data, Peek(m, ss.data));
      ss, ds := ss.Next(), ds.Next();
      j := j + 1;
    }
  }

  /** The outer loop: one row, then both row pointers move on by their pitches. */
  method CopyRectBytes(mem: array<Byte>, s: Strip, d: Strip, w: nat, h: nat)
    requires RectIn(mem.Length, s, w, h) && RectIn(mem.Length, d, w, h)
    modifies mem
    ensures mem[..] == RectCopied(old(mem[..]), s, d, w, h)
  {
    var sr, dr := s, d;
    var i := 0;
    while i < h
      invariant 0 <= i <= h
      invariant RectIn(mem.Length, sr, w, h - i) && RectIn(mem.Length, dr, w, h - i)
      invariant RectCopied(old(mem[..]), s, d, w, h) == RectCopied(mem[..], sr, dr, w, h - i)
    {
      CopyRowBytes(mem, sr, dr, w);
      sr, dr := sr.Below(), dr.Below();
      i := i + 1;
    }
  }

  // ----- What the copy writes -----

  /** Copying a row stores only to the target row's samples. */
  lemma {:induction false} RowCopiedFrame(m: seq<Byte>, s: Strip, d: Strip, w: nat, a: Ptr)
    requires !RowHas(d, w, a)
    ensures Peek(RowCopied(m, s, d, w), a) == Peek(m, a)
    decreases w
  {
    if w > 0 {
      var m1 := Poke(m, d.data, Peek(m, s.data));
      RowCopiedFrame(m1, s.Next(), d.Next(), w - 1, a);
    }
  }

  /** Copying a rectangle changes no byte outside the target rectangle's samples. */
  lemma {:induction false} RectCopiedFrame(m: seq<Byte>, s: Strip, d: Strip, w: nat, h: nat, a: Ptr)
    requires !RectHas(d, w, h, a)
    ensures Peek(RectCopied(m, s, d, w, h), a) == Peek(m, a)
    decreases h
  {
    if h > 0 {
      RowCopiedFrame(m, s, d, w, a);
      RectCopiedFrame(RowCopied(m, s, d, w), s.Below(), d.Below(), w, h - 1, a);
    }
  }

  /** Copying a row onto itself changes nothing. */
  lemma {:induction false} RowCopiedSelf(m: seq<Byte>, s: Strip, w: nat)
    ensures RowCopied(m, s, s, w) == m
    decreases w
  {
    if w > 0 {
      assert Poke(m, s.data, Peek(m, s.data)) == m;
      RowCopiedSelf(m, s.Next(), w - 1);
    }
  }

  /** Copying a rectangle onto itself changes nothing. */
  lemma {:induction false} RectCopiedSelf(m: seq<Byte>, s: Strip, w: nat, h: nat)
    ensures RectCopied(m, s, s, w, h) == m
    decreases h
  {
    if h > 0 {
      RowCopiedSelf(m, s, w);
      RectCopiedSelf(m, s.Below(), w, h - 1);
    }
  }

  // ----- What the copy stores -----

  /** Two rows share no sample. */
  ghost predicate RowsApart(s: Strip, d: Strip, w: nat) {
    forall a :: RowHas(s, w, a) ==> !RowHas(d, w, a)
  }

  /** Two rectangles share no sample. */
  ghost predicate RectsApart(s: Strip, d: Strip, w: nat, h: nat) {
    forall a :: RectHas(s, w, h, a) ==> !RectHas(d, w, h, a)
  }

  /** After a row is copied from a row it does not overlap, each target sample holds the
      source sample of the same column. */
  lemma {:induction false} RowCopiedContent(m: seq<Byte>, s: Strip, d: Strip, w: nat, j: nat)
    requires j < w && RowIn(|m|, d, w) && RowSeparated(d, w) && RowsApart(s, d, w)
    ensures Peek(RowCopied(m, s, d, w), Cell(d, 0, j)) == Peek(m, Cell(s, 0, j))
    decreases w
  {
    var m1 := Poke(m, d.data, Peek(m, s.data));
    var s', d', w' := s.Next(), d.Next(), w - 1;
    if j == 0 {
      RowCopiedFrame(m1, s', d', w', d.data);
    } else {
      assert RowsApart(s', d', w') by {
        forall a | RowHas(s', w', a) ensures !RowHas(d', w', a) {
          assert RowHas(s, w, a);
        }
      }
      RowCopiedContent(m1, s', d', w', j - 1);
      RowHasCell(s, w, j);
    }
  }

  /** The rows below two rectangles that do not overlap do not overlap either, nor do
      their first rows. */
  lemma RectsApartSplit(s: Strip, d: Strip, w: nat, h: nat)
    requires h > 0 && RectsApart(s, d, w, h)
    ensures RowsApart(s, d, w) && RectsApart(s.Below(), d.Below(), w, h - 1)
  {
    forall a | RowHas(s, w, a) ensures !RowHas(d, w, a) {
      assert RectHas(s, w, h, a);
    }
    var s', d', h' := s.Below(), d.Below(), h - 1;
    forall a | RectHas(s', w, h', a) ensures !RectHas(d', w, h', a) {
      assert RectHas(s, w, h, a);
    }
  }

  /** After a rectangle is copied from one it does not overlap, each target sample holds
      the source sample at the same row and column. */
  lemma {:induction false} RectCopiedContent(m: seq<Byte>, s: Strip, d: Strip, w: nat, h: nat, i: nat, j: nat)
    requires i < h && j < w && RectIn(|m|, d, w, h) && RectSeparated(d, w, h) && RectsApart(s, d, w, h)
    ensures Peek(RectCopied(m, s, d, w, h), Cell(d, i, j)) == Peek(m, Cell(s, i, j))
    decreases h
  {
    var m1 := RowCopied(m, s, d, w);
    RectsApartSplit(s, d, w, h);
    if i == 0 {
      RowCopiedContent(m, s, d, w, j);
      RowHasCell(d, w, j);
      RectCopiedFrame(m1, s.Below(), d.Below(), w, h - 1, Cell(d, 0, j));
    } else {
      RectCopiedContent(m1, s.Below(), d.Below(), w, h - 1, i - 1, j);
      var a := Cell(s, i, j);
      RectHasCell(s, w, h, i, j);
      RowCopiedFrame(m, s, d, w, a);
    }
  }

  // ----- Several planes -----

  /** One plane of a multi-plane copy: a `w` by `h` rectangle from `src` to `dst`. */
  datatype PlaneCopy = PlaneCopy(src: Strip, dst: Strip, w: nat, h: nat)

  /** Memory after copying the planes one after the other, in list order. */
  function PlanesCopied(m: seq<Byte>, ps: seq<PlaneCopy>): (r: seq<Byte>)
    ensures |r| == |m|
    decreases |ps|
  {
    if ps == [] then m
    else PlanesCopied(RectCopied(m, ps[0].src, ps[0].dst, ps[0].w, ps[0].h), ps[1..])
  }

  /** Every plane's source and target rectangle lies in a memory of `n` bytes. */
  predicate PlanesIn(n: nat, ps: seq<PlaneCopy>) {
    forall k :: 0 <= k < |ps| ==> RectIn(n, ps[k].src, ps[k].w, ps[k].h) && RectIn(n, ps[k].dst, ps[k].w, ps[k].h)
  }

  /** `a` is a sample of some plane's target rectangle. */
  predicate PlanesWrite(ps: seq<PlaneCopy>, a: Ptr)
    decreases |ps|
  {
    ps != [] && (RectHas(ps[0].dst, ps[0].w, ps[0].h, a) || PlanesWrite(ps[1..], a))
  }

  /** The plane loop: each plane's rectangle in turn. */
  method CopyPlaneBytes(mem: array<Byte>, ps: seq<PlaneCopy>)
    requires PlanesIn(mem.Length, ps)
    modifies mem
    ensures mem[..] == PlanesCopied(old(mem[..]), ps)
  {
    var k := 0;
    while k < |ps|
      invariant 0 <= k <= |ps|
      invariant PlanesCopied(old(mem[..]), ps) == PlanesCopied(mem[..], ps[k..])
    {
      assert ps[k..][1..] == ps[k + 1..];
      CopyRectBytes(mem, ps[k].src, ps[k].dst, ps[k].w, ps[k].h);
      k := k + 1;
    }
  }

  /** Copying the planes changes no byte outside their target rectangles. */
  lemma {:induction false} PlanesCopiedFrame(m: seq<Byte>, ps: seq<PlaneCopy>, a: Ptr)
    requires !PlanesWrite(ps, a)
    ensures Peek(PlanesCopied(m, ps), a) == Peek(m, a)
    decreases |ps|
  {
    if ps != [] {
      var p := ps[0];
      RectCopiedFrame(m, p.src, p.dst, p.w, p.h, a);
      PlanesCopiedFrame(RectCopied(m, p.src, p.dst, p.w, p.h), ps[1..], a);
    }
  }

  /** Each target rectangle has distinct samples, no target rectangle meets a later one,
      and no target rectangle meets any source rectangle. */
  ghost predicate PlanesSeparated(ps: seq<PlaneCopy>) {
    (forall k :: 0 <= k < |ps| ==> RectSeparated(ps[k].dst, ps[k].w, ps[k].h))
    && (forall k, l, a :: 0 <= k < l < |ps| && RectHas(ps[k].dst, ps[k].w, ps[k].h, a) ==> !RectHas(ps[l].dst, ps[l].w, ps[l].h, a))
    && (forall k, l, a :: 0 <= k < |ps| && 0 <= l < |ps| && RectHas(ps[k].dst, ps[k].w, ps[k].h, a) ==> !RectHas(ps[l].src, ps[l].w, ps[l].h, a))
  }

  /** The planes write an address exactly when some plane's target rectangle holds it. */
  lemma {:induction false} PlanesWriteIndex(ps: seq<PlaneCopy>, a: Ptr)
    ensures PlanesWrite(ps, a) <==> exists k :: 0 <= k < |ps| && RectHas(ps[k].dst, ps[k].w, ps[k].h, a)
    decreases |ps|
  {
    if ps != [] {
      PlanesWriteIndex(ps[1..], a);
      if PlanesWrite(ps[1..], a) {
        var k :| 0 <= k < |ps| - 1 && RectHas(ps[1..][k].dst, ps[1..][k].w, ps[1..][k].h, a);
        assert ps[1..][k] == ps[k + 1];
      }
      if exists k :: 0 <= k < |ps| && RectHas(ps[k].dst, ps[k].w, ps[k].h, a) {
        var k :| 0 <= k < |ps| && RectHas(ps[k].dst, ps[k].w, ps[k].h, a);
        if k > 0 {
          assert ps[1..][k - 1] == ps[k];
        }
      }
    }
  }

  /** For planes of one-byte samples, after separated planes are copied byte `j` of row `i`
      of each target plane holds byte `j` of row `i` of that plane's source. */
  lemma PlanesCopiedBytes(m: seq<Byte>, ps: seq<PlaneCopy>, k: nat, i: nat, j: nat, src: Ptr, srcPitch: int, dst: Ptr, dstPitch: int)
    requires k < |ps| && i < ps[k].h && j < ps[k].w && PlanesIn(|m|, ps) && PlanesSeparated(ps)
    requires ps[k].src == Strip(src, 1, srcPitch) && ps[k].dst == Strip(dst, 1, dstPitch)
    ensures Peek(PlanesCopied(m, ps), dst + i * dstPitch + j) == Peek(m, src + i * srcPitch + j)
  {
    PlanesCopiedContent(m, ps, k, i, j);
    CellAddress(ps[k].src, i, j);
    CellAddress(ps[k].dst, i, j);
  }

  /** After separated planes are copied, each target sample of each plane holds the source
      sample of that plane at the same row and column. */
  lemma {:induction false} PlanesCopiedContent(m: seq<Byte>, ps: seq<PlaneCopy>, k: nat, i: nat, j: nat)
    requires k < |ps| && i < ps[k].h && j < ps[k].w && PlanesIn(|m|, ps) && PlanesSeparated(ps)
    ensures Peek(PlanesCopied(m, ps), Cell(ps[k].dst, i, j)) == Peek(m, Cell(ps[k].src, i, j))
    decreases |ps|
  {
    var p, rest := ps[0], ps[1..];
    var m1 := RectCopied(m, p.src, p.dst, p.w, p.h);
    assert forall l :: 0 <= l < |rest| ==> rest[l] == ps[l + 1];
    if k == 0 {
      assert RectsApart(p.src, p.dst, p.w, p.h);
      RectCopiedContent(m, p.src, p.dst, p.w, p.h, i, j);
      var a := Cell(p.dst, i, j);
      RectHasCell(p.dst, p.w, p.h, i, j);
      PlanesWriteIndex(rest, a);
      PlanesCopiedFrame(m1, rest, a);
    } else {
      assert PlanesIn(|m1|, rest) && PlanesSeparated(rest);
      PlanesCopiedContent(m1, rest, k - 1, i, j);
      var a := Cell(ps[k].src, i, j);
      RectHasCell(ps[k].src, ps[k].w, ps[k].h, i, j);
      RectCopiedFrame(m, p.src, p.dst, p.w, p.h, a);
    }
  }

  /** Copying every plane onto itself changes nothing. */
  lemma {:induction false} PlanesCopiedSelf(m: seq<Byte>, ps: seq<PlaneCopy>)
    requires forall k :: 0 <= k < |ps| ==> ps[k].src == ps[k].dst
    ensures PlanesCopied(m, ps) == m
    decreases |ps|
  {
    if ps != [] {
      RectCopiedSelf(m, ps[0].src, ps[0].w, ps[0].h);
      assert forall l :: 0 <= l < |ps| - 1 ==> ps[1..][l] == ps[l + 1];
      PlanesCopiedSelf(m, ps[1..]);
    }
  }
}
