/** Raw memory as seen by the pixel routines: one flat array of bytes, addressed by
    integer pointers.  Address 0 is the null pointer and is never dereferenced.

    A pixel routine is described by the ordered list of byte writes it performs;
    `Apply` replays such a list over a memory snapshot, the last write to an address
    winning, exactly as a sequence of C stores does. */
module Memory {

  /** An unsigned 8-bit value (`sl_uint8`). */
  type Byte = bv8

  /** A byte address; plane pointers and cursors of the C code are modelled as addresses. */
  type Ptr = int

  /** The null pointer. */
  const NullPtr: Ptr := 0

  /** One store of a byte at an address. */
  datatype Write = Write(addr: Ptr, val: Byte)

  /** `a` can be dereferenced in a memory of `n` bytes. */
  predicate Addressable(n: nat, a: Ptr) {
    0 < a < n
  }

  /** No two writes of the list store to the same address. */
  predicate AddrsDistinct(ws: seq<Write>) {
    forall k, l :: 0 <= k < l < |ws| ==> ws[k].addr != ws[l].addr
  }

  /** No write of the list stores to `x`. */
  predicate Untouched(ws: seq<Write>, x: Ptr) {
    forall k :: 0 <= k < |ws| ==> ws[k].addr != x
  }

  /** Every store of `ws` can be performed in a memory of `n` bytes. */
  predicate WritesIn(n: nat, ws: seq<Write>) {
    forall k :: 0 <= k < |ws| ==> Addressable(n, ws[k].addr)
  }

  /** Replays `ws` in order over `m`.  A store outside the memory has no effect here: the
      routines modelled never perform one when their preconditions hold. */
  function Apply(m: seq<Byte>, ws: seq<Write>): (r: seq<Byte>)
    ensures |r| == |m|
    decreases |ws|
  {
    if ws == [] then m
    else
      var last := ws[|ws| - 1];
      var m' := Apply(m, ws[..|ws| - 1]);
      if 0 <= last.addr < |m| then m'[last.addr := last.val] else m'
  }

  /** Replaying a concatenation is replaying its halves one after the other. */
  lemma {:induction false} ApplyConcat(m: seq<Byte>, a: seq<Write>, b: seq<Write>)
    ensures Apply(m, a + b) == Apply(Apply(m, a), b)
    decreases |b|
  {
    if b != [] {
      var b' := b[..|b| - 1];
      assert (a + b)[..|a + b| - 1] == a + b';
      ApplyConcat(m, a, b');
    } else {
      assert a + b == a;
    }
  }

  /** Appending a single store to the list is that store on the replayed memory. */
  lemma ApplySnoc(m: seq<Byte>, ws: seq<Write>, w: Write)
    requires WritesIn(|m|, ws) && Addressable(|m|, w.addr)
    ensures WritesIn(|m|, ws + [w])
    ensures Apply(m, ws + [w]) == Apply(m, ws)[w.addr := w.val]
  {
    assert (ws + [w])[..|ws + [w]| - 1] == ws;
  }

  /** Replaying one more store of a list extends the replay of its prefix by that store. */
  lemma ApplyPrefixStep(m: seq<Byte>, ws: seq<Write>, k: nat)
    requires WritesIn(|m|, ws) && k < |ws|
    ensures Apply(m, ws[..k + 1]) == Apply(m, ws[..k])[ws[k].addr := ws[k].val]
    ensures k == 0 ==> Apply(m, ws[..k]) == m
  {
    assert ws[..k + 1][..k] == ws[..k];
  }

  /** A replay leaves every address it does not store to unchanged. */
  lemma {:induction false} ApplyOutside(m: seq<Byte>, ws: seq<Write>, x: int)
    requires 0 <= x < |m| && Untouched(ws, x)
    ensures Apply(m, ws)[x] == m[x]
    decreases |ws|
  {
    if ws != [] {
      var ws' := ws[..|ws| - 1];
      ApplyOutside(m, ws', x);
    }
  }

  /** The last store to an address decides its final value. */
  lemma {:induction false} ApplyLastWrite(m: seq<Byte>, ws: seq<Write>, k: nat)
    requires WritesIn(|m|, ws)
    requires k < |ws|
    requires forall l :: k < l < |ws| ==> ws[l].addr != ws[k].addr
    ensures Apply(m, ws)[ws[k].addr] == ws[k].val
    decreases |ws|
  {
    var ws' := ws[..|ws| - 1];
    if k < |ws| - 1 {
      assert ws'[k] == ws[k];
      ApplyLastWrite(m, ws', k);
    }
  }

  /** When no two stores collide, every store of the list is visible afterwards. */
  lemma ApplyDistinct(m: seq<Byte>, ws: seq<Write>, w: Write)
    requires WritesIn(|m|, ws)
    requires AddrsDistinct(ws) && w in ws
    ensures Apply(m, ws)[w.addr] == w.val
  {
    var k :| 0 <= k < |ws| && ws[k] == w;
    ApplyLastWrite(m, ws, k);
  }

  /** A list of stores each of which writes back the value already in memory changes nothing. */
  lemma {:induction false} ApplyWriteBack(m: seq<Byte>, ws: seq<Write>)
    requires WritesIn(|m|, ws)
    requires forall k :: 0 <= k < |ws| ==> ws[k].val == m[ws[k].addr]
    ensures Apply(m, ws) == m
    decreases |ws|
  {
    if ws != [] {
      var ws' := ws[..|ws| - 1];
      ApplyWriteBack(m, ws');
    }
  }

  // ----- Address lists -----

  /** Every address of the list can be dereferenced in a memory of `n` bytes. */
  predicate AllIn(n: nat, ps: seq<Ptr>) {
    forall k :: 0 <= k < |ps| ==> Addressable(n, ps[k])
  }

  /** No address occurs twice in the list. */
  predicate Distinct(ps: seq<Ptr>) {
    forall k, l :: 0 <= k < l < |ps| ==> ps[k] != ps[l]
  }

  /** The bytes found at the listed addresses, in list order; an address outside the
      memory reads as zero here, and the routines modelled never read one. */
  function Gather(m: seq<Byte>, ps: seq<Ptr>): (r: seq<Byte>)
    ensures |r| == |ps| && forall k :: 0 <= k < |ps| && 0 <= ps[k] < |m| ==> r[k] == m[ps[k]]
  {
    seq(|ps|, k requires 0 <= k < |ps| => if 0 <= ps[k] < |m| then m[ps[k]] else 0)
  }

  /** The byte at one address; an address outside the memory reads as zero here, and the
      routines modelled never read one. */
  function Peek(m: seq<Byte>, a: Ptr): (r: Byte)
    ensures 0 <= a < |m| ==> r == m[a]
  {
    if 0 <= a < |m| then m[a] else 0
  }

  /** Memory after storing `v` at `a`; a store outside the memory has no effect here:
      the routines modelled never perform one when their preconditions hold. */
  function Poke(m: seq<Byte>, a: Ptr, v: Byte): (r: seq<Byte>)
    ensures |r| == |m|
    ensures forall x :: Peek(r, x) == if x == a && 0 <= a < |m| then v else Peek(m, x)
  {
    if 0 <= a < |m| then m[a := v] else m
  }

  /** Storing the listed values at the listed addresses, pairwise and in list order. */
  function Zip(ps: seq<Ptr>, vs: seq<Byte>): (r: seq<Write>)
    requires |ps| == |vs|
    ensures |r| == |ps| && forall k :: 0 <= k < |ps| ==> r[k] == Write(ps[k], vs[k])
  {
    seq(|ps|, k requires 0 <= k < |ps| => Write(ps[k], vs[k]))
  }

  /** A zipped store list can be performed when every listed address can be dereferenced. */
  lemma ZipIn(n: nat, ps: seq<Ptr>, vs: seq<Byte>)
    requires |ps| == |vs| && AllIn(n, ps)
    ensures WritesIn(n, Zip(ps, vs))
  {
  }

  /** Reading back distinct addresses just stored returns the stored values. */
  lemma GatherZip(m: seq<Byte>, ps: seq<Ptr>, vs: seq<Byte>)
    requires |ps| == |vs| && AllIn(|m|, ps) && Distinct(ps)
    ensures WritesIn(|m|, Zip(ps, vs))
    ensures Gather(Apply(m, Zip(ps, vs)), ps) == vs
  {
    var ws := Zip(ps, vs);
    assert AddrsDistinct(ws);
    forall k | 0 <= k < |ps| ensures Apply(m, ws)[ps[k]] == vs[k] {
      ApplyDistinct(m, ws, ws[k]);
    }
  }

  /** The bytes at a list of addresses depend only on those addresses. */
  lemma GatherAgrees(m: seq<Byte>, m': seq<Byte>, ps: seq<Ptr>)
    requires |m| == |m'|
    requires forall k :: 0 <= k < |ps| && 0 <= ps[k] < |m| ==> m[ps[k]] == m'[ps[k]]
    ensures Gather(m, ps) == Gather(m', ps)
  {
  }
}
