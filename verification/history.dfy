/**
  The history buffer of the SLDC decoder: a ring of 1024 byte slots with a
  write cursor. Every byte the decoder emits is written at the cursor, which
  then moves on one slot, wrapping after the last. A Scheme 1 match names a
  slot by absolute position: `Get(d)` reads slot `d mod 1024` whatever the
  cursor is. A reset control symbol empties the ring.
 */
module HistoryBuffer {
  import opened Bits

  const Size: nat := 1024

  datatype Buffer = Buffer(slots: seq<byte>, next: nat)

  /** A well-formed ring: exactly `Size` slots and the write cursor on one of them. */
  type History = h: Buffer | |h.slots| == Size && h.next < Size
    witness Buffer(seq(1024, _ => 0), 0)

  /** The byte in the slot that absolute position `d` names. */
  function Get(h: History, d: nat): byte
  {
    h.slots[d % Size]
  }

  /** The slot `m` places ahead of the write cursor (slot `next + m`, wrapped). */
  function Ahead(h: History, m: nat): (k: nat)
    ensures k < Size
  {
    (h.next + m) % Size
  }

  /** The ring as a reset leaves it: cursor at slot 0 and no slot holding an earlier byte. */
  function Empty(): (h: History)
    ensures h.next == 0
    ensures forall d: nat :: Get(h, d) == 0
  {
    Buffer(seq(Size, _ => 0), 0)
  }

  /** Writes one byte at the cursor and advances the cursor; every other slot keeps its byte. */
  function Add(h: History, b: byte): (h': History)
    ensures h'.next == Ahead(h, 1)
    ensures Get(h', h.next) == b
    ensures forall d: nat :: d % Size != h.next ==> Get(h', d) == Get(h, d)
  {
    Buffer(h.slots[h.next := b], (h.next + 1) % Size)
  }

  /** Writes a run of bytes in order. */
  function AddAll(h: History, bs: seq<byte>): (h': History)
    ensures h'.next == Ahead(h, |bs|)
  {
    if |bs| == 0 then h
    else
      NextWraps(h.next + |bs| - 1);
      Add(AddAll(h, bs[..|bs| - 1]), bs[|bs| - 1])
  }

  /** Moving one slot on from a wrapped position is wrapping the next position. */
  lemma {:induction false} NextWraps(a: nat)
    ensures (a % Size + 1) % Size == (a + 1) % Size
  {
    var q := a / Size;
    assert a == q * Size + a % Size;
    if a % Size + 1 == Size {
      assert a + 1 == (q + 1) * Size;
    } else {
      assert a + 1 == q * Size + (a % Size + 1);
    }
  }

  /** The ring holding the bytes `w`, written in order into an empty ring. */
  function HistoryOf(w: seq<byte>): History
  {
    AddAll(Empty(), w)
  }

  /** Two positions closer together than the ring size never share a slot. */
  lemma {:induction false} SlotsDistinct(a: nat, b: nat)
    requires a < b < a + Size
    ensures a % Size != b % Size
  {
  }

  /** Writing runs one after the other is writing their concatenation. */
  lemma {:induction false} AddAllAppend(h: History, bs: seq<byte>, cs: seq<byte>)
    ensures AddAll(h, bs + cs) == AddAll(AddAll(h, bs), cs)
  {
    if |cs| == 0 {
      assert bs + cs == bs;
    } else {
      var cs' := cs[..|cs| - 1];
      assert (bs + cs)[..|bs + cs| - 1] == bs + cs';
      assert (bs + cs)[|bs + cs| - 1] == cs[|cs| - 1];
      AddAllAppend(h, bs, cs');
    }
  }

  /** Writing at the slot `n` places ahead of a cursor leaves the slot `m` places ahead of it alone, for `m` within a ring of `n`. */
  lemma {:induction false} AddElsewhere(h: History, h0: History, b: byte, n: nat, m: nat)
    requires h0.next == Ahead(h, n) && m != n && m < n + Size && n < m + Size
    ensures Get(Add(h0, b), Ahead(h, m)) == Get(h0, Ahead(h, m))
  {
    if m < n {
      SlotsDistinct(h.next + m, h.next + n);
    } else {
      SlotsDistinct(h.next + n, h.next + m);
    }
    var k := Ahead(h, m);
    assert k % Size == k;
  }

  /**
    After writing `bs`, the slot `m` places ahead of the old cursor holds
    `bs[m]` when no later byte of `bs` has wrapped round onto it.
   */
  lemma {:induction false} AddAllWindow(h: History, bs: seq<byte>)
    ensures forall m :: 0 <= m < |bs| && |bs| <= m + Size ==> Get(AddAll(h, bs), Ahead(h, m)) == bs[m]
  {
    if |bs| > 0 {
      var n := |bs| - 1;
      var init := bs[..n];
      var h0 := AddAll(h, init);
      AddAllWindow(h, init);
      assert AddAll(h, bs) == Add(h0, bs[n]);
      assert h0.next == Ahead(h, n);
      forall m | 0 <= m < |bs| && |bs| <= m + Size
        ensures Get(AddAll(h, bs), Ahead(h, m)) == bs[m]
      {
        if m < n {
          AddElsewhere(h, h0, bs[n], n, m);
          assert init[m] == bs[m];
        }
      }
    }
  }

  /** After writing `bs`, a slot that none of `bs` reached still holds what it held before. */
  lemma {:induction false} AddAllBeyond(h: History, bs: seq<byte>)
    ensures forall m :: |bs| <= m < Size ==> Get(AddAll(h, bs), Ahead(h, m)) == Get(h, Ahead(h, m))
  {
    if |bs| > 0 {
      var n := |bs| - 1;
      var init := bs[..n];
      var h0 := AddAll(h, init);
      AddAllBeyond(h, init);
      assert AddAll(h, bs) == Add(h0, bs[n]);
      assert h0.next == Ahead(h, n);
      forall m | |bs| <= m < Size
        ensures Get(AddAll(h, bs), Ahead(h, m)) == Get(h, Ahead(h, m))
      {
        AddElsewhere(h, h0, bs[n], n, m);
      }
    }
  }

  /** Two positions that name the same slot read the same byte. */
  lemma {:induction false} SameSlot(h: History, a: nat, b: nat)
    requires a % Size == b % Size
    ensures Get(h, a) == Get(h, b)
  {
  }

  /** Positions that share a slot still share one after both move on by the same amount. */
  lemma {:induction false} SlotShiftBoth(a: nat, b: nat, j: nat)
    requires a % Size == b % Size
    ensures (a + j) % Size == (b + j) % Size
  {
    var qa, qb := a / Size, b / Size;
    assert a == qa * Size + a % Size;
    assert b == qb * Size + b % Size;
    assert a + j == qa * Size + (a % Size + j);
    assert b + j == qb * Size + (a % Size + j);
  }

  /** The byte of `bs` written `m` places ahead of the old cursor, when nothing later overwrote it. */
  lemma {:induction false} AddAllRecent(h: History, bs: seq<byte>, m: nat, d: nat)
    requires m < |bs| <= m + Size
    requires d % Size == (h.next + m) % Size
    ensures Get(AddAll(h, bs), d) == bs[m]
  {
    var h' := AddAll(h, bs);
    AddAllWindow(h, bs);
    assert Get(h', Ahead(h, m)) == bs[m];
    assert Ahead(h, m) % Size == d % Size;
    SameSlot(h', d, Ahead(h, m));
  }

  /** A slot that none of `bs` reached keeps its byte. */
  lemma {:induction false} AddAllUntouched(h: History, bs: seq<byte>, m: nat, d: nat)
    requires |bs| <= m < Size
    requires d % Size == (h.next + m) % Size
    ensures Get(AddAll(h, bs), d) == Get(h, d)
  {
    AddAllBeyond(h, bs);
    SameSlot(AddAll(h, bs), d, Ahead(h, m));
    SameSlot(h, d, Ahead(h, m));
  }

  /**
    A ring filled from empty with `w` has its cursor just past the last byte
    of `w` and holds each of the last `Size` bytes of `w` at its absolute
    position.
   */
  lemma {:induction false} HistoryOfRecent(w: seq<byte>)
    ensures HistoryOf(w).next == |w| % Size
    ensures forall p :: 0 <= p < |w| && |w| <= p + Size ==> Get(HistoryOf(w), p) == w[p]
  {
    var e := Empty();
    AddAllWindow(e, w);
    forall p | 0 <= p < |w| && |w| <= p + Size
      ensures Get(HistoryOf(w), p) == w[p]
    {
      assert Ahead(e, p) == p % Size;
      assert Get(HistoryOf(w), p) == Get(HistoryOf(w), Ahead(e, p));
    }
  }

  /** One of the last `Size` bytes of `w`, read from the ring filled with `w`. */
  lemma {:induction false} HistoryOfRecentAt(w: seq<byte>, p: nat)
    requires p < |w| <= p + Size
    ensures HistoryOf(w).next == |w| % Size
    ensures Get(HistoryOf(w), p) == w[p]
  {
    HistoryOfRecent(w);
  }
}
