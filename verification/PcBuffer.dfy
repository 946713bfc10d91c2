/** The ring shared by producers and consumers: the globals of `pc-header.h` with the
    `do_fill` and `do_get` of `main-two-cvs-while.c`. */
module PcBuffer {
  import opened Basics

  const EMPTY := -2
  const END_OF_STREAM := -1

  datatype Ring = Ring(buffer: seq<int>, usePtr: nat, fillPtr: nat, numFull: int)

  predicate Shaped(r: Ring)
  {
    r.usePtr < |r.buffer| && r.fillPtr < |r.buffer|
  }

  /** The ring as `main` leaves it before it starts any thread. */
  function EmptyRing(max: nat): Ring
  {
    Ring(seq(max, i => EMPTY), 0, 0, 0)
  }

  /** `do_fill`; None when its `ensure` ends the program. */
  function Fill(r: Ring, value: int): Option<Ring>
    requires Shaped(r)
  {
    if r.buffer[r.fillPtr] != EMPTY then None
    else Some(Ring(r.buffer[r.fillPtr := value], r.usePtr, (r.fillPtr + 1) % |r.buffer|, r.numFull + 1))
  }

  /** `do_get`; None when its `ensure` ends the program. */
  function Get(r: Ring): Option<(Ring, int)>
    requires Shaped(r)
  {
    var tmp := r.buffer[r.usePtr];
    if tmp == EMPTY then None
    else Some((Ring(r.buffer[r.usePtr := EMPTY], (r.usePtr + 1) % |r.buffer|, r.fillPtr, r.numFull - 1), tmp))
  }

  /** The slot reached from `usePtr` after `k` moves around the ring. */
  function Slot(r: Ring, k: nat): nat
  {
    if r.usePtr + k < |r.buffer| then r.usePtr + k else r.usePtr + k - |r.buffer|
  }

  /** The ring holds exactly the items `w`, oldest first: they fill the cyclic window that
      starts at `usePtr` and ends before `fillPtr`, and every other slot is EMPTY. */
  ghost predicate Holds(r: Ring, w: seq<int>)
  {
    && Shaped(r)
    && r.numFull == |w| <= |r.buffer|
    && r.fillPtr == (r.usePtr + |w|) % |r.buffer|
    && EMPTY !in w
    && forall k: nat | k < |r.buffer| :: r.buffer[Slot(r, k)] == if k < |w| then w[k] else EMPTY
  }

  lemma Wrap(x: nat, n: nat)
    requires x < 2 * n
    ensures x % n == if x < n then x else x - n
  {
    if n <= x {
      assert x == n + (x - n);
    }
  }

  lemma EmptyRingHolds(max: nat)
    requires max > 0
    ensures Holds(EmptyRing(max), [])
  {
  }

  /** Filling a ring that has room succeeds and appends the value. */
  lemma {:induction false} FillHolds(r: Ring, w: seq<int>, value: int)
    requires Holds(r, w) && |w| < |r.buffer| && value != EMPTY
    ensures Fill(r, value).Some? && Holds(Fill(r, value).value, w + [value])
  {
    var n := |r.buffer|;
    Wrap(r.usePtr + |w|, n);
    Wrap(r.fillPtr + 1, n);
    Wrap(r.usePtr + |w| + 1, n);
    assert r.fillPtr == Slot(r, |w|);
    var q := Fill(r, value).value;
    forall k: nat | k < n
      ensures q.buffer[Slot(q, k)] == if k < |w| + 1 then (w + [value])[k] else EMPTY
    {
      assert Slot(q, k) == Slot(r, k);
    }
  }

  /** Getting from a ring that holds something succeeds, returns the oldest item and removes it. */
  lemma {:induction false} GetHolds(r: Ring, w: seq<int>)
    requires Holds(r, w) && |w| > 0
    ensures Get(r).Some? && Get(r).value.1 == w[0] && Holds(Get(r).value.0, w[1..])
  {
    var n := |r.buffer|;
    Wrap(r.usePtr + 1, n);
    Wrap(r.usePtr + |w|, n);
    assert Slot(r, 0) == r.usePtr;
    var q := Get(r).value.0;
    Wrap(q.usePtr + |w[1..]|, n);
    forall k: nat | k < n
      ensures q.buffer[Slot(q, k)] == if k < |w| - 1 then w[1..][k] else EMPTY
    {
      if k + 1 < n {
        assert Slot(q, k) == Slot(r, k + 1);
      } else {
        assert Slot(q, k) == r.usePtr;
      }
    }
  }

  /** Each `ensure` fails exactly in the case its caller's `while` loop waits out. */
  lemma EnsuresFailExactly(r: Ring, w: seq<int>, value: int)
    requires Holds(r, w)
    ensures Fill(r, value).None? <==> |w| == |r.buffer|
    ensures Get(r).None? <==> |w| == 0
  {
    Wrap(r.usePtr + |w|, |r.buffer|);
    assert Slot(r, 0) == r.usePtr;
    if |w| < |r.buffer| {
      assert r.fillPtr == Slot(r, |w|);
    }
  }

  /** The same ring as the globals of the program, updated in place. */
  class BoundedBuffer {
    var buffer: array<int>
    var usePtr: nat
    var fillPtr: nat
    var numFull: int

    ghost function View(): Ring
      reads this, buffer
    {
      Ring(buffer[..], usePtr, fillPtr, numFull)
    }

    constructor (max: nat)
      requires max > 0
      ensures fresh(buffer) && View() == EmptyRing(max) && Holds(View(), [])
    {
      usePtr, fillPtr, numFull := 0, 0, 0;
      buffer := new int[max];
      new;
      for i := 0 to max
        invariant fresh(buffer) && buffer.Length == max && usePtr == fillPtr == numFull == 0
        invariant forall j | 0 <= j < i :: buffer[j] == EMPTY
      {
        buffer[i] := EMPTY;
      }
      assert buffer[..] == seq(max, i => EMPTY);
      EmptyRingHolds(max);
    }

    method DoFill(value: int, ghost w: seq<int>) returns (ok: bool)
      requires Holds(View(), w) && value != EMPTY
      modifies this`fillPtr, this`numFull, buffer
      ensures ok <==> |w| < buffer.Length
      ensures ok ==> Some(View()) == Fill(old(View()), value) && Holds(View(), w + [value])
      ensures !ok ==> View() == old(View())
    {
      EnsuresFailExactly(View(), w, value);
      if buffer[fillPtr] != EMPTY {
        return false;
      }
      FillHolds(View(), w, value);
      ghost var r := View();
      buffer[fillPtr] := value;
      fillPtr := (fillPtr + 1) % buffer.Length;
      numFull := numFull + 1;
      assert Some(View()) == Fill(r, value);
      return true;
    }

    method DoGet(ghost w: seq<int>) returns (ok: bool, tmp: int)
      requires Holds(View(), w)
      modifies this`usePtr, this`numFull, buffer
      ensures ok <==> |w| > 0
      ensures ok ==> Some((View(), tmp)) == Get(old(View())) && tmp == w[0] && Holds(View(), w[1..])
      ensures !ok ==> View() == old(View())
    {
      EnsuresFailExactly(View(), w, 0);
      tmp := buffer[usePtr];
      if tmp == EMPTY {
        return false, tmp;
      }
      GetHolds(View(), w);
      ghost var r := View();
      buffer[usePtr] := EMPTY;
      usePtr := (usePtr + 1) % buffer.Length;
      numFull := numFull - 1;
      assert Some((View(), tmp)) == Get(r);
      return true, tmp;
    }
  }
}
