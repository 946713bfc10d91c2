/** Shared vocabulary: optional values, weighted totals over a sequence of threads or
    counters, how a lock changes hands, and the part of a log that one thread wrote. */
module Basics {

  datatype Option<+T> = None | Some(value: T)

  /** The sum of `w(k, xs[k])` over all positions `k`. */
  function Total<T>(w: (nat, T) -> int, xs: seq<T>): int
  {
    if xs == [] then 0 else Total(w, xs[..|xs| - 1]) + w(|xs| - 1, xs[|xs| - 1])
  }

  /** Changing one element changes the total by the change of that element's weight. */
  lemma {:induction false} TotalUpdate<T>(w: (nat, T) -> int, xs: seq<T>, k: nat, x: T)
    requires k < |xs|
    ensures Total(w, xs[k := x]) == Total(w, xs) - w(k, xs[k]) + w(k, x)
  {
    var n := |xs| - 1;
    if k < n {
      TotalUpdate(w, xs[..n], k, x);
      assert xs[k := x][..n] == xs[..n][k := x];
    } else {
      assert xs[k := x][..n] == xs[..n];
    }
  }

  lemma {:induction false} TotalZero<T>(w: (nat, T) -> int, xs: seq<T>)
    requires forall k: nat | k < |xs| :: w(k, xs[k]) == 0
    ensures Total(w, xs) == 0
  {
    if xs != [] {
      TotalZero(w, xs[..|xs| - 1]);
    }
  }

  lemma {:induction false} TotalNonNegative<T>(w: (nat, T) -> int, xs: seq<T>)
    requires forall k: nat | k < |xs| :: w(k, xs[k]) >= 0
    ensures Total(w, xs) >= 0
  {
    if xs != [] {
      TotalNonNegative(w, xs[..|xs| - 1]);
    }
  }

  /** Pointwise smaller weights give a smaller total, strictly so if one is strictly smaller. */
  lemma {:induction false} TotalBelow<T>(v: (nat, T) -> int, w: (nat, T) -> int, xs: seq<T>)
    requires forall k: nat | k < |xs| :: v(k, xs[k]) <= w(k, xs[k])
    ensures Total(v, xs) <= Total(w, xs)
    ensures (exists k: nat :: k < |xs| && v(k, xs[k]) < w(k, xs[k])) ==> Total(v, xs) < Total(w, xs)
  {
    if xs != [] {
      var ys := xs[..|xs| - 1];
      assert forall k: nat | k < |ys| :: ys[k] == xs[k];
      TotalBelow(v, w, ys);
      if k: nat :| k < |xs| && v(k, xs[k]) < w(k, xs[k]) {
        assert k < |ys| ==> v(k, ys[k]) < w(k, ys[k]);
      }
    }
  }

  /** A lock changes hands only between thread `t` and nobody. */
  predicate Moves(before: Option<nat>, after: Option<nat>, t: nat)
  {
    before == after || ((before == None || before == Some(t)) && (after == None || after == Some(t)))
  }

  /** The entries of `vals` that `who` attributes to `t`, in order. */
  function By<T>(vals: seq<T>, who: seq<nat>, t: nat): seq<T>
    requires |vals| == |who|
  {
    if vals == [] then []
    else
      var n := |vals| - 1;
      By(vals[..n], who[..n], t) + if who[n] == t then [vals[n]] else []
  }

  /** Appending an entry by `u` extends the part of `u` and no other. */
  lemma ByAppend<T>(vals: seq<T>, who: seq<nat>, x: T, u: nat, t: nat)
    requires |vals| == |who|
    ensures By(vals + [x], who + [u], t) == By(vals, who, t) + if u == t then [x] else []
  {
    assert (vals + [x])[..|vals|] == vals;
    assert (who + [u])[..|who|] == who;
  }

  /** At most one more entry, by `u`. */
  lemma ByLonger<T>(vals: seq<T>, who: seq<nat>, more: seq<T>, u: nat, t: nat)
    requires |vals| == |who| && |more| <= 1
    ensures By(vals + more, who + (if more == [] then [] else [u]), t) == By(vals, who, t) + if u == t then more else []
  {
    if more == [] {
      assert vals + more == vals && who + [] == who;
    } else {
      assert more == [more[0]];
      ByAppend(vals, who, more[0], u, t);
    }
  }

  lemma {:induction false} ByMember<T>(vals: seq<T>, who: seq<nat>, i: nat)
    requires |vals| == |who| && i < |vals|
    ensures vals[i] in By(vals, who, who[i])
  {
    var n := |vals| - 1;
    if i < n {
      ByMember(vals[..n], who[..n], i);
    }
  }

  lemma {:induction false} ByFrom<T>(vals: seq<T>, who: seq<nat>, t: nat, x: T)
    requires |vals| == |who| && x in By(vals, who, t)
    ensures x in vals
  {
    if vals != [] {
      var n := |vals| - 1;
      if x in By(vals[..n], who[..n], t) {
        ByFrom(vals[..n], who[..n], t, x);
      }
    }
  }
}
