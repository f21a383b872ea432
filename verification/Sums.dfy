/** Sums over dictionaries of counts in any commutative monoid: what the live metrics rely on, stated once. */
module Sums {

  /** A Python dict of counts, in insertion order. */
  type Counts = seq<(string, int)>

  // ---------------------------------------------------------------- counters

  /** `counter[cmd] += count` on a dict. */
  function AddCount(counter: Counts, cmd: string, c: int): Counts {
    if counter == [] then [(cmd, c)]
    else
      var before, last := counter[..|counter| - 1], counter[|counter| - 1];
      if last.0 == cmd then before + [(cmd, last.1 + c)] else AddCount(before, cmd, c) + [last]
  }

  function Merge(counter: Counts, counts: Counts): Counts {
    if counts == [] then counter
    else
      var last := counts[|counts| - 1];
      AddCount(Merge(counter, counts[..|counts| - 1]), last.0, last.1)
  }

  function MergeAll(snapshots: seq<Counts>): Counts {
    if snapshots == [] then [] else Merge(MergeAll(snapshots[..|snapshots| - 1]), snapshots[|snapshots| - 1])
  }

  predicate NonNegative(counts: Counts) {
    forall i :: 0 <= i < |counts| ==> counts[i].1 >= 0
  }

  // ---------------------------------------------------------------- a commutative monoid

  /** The laws are instantiated by naming the elements, which keeps proofs about long sums short. */
  ghost predicate Elements<M>(a: M, b: M, c: M) {
    true
  }

  ghost predicate Monoid<M(!new)>(plus: (M, M) -> M, zero: M) {
    && (forall a, b, c {:trigger Elements(a, b, c)} :: plus(plus(a, b), c) == plus(a, plus(b, c)))
    && (forall a, b {:trigger Elements(a, b, b)} :: plus(a, b) == plus(b, a))
    && (forall a {:trigger Elements(a, a, a)} :: plus(a, zero) == a)
  }

  lemma Unital<M(!new)>(plus: (M, M) -> M, zero: M, a: M)
    requires Monoid(plus, zero)
    ensures plus(a, zero) == a && plus(zero, a) == a
  {
    assert Elements(a, a, a) && Elements(a, zero, zero);
  }

  lemma Regroup<M(!new)>(plus: (M, M) -> M, zero: M, a: M, b: M, c: M)
    requires Monoid(plus, zero)
    ensures plus(plus(a, b), c) == plus(a, plus(b, c))
  {
    assert Elements(a, b, c);
  }

  lemma Swap<M(!new)>(plus: (M, M) -> M, zero: M, a: M, b: M, c: M)
    requires Monoid(plus, zero)
    ensures plus(plus(a, b), c) == plus(plus(a, c), b)
  {
    assert Elements(a, b, c) && Elements(a, c, b) && Elements(b, c, c);
  }

  /** Which counts of a name are admitted. */
  type Admits = (string, int) -> bool

  predicate All(ok: Admits, counts: Counts) {
    forall i :: 0 <= i < |counts| ==> ok(counts[i].0, counts[i].1)
  }

  /** Admitted counts of one name add up. */
  ghost predicate Additive<M(!new)>(plus: (M, M) -> M, unit: (string, int) -> M, ok: Admits) {
    forall cmd, b, c :: ok(cmd, b) && ok(cmd, c)
      ==> ok(cmd, b + c) && plus(unit(cmd, b), unit(cmd, c)) == unit(cmd, b + c)
  }

  function Sum<M>(plus: (M, M) -> M, zero: M, unit: (string, int) -> M, counts: Counts): M {
    if counts == [] then zero
    else
      var last := counts[|counts| - 1];
      plus(Sum(plus, zero, unit, counts[..|counts| - 1]), unit(last.0, last.1))
  }

  function SumAll<M>(plus: (M, M) -> M, zero: M, unit: (string, int) -> M, snapshots: seq<Counts>): M {
    if snapshots == [] then zero
    else
      plus(SumAll(plus, zero, unit, snapshots[..|snapshots| - 1]),
           Sum(plus, zero, unit, snapshots[|snapshots| - 1]))
  }

  lemma SumSnoc<M(!new)>(plus: (M, M) -> M, zero: M, unit: (string, int) -> M, counts: Counts, cmd: string, c: int)
    ensures Sum(plus, zero, unit, counts + [(cmd, c)]) == plus(Sum(plus, zero, unit, counts), unit(cmd, c))
  {
  }

  lemma {:induction false} AddCountAdds<M(!new)>(plus: (M, M) -> M, zero: M, unit: (string, int) -> M,
                                                 ok: Admits, counter: Counts, cmd: string, c: int)
    requires Monoid(plus, zero) && Additive(plus, unit, ok) && All(ok, counter) && ok(cmd, c)
    ensures All(ok, AddCount(counter, cmd, c))
    ensures Sum(plus, zero, unit, AddCount(counter, cmd, c)) == plus(Sum(plus, zero, unit, counter), unit(cmd, c))
  {
    if counter == [] {
      SumSnoc(plus, zero, unit, [], cmd, c);
      assert [] + [(cmd, c)] == [(cmd, c)];
    } else {
      var before, last := counter[..|counter| - 1], counter[|counter| - 1];
      var s := Sum(plus, zero, unit, before);
      if last.0 == cmd {
        SumSnoc(plus, zero, unit, before, cmd, last.1 + c);
        Regroup(plus, zero, s, unit(cmd, last.1), unit(cmd, c));
      } else {
        AddCountAdds(plus, zero, unit, ok, before, cmd, c);
        SumSnoc(plus, zero, unit, AddCount(before, cmd, c), last.0, last.1);
        Swap(plus, zero, s, unit(cmd, c), unit(last.0, last.1));
      }
    }
  }

  lemma {:induction false} MergeAdds<M(!new)>(plus: (M, M) -> M, zero: M, unit: (string, int) -> M,
                                              ok: Admits, counter: Counts, counts: Counts)
    requires Monoid(plus, zero) && Additive(plus, unit, ok) && All(ok, counter) && All(ok, counts)
    ensures All(ok, Merge(counter, counts))
    ensures Sum(plus, zero, unit, Merge(counter, counts))
            == plus(Sum(plus, zero, unit, counter), Sum(plus, zero, unit, counts))
  {
    if counts == [] {
      Unital(plus, zero, Sum(plus, zero, unit, counter));
    } else {
      var before, last := counts[..|counts| - 1], counts[|counts| - 1];
      MergeAdds(plus, zero, unit, ok, counter, before);
      AddCountAdds(plus, zero, unit, ok, Merge(counter, before), last.0, last.1);
      Regroup(plus, zero, Sum(plus, zero, unit, counter), Sum(plus, zero, unit, before), unit(last.0, last.1));
    }
  }

  /** Summing the merged counter is summing each snapshot. */
  lemma {:induction false} MergeAllAdds<M(!new)>(plus: (M, M) -> M, zero: M, unit: (string, int) -> M,
                                                 ok: Admits, snapshots: seq<Counts>)
    requires Monoid(plus, zero) && Additive(plus, unit, ok)
    requires forall i :: 0 <= i < |snapshots| ==> All(ok, snapshots[i])
    ensures All(ok, MergeAll(snapshots))
    ensures Sum(plus, zero, unit, MergeAll(snapshots)) == SumAll(plus, zero, unit, snapshots)
  {
    if snapshots != [] {
      var before := snapshots[..|snapshots| - 1];
      MergeAllAdds(plus, zero, unit, ok, before);
      MergeAdds(plus, zero, unit, ok, MergeAll(before), snapshots[|snapshots| - 1]);
    }
  }

  function Without<T>(s: seq<T>, i: nat): seq<T>
    requires i < |s|
  {
    s[..i] + s[i + 1..]
  }

  lemma {:induction false} SumWithout<M(!new)>(plus: (M, M) -> M, zero: M, unit: (string, int) -> M,
                                               snapshots: seq<Counts>, i: nat)
    requires Monoid(plus, zero) && i < |snapshots|
    ensures SumAll(plus, zero, unit, snapshots)
            == plus(SumAll(plus, zero, unit, Without(snapshots, i)), Sum(plus, zero, unit, snapshots[i]))
    decreases |snapshots|
  {
    var n := |snapshots| - 1;
    var without := Without(snapshots, i);
    if i == n {
      assert without == snapshots[..n];
    } else {
      var before := snapshots[..n];
      SumWithout(plus, zero, unit, before, i);
      assert Without(before, i) == without[..n - 1] && without[n - 1] == snapshots[n];
      Swap(plus, zero, SumAll(plus, zero, unit, without[..n - 1]), Sum(plus, zero, unit, snapshots[i]),
           Sum(plus, zero, unit, snapshots[n]));
    }
  }

  lemma WithoutMultiset<T>(s: seq<T>, i: nat)
    requires i < |s|
    ensures multiset(Without(s, i)) == multiset(s) - multiset{s[i]}
  {
    assert s == s[..i] + [s[i]] + s[i + 1..];
  }

  /** The order of the snapshots does not matter. */
  lemma {:induction false} OrderIrrelevant<M(!new)>(plus: (M, M) -> M, zero: M, unit: (string, int) -> M,
                                                    a: seq<Counts>, b: seq<Counts>)
    requires Monoid(plus, zero) && multiset(a) == multiset(b)
    ensures SumAll(plus, zero, unit, a) == SumAll(plus, zero, unit, b)
    decreases |a|
  {
    assert |a| == |multiset(a)| == |multiset(b)| == |b|;
    if a != [] {
      var n := |a| - 1;
      assert a[n] in multiset(b);
      var i :| 0 <= i < |b| && b[i] == a[n];
      WithoutMultiset(a, n);
      WithoutMultiset(b, i);
      assert Without(a, n) == a[..n];
      OrderIrrelevant(plus, zero, unit, a[..n], Without(b, i));
      SumWithout(plus, zero, unit, b, i);
    }
  }
}
