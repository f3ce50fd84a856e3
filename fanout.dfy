/** The part tasks of one multipart upload run concurrently and finish in any
    order. The model runs them one after another in an order chosen by the
    scheduler: a schedule, which is any permutation of the task indices.
    What a run collects is the concatenation of what each task contributes,
    in schedule order. */
module Fanout {

  /** The task indices 0 .. n - 1, in the order the split loop starts them. */
  function Range(n: nat): seq<nat> {
    seq(n, i => i)
  }

  /** `order` runs each of the n started tasks exactly once. */
  predicate IsSchedule(order: seq<nat>, n: nat) {
    multiset(order) == multiset(Range(n))
  }

  /** A schedule has n entries and every entry names a started task. */
  lemma ScheduleBounds(order: seq<nat>, n: nat)
    requires IsSchedule(order, n)
    ensures |order| == n
    ensures forall k :: 0 <= k < |order| ==> order[k] < n
  {
    assert |multiset(order)| == |order|;
    assert |multiset(Range(n))| == n;
    forall k | 0 <= k < |order|
      ensures order[k] < n
    {
      assert order[k] in multiset(order);
      assert order[k] in Range(n);
    }
  }

  /** What the tasks named by `order` contribute, concatenated in that order. */
  function Gather<T>(order: seq<nat>, f: nat -> seq<T>): seq<T> {
    if order == [] then [] else Gather(order[..|order| - 1], f) + f(order[|order| - 1])
  }

  lemma {:induction false} GatherAppend<T>(a: seq<nat>, b: seq<nat>, f: nat -> seq<T>)
    ensures Gather(a + b, f) == Gather(a, f) + Gather(b, f)
    decreases |b|
  {
    if b == [] {
      assert a + b == a;
    } else {
      var last := |b| - 1;
      assert (a + b)[..|a + b| - 1] == a + b[..last];
      GatherAppend(a, b[..last], f);
    }
  }

  /** The last task of `o1` sits somewhere in its permutation `o2`; without
      it, what is left of each is still a permutation of the other. */
  lemma RemoveLast(o1: seq<nat>, o2: seq<nat>) returns (j: nat)
    requires multiset(o1) == multiset(o2)
    requires o1 != []
    ensures j < |o2| && o2[j] == o1[|o1| - 1]
    ensures multiset(o1[..|o1| - 1]) == multiset(o2[..j] + o2[j + 1..])
  {
    var x := o1[|o1| - 1];
    var init := o1[..|o1| - 1];
    assert o1 == init + [x];
    assert x in multiset(o2);
    j :| 0 <= j < |o2| && o2[j] == x;
    var before, after := o2[..j], o2[j + 1..];
    assert o2 == before + [x] + after;
    assert multiset(o1) == multiset(init) + multiset{x};
    assert multiset(o2) == multiset(before) + multiset{x} + multiset(after);
    assert multiset(before + after) == multiset(before) + multiset(after);
    assert multiset(init) == multiset(o1) - multiset{x};
    assert multiset(before + after) == multiset(o2) - multiset{x};
  }

  /** Running the same tasks in another order collects the same things, only
      in another order. */
  lemma {:induction false} GatherPermutation<T>(o1: seq<nat>, o2: seq<nat>, f: nat -> seq<T>)
    requires multiset(o1) == multiset(o2)
    ensures multiset(Gather(o1, f)) == multiset(Gather(o2, f))
    decreases |o1|
  {
    if o1 == [] {
      assert |multiset(o2)| == 0;
    } else {
      var j := RemoveLast(o1, o2);
      var x := o2[j];
      var before, after := o2[..j], o2[j + 1..];
      assert o1 == o1[..|o1| - 1] + [x];
      assert o2 == before + [x] + after;
      GatherPermutation(o1[..|o1| - 1], before + after, f);
      GatherAppend(before, after, f);
      GatherAppend(before + [x], after, f);
      GatherAppend(before, [x], f);
      assert Gather([x], f) == f(x) by {
        assert [x][..0] == [];
      }
    }
  }
}
