/** Display slots ("pids"): the rows of the progress view that active
    download tasks occupy.  A new task takes the lowest slot in
    `[0, workerCount)` that no active task holds. */
module Slots {
  import opened Wrappers

  /** The slots of a downloader with `workerCount` workers. */
  function Range(workerCount: nat): (r: set<int>)
    ensures forall p :: p in r <==> 0 <= p < workerCount
    ensures |r| == workerCount
  {
    if workerCount == 0 then {} else Range(workerCount - 1) + {workerCount - 1}
  }

  /** The first slot at or above `from`, below `workerCount`, that is not in
      `occupied`; `None` when every such slot is occupied. */
  function FreeSlotFrom(occupied: set<int>, workerCount: nat, from: nat): (r: Option<nat>)
    decreases workerCount - from
    ensures r.Some? ==> from <= r.value < workerCount && r.value !in occupied
    ensures r.Some? ==> forall q :: from <= q < r.value ==> q in occupied
    ensures r.None? ==> forall q :: from <= q < workerCount ==> q in occupied
  {
    if from >= workerCount then None
    else if from !in occupied then Some(from)
    else FreeSlotFrom(occupied, workerCount, from + 1)
  }

  /** The slot `get_free_pid` hands out: the lowest one in `[0, workerCount)`
      not occupied, or `None` where Python's `next` raises StopIteration. */
  function LowestFreeSlot(occupied: set<int>, workerCount: nat): (r: Option<nat>)
    ensures r.Some? ==> r.value < workerCount && r.value !in occupied
    ensures r.Some? ==> forall q :: 0 <= q < r.value ==> q in occupied
    ensures r.None? <==> Range(workerCount) <= occupied
  {
    FreeSlotFrom(occupied, workerCount, 0)
  }

  /** Fewer occupied slots than workers: a free slot is always found. */
  lemma FreeSlotExists(occupied: set<int>, workerCount: nat)
    requires |occupied| < workerCount
    ensures LowestFreeSlot(occupied, workerCount).Some?
  {
    if Range(workerCount) <= occupied {
      SubsetSize(Range(workerCount), occupied);
    }
  }

  lemma SubsetSize<T>(a: set<T>, b: set<T>)
    requires a <= b
    ensures |a| <= |b|
  {
    assert b == a + (b - a);
  }

  /** Freeing slot `k` when every slot below it stays occupied makes `k`
      the slot the next task gets. */
  lemma FreedSlotIsReused(occupied: set<int>, workerCount: nat, k: nat)
    requires k < workerCount
    requires forall q :: 0 <= q < k ==> q in occupied
    ensures LowestFreeSlot(occupied - {k}, workerCount) == Some(k)
  {
  }

  /** A non-empty set has an element to pick. */
  lemma HasElement(s: set<int>)
    requires s != {}
    ensures exists x :: x in s
  {
    if forall x :: x !in s {
      assert false;
    }
  }

  /** Every value of a map is the image of some key. */
  lemma ValueHasKey(m: map<int, int>, v: int)
    requires v in m.Values
    ensures exists k :: k in m && m[k] == v
  {
    if forall k :: k in m ==> m[k] != v {
      assert false;
    }
  }

  /** True iff no two keys of `m` map to the same slot. */
  ghost predicate Injective(m: map<int, int>)
  {
    forall i, j :: i in m && j in m && i != j ==> m[i] != m[j]
  }

  /** An injective map has as many distinct values as keys. */
  lemma {:induction false} InjectiveValuesSize(m: map<int, int>)
    requires Injective(m)
    ensures |m.Values| == |m|
  {
    if m.Keys != {} {
      HasElement(m.Keys);
      var k :| k in m.Keys;
      var m' := m - {k};
      assert m'.Values == m.Values - {m[k]} by {
        forall v | v in m.Values
          ensures v in m'.Values || v == m[k]
        {
          ValueHasKey(m, v);
          var i :| i in m && m[i] == v;
          if i != k { assert m'[i] == v; }
        }
        forall v | v in m'.Values
          ensures v in m.Values && v != m[k]
        {
          ValueHasKey(m', v);
          var i :| i in m' && m'[i] == v;
          assert m[i] == v;
        }
      }
      InjectiveValuesSize(m');
    }
  }

  /** Pigeonhole: tasks holding pairwise distinct slots in
      `[0, workerCount)` are at most `workerCount`. */
  lemma AtMostWorkerCount(m: map<int, int>, workerCount: nat)
    requires Injective(m)
    requires forall i :: i in m ==> 0 <= m[i] < workerCount
    ensures |m| <= workerCount
  {
    InjectiveValuesSize(m);
    forall v | v in m.Values
      ensures v in Range(workerCount)
    {
      ValueHasKey(m, v);
    }
    SubsetSize(m.Values, Range(workerCount));
  }

  /** Binding a new key adds its slot to the occupied ones. */
  lemma ValuesOfInsert(m: map<int, int>, k: int, v: int)
    requires k !in m
    ensures m[k := v].Values == m.Values + {v}
  {
    var m' := m[k := v];
    forall u | u in m'.Values
      ensures u in m.Values + {v}
    {
      ValueHasKey(m', u);
      var i :| i in m' && m'[i] == u;
      if i != k { assert m[i] == u; }
    }
    forall u | u in m.Values + {v}
      ensures u in m'.Values
    {
      if u != v {
        ValueHasKey(m, u);
        var i :| i in m && m[i] == u;
        assert m'[i] == u;
      } else {
        assert m'[k] == u;
      }
    }
  }

  /** Inserting a slot no key holds keeps the slots distinct. */
  lemma InjectiveInsert(m: map<int, int>, k: int, v: int)
    requires Injective(m) && k !in m && v !in m.Values
    ensures Injective(m[k := v])
  {
    forall i | i in m
      ensures m[i] != v
    {
      assert m[i] in m.Values;
    }
  }

  /** Removing a key frees exactly its slot when slots are distinct. */
  lemma ValuesOfRemove(m: map<int, int>, k: int)
    requires Injective(m) && k in m
    ensures (m - {k}).Values == m.Values - {m[k]}
    ensures Injective(m - {k})
  {
    var m' := m - {k};
    forall u | u in m'.Values
      ensures u in m.Values - {m[k]}
    {
      ValueHasKey(m', u);
      var i :| i in m' && m'[i] == u;
      assert m[i] == u;
    }
    forall u | u in m.Values - {m[k]}
      ensures u in m'.Values
    {
      ValueHasKey(m, u);
      var i :| i in m && m[i] == u;
      assert m'[i] == u;
    }
  }
}
