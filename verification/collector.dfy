/**
 The collection loop of `main` and `kanto`, independent of what is collected:
 walk an ascending id range with an inclusive end, ask `visit` for each id,
 and keep the results that are not `None`, in order. The pipeline instantiates
 `visit` with "fetch, then clean".
 */
module Collector {
  import opened Wrappers

  /** The results kept for one id: the value, or nothing. */
  function KeptFor<R>(r: Option<R>): seq<R> {
    match r
    case Some(v) => [v]
    case None => []
  }

  /** The collected batch for the ids `first` through `last`, both included. */
  function Collect<R>(visit: int -> Option<R>, first: int, last: int): (r: seq<R>)
    ensures |r| <= if first <= last then last - first + 1 else 0
    decreases last - first + 1
  {
    if first > last then []
    else KeptFor(visit(first)) + Collect(visit, first + 1, last)
  }

  /** The ids whose results were kept, in visiting order: each inside the range and visited to a value. */
  function KeptIds<R>(visit: int -> Option<R>, first: int, last: int): (ids: seq<int>)
    ensures forall k :: 0 <= k < |ids| ==> first <= ids[k] <= last && visit(ids[k]).Some?
    decreases last - first + 1
  {
    if first > last then []
    else
      var rest := KeptIds(visit, first + 1, last);
      if visit(first).Some? then [first] + rest else rest
  }

  predicate StrictlyAscending(s: seq<int>) {
    forall j, k :: 0 <= j < k < |s| ==> s[j] < s[k]
  }

  /** The kept ids come out strictly ascending: the range is walked upwards, once. */
  lemma {:induction false} KeptIdsAscend<R>(visit: int -> Option<R>, first: int, last: int)
    ensures StrictlyAscending(KeptIds(visit, first, last))
    decreases last - first + 1
  {
    if first <= last {
      KeptIdsAscend(visit, first + 1, last);
      var ids := KeptIds(visit, first, last);
      var rest := KeptIds(visit, first + 1, last);
      if visit(first).Some? {
        assert ids == [first] + rest;
        forall j, k | 0 <= j < k < |ids|
          ensures ids[j] < ids[k]
        {
          assert ids[k] == rest[k - 1] && first + 1 <= rest[k - 1];
          if j > 0 {
            assert ids[j] == rest[j - 1];
          }
        }
      }
    }
  }

  /** Only `None`s are dropped: every id of the range whose visit gave a value is kept. */
  lemma {:induction false} KeptIdsComplete<R>(visit: int -> Option<R>, first: int, last: int)
    ensures forall id :: first <= id <= last && visit(id).Some? ==> id in KeptIds(visit, first, last)
    decreases last - first + 1
  {
    if first <= last {
      KeptIdsComplete(visit, first + 1, last);
    }
  }

  /**
   The batch is the results of the kept ids, one each and in the same order:
   the ordered subsequence of the range with only the `None`s dropped.
   */
  lemma {:induction false} CollectFollowsKeptIds<R>(visit: int -> Option<R>, first: int, last: int)
    ensures |Collect(visit, first, last)| == |KeptIds(visit, first, last)|
    ensures forall k :: 0 <= k < |KeptIds(visit, first, last)| ==>
              visit(KeptIds(visit, first, last)[k]) == Some(Collect(visit, first, last)[k])
    decreases last - first + 1
  {
    if first <= last {
      CollectFollowsKeptIds(visit, first + 1, last);
      var ids' := KeptIds(visit, first + 1, last);
      var rs' := Collect(visit, first + 1, last);
      CollectUnfolds(visit, first, last);
      if visit(first).Some? {
        assert KeptIds(visit, first, last) == [first] + ids';
        assert Collect(visit, first, last) == [visit(first).value] + rs';
        PairedExtends(visit, first, visit(first).value, ids', rs');
      } else {
        assert KeptIds(visit, first, last) == ids';
        assert Collect(visit, first, last) == [] + rs' == rs';
      }
    }
  }

  /** Putting one more visited id in front keeps ids and results paired position by position. */
  lemma PairedExtends<R>(visit: int -> Option<R>, id: int, v: R, ids: seq<int>, rs: seq<R>)
    requires visit(id) == Some(v)
    requires |ids| == |rs|
    requires forall k :: 0 <= k < |ids| ==> visit(ids[k]) == Some(rs[k])
    ensures forall k :: 0 <= k < |ids| + 1 ==> visit(([id] + ids)[k]) == Some(([v] + rs)[k])
  {
    forall k | 0 <= k < |ids| + 1
      ensures visit(([id] + ids)[k]) == Some(([v] + rs)[k])
    {
      if k > 0 {
        assert ([id] + ids)[k] == ids[k - 1] && ([v] + rs)[k] == rs[k - 1];
      }
    }
  }

  lemma CollectUnfolds<R>(visit: int -> Option<R>, first: int, last: int)
    requires first <= last
    ensures Collect(visit, first, last) == KeptFor(visit(first)) + Collect(visit, first + 1, last)
  {
  }

  lemma AppendAssociates<T>(a: seq<T>, b: seq<T>, c: seq<T>)
    ensures (a + b) + c == a + (b + c)
  {
  }

  /**
   The loop of `main`: the ids `start_id` through the entered end id, inclusive,
   each visited and its result appended when it is not `None`.
   */
  method CollectRange<R>(visit: int -> Option<R>, startId: int, endId: int) returns (results: seq<R>)
    ensures results == Collect(visit, startId, endId)
  {
    results := [];
    var stop := endId + 1;
    var id := startId;
    while id < stop
      invariant startId <= stop ==> id <= stop
      invariant results + Collect(visit, id, endId) == Collect(visit, startId, endId)
      decreases stop - id
    {
      var kept := KeptFor(visit(id));
      assert (results + kept) + Collect(visit, id + 1, endId) == Collect(visit, startId, endId) by {
        CollectUnfolds(visit, id, endId);
        AppendAssociates(results, kept, Collect(visit, id + 1, endId));
      }
      results := results + kept;
      id := id + 1;
    }
    assert results + Collect(visit, id, endId) == results;
  }
}
