/**
 The collector of `PokemonAPICollectAndCleaner.py` as the program wires it:
 each id is fetched (an abstract total function standing for the HTTP call,
 `None` on any request failure) and the result cleaned.
 */
module Pipeline {
  import opened Wrappers
  import opened Records
  import opened Cleaner
  import opened Collector

  /**
   What the fetcher hands on: the parsed body, or `None` on any request
   failure. Bodies whose decoded entries lack their nested keys are excluded:
   the cleaner raises `KeyError` on them and the whole run stops.
   */
  type Payload = data: Option<RawRecord> | Decodable(data) witness None

  /** The fetcher, an abstract total function of the id. */
  type Fetcher = int -> Payload

  /**
   One step of the loop: `clean_pokemon_data(fetch_pokemon_data(id))`. An id
   gives nothing exactly when its fetch failed or returned the empty mapping.
   */
  function FetchAndClean(fetch: Fetcher): (visit: int -> Option<FlatRecord>)
    ensures forall id :: visit(id).None? <==> fetch(id).None? || IsEmptyMapping(fetch(id).value)
  {
    id => Clean(fetch(id))
  }

  /**
   The batch of `main` for the ids `startId` through `endId`: the cleaned
   records of the ids kept, in ascending id order, at most one per id.
   */
  method CollectRecords(fetch: Fetcher, startId: int, endId: int) returns (records: seq<FlatRecord>)
    ensures records == Collect(FetchAndClean(fetch), startId, endId)
    ensures |records| <= if startId <= endId then endId - startId + 1 else 0
    ensures |records| == |KeptIds(FetchAndClean(fetch), startId, endId)|
    ensures forall k :: 0 <= k < |records| ==>
              var id := KeptIds(FetchAndClean(fetch), startId, endId)[k];
              startId <= id <= endId && Clean(fetch(id)) == Some(records[k])
  {
    var visit := FetchAndClean(fetch);
    records := CollectRange(visit, startId, endId);
    CollectFollowsKeptIds(visit, startId, endId);
  }

  /**
   `kanto`: the fixed range `range(1, 152)`, the first 151 national numbers.
   The records pair one to one, in order, with the kept ids of that range.
   */
  method Kanto(fetch: Fetcher) returns (records: seq<FlatRecord>)
    ensures |records| <= 151
    ensures |records| == |KeptIds(FetchAndClean(fetch), 1, 151)|
    ensures forall k :: 0 <= k < |records| ==>
              var id := KeptIds(FetchAndClean(fetch), 1, 151)[k];
              1 <= id <= 151 && Clean(fetch(id)) == Some(records[k])
  {
    records := CollectRecords(fetch, 1, 151);
  }

  /** The API answers each id with the record of that id (or with nothing). */
  ghost predicate AnswersOwnId(fetch: Fetcher) {
    forall id :: fetch(id).Some? && !IsEmptyMapping(fetch(id).value) ==> fetch(id).value.id == Some(id)
  }

  /**
   When the API answers each id with its own record, the ids in the collected
   batch strictly ascend, so no id occurs twice. The collector itself does not
   check ids; the uniqueness comes from the range plus this property of the API.
   */
  lemma BatchIdsUnique(fetch: Fetcher, startId: int, endId: int)
    requires AnswersOwnId(fetch)
    ensures var batch := Collect(FetchAndClean(fetch), startId, endId);
            forall j, k :: 0 <= j < k < |batch| ==>
              batch[j].id.Some? && batch[k].id.Some? && batch[j].id.value < batch[k].id.value
  {
    var visit := FetchAndClean(fetch);
    var batch := Collect(visit, startId, endId);
    var ids := KeptIds(visit, startId, endId);
    CollectFollowsKeptIds(visit, startId, endId);
    KeptIdsAscend(visit, startId, endId);
    forall k | 0 <= k < |batch|
      ensures batch[k].id == Some(ids[k])
    {
      assert Clean(fetch(ids[k])) == Some(batch[k]);
    }
  }

  /** A failed fetch for id 2 of the range `1..3` leaves exactly the records of ids 1 and 3. */
  lemma FailedFetchIsSkipped(fetch: Fetcher)
    requires fetch(2).None?
    requires fetch(1).Some? && !IsEmptyMapping(fetch(1).value)
    requires fetch(3).Some? && !IsEmptyMapping(fetch(3).value)
    ensures KeptIds(FetchAndClean(fetch), 1, 3) == [1, 3]
    ensures |Collect(FetchAndClean(fetch), 1, 3)| == 2
  {
    var visit := FetchAndClean(fetch);
    CollectFollowsKeptIds(visit, 1, 3);
    assert visit(2).None? && visit(1).Some? && visit(3).Some?;
  }
}
