/**
 `clean_pokemon_data`: flattens one raw API record into the fifteen-field
 record by positional decoding of its `types`, `abilities` and `stats` lists.
 */
module Cleaner {
  import opened Wrappers
  import opened Records

  /** `id`, `name`, `height` and `weight` pass through unchanged (`None` when absent). */
  predicate ScalarsCopied(d: RawRecord, f: FlatRecord) {
    f.id == d.id && f.name == d.name && f.height == d.height && f.weight == d.weight
  }

  /**
   The positional decoding table: output slot k of each group holds the leaf of
   list position k when the list is long enough, and the group's default
   (`""` for names, null for stats) otherwise.
   */
  predicate DecodedByPosition(d: RawRecord, f: FlatRecord)
    requires EntriesReadable(d)
  {
    && (forall k :: 0 <= k < TypeSlots ==>
          f.TypeFields()[k] == if k < |TypesOf(d)| then TypeName(TypesOf(d)[k]) else "")
    && (forall k :: 0 <= k < AbilitySlots ==>
          f.AbilityFields()[k] == if k < |AbilitiesOf(d)| then AbilityName(AbilitiesOf(d)[k]) else "")
    && (forall k :: 0 <= k < StatSlots ==>
          f.StatFields()[k] == if k < |StatsOf(d)| then Some(BaseStat(StatsOf(d)[k])) else None)
  }

  /** Positional decoding of one slot: the leaf at position k, or the default when the list is shorter. */
  function TypeAt(ts: seq<TypeEntry>, k: nat): string
    requires TypesReadable(ts) && k < TypeSlots
  {
    if |ts| > k then TypeName(ts[k]) else ""
  }

  function AbilityAt(abs: seq<AbilityEntry>, k: nat): string
    requires AbilitiesReadable(abs) && k < AbilitySlots
  {
    if |abs| > k then AbilityName(abs[k]) else ""
  }

  function StatAt(ss: seq<StatEntry>, k: nat): Option<int>
    requires StatsReadable(ss) && k < StatSlots
  {
    if |ss| > k then Some(BaseStat(ss[k])) else None
  }

  /** The cleaner: `None` for a missing or empty record, else the flat record. */
  function Clean(data: Option<RawRecord>): (r: Option<FlatRecord>)
    requires Decodable(data)
    ensures r.None? <==> data.None? || IsEmptyMapping(data.value)
    ensures r.Some? ==> ScalarsCopied(data.value, r.value)
    ensures r.Some? ==> DecodedByPosition(data.value, r.value)
  {
    if data.None? || IsEmptyMapping(data.value) then None
    else
      var d := data.value;
      var types := TypesOf(d);
      var abilities := AbilitiesOf(d);
      var stats := StatsOf(d);
      Some(FlatRecord(
        id := d.id,
        name := d.name,
        height := d.height,
        weight := d.weight,
        type1 := TypeAt(types, 0),
        type2 := TypeAt(types, 1),
        ability1 := AbilityAt(abilities, 0),
        ability2 := AbilityAt(abilities, 1),
        ability3 := AbilityAt(abilities, 2),
        hp := StatAt(stats, 0),
        atk := StatAt(stats, 1),
        def := StatAt(stats, 2),
        spAtk := StatAt(stats, 3),
        spDef := StatAt(stats, 4),
        speed := StatAt(stats, 5)))
  }

  /**
   A missing `types`, `abilities` or `stats` key cleans exactly like an empty
   list — provided the record is not empty, since `{}` cleans to `None` while
   `{"types": []}` does not.
   */
  lemma MissingListIsEmptyList(d: RawRecord)
    requires EntriesReadable(d) && !IsEmptyMapping(d)
    ensures d.types.None? ==> Clean(Some(d)) == Clean(Some(d.(types := Some([]))))
    ensures d.abilities.None? ==> Clean(Some(d)) == Clean(Some(d.(abilities := Some([]))))
    ensures d.stats.None? ==> Clean(Some(d)) == Clean(Some(d.(stats := Some([]))))
  {
  }

  /** The type boundary law: 0, 1, or at least 2 entries, of which only the first two matter. */
  lemma TypeBoundaryLaw(d: RawRecord)
    requires EntriesReadable(d) && !IsEmptyMapping(d)
    ensures var f := Clean(Some(d)).value; var ts := TypesOf(d);
      && (|ts| == 0 ==> f.type1 == "" && f.type2 == "")
      && (|ts| == 1 ==> f.type1 == TypeName(ts[0]) && f.type2 == "")
      && (|ts| >= 2 ==> f.type1 == TypeName(ts[0]) && f.type2 == TypeName(ts[1]))
  {
    var f := Clean(Some(d)).value;
    assert f.type1 == f.TypeFields()[0] && f.type2 == f.TypeFields()[1];
  }

  /** Cutting every list down to the positions the cleaner decodes does not change its result. */
  function Truncated(d: RawRecord): RawRecord {
    d.(types := if d.types.Some? && |d.types.value| > TypeSlots then Some(d.types.value[..TypeSlots]) else d.types,
       abilities := if d.abilities.Some? && |d.abilities.value| > AbilitySlots then Some(d.abilities.value[..AbilitySlots]) else d.abilities,
       stats := if d.stats.Some? && |d.stats.value| > StatSlots then Some(d.stats.value[..StatSlots]) else d.stats)
  }

  lemma ExtraEntriesIgnored(d: RawRecord)
    requires EntriesReadable(d)
    ensures EntriesReadable(Truncated(d))
    ensures Clean(Some(Truncated(d))) == Clean(Some(d))
  {
  }

  /**
   The stat entries' own names are never consulted: two records whose stat
   lists agree on every base stat clean alike, whatever the stats are called
   (so a reordered upstream list would be silently mis-attributed).
   */
  lemma StatNamesIgnored(d: RawRecord, e: RawRecord)
    requires EntriesReadable(d) && EntriesReadable(e)
    requires d.(stats := None) == e.(stats := None)
    requires d.stats.None? <==> e.stats.None?
    requires |StatsOf(d)| == |StatsOf(e)|
    requires forall i :: 0 <= i < |StatsOf(d)| ==> StatsOf(d)[i].baseStat == StatsOf(e)[i].baseStat
    ensures Clean(Some(d)) == Clean(Some(e))
  {
  }

  /** One type (`grass`) and no abilities: `type_2` and all three abilities are empty. */
  lemma SingleTypeNoAbilities(d: RawRecord)
    requires d.types == Some([TypeEntry(Some(Resource(Some("grass"))))])
    requires d.abilities == Some([])
    requires EntriesReadable(d)
    ensures var f := Clean(Some(d)).value;
      f.type1 == "grass" && f.type2 == "" && f.ability1 == "" && f.ability2 == "" && f.ability3 == ""
  {
  }
}
