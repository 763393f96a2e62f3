/**
 The two record shapes of the collector: the nested record the Pokémon API
 returns for one id, and the flat fifteen-field record the cleaner makes of it.
 */
module Records {
  import opened Wrappers

  /** A named API resource (`{"name": ..., "url": ...}`); only its name is read. */
  datatype Resource = Resource(name: Option<string>)

  /** One element of `types`: `{"slot": ..., "type": {"name": ...}}`. */
  datatype TypeEntry = TypeEntry(typeRef: Option<Resource>)

  /** One element of `abilities`: `{"ability": {"name": ...}, ...}`. */
  datatype AbilityEntry = AbilityEntry(abilityRef: Option<Resource>)

  /** One element of `stats`: `{"base_stat": ..., "stat": {"name": ...}}`. */
  datatype StatEntry = StatEntry(statRef: Option<Resource>, baseStat: Option<int>)

  /**
   The raw JSON object for one Pokémon. A `None` field is a key the object does
   not have; `otherKeys` counts the keys the cleaner never reads, which matter
   only for deciding whether the object is empty.
   */
  datatype RawRecord = RawRecord(
    id: Option<int>,
    name: Option<string>,
    height: Option<int>,
    weight: Option<int>,
    types: Option<seq<TypeEntry>>,
    abilities: Option<seq<AbilityEntry>>,
    stats: Option<seq<StatEntry>>,
    otherKeys: nat)

  /** The object `{}`: Python treats it as false, like `None`. */
  predicate IsEmptyMapping(d: RawRecord) {
    && d.id.None? && d.name.None? && d.height.None? && d.weight.None?
    && d.types.None? && d.abilities.None? && d.stats.None?
    && d.otherKeys == 0
  }

  /** `data.get("types", [])` and its two siblings: a missing list reads as empty. */
  function TypesOf(d: RawRecord): seq<TypeEntry> { d.types.GetOr([]) }
  function AbilitiesOf(d: RawRecord): seq<AbilityEntry> { d.abilities.GetOr([]) }
  function StatsOf(d: RawRecord): seq<StatEntry> { d.stats.GetOr([]) }

  /** How many leading positions of each list the cleaner decodes. */
  const TypeSlots: nat := 2
  const AbilitySlots: nat := 3
  const StatSlots: nat := 6

  predicate TypeReadable(e: TypeEntry) { e.typeRef.Some? && e.typeRef.value.name.Some? }
  predicate AbilityReadable(e: AbilityEntry) { e.abilityRef.Some? && e.abilityRef.value.name.Some? }
  predicate StatReadable(e: StatEntry) { e.baseStat.Some? }

  /** `entry["type"]["name"]` */
  function TypeName(e: TypeEntry): string
    requires TypeReadable(e)
  {
    e.typeRef.value.name.value
  }

  /** `entry["ability"]["name"]` */
  function AbilityName(e: AbilityEntry): string
    requires AbilityReadable(e)
  {
    e.abilityRef.value.name.value
  }

  /** `entry["base_stat"]` */
  function BaseStat(e: StatEntry): int
    requires StatReadable(e)
  {
    e.baseStat.value
  }

  /**
   Every entry the cleaner looks into has the nested keys it reads. Entries past
   the decoded positions may be malformed: they are never read.
   */
  predicate TypesReadable(ts: seq<TypeEntry>) {
    forall i :: 0 <= i < |ts| && i < TypeSlots ==> TypeReadable(ts[i])
  }

  predicate AbilitiesReadable(abs: seq<AbilityEntry>) {
    forall i :: 0 <= i < |abs| && i < AbilitySlots ==> AbilityReadable(abs[i])
  }

  predicate StatsReadable(ss: seq<StatEntry>) {
    forall i :: 0 <= i < |ss| && i < StatSlots ==> StatReadable(ss[i])
  }

  predicate EntriesReadable(d: RawRecord) {
    TypesReadable(TypesOf(d)) && AbilitiesReadable(AbilitiesOf(d)) && StatsReadable(StatsOf(d))
  }

  /** The cleaner's input (a fetched record or `None`) can be cleaned without a `KeyError`. */
  predicate Decodable(data: Option<RawRecord>) {
    data.Some? ==> EntriesReadable(data.value)
  }

  /** The cleaned record: exactly the fifteen keys of the output table. */
  datatype FlatRecord = FlatRecord(
    id: Option<int>,
    name: Option<string>,
    height: Option<int>,
    weight: Option<int>,
    type1: string,
    type2: string,
    ability1: string,
    ability2: string,
    ability3: string,
    hp: Option<int>,
    atk: Option<int>,
    def: Option<int>,
    spAtk: Option<int>,
    spDef: Option<int>,
    speed: Option<int>)
  {
    /** `type_1`, `type_2` by position. */
    function TypeFields(): seq<string> { [type1, type2] }

    /** `ability_1` .. `ability_3` by position. */
    function AbilityFields(): seq<string> { [ability1, ability2, ability3] }

    /** `HP, ATK, DEF, SP_ATK, SP_DEF, Speed` by position. */
    function StatFields(): seq<Option<int>> { [hp, atk, def, spAtk, spDef, speed] }
  }
}
