/**
 Loading the extension's settings: the stored object is created from the
 defaults when it is absent, and otherwise every schema key that is
 undefined is filled from the defaults, in the defaults' key order.

 The stored object is a map from key to value; a key that is not in the map
 is `undefined`. `Null` stands for a stored `null`, which is not `undefined`
 and so is kept.
 */
module SettingsStore {
  import opened Options
  import opened Handler

  datatype Value =
    | Null
    | Flag(flag: bool)
    | Text(text: string)
    | Number(number: real)
    | Mappings(mappings: map<string, string>)

  type Stored = map<string, Value>

  const EnabledKey: string := "enabled"
  const FallbackKey: string := "fallbackPreset"
  const ThresholdKey: string := "matchThreshold"
  const MappingsKey: string := "lastMappings"

  /** The keys of the default settings, in declaration order. */
  const SchemaOrder: seq<string> := [EnabledKey, FallbackKey, ThresholdKey, MappingsKey]
  const SchemaKeys: set<string> := {EnabledKey, FallbackKey, ThresholdKey, MappingsKey}

  function Encode(s: Settings): (m: Stored)
    ensures m.Keys == SchemaKeys
  {
    map[EnabledKey := Flag(s.enabled),
        FallbackKey := Text(s.fallbackPreset),
        ThresholdKey := Number(s.matchThreshold),
        MappingsKey := Mappings(s.lastMappings)]
  }

  /** Every schema key that is present holds a value of the schema's type. */
  predicate WellTyped(m: Stored) {
    && (EnabledKey in m ==> m[EnabledKey].Flag?)
    && (FallbackKey in m ==> m[FallbackKey].Text?)
    && (ThresholdKey in m ==> m[ThresholdKey].Number?)
    && (MappingsKey in m ==> m[MappingsKey].Mappings?)
  }

  /** The settings record a stored object describes, when all four keys are present and well typed. */
  function Decode(m: Stored): (r: Option<Settings>)
    ensures r.Some? <==> SchemaKeys <= m.Keys && WellTyped(m)
  {
    if SchemaKeys <= m.Keys && WellTyped(m) then
      Some(Settings(m[EnabledKey].flag, m[FallbackKey].text,
                    m[ThresholdKey].number, m[MappingsKey].mappings))
    else None
  }

  const DefaultStored: Stored := Encode(Defaults)

  /** The merge loop over `keys`: each key that is undefined gets its default value. */
  function FillMissing(m: Stored, keys: seq<string>): (r: Stored)
    requires forall i :: 0 <= i < |keys| ==> keys[i] in DefaultStored
    ensures r.Keys == m.Keys + set k | k in keys
    ensures forall k :: k in m ==> r[k] == m[k]
    ensures forall k :: k in keys && k !in m ==> r[k] == DefaultStored[k]
    decreases |keys|
  {
    if |keys| == 0 then m
    else
      var key := keys[0];
      var next := if key in m then m else m[key := DefaultStored[key]];
      var r := FillMissing(next, keys[1..]);
      assert forall k :: k in keys <==> k == key || k in keys[1..];
      r
  }

  /** Initialisation: the stored settings, or a copy of the defaults when absent. */
  function MergeDefaults(stored: Option<Stored>): (r: Stored)
    ensures stored.None? ==> r == DefaultStored
    ensures stored.Some? ==> r.Keys == stored.value.Keys + SchemaKeys
    ensures stored.Some? ==> forall k :: k in stored.value ==> r[k] == stored.value[k]
    ensures stored.Some? ==> forall k :: k in SchemaKeys && k !in stored.value ==> r[k] == DefaultStored[k]
  {
    match stored
    case None => DefaultStored
    case Some(m) =>
      assert (set k | k in SchemaOrder) == SchemaKeys;
      FillMissing(m, SchemaOrder)
  }

  // ---------------------------------------------------------------------------
  // Lemmas

  lemma DecodeEncode(s: Settings)
    ensures Decode(Encode(s)) == Some(s)
  {
  }

  /** Merging twice gives what merging once gives. */
  lemma MergeIdempotent(stored: Option<Stored>)
    ensures MergeDefaults(Some(MergeDefaults(stored))) == MergeDefaults(stored)
  {
  }

  /** Settings that already hold all four keys are left exactly as they are. */
  lemma MergeKeepsCompleteSettings(m: Stored)
    requires SchemaKeys <= m.Keys
    ensures MergeDefaults(Some(m)) == m
  {
  }

  /** An empty stored object is filled to exactly the defaults. */
  lemma MergeOfEmptyIsDefaults()
    ensures MergeDefaults(Some(map[])) == MergeDefaults(None)
    ensures Decode(MergeDefaults(None)) == Some(Defaults)
  {
    DecodeEncode(Defaults);
  }

  /**
   After the merge the settings are complete: a well-typed stored object
   always yields a settings record, whose fields are the stored values where
   present and the defaults elsewhere.
   */
  lemma MergedSettingsDecode(m: Stored)
    requires WellTyped(m)
    ensures Decode(MergeDefaults(Some(m))).Some?
    ensures var s := Decode(MergeDefaults(Some(m))).value;
            && s.enabled == (if EnabledKey in m then m[EnabledKey].flag else Defaults.enabled)
            && s.fallbackPreset == (if FallbackKey in m then m[FallbackKey].text else Defaults.fallbackPreset)
            && s.matchThreshold == (if ThresholdKey in m then m[ThresholdKey].number else Defaults.matchThreshold)
            && s.lastMappings == (if MappingsKey in m then m[MappingsKey].mappings else Defaults.lastMappings)
  {
    var r := MergeDefaults(Some(m));
    assert WellTyped(r);
  }
}
