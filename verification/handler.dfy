/**
 The model-changed handler as a pure transition on the extension's settings.

 One model-change event at a time: the handler checks `enabled`, takes the
 matched preset or else the fallback preset, asks the host to apply it when
 that name is non-empty, and records the model-to-preset mapping only when
 the host confirms. The host's `preset` command is not modelled: its reply is
 the parameter `reply`.
 */
module Handler {
  import opened Options
  import opened Matching

  /** The extension's settings object. */
  datatype Settings = Settings(
    enabled: bool,
    fallbackPreset: string,
    matchThreshold: real,
    lastMappings: map<string, string>)

  /** The default settings. */
  const Defaults: Settings := Settings(true, "Default", 0.5, map[])

  /** What the host's `preset` command did when called: absent, threw, or returned a value. */
  datatype HostReply = CommandMissing | Threw | Returned(truthy: bool)

  /** The settings after one event, and the name `applyPreset` was called with, if it was. */
  datatype Reaction = Reaction(settings: Settings, applied: Option<string>)

  /**
   `applyPreset`: true only when the name is non-empty and the command exists
   and returns a truthy value; every failure becomes false.
   */
  function ApplyPreset(presetName: string, reply: HostReply): (ok: bool)
    ensures |presetName| == 0 ==> !ok
    ensures reply.CommandMissing? || reply.Threw? ==> !ok
    ensures ok <==> |presetName| > 0 && reply == Returned(true)
  {
    if |presetName| == 0 then false
    else match reply
      case CommandMissing => false
      case Threw => false
      case Returned(truthy) => truthy
  }

  /** The match when it is present and non-empty (a truthy string), else the fallback preset. */
  function Selected(s: Settings, matched: Option<string>): (p: string)
    ensures matched.Some? && |matched.value| > 0 ==> p == matched.value
    ensures matched.None? || |matched.value| == 0 ==> p == s.fallbackPreset
  {
    if matched.Some? && |matched.value| > 0 then matched.value else s.fallbackPreset
  }

  /** The preset the handler settles on for `modelName`, using the settings' threshold. */
  function Choice(s: Settings, modelName: string, presets: Option<seq<string>>,
                  search: SearchOracle): (p: string)
    ensures var m := FindMatchingPreset(modelName, presets, s.matchThreshold, search);
            if m.Some? && |m.value| > 0 then p == m.value else p == s.fallbackPreset
  {
    Selected(s, FindMatchingPreset(modelName, presets, s.matchThreshold, search))
  }

  /** `onModelChanged` for one event. */
  function OnModelChanged(s: Settings, modelName: string, presets: Option<seq<string>>,
                          search: SearchOracle, reply: HostReply): (o: Reaction)
    ensures !s.enabled ==> o.settings == s && o.applied.None?
    ensures s.enabled ==> (o.applied.Some? <==> |Choice(s, modelName, presets, search)| > 0)
    ensures o.applied.Some? ==> o.applied.value == Choice(s, modelName, presets, search)
    ensures o.settings.enabled == s.enabled
    ensures o.settings.fallbackPreset == s.fallbackPreset
    ensures o.settings.matchThreshold == s.matchThreshold
    ensures o.applied.Some? && ApplyPreset(o.applied.value, reply) ==>
              o.settings.lastMappings == s.lastMappings[modelName := o.applied.value]
    ensures !(o.applied.Some? && ApplyPreset(o.applied.value, reply)) ==> o.settings == s
  {
    if !s.enabled then Reaction(s, None)
    else
      var preset := Choice(s, modelName, presets, search);
      if |preset| == 0 then Reaction(s, None)
      else if ApplyPreset(preset, reply) then
        Reaction(s.(lastMappings := s.lastMappings[modelName := preset]), Some(preset))
      else
        Reaction(s, Some(preset))
  }

  /** The clear-history button: the mapping history emptied, nothing else touched. */
  function ClearMappings(s: Settings): (r: Settings)
    ensures r.lastMappings == map[]
    ensures r.enabled == s.enabled && r.fallbackPreset == s.fallbackPreset
    ensures r.matchThreshold == s.matchThreshold
  {
    s.(lastMappings := map[])
  }

  // ---------------------------------------------------------------------------
  // Lemmas

  /** With the extension disabled no event calls the host, whatever it would reply. */
  lemma DisabledNeverApplies(s: Settings, modelName: string, presets: Option<seq<string>>,
                             search: SearchOracle, reply: HostReply)
    requires !s.enabled
    ensures OnModelChanged(s, modelName, presets, search, reply) == Reaction(s, None)
  {
  }

  /** A failed application leaves no trace in the settings. */
  lemma FailureLeavesNoTrace(s: Settings, modelName: string, presets: Option<seq<string>>,
                             search: SearchOracle, reply: HostReply)
    requires reply != Returned(true)
    ensures OnModelChanged(s, modelName, presets, search, reply).settings == s
    ensures modelName !in s.lastMappings ==>
              modelName !in OnModelChanged(s, modelName, presets, search, reply).settings.lastMappings
  {
  }

  /**
   A successful application records exactly one mapping: `modelName` to the
   applied preset. Every other model's entry is as it was.
   */
  lemma SuccessRecordsOnlyThisModel(s: Settings, modelName: string, presets: Option<seq<string>>,
                                    search: SearchOracle, k: string)
    requires s.enabled && |Choice(s, modelName, presets, search)| > 0
    requires k != modelName
    ensures var o := OnModelChanged(s, modelName, presets, search, Returned(true));
            && o.applied == Some(Choice(s, modelName, presets, search))
            && modelName in o.settings.lastMappings
            && o.settings.lastMappings[modelName] == Choice(s, modelName, presets, search)
            && (k in o.settings.lastMappings <==> k in s.lastMappings)
            && (k in s.lastMappings ==> o.settings.lastMappings[k] == s.lastMappings[k])
  {
  }

  /** Without a usable match the fallback preset is applied and, on success, recorded. */
  lemma FallbackApplied(s: Settings, modelName: string, presets: Option<seq<string>>,
                        search: SearchOracle)
    requires s.enabled && s.fallbackPreset == "Default"
    requires FindMatchingPreset(modelName, presets, s.matchThreshold, search).None?
    ensures var o := OnModelChanged(s, modelName, presets, search, Returned(true));
            && o.applied == Some("Default")
            && o.settings.lastMappings == s.lastMappings[modelName := "Default"]
  {
  }

  /** Handling the same event twice leaves the settings as handling it once. */
  lemma HandlingIsIdempotent(s: Settings, modelName: string, presets: Option<seq<string>>,
                             search: SearchOracle, reply: HostReply)
    ensures var once := OnModelChanged(s, modelName, presets, search, reply);
            OnModelChanged(once.settings, modelName, presets, search, reply) == once
  {
    var once := OnModelChanged(s, modelName, presets, search, reply);
    assert once.settings.(lastMappings := s.lastMappings) == s;
    assert Choice(once.settings, modelName, presets, search) == Choice(s, modelName, presets, search);
    if once.settings != s {
      var p := Choice(s, modelName, presets, search);
      assert once.settings.lastMappings[modelName := p] == once.settings.lastMappings;
    }
  }

  /** Every recorded mapping names a non-empty preset. */
  ghost predicate MappingsNonEmpty(s: Settings)
  {
    forall m :: m in s.lastMappings ==> |s.lastMappings[m]| > 0
  }

  /** The defaults, every event and clearing the history all keep recorded presets non-empty. */
  lemma MappingsStayNonEmpty(s: Settings, modelName: string, presets: Option<seq<string>>,
                             search: SearchOracle, reply: HostReply)
    requires MappingsNonEmpty(s)
    ensures MappingsNonEmpty(Defaults)
    ensures MappingsNonEmpty(OnModelChanged(s, modelName, presets, search, reply).settings)
    ensures MappingsNonEmpty(ClearMappings(s))
  {
  }

  /** After clearing the history a successful event leaves exactly its own mapping. */
  lemma ClearThenHandle(s: Settings, modelName: string, presets: Option<seq<string>>,
                        search: SearchOracle)
    requires s.enabled && |Choice(s, modelName, presets, search)| > 0
    ensures OnModelChanged(ClearMappings(s), modelName, presets, search, Returned(true)).settings.lastMappings
              == map[modelName := Choice(s, modelName, presets, search)]
  {
    assert Choice(ClearMappings(s), modelName, presets, search) == Choice(s, modelName, presets, search);
  }
}
