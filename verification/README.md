# ModelsPresets: preset selection on model change

A model of the decision logic of the SillyTavern "Models Presets" extension
(`index.js`). When the chat-completion model changes, the extension derives
keywords from the model name, fuzzy-searches the host's preset names for the
first keyword that has any hit, falls back to a configured preset when nothing
matches, asks the host to apply the chosen preset, and records the
model-to-preset mapping when the host confirms. On load it back-fills missing
settings keys from the defaults.

Modules:

- `Options` (`options.dfy`): `Option`, standing for JavaScript's `null`.
- `Tokens` (`keywords.dfy`): ASCII lower-casing, the JavaScript split on
  `/[-_.\s]+/` (with its empty pieces at the ends), the filter of short and
  purely numeric tokens, and `Keywords`. `Words` is a second definition built from
  the same run helpers: the maximal non-empty runs of non-separators.
- `Matching` (`matching.dfy`): the guards and the first-hit loop of
  `findMatchingPreset`. The fuzzy search library is the parameter `search`, an
  arbitrary function of (preset names, query, threshold).
- `Handler` (`handler.dfy`): the `Settings` record, `applyPreset` with the
  host's reply as a parameter, `onModelChanged` as a pure transition returning
  the new settings and the name `applyPreset` was called with, and clearing
  the mapping history.
- `SettingsStore` (`settings_store.dfy`): the stored settings object as a map
  from key to value, the default-merge loop, and the conversion to and from
  the `Settings` record.

Behaviour of the code that the model keeps as written:

- A match that is the empty string counts as no match, so the fallback preset is used.
  This follows the truthiness test at `index.js:136`.
- The fallback preset is recorded only when the host confirms that it was applied.
- A handler call with an empty model name still tries the fallback preset.
  On success it records that preset under the empty key.

## Model

| member | source | states |
|---|---|---|
| Tokens.ToLower | index.js:58 | every character is left without an ASCII upper-case letter; each upper-case letter becomes the letter 32 code points higher, all others are kept |
| Tokens.Split | index.js:59 | at least one piece; no piece contains a separator; every character of a piece comes from the input |
| Tokens.WordsAreRuns | index.js:59 | every maximal run is non-empty and separator-free |
| Tokens.Significant | index.js:60 | exactly the tokens longer than two characters and not all digits are kept |
| Tokens.SignificantSingle | index.js:60 | one token is kept when significant and dropped otherwise |
| Tokens.SignificantAppend | index.js:60 | filtering distributes over concatenation, so order and duplicates are kept |
| Tokens.Keywords | index.js:57-60 | every keyword has length at least 3, is not purely numeric, has no separator and no upper-case letter |
| Tokens.SplitWithoutEmptiesIsWords | index.js:59 | the JavaScript split, with its empty pieces removed, equals the maximal non-separator runs in order |
| Tokens.KeywordsAreSignificantWords | index.js:57-60 | the keywords are exactly the maximal runs of the lower-cased name, left to right, minus short and numeric ones |
| Tokens.KeywordsIgnoreCase | index.js:58 | extracting from the lower-cased name gives the same keywords as from the name |
| Tokens.ToLowerIdempotent | index.js:58 | lower-casing twice equals lower-casing once |
| Tokens.WordsKeepEveryCharacter | index.js:59 | concatenating the runs gives the name with only its separators removed |
| Tokens.WordsOfJoin | index.js:59 | round trip: separator-free words joined by a separator run split back into the same words |
| Tokens.KeywordsOfJoin | index.js:57-60 | a lower-case name built from words has the significant words as its keywords |
| Tokens.ClaudeSonnetExample | index.js:57 | "claude-sonnet-4-5" gives ["claude", "sonnet"] |
| Matching.FirstHit | index.js:71-83 | None iff every keyword's results are empty; otherwise the head of the results of the earliest keyword with results |
| Matching.FindMatchingPreset | index.js:39-84 | null for an empty name and for a missing or empty preset list; otherwise a match iff some keyword has results, and then the first keyword's top result |
| Matching.FirstHitIsUnique | index.js:72-78 | at most one keyword position is the first with results |
| Matching.FirstKeywordWins | index.js:72-78 | when keyword i is the first with results, the match is the top result for keyword i |
| Matching.MatchIsListed | index.js:65-77 | if the search only returns listed names, a match is one of the presets |
| Matching.GptCreativeKeywords | index.js:57-60 | "gpt-creative-4" gives ["gpt", "creative"] |
| Matching.CreativeWriterExample | index.js:72-78 | "gpt" finding nothing and "creative" finding "Creative Writer" gives "Creative Writer" |
| Handler.ApplyPreset | index.js:91-118 | false for an empty name, a missing command or a thrown error; true iff the name is non-empty and the command returns truthy |
| Handler.Selected | index.js:135-139 | a non-empty match is chosen, otherwise the fallback preset |
| Handler.Choice | index.js:133-139 | the non-empty match for the model under the settings' threshold, otherwise the fallback preset |
| Handler.OnModelChanged | index.js:124-151 | disabled: no apply and no change; enabled: apply is called iff the chosen preset is non-empty, with that preset; the mapping is recorded only when apply succeeds, and no other field changes |
| Handler.ClearMappings | index.js:246-247 | the mapping history is empty and every other field is unchanged |
| Handler.DisabledNeverApplies | index.js:125-128 | a disabled extension calls no apply and keeps its settings, whatever the host would reply |
| Handler.FailureLeavesNoTrace | index.js:143-149 | when apply fails the settings are unchanged and no entry is added for the model |
| Handler.SuccessRecordsOnlyThisModel | index.js:146-148 | after a successful apply the model maps to the applied preset and every other entry is unchanged |
| Handler.FallbackApplied | index.js:135-148 | with no match and fallback "Default", "Default" is applied and recorded |
| Handler.HandlingIsIdempotent | index.js:124-151 | handling the same event twice gives the same result as handling it once |
| Handler.MappingsStayNonEmpty | index.js:142-147 | recorded presets are never empty, in the defaults, after any event and after clearing |
| Handler.ClearThenHandle | index.js:246-247 | after clearing, a successful event leaves exactly its own mapping |
| SettingsStore.Decode | index.js:12-17 | a settings record exists iff all four keys are present and well typed |
| SettingsStore.DecodeEncode | index.js:12-17 | decoding an encoded settings record returns it |
| SettingsStore.FillMissing | index.js:195-199 | keys become the old keys plus the loop's keys; present keys keep their values; missing ones get the default |
| SettingsStore.MergeDefaults | index.js:192-199 | absent settings become the defaults; otherwise every present key is kept and exactly the missing schema keys are filled from the defaults |
| SettingsStore.MergeIdempotent | index.js:192-199 | merging twice equals merging once |
| SettingsStore.MergeKeepsCompleteSettings | index.js:195-199 | settings holding all four keys are left exactly as they are |
| SettingsStore.MergeOfEmptyIsDefaults | index.js:192-199 | an empty object merges to the defaults, which decode to the default settings record |
| SettingsStore.MergedSettingsDecode | index.js:192-199 | well-typed stored settings always decode after the merge, taking stored values where present and defaults elsewhere |

## Left out

- Fuse.js scoring, ranking and the meaning of `matchThreshold` (index.js:65-69) are not modelled. The search is an arbitrary function parameter and the threshold is passed through unchanged.
- The `typeof` checks on the model and preset names (index.js:40, 92) are not modelled. Names are typed as strings, so only the empty-string case remains.
- Matching.FindMatchingPreset has one `None` for two cases: a missing preset manager and a non-array preset list (index.js:45-54).
- Tokens.ToLower changes only ASCII `A`-`Z`, and Tokens.IsSeparator accepts only ASCII white space as `\s`. JavaScript lower-cases all of Unicode and its `\s` also matches characters such as U+00A0 and U+2028.
- Tokens.Significant counts length in Unicode scalar values, while JavaScript counts UTF-16 code units. The two agree on names without astral-plane characters.
- The slash-command scaffolding (`getNamedArguments`, the `preset` command, index.js:23-32, 98-105) is not modelled. The command's outcome is the parameter `reply`.
- `saveSettingsDebounced`, the event-bus subscription and console logging are I/O and persistence timing, so they are not modelled.
- `renderSettings`, the DOM construction, `toastr`, and the UI handlers for `enabled`, `fallbackPreset` and `matchThreshold` (index.js:156-185, 207-245) are UI glue and floating-point parsing. Only the state effect of the clear button is modelled.
- Handler.OnModelChanged records into a value map, while the source's `lastMappings` is a plain JavaScript object. For a model named `__proto__`, the assignment at index.js:147 hits the prototype setter and records nothing; the model records it. Handler.SuccessRecordsOnlyThisModel is likewise not true of that key.
- Overlapping asynchronous model-change events are not modelled. Events are handled one at a time.
- SettingsStore.MergeDefaults uses value semantics. The source fills a missing `lastMappings` with the default object itself rather than a copy, so the two share one object; the model does not show that sharing.
- Stored settings that are present but falsy (`false`, `0`, `""`) are replaced by the defaults in the source. The model has them as `None`.
