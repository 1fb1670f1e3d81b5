/**
 Choosing a preset for a model name: the guards on the name and on the preset
 list, then the keywords tried left to right against a fuzzy search, the first
 keyword with any result giving its top-ranked result.

 The fuzzy search library is not modelled: it is the parameter `search`, an
 arbitrary function from (preset names, query, threshold) to a ranked list of
 preset names. The threshold is passed through untouched.
 */
module Matching {
  import opened Options
  import opened Tokens

  /** The ranked results of a fuzzy search over `presets` for `query`. */
  type SearchOracle = (seq<string>, string, real) -> seq<string>

  /** The result list for the keyword at position `i`. */
  function ResultsAt(search: SearchOracle, presets: seq<string>, threshold: real,
                     keywords: seq<string>, i: nat): seq<string>
    requires i < |keywords|
  {
    search(presets, keywords[i], threshold)
  }

  /** Keyword `i` is the first whose search gives a non-empty result list. */
  predicate IsFirstHit(search: SearchOracle, presets: seq<string>, threshold: real,
                       keywords: seq<string>, i: int)
  {
    && 0 <= i < |keywords|
    && ResultsAt(search, presets, threshold, keywords, i) != []
    && forall j :: 0 <= j < i ==> ResultsAt(search, presets, threshold, keywords, j) == []
  }

  /** The loop over the keywords: the top result of the first keyword that has any. */
  function FirstHit(search: SearchOracle, presets: seq<string>, threshold: real,
                    keywords: seq<string>): (r: Option<string>)
    ensures r.None? <==>
              forall i :: 0 <= i < |keywords| ==> ResultsAt(search, presets, threshold, keywords, i) == []
    ensures r.Some? ==>
              exists i :: IsFirstHit(search, presets, threshold, keywords, i)
                       && r.value == ResultsAt(search, presets, threshold, keywords, i)[0]
    decreases |keywords|
  {
    if |keywords| == 0 then None
    else
      var results := search(presets, keywords[0], threshold);
      if |results| > 0 then
        assert IsFirstHit(search, presets, threshold, keywords, 0);
        Some(results[0])
      else
        var r := FirstHit(search, presets, threshold, keywords[1..]);
        assert forall i :: 0 < i < |keywords| ==>
          ResultsAt(search, presets, threshold, keywords, i)
            == ResultsAt(search, presets, threshold, keywords[1..], i - 1);
        if r.Some? then
          var i :| IsFirstHit(search, presets, threshold, keywords[1..], i)
                   && r.value == ResultsAt(search, presets, threshold, keywords[1..], i)[0];
          assert IsFirstHit(search, presets, threshold, keywords, i + 1);
          r
        else
          r
  }

  /**
   The preset matched to `modelName`, or None. `presets` is None when the
   preset manager is missing or does not return an array.
   */
  function FindMatchingPreset(modelName: string, presets: Option<seq<string>>, threshold: real,
                              search: SearchOracle): (r: Option<string>)
    ensures |modelName| == 0 ==> r.None?
    ensures presets.None? || presets.value == [] ==> r.None?
    ensures r.Some? ==>
              && presets.Some?
              && exists i :: IsFirstHit(search, presets.value, threshold, Keywords(modelName), i)
                          && r.value == ResultsAt(search, presets.value, threshold, Keywords(modelName), i)[0]
    ensures |modelName| > 0 && presets.Some? && presets.value != [] ==>
              (r.None? <==> forall i :: 0 <= i < |Keywords(modelName)| ==>
                              ResultsAt(search, presets.value, threshold, Keywords(modelName), i) == [])
  {
    if |modelName| == 0 then None
    else if presets.None? || |presets.value| == 0 then None
    else FirstHit(search, presets.value, threshold, Keywords(modelName))
  }

  // ---------------------------------------------------------------------------
  // Lemmas

  /** At most one keyword position is the first hit. */
  lemma FirstHitIsUnique(search: SearchOracle, presets: seq<string>, threshold: real,
                         keywords: seq<string>, i: int, j: int)
    requires IsFirstHit(search, presets, threshold, keywords, i)
    requires IsFirstHit(search, presets, threshold, keywords, j)
    ensures i == j
  {
  }

  /** The first keyword with a result decides the match: later keywords are never consulted. */
  lemma FirstKeywordWins(modelName: string, presets: seq<string>, threshold: real,
                         search: SearchOracle, i: int)
    requires |modelName| > 0 && presets != []
    requires IsFirstHit(search, presets, threshold, Keywords(modelName), i)
    ensures FindMatchingPreset(modelName, Some(presets), threshold, search)
              == Some(search(presets, Keywords(modelName)[i], threshold)[0])
  {
    var r := FindMatchingPreset(modelName, Some(presets), threshold, search);
    var kws := Keywords(modelName);
    assert r.Some?;
    var k :| IsFirstHit(search, presets, threshold, kws, k)
             && r.value == ResultsAt(search, presets, threshold, kws, k)[0];
    FirstHitIsUnique(search, presets, threshold, kws, i, k);
  }

  /** A search that only returns listed names: every result is one of the presets. */
  ghost predicate ReturnsListed(search: SearchOracle, presets: seq<string>, threshold: real)
  {
    forall q, x :: x in search(presets, q, threshold) ==> x in presets
  }

  /** A matched preset is always one of the available presets. */
  lemma MatchIsListed(modelName: string, presets: seq<string>, threshold: real, search: SearchOracle)
    requires ReturnsListed(search, presets, threshold)
    ensures FindMatchingPreset(modelName, Some(presets), threshold, search).Some? ==>
              FindMatchingPreset(modelName, Some(presets), threshold, search).value in presets
  {
    var r := FindMatchingPreset(modelName, Some(presets), threshold, search);
    var kws := Keywords(modelName);
    if r.Some? {
      var i :| IsFirstHit(search, presets, threshold, kws, i)
               && r.value == ResultsAt(search, presets, threshold, kws, i)[0];
      assert r.value in search(presets, kws[i], threshold);
    }
  }

  /**
   The first-keyword-wins example: with presets "Assistant" and "Creative Writer",
   if "gpt" finds nothing and "creative" finds "Creative Writer", the model
   "gpt-creative-4" is matched to "Creative Writer".
   */
  lemma CreativeWriterExample(threshold: real, search: SearchOracle)
    requires search(["Assistant", "Creative Writer"], "gpt", threshold) == []
    requires search(["Assistant", "Creative Writer"], "creative", threshold) == ["Creative Writer"]
    ensures FindMatchingPreset("gpt-creative-4", Some(["Assistant", "Creative Writer"]), threshold, search)
              == Some("Creative Writer")
  {
    GptCreativeKeywords();
    var presets := ["Assistant", "Creative Writer"];
    assert IsFirstHit(search, presets, threshold, ["gpt", "creative"], 1);
    FirstKeywordWins("gpt-creative-4", presets, threshold, search, 1);
  }

  lemma GptCreativeIsJoin()
    ensures Join(["gpt", "creative", "4"], "-") == "gpt-creative-4"
  {
    var ws := ["gpt", "creative", "4"];
    assert ws[1..] == ["creative", "4"];
    assert ws[2..] == ["4"];
    assert Join(ws[1..], "-") == "creative" + "-" + "4";
  }

  lemma GptCreativeSignificant()
    ensures Significant(["gpt", "creative", "4"]) == ["gpt", "creative"]
  {
    var ws := ["gpt", "creative", "4"];
    assert ws[1..] == ["creative", "4"];
    assert ws[2..] == ["4"];
    assert ws[3..] == [];
    assert "gpt"[0] == 'g' && "creative"[0] == 'c';
  }

  /** The keywords of the example model name. */
  lemma GptCreativeKeywords()
    ensures Keywords("gpt-creative-4") == ["gpt", "creative"]
  {
    var ws := ["gpt", "creative", "4"];
    GptCreativeIsJoin();
    GptCreativeSignificant();
    assert IsLowerWord("gpt");
    assert IsLowerWord("creative");
    assert IsLowerWord("4");
    assert forall k :: 0 <= k < |ws| ==> IsLowerWord(ws[k]);
    KeywordsOfJoin(ws, "-");
  }
}
