/**
 Keyword extraction from a model name: lower-case the name, split it on runs
 of `-`, `_`, `.` and white space, and drop every token of length two or less
 and every token made only of decimal digits.

 Lower-casing and white space are restricted to ASCII: `A`..`Z` are the only
 letters that change case, and space, tab, line feed, carriage return,
 vertical tab and form feed are the only white-space characters.
 */
module Tokens {

  predicate IsAsciiSpace(c: char) {
    c == ' ' || c == '\t' || c == '\n' || c == '\r' || c == '\U{B}' || c == '\U{C}'
  }

  /** One character of the separator class `[-_.\s]`. */
  predicate IsSeparator(c: char) {
    c == '-' || c == '_' || c == '.' || IsAsciiSpace(c)
  }

  predicate IsUpper(c: char) {
    'A' <= c <= 'Z'
  }

  predicate IsDigit(c: char) {
    '0' <= c <= '9'
  }

  /** No character of `w` is a separator. */
  predicate SeparatorFree(w: seq<char>) {
    forall i :: 0 <= i < |w| ==> !IsSeparator(w[i])
  }

  /** Every character of `w` is a separator. */
  predicate AllSeparators(w: seq<char>) {
    forall i :: 0 <= i < |w| ==> IsSeparator(w[i])
  }

  predicate NoUpper(w: seq<char>) {
    forall i :: 0 <= i < |w| ==> !IsUpper(w[i])
  }

  /** A non-empty, separator-free, lower-case word. */
  predicate IsLowerWord(w: seq<char>) {
    |w| > 0 && SeparatorFree(w) && NoUpper(w)
  }

  /** The test `/^\d+$/`: a non-empty run of decimal digits. */
  predicate AllDigits(w: seq<char>) {
    |w| > 0 && forall i :: 0 <= i < |w| ==> IsDigit(w[i])
  }

  /** The filter predicate: longer than two characters and not purely numeric. */
  predicate IsSignificant(w: seq<char>) {
    |w| > 2 && !AllDigits(w)
  }

  function LowerChar(c: char): (d: char)
    ensures !IsUpper(d)
    ensures !IsUpper(c) ==> d == c
    ensures IsUpper(c) ==> d as int == c as int + 32
  {
    if IsUpper(c) then (c as int + 32) as char else c
  }

  /** ASCII `toLowerCase`. */
  function ToLower(s: seq<char>): (r: seq<char>)
    ensures |r| == |s|
    ensures NoUpper(r)
    ensures forall i :: 0 <= i < |s| && !IsUpper(s[i]) ==> r[i] == s[i]
    ensures forall i :: 0 <= i < |s| && IsUpper(s[i]) ==> r[i] as int == s[i] as int + 32
  {
    seq(|s|, i requires 0 <= i < |s| => LowerChar(s[i]))
  }

  /** The length of the leading run of separators. */
  function SeparatorRun(s: seq<char>): (n: nat)
    ensures n <= |s|
    ensures forall i :: 0 <= i < n ==> IsSeparator(s[i])
    ensures n == |s| || !IsSeparator(s[n])
  {
    if |s| > 0 && IsSeparator(s[0]) then 1 + SeparatorRun(s[1..]) else 0
  }

  /** The length of the leading run of non-separators. */
  function WordLength(s: seq<char>): (n: nat)
    ensures n <= |s|
    ensures forall i :: 0 <= i < n ==> !IsSeparator(s[i])
    ensures n == |s| || IsSeparator(s[n])
  {
    if |s| > 0 && !IsSeparator(s[0]) then 1 + WordLength(s[1..]) else 0
  }

  /** The leading run of separators removed. */
  function DropSeparators(s: seq<char>): seq<char>
  {
    s[SeparatorRun(s)..]
  }

  /** The longest prefix of `s` that holds no separator. */
  function TakeWord(s: seq<char>): seq<char>
  {
    s[..WordLength(s)]
  }

  /**
   `s.split(/[-_.\s]+/)`: the pieces between maximal separator runs, including
   the empty pieces JavaScript yields before a leading run and after a
   trailing one (and the single empty piece of an empty string).
   */
  function Split(s: seq<char>): (r: seq<seq<char>>)
    ensures |r| > 0
    ensures forall k :: 0 <= k < |r| ==> SeparatorFree(r[k])
    ensures forall k, j :: 0 <= k < |r| && 0 <= j < |r[k]| ==> r[k][j] in s
    decreases |s|
  {
    var w := TakeWord(s);
    var rest := s[|w|..];
    if |rest| == 0 then [w]
    else
      assert IsSeparator(rest[0]);
      var tail := DropSeparators(rest);
      var r := Split(tail);
      assert forall c :: c in tail ==> c in s;
      [w] + r
  }

  /** The maximal non-empty runs of non-separators, left to right. */
  function Words(s: seq<char>): seq<seq<char>>
    decreases |s|
  {
    var t := DropSeparators(s);
    if |t| == 0 then []
    else
      var w := TakeWord(t);
      [w] + Words(t[|w|..])
  }

  function RemoveEmpty(ws: seq<seq<char>>): (r: seq<seq<char>>)
    ensures forall w :: w in r <==> w in ws && |w| > 0
  {
    if |ws| == 0 then []
    else if |ws[0]| == 0 then RemoveEmpty(ws[1..])
    else [ws[0]] + RemoveEmpty(ws[1..])
  }

  /** The filter step: the significant tokens, in their original order. */
  function Significant(ws: seq<seq<char>>): (r: seq<seq<char>>)
    ensures |r| <= |ws|
    ensures forall w :: w in r <==> w in ws && IsSignificant(w)
  {
    if |ws| == 0 then []
    else if IsSignificant(ws[0]) then [ws[0]] + Significant(ws[1..])
    else Significant(ws[1..])
  }

  /** The keywords of a model name, in the order they are tried. */
  function Keywords(name: seq<char>): (r: seq<seq<char>>)
    ensures forall k :: 0 <= k < |r| ==> |r[k]| >= 3 && !AllDigits(r[k])
    ensures forall k :: 0 <= k < |r| ==> SeparatorFree(r[k]) && NoUpper(r[k])
  {
    var lower := ToLower(name);
    var pieces := Split(lower);
    PiecesOfLowerAreLower(lower, pieces);
    var r := Significant(pieces);
    assert forall k :: 0 <= k < |r| ==> r[k] in r;
    r
  }

  lemma PiecesOfLowerAreLower(lower: seq<char>, pieces: seq<seq<char>>)
    requires NoUpper(lower)
    requires forall k, j :: 0 <= k < |pieces| && 0 <= j < |pieces[k]| ==> pieces[k][j] in lower
    ensures forall w :: w in pieces ==> NoUpper(w)
  {
    forall w | w in pieces
      ensures NoUpper(w)
    {
      var k :| 0 <= k < |pieces| && pieces[k] == w;
      forall j | 0 <= j < |w|
        ensures !IsUpper(w[j])
      {
        assert pieces[k][j] in lower;
      }
    }
  }

  /** Separators removed, every other character kept in order. */
  function Strip(s: seq<char>): seq<char>
  {
    if |s| == 0 then []
    else if IsSeparator(s[0]) then Strip(s[1..])
    else [s[0]] + Strip(s[1..])
  }

  function Concat(ws: seq<seq<char>>): seq<char>
  {
    if |ws| == 0 then [] else ws[0] + Concat(ws[1..])
  }

  /** The words joined with `sep` between consecutive ones. */
  function Join(ws: seq<seq<char>>, sep: seq<char>): seq<char>
  {
    if |ws| == 0 then []
    else if |ws| == 1 then ws[0]
    else ws[0] + sep + Join(ws[1..], sep)
  }

  // ---------------------------------------------------------------------------
  // Lemmas

  lemma ToLowerOfLower(s: seq<char>)
    requires NoUpper(s)
    ensures ToLower(s) == s
  {
  }

  /** Lower-casing twice is lower-casing once. */
  lemma ToLowerIdempotent(s: seq<char>)
    ensures ToLower(ToLower(s)) == ToLower(s)
  {
    ToLowerOfLower(ToLower(s));
  }

  /** Extracting from the lower-cased name gives the same keywords. */
  lemma KeywordsIgnoreCase(name: seq<char>)
    ensures Keywords(ToLower(name)) == Keywords(name)
  {
    ToLowerIdempotent(name);
  }

  /** Each run is non-empty and free of separators. */
  lemma {:induction false} WordIsRun(s: seq<char>, k: nat)
    requires k < |Words(s)|
    ensures |Words(s)[k]| > 0 && SeparatorFree(Words(s)[k])
    decreases |s|
  {
    var t := DropSeparators(s);
    assert |t| > 0;
    var n := WordLength(t);
    var w := TakeWord(t);
    var rest := Words(t[n..]);
    assert Words(s) == [w] + rest;
    if k == 0 {
      assert t[0] == s[SeparatorRun(s)];
      assert n > 0;
      assert forall i :: 0 <= i < |w| ==> w[i] == t[i];
    } else {
      WordIsRun(t[n..], k - 1);
      assert Words(s)[k] == rest[k - 1];
    }
  }

  /** Every run is non-empty and free of separators. */
  lemma WordsAreRuns(s: seq<char>)
    ensures forall k :: 0 <= k < |Words(s)| ==> |Words(s)[k]| > 0 && SeparatorFree(Words(s)[k])
  {
    forall k | 0 <= k < |Words(s)|
      ensures |Words(s)[k]| > 0 && SeparatorFree(Words(s)[k])
    {
      WordIsRun(s, k);
    }
  }

  lemma {:induction false} WordsSkipsSeparators(s: seq<char>)
    ensures Words(s) == Words(DropSeparators(s))
  {
    var t := DropSeparators(s);
    assert DropSeparators(t) == t;
  }

  /** Empty JavaScript pieces aside, splitting yields exactly the maximal runs. */
  lemma {:induction false} SplitWithoutEmptiesIsWords(s: seq<char>)
    ensures RemoveEmpty(Split(s)) == Words(s)
    decreases |s|
  {
    var w := TakeWord(s);
    var rest := s[|w|..];
    if |s| == 0 {
    } else if IsSeparator(s[0]) {
      assert w == [];
      assert rest == s;
      var t := DropSeparators(s);
      assert Split(s) == [[]] + Split(t);
      assert RemoveEmpty(Split(s)) == RemoveEmpty(Split(t));
      SplitWithoutEmptiesIsWords(t);
      WordsSkipsSeparators(s);
      WordsSkipsSeparators(t);
    } else {
      assert DropSeparators(s) == s;
      assert |w| > 0;
      if |rest| == 0 {
        assert Split(s) == [w];
        assert Words(s) == [w] + Words(rest);
      } else {
        var t := DropSeparators(rest);
        assert Split(s) == [w] + Split(t);
        assert Words(s) == [w] + Words(rest);
        SplitWithoutEmptiesIsWords(t);
        WordsSkipsSeparators(rest);
      }
    }
  }

  lemma {:induction false} SignificantSkipsEmpty(ws: seq<seq<char>>)
    ensures Significant(RemoveEmpty(ws)) == Significant(ws)
  {
    if |ws| > 0 {
      SignificantSkipsEmpty(ws[1..]);
    }
  }

  /** The filter of one token: the token itself when significant, else nothing. */
  lemma SignificantSingle(w: seq<char>)
    ensures Significant([w]) == if IsSignificant(w) then [w] else []
  {
    assert [w][1..] == [];
  }

  /** Filtering keeps order and duplicates: it distributes over concatenation. */
  lemma {:induction false} SignificantAppend(a: seq<seq<char>>, b: seq<seq<char>>)
    ensures Significant(a + b) == Significant(a) + Significant(b)
  {
    if |a| == 0 {
      assert a + b == b;
    } else {
      assert (a + b)[0] == a[0];
      assert (a + b)[1..] == a[1..] + b;
      SignificantAppend(a[1..], b);
    }
  }

  /**
   The keywords are the maximal separator-free runs of the lower-cased name,
   left to right, with the short and the purely numeric ones removed.
   */
  lemma KeywordsAreSignificantWords(name: seq<char>)
    ensures Keywords(name) == Significant(Words(ToLower(name)))
  {
    var lower := ToLower(name);
    SplitWithoutEmptiesIsWords(lower);
    SignificantSkipsEmpty(Split(lower));
  }

  lemma {:induction false} StripLeadingSeparators(s: seq<char>)
    ensures Strip(s) == Strip(DropSeparators(s))
  {
    if |s| > 0 && IsSeparator(s[0]) {
      StripLeadingSeparators(s[1..]);
    }
  }

  lemma {:induction false} StripLeadingWord(s: seq<char>)
    ensures Strip(s) == TakeWord(s) + Strip(s[|TakeWord(s)|..])
  {
    if |s| > 0 && !IsSeparator(s[0]) {
      var tail := s[1..];
      var w := TakeWord(tail);
      StripLeadingWord(tail);
      assert TakeWord(s) == [s[0]] + w;
      assert tail[|w|..] == s[|w| + 1..];
      calc {
        Strip(s);
        [s[0]] + Strip(tail);
        [s[0]] + (w + Strip(s[|w| + 1..]));
        ([s[0]] + w) + Strip(s[|w| + 1..]);
      }
    }
  }

  /** No non-separator character is lost, reordered or invented by `Words`. */
  lemma {:induction false} WordsKeepEveryCharacter(s: seq<char>)
    ensures Concat(Words(s)) == Strip(s)
    decreases |s|
  {
    var t := DropSeparators(s);
    StripLeadingSeparators(s);
    if |t| > 0 {
      var w := TakeWord(t);
      StripLeadingWord(t);
      WordsKeepEveryCharacter(t[|w|..]);
    }
  }

  lemma {:induction false} TakeWordOfWord(w: seq<char>, rest: seq<char>)
    requires SeparatorFree(w)
    requires |rest| == 0 || IsSeparator(rest[0])
    ensures TakeWord(w + rest) == w
  {
    if |w| > 0 {
      assert (w + rest)[1..] == w[1..] + rest;
      TakeWordOfWord(w[1..], rest);
    } else {
      assert w + rest == rest;
    }
  }

  lemma {:induction false} DropSeparatorsRun(sep: seq<char>, rest: seq<char>)
    requires AllSeparators(sep)
    ensures DropSeparators(sep + rest) == DropSeparators(rest)
  {
    if |sep| > 0 {
      var s := sep + rest;
      assert s[0] == sep[0];
      assert s[1..] == sep[1..] + rest;
      DropSeparatorsRun(sep[1..], rest);
    } else {
      assert sep + rest == rest;
    }
  }

  /** A word followed by a separator (or nothing) is the first run. */
  lemma WordsOfWordThen(w: seq<char>, rest: seq<char>)
    requires |w| > 0 && SeparatorFree(w)
    requires |rest| == 0 || IsSeparator(rest[0])
    ensures Words(w + rest) == [w] + Words(rest)
  {
    var s := w + rest;
    assert s[0] == w[0];
    assert DropSeparators(s) == s;
    TakeWordOfWord(w, rest);
    assert s[|w|..] == rest;
  }

  /** A leading separator run does not change the runs. */
  lemma WordsAfterRun(sep: seq<char>, rest: seq<char>)
    requires AllSeparators(sep)
    ensures Words(sep + rest) == Words(rest)
  {
    WordsSkipsSeparators(sep + rest);
    DropSeparatorsRun(sep, rest);
    WordsSkipsSeparators(rest);
  }

  /** Round trip: joining words with a separator run and extracting the runs again. */
  lemma {:induction false} WordsOfJoin(ws: seq<seq<char>>, sep: seq<char>)
    requires |sep| > 0 && AllSeparators(sep)
    requires forall k :: 0 <= k < |ws| ==> |ws[k]| > 0 && SeparatorFree(ws[k])
    ensures Words(Join(ws, sep)) == ws
  {
    if |ws| == 0 {
      assert Join(ws, sep) == [];
      assert DropSeparators([]) == [];
    } else if |ws| == 1 {
      assert Join(ws, sep) == ws[0] + [];
      WordsOfWordThen(ws[0], []);
      assert Words([]) == [];
      assert [ws[0]] + [] == [ws[0]] == ws;
    } else {
      var tail := Join(ws[1..], sep);
      assert Join(ws, sep) == ws[0] + (sep + tail);
      calc {
        Words(Join(ws, sep));
        Words(ws[0] + (sep + tail));
        { WordsOfWordThen(ws[0], sep + tail); }
        [ws[0]] + Words(sep + tail);
        { WordsAfterRun(sep, tail); }
        [ws[0]] + Words(tail);
        { WordsOfJoin(ws[1..], sep); }
        [ws[0]] + ws[1..];
        ws;
      }
    }
  }

  lemma {:induction false} JoinNoUpper(ws: seq<seq<char>>, sep: seq<char>)
    requires NoUpper(sep)
    requires forall k :: 0 <= k < |ws| ==> NoUpper(ws[k])
    ensures NoUpper(Join(ws, sep))
  {
    if |ws| > 1 {
      JoinNoUpper(ws[1..], sep);
    }
  }

  /** The keywords of a lower-case name built from words: the significant words. */
  lemma KeywordsOfJoin(ws: seq<seq<char>>, sep: seq<char>)
    requires |sep| > 0 && AllSeparators(sep)
    requires forall k :: 0 <= k < |ws| ==> IsLowerWord(ws[k])
    ensures Keywords(Join(ws, sep)) == Significant(ws)
  {
    var s := Join(ws, sep);
    JoinNoUpper(ws, sep);
    ToLowerOfLower(s);
    KeywordsAreSignificantWords(s);
    WordsOfJoin(ws, sep);
  }

  /** The model name of the worked example, as words joined by hyphens. */
  lemma ExampleIsJoin()
    ensures Join(["claude", "sonnet", "4", "5"], "-") == "claude-sonnet-4-5"
  {
    var ws := ["claude", "sonnet", "4", "5"];
    assert ws[1..] == ["sonnet", "4", "5"];
    assert ws[2..] == ["4", "5"];
    assert ws[3..] == ["5"];
    assert Join(ws[2..], "-") == "4" + "-" + "5";
    assert Join(ws[1..], "-") == "sonnet" + "-" + "4-5";
  }

  lemma ExampleSignificant()
    ensures Significant(["claude", "sonnet", "4", "5"]) == ["claude", "sonnet"]
  {
    var ws := ["claude", "sonnet", "4", "5"];
    assert ws[1..] == ["sonnet", "4", "5"];
    assert ws[2..] == ["4", "5"];
    assert ws[3..] == ["5"];
    assert ws[4..] == [];
    assert "claude"[0] == 'c' && "sonnet"[0] == 's';
  }

  lemma ExampleWordsAreLower()
    ensures forall k :: 0 <= k < 4 ==> IsLowerWord(["claude", "sonnet", "4", "5"][k])
  {
    assert IsLowerWord("claude");
    assert IsLowerWord("sonnet");
    assert IsLowerWord("4") && IsLowerWord("5");
  }

  /** The example in the extension's comment: "claude-sonnet-4-5" gives ["claude", "sonnet"]. */
  lemma ClaudeSonnetExample()
    ensures Keywords("claude-sonnet-4-5") == ["claude", "sonnet"]
  {
    ExampleIsJoin();
    ExampleSignificant();
    ExampleWordsAreLower();
    KeywordsOfJoin(["claude", "sonnet", "4", "5"], "-");
  }
}
