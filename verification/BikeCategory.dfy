/**
 The bike test on product categories: a pipeline of string replacements, then a scan for
 any of twenty keywords. `toLowerCase` is a parameter: the main theorem holds for every
 function in its place.
*/
module BikeCategory {
  import opened Wrappers
  import opened Text

  const BIKE_CATEGORY_KEYWORDS: seq<string> := [
    "bikes", "bike",
    "electric bikes", "electric bike",
    "road bikes", "road bike",
    "mountain bikes", "mountain bike",
    "hybrid bikes", "hybrid bike",
    "kids bikes", "kids bike",
    "cargo bikes", "cargo bike",
    "folding bikes", "folding bike",
    "e bikes", "e bike",
    "ebikes", "ebike"
  ]

  /** The characters of `\s`, which are also those that `trim` removes. */
  predicate IsSpace(c: char) {
    || '\t' <= c <= '\r'
    || c == ' ' || c == '\U{00A0}' || c == '\U{1680}'
    || '\U{2000}' <= c <= '\U{200A}'
    || c == '\U{2028}' || c == '\U{2029}' || c == '\U{202F}' || c == '\U{205F}'
    || c == '\U{3000}' || c == '\U{FEFF}'
  }

  predicate IsSlashOrUnderscore(c: char) {
    c == '_' || c == '/'
  }

  predicate IsHyphen(c: char) {
    c == '-'
  }

  /** `replace(/[...]+/g, " ")`: every longest run of matching characters becomes one blank. */
  function ReplaceRuns(s: string, matches: char -> bool): string {
    if s == "" then ""
    else if !matches(s[0]) then [s[0]] + ReplaceRuns(s[1..], matches)
    else if |s| > 1 && matches(s[1]) then ReplaceRuns(s[1..], matches)
    else " " + ReplaceRuns(s[1..], matches)
  }

  /** `replace(/[...]/g, " ")`: every matching character becomes one blank. */
  function ReplaceEach(s: string, matches: char -> bool): string {
    if s == "" then ""
    else [if matches(s[0]) then ' ' else s[0]] + ReplaceEach(s[1..], matches)
  }

  function TrimStart(s: string): string {
    if s != "" && IsSpace(s[0]) then TrimStart(s[1..]) else s
  }

  function TrimEnd(s: string): string {
    if s != "" && IsSpace(s[|s| - 1]) then TrimEnd(s[..|s| - 1]) else s
  }

  function Trim(s: string): string {
    TrimEnd(TrimStart(s))
  }

  /** The part of `normalizeCategory` after `toLowerCase`. */
  function Separated(s: string): string {
    Trim(ReplaceRuns(ReplaceEach(ReplaceRuns(s, IsSlashOrUnderscore), IsHyphen), IsSpace))
  }

  /** `normalizeCategory`; a missing value gives the empty string. */
  function NormalizeCategory(lower: string -> string, value: Option<string>): string {
    if value.None? then "" else Separated(lower(value.value))
  }

  /** `isBikeCategory` */
  predicate IsBikeCategory(lower: string -> string, category: Option<string>) {
    var normalized := NormalizeCategory(lower, category);
    normalized != "" &&
    exists i :: 0 <= i < |BIKE_CATEGORY_KEYWORDS| && Contains(normalized, BIKE_CATEGORY_KEYWORDS[i])
  }

  // ------------------------------------------- the scan is a one-word test

  /** No character of the word is matched, and none is a blank. */
  predicate Untouched(word: string, matches: char -> bool) {
    forall i :: 0 <= i < |word| ==> !matches(word[i]) && word[i] != ' '
  }

  /** A word of untouched characters survives at the front of a text, and is not created there. */
  lemma {:induction false} RunsKeepPrefix(s: string, word: string, matches: char -> bool)
    requires Untouched(word, matches)
    ensures StartsWith(ReplaceRuns(s, matches), word) <==> StartsWith(s, word)
    decreases |s|
  {
    if s != "" && word != "" && !matches(s[0]) {
      RunsKeepPrefix(s[1..], word[1..], matches);
      PrefixUnfolds(s, word);
      PrefixUnfolds(ReplaceRuns(s, matches), word);
    } else if s != "" && word != "" {
      RunStartsWithBlank(s, matches);
      PrefixUnfolds(s, word);
      PrefixUnfolds(ReplaceRuns(s, matches), word);
    }
  }

  lemma {:induction false} RunStartsWithBlank(s: string, matches: char -> bool)
    requires s != "" && matches(s[0])
    ensures ReplaceRuns(s, matches) != "" && ReplaceRuns(s, matches)[0] == ' '
    decreases |s|
  {
    if |s| > 1 && matches(s[1]) {
      RunStartsWithBlank(s[1..], matches);
    }
  }

  lemma PrefixUnfolds(s: string, word: string)
    requires word != ""
    ensures StartsWith(s, word) <==> s != "" && s[0] == word[0] && StartsWith(s[1..], word[1..])
  {
    if |word| <= |s| {
      assert s[..|word|] == [s[0]] + s[1..][..|word| - 1];
      assert word == [word[0]] + word[1..];
    }
  }

  lemma {:induction false} RunsKeepWords(s: string, word: string, matches: char -> bool)
    requires word != "" && Untouched(word, matches)
    ensures Contains(ReplaceRuns(s, matches), word) <==> Contains(s, word)
    decreases |s|
  {
    RunsKeepPrefix(s, word, matches);
    if s != "" {
      RunsKeepWords(s[1..], word, matches);
      if matches(s[0]) {
        PrefixUnfolds(s, word);
        var r := " " + ReplaceRuns(s[1..], matches);
        assert r[1..] == ReplaceRuns(s[1..], matches);
        PrefixUnfolds(r, word);
      } else {
        assert ReplaceRuns(s, matches)[1..] == ReplaceRuns(s[1..], matches);
      }
    }
  }

  lemma {:induction false} EachKeepsPrefix(s: string, word: string, matches: char -> bool)
    requires Untouched(word, matches)
    ensures StartsWith(ReplaceEach(s, matches), word) <==> StartsWith(s, word)
    decreases |s|
  {
    if s != "" && word != "" {
      EachKeepsPrefix(s[1..], word[1..], matches);
      PrefixUnfolds(s, word);
      PrefixUnfolds(ReplaceEach(s, matches), word);
    }
  }

  lemma {:induction false} EachKeepsWords(s: string, word: string, matches: char -> bool)
    requires word != "" && Untouched(word, matches)
    ensures Contains(ReplaceEach(s, matches), word) <==> Contains(s, word)
    decreases |s|
  {
    EachKeepsPrefix(s, word, matches);
    if s != "" {
      EachKeepsWords(s[1..], word, matches);
      assert ReplaceEach(s, matches)[1..] == ReplaceEach(s[1..], matches);
    }
  }

  lemma {:induction false} TrimStartKeepsWords(s: string, word: string)
    requires word != "" && !IsSpace(word[0])
    ensures Contains(TrimStart(s), word) <==> Contains(s, word)
    decreases |s|
  {
    if s != "" && IsSpace(s[0]) {
      TrimStartKeepsWords(s[1..], word);
      PrefixUnfolds(s, word);
    }
  }

  /** A word that does not end in white space does not reach the white space at the end. */
  lemma OccursBeforeTheEnd(s: string, word: string, i: nat)
    requires word != "" && !IsSpace(word[|word| - 1]) && s != "" && IsSpace(s[|s| - 1])
    ensures OccursAt(s, word, i) <==> OccursAt(s[..|s| - 1], word, i)
  {
    if OccursAt(s, word, i) {
      assert s[i..i + |word|][|word| - 1] == s[i + |word| - 1];
    }
    if i + |word| < |s| {
      assert s[..|s| - 1][i..i + |word|] == s[i..i + |word|];
    }
  }

  lemma {:induction false} TrimEndKeepsWords(s: string, word: string)
    requires word != "" && !IsSpace(word[|word| - 1])
    ensures Contains(TrimEnd(s), word) <==> Contains(s, word)
    decreases |s|
  {
    if s != "" && IsSpace(s[|s| - 1]) {
      var init := s[..|s| - 1];
      TrimEndKeepsWords(init, word);
      ContainsIsOccurrence(init, word);
      ContainsIsOccurrence(s, word);
      if i: nat :| OccursAt(s, word, i) {
        OccursBeforeTheEnd(s, word, i);
      }
      if i: nat :| OccursAt(init, word, i) {
        OccursBeforeTheEnd(s, word, i);
      }
    }
  }

  /** The whole pipeline neither breaks nor forms a word of letters. */
  lemma SeparatedKeepsBike(s: string)
    ensures Contains(Separated(s), "bike") <==> Contains(s, "bike")
  {
    var a := ReplaceRuns(s, IsSlashOrUnderscore);
    var b := ReplaceEach(a, IsHyphen);
    var c := ReplaceRuns(b, IsSpace);
    RunsKeepWords(s, "bike", IsSlashOrUnderscore);
    EachKeepsWords(a, "bike", IsHyphen);
    RunsKeepWords(b, "bike", IsSpace);
    TrimStartKeepsWords(c, "bike");
    TrimEndKeepsWords(TrimStart(c), "bike");
  }

  lemma EndsInBike(start: string)
    ensures Contains(start + "bike", "bike") && Contains(start + "bikes", "bike")
  {
    assert OccursAt(start + "bike", "bike", |start|);
    assert OccursAt(start + "bikes", "bike", |start|);
    ContainsAt(start + "bike", "bike", |start|);
    ContainsAt(start + "bikes", "bike", |start|);
  }

  lemma FirstKeywordsHoldBike(i: nat)
    requires i < 6
    ensures Contains(BIKE_CATEGORY_KEYWORDS[i], "bike")
  {
    var start := ["", "electric ", "road "][i / 2];
    EndsInBike(start);
    assert BIKE_CATEGORY_KEYWORDS[i] == start + (if i % 2 == 0 then "bikes" else "bike");
  }

  lemma MiddleKeywordsHoldBike(i: nat)
    requires 6 <= i < 14
    ensures Contains(BIKE_CATEGORY_KEYWORDS[i], "bike")
  {
    var start := ["mountain ", "hybrid ", "kids ", "cargo "][i / 2 - 3];
    EndsInBike(start);
    assert BIKE_CATEGORY_KEYWORDS[i] == start + (if i % 2 == 0 then "bikes" else "bike");
  }

  lemma LastKeywordsHoldBike(i: nat)
    requires 14 <= i < 20
    ensures Contains(BIKE_CATEGORY_KEYWORDS[i], "bike")
  {
    var start := ["folding ", "e ", "e"][i / 2 - 7];
    EndsInBike(start);
    assert BIKE_CATEGORY_KEYWORDS[i] == start + (if i % 2 == 0 then "bikes" else "bike");
  }

  /** Every keyword is some text followed by "bike" or "bikes". */
  lemma KeywordHoldsBike(i: nat)
    requires i < |BIKE_CATEGORY_KEYWORDS|
    ensures Contains(BIKE_CATEGORY_KEYWORDS[i], "bike")
  {
    if i < 6 {
      FirstKeywordsHoldBike(i);
    } else if i < 14 {
      MiddleKeywordsHoldBike(i);
    } else {
      LastKeywordsHoldBike(i);
    }
  }

  /**
   The four-stage pipeline and the keyword scan amount to one test: does the lower-cased
   category contain the letters "bike"? So other words that merely contain them are bikes too.
  */
  lemma IsBikeIsOneWordTest(lower: string -> string, category: Option<string>)
    ensures IsBikeCategory(lower, category) <==>
            category.Some? && Contains(lower(category.value), "bike")
  {
    var normalized := NormalizeCategory(lower, category);
    assert BIKE_CATEGORY_KEYWORDS[1] == "bike";
    assert IsBikeCategory(lower, category) <==> Contains(normalized, "bike") by {
      if i :| 0 <= i < |BIKE_CATEGORY_KEYWORDS| && Contains(normalized, BIKE_CATEGORY_KEYWORDS[i]) {
        KeywordHoldsBike(i);
        ContainsTransitive(normalized, BIKE_CATEGORY_KEYWORDS[i], "bike");
      }
    }
    if category.Some? {
      SeparatedKeepsBike(lower(category.value));
    }
  }

  // ------------------------------------------------ the normal form is one

  predicate NoDoubleSpace(s: string) {
    forall i :: 0 < i < |s| ==> !(IsSpace(s[i - 1]) && IsSpace(s[i]))
  }

  /** No separator but single blanks between other characters. */
  predicate IsNormal(s: string) {
    && (forall i :: 0 <= i < |s| ==> !IsSlashOrUnderscore(s[i]) && !IsHyphen(s[i]) && (IsSpace(s[i]) ==> s[i] == ' '))
    && NoDoubleSpace(s)
    && (s != "" ==> !IsSpace(s[0]) && !IsSpace(s[|s| - 1]))
  }

  /** Each character of `r` is a blank or an unmatched character of `s`. */
  predicate ComesFrom(r: string, s: string, matches: char -> bool) {
    forall i :: 0 <= i < |r| ==> r[i] == ' ' || (r[i] in s && !matches(r[i]))
  }

  lemma {:induction false} RunsComeFrom(s: string, matches: char -> bool)
    ensures ComesFrom(ReplaceRuns(s, matches), s, matches)
    decreases |s|
  {
    if s != "" {
      RunsComeFrom(s[1..], matches);
      var rest := ReplaceRuns(s[1..], matches);
      assert forall c :: c in s[1..] ==> c in s;
      assert ReplaceRuns(s, matches) == rest
          || ReplaceRuns(s, matches) == " " + rest
          || (!matches(s[0]) && ReplaceRuns(s, matches) == [s[0]] + rest);
    }
  }

  lemma {:induction false} EachComesFrom(s: string, matches: char -> bool)
    ensures ComesFrom(ReplaceEach(s, matches), s, matches)
    decreases |s|
  {
    if s != "" {
      EachComesFrom(s[1..], matches);
      assert forall c :: c in s[1..] ==> c in s;
    }
  }

  lemma {:induction false} SpaceRunsAreSingle(s: string)
    ensures NoDoubleSpace(ReplaceRuns(s, IsSpace))
    ensures s != "" ==> ReplaceRuns(s, IsSpace) != "" && (IsSpace(ReplaceRuns(s, IsSpace)[0]) <==> IsSpace(s[0]))
    decreases |s|
  {
    if s != "" {
      SpaceRunsAreSingle(s[1..]);
    }
  }

  /** Trimming cuts a middle part out, without space at either end. */
  lemma {:induction false} TrimStartCuts(s: string) returns (k: nat)
    ensures k <= |s| && TrimStart(s) == s[k..]
    ensures TrimStart(s) != "" ==> !IsSpace(TrimStart(s)[0])
    decreases |s|
  {
    if s != "" && IsSpace(s[0]) {
      var j := TrimStartCuts(s[1..]);
      k := j + 1;
    } else {
      k := 0;
    }
  }

  lemma {:induction false} TrimEndCuts(s: string) returns (k: nat)
    ensures k <= |s| && TrimEnd(s) == s[..k]
    ensures TrimEnd(s) != "" ==> !IsSpace(TrimEnd(s)[|TrimEnd(s)| - 1])
    decreases |s|
  {
    if s != "" && IsSpace(s[|s| - 1]) {
      k := TrimEndCuts(s[..|s| - 1]);
      assert s[..|s| - 1][..k] == s[..k];
    } else {
      k := |s|;
      assert s[..k] == s;
    }
  }

  lemma TrimCuts(s: string) returns (from: nat, to: nat)
    ensures from <= to <= |s| && Trim(s) == s[from..to]
    ensures Trim(s) != "" ==> !IsSpace(Trim(s)[0]) && !IsSpace(Trim(s)[|Trim(s)| - 1])
  {
    from := TrimStartCuts(s);
    var k := TrimEndCuts(TrimStart(s));
    to := from + k;
    assert s[from..][..k] == s[from..to];
  }

  /** The pipeline's output: a normal form whose characters are blanks or characters of the input. */
  lemma SeparatedIsNormal(s: string)
    ensures IsNormal(Separated(s))
    ensures forall i :: 0 <= i < |Separated(s)| ==> Separated(s)[i] == ' ' || Separated(s)[i] in s
  {
    var a := ReplaceRuns(s, IsSlashOrUnderscore);
    var b := ReplaceEach(a, IsHyphen);
    var c := ReplaceRuns(b, IsSpace);
    RunsComeFrom(s, IsSlashOrUnderscore);
    EachComesFrom(a, IsHyphen);
    RunsComeFrom(b, IsSpace);
    SpaceRunsAreSingle(b);
    assert forall i :: 0 <= i < |b| ==> IsBlankOr(b[i], s);
    assert forall i :: 0 <= i < |c| ==> IsBlankOr(c[i], s) && (IsSpace(c[i]) ==> c[i] == ' ');
    var from, to := TrimCuts(c);
    CutIsNormal(c, from, to, Separated(s));
    forall i | 0 <= i < |Separated(s)| ensures Separated(s)[i] == ' ' || Separated(s)[i] in s {
      assert Separated(s)[i] == c[from + i];
      assert IsBlankOr(c[from + i], s);
    }
  }

  /** A blank, or a character of the input that is no separator. */
  predicate IsBlankOr(c: char, s: string) {
    c == ' ' || (c in s && !IsSlashOrUnderscore(c) && !IsHyphen(c))
  }

  lemma CutIsNormal(c: string, from: nat, to: nat, cut: string)
    requires from <= to <= |c| && cut == c[from..to]
    requires forall i :: 0 <= i < |c| ==>
      !IsSlashOrUnderscore(c[i]) && !IsHyphen(c[i]) && (IsSpace(c[i]) ==> c[i] == ' ')
    requires NoDoubleSpace(c)
    requires cut != "" ==> !IsSpace(cut[0]) && !IsSpace(cut[|cut| - 1])
    ensures IsNormal(cut)
  {
    forall i | 0 < i < |cut| ensures !(IsSpace(cut[i - 1]) && IsSpace(cut[i])) {
      assert cut[i - 1] == c[from + i - 1] && cut[i] == c[from + i];
    }
  }

  lemma {:induction false} RunsLeaveUnmatched(s: string, matches: char -> bool)
    requires forall i :: 0 <= i < |s| ==> !matches(s[i])
    ensures ReplaceRuns(s, matches) == s && ReplaceEach(s, matches) == s
    decreases |s|
  {
    if s != "" {
      RunsLeaveUnmatched(s[1..], matches);
    }
  }

  lemma {:induction false} SingleBlanksStay(s: string)
    requires NoDoubleSpace(s) && forall i :: 0 <= i < |s| && IsSpace(s[i]) ==> s[i] == ' '
    ensures ReplaceRuns(s, IsSpace) == s
    decreases |s|
  {
    if s != "" {
      assert forall i :: 0 < i < |s[1..]| ==> s[1..][i - 1] == s[i] && s[1..][i] == s[i + 1];
      SingleBlanksStay(s[1..]);
      assert |s| > 1 && IsSpace(s[0]) ==> !IsSpace(s[1]);
    }
  }

  /** A normal form passes through the pipeline unchanged. */
  lemma NormalIsFixed(s: string)
    requires IsNormal(s)
    ensures Separated(s) == s
  {
    RunsLeaveUnmatched(s, IsSlashOrUnderscore);
    RunsLeaveUnmatched(s, IsHyphen);
    SingleBlanksStay(s);
  }

  /** Lower-casing character by character. */
  function MapChars(lower: char -> char, s: string): (r: string)
    ensures |r| == |s|
    ensures forall i :: 0 <= i < |s| ==> r[i] == lower(s[i])
  {
    seq(|s|, i requires 0 <= i < |s| => lower(s[i]))
  }

  /**
   `normalizeCategory` gives a normal form and is idempotent, for any case mapping that works
   character by character, is idempotent and leaves the blank alone (as on ASCII).
  */
  lemma NormalizeCategoryIsIdempotent(lower: char -> char, value: Option<string>)
    requires lower(' ') == ' ' && forall c :: lower(lower(c)) == lower(c)
    ensures var once := NormalizeCategory(s => MapChars(lower, s), value);
      && IsNormal(once)
      && NormalizeCategory(s => MapChars(lower, s), Some(once)) == once
  {
    if value.Some? {
      var once := Separated(MapChars(lower, value.value));
      SeparatedIsNormal(MapChars(lower, value.value));
      forall i | 0 <= i < |once| ensures lower(once[i]) == once[i] {
        if once[i] != ' ' {
          assert once[i] in MapChars(lower, value.value);
          var j :| 0 <= j < |value.value| && MapChars(lower, value.value)[j] == once[i];
          assert once[i] == lower(value.value[j]);
        }
      }
      assert MapChars(lower, once) == once;
      NormalIsFixed(once);
    } else {
      assert MapChars(lower, "") == "";
    }
  }
}
