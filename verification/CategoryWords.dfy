/**
 What `normalizeCategory` computes, said without its stages: the words of the category,
 where slashes, underscores, hyphens and white space separate words, joined by single blanks.
*/
module CategoryWords {
  import opened Wrappers
  import opened BikeCategory

  /** White space and line terminators, as sections 12.2 and 12.3 of ECMA-262 list them. */
  const WHITE_SPACE: set<char> := {
    '\t', '\n', '\U{000B}', '\U{000C}', '\r', ' ', '\U{00A0}', '\U{1680}',
    '\U{2000}', '\U{2001}', '\U{2002}', '\U{2003}', '\U{2004}', '\U{2005}', '\U{2006}', '\U{2007}',
    '\U{2008}', '\U{2009}', '\U{200A}', '\U{2028}', '\U{2029}', '\U{202F}', '\U{205F}', '\U{3000}',
    '\U{FEFF}'
  }

  predicate IsSeparator(c: char) {
    c == '/' || c == '_' || c == '-' || c in WHITE_SPACE
  }

  lemma SpaceIsWhiteSpace(c: char)
    ensures IsSpace(c) <==> c in WHITE_SPACE
  {
    if IsSpace(c) {
      assert c as int in {9, 10, 11, 12, 13, 32, 0xA0, 0x1680, 0x2000, 0x2001, 0x2002, 0x2003, 0x2004, 0x2005,
        0x2006, 0x2007, 0x2008, 0x2009, 0x200A, 0x2028, 0x2029, 0x202F, 0x205F, 0x3000, 0xFEFF};
    }
  }

  function Finished(word: string): seq<string> {
    if word == "" then [] else [word]
  }

  /** The words of a text: its longest runs of other characters. `word` is what is read of the first one. */
  function Words(s: string, word: string): seq<string>
    decreases |s|
  {
    if s == "" then Finished(word)
    else if IsSeparator(s[0]) then Finished(word) + Words(s[1..], "")
    else Words(s[1..], word + [s[0]])
  }

  function Join(words: seq<string>): string {
    if words == [] then ""
    else if |words| == 1 then words[0]
    else words[0] + " " + Join(words[1..])
  }

  /** Making one blank of each run of separators leaves the words. */
  lemma {:induction false} RunsLeaveWords(s: string, word: string, matches: char -> bool)
    requires forall c :: matches(c) ==> IsSeparator(c)
    ensures Words(ReplaceRuns(s, matches), word) == Words(s, word)
    decreases |s|
  {
    if s != "" {
      var rest := ReplaceRuns(s[1..], matches);
      if !matches(s[0]) {
        assert ([s[0]] + rest)[1..] == rest;
        RunsLeaveWords(s[1..], if IsSeparator(s[0]) then "" else word + [s[0]], matches);
      } else if |s| > 1 && matches(s[1]) {
        RunsLeaveWords(s[1..], word, matches);
        assert Words(s[1..], word) == Finished(word) + Words(s[1..][1..], "");
        assert Words(s[1..], "") == [] + Words(s[1..][1..], "");
      } else {
        assert (" " + rest)[1..] == rest;
        RunsLeaveWords(s[1..], "", matches);
      }
    }
  }

  lemma {:induction false} EachLeavesWords(s: string, word: string, matches: char -> bool)
    requires forall c :: matches(c) ==> IsSeparator(c)
    ensures Words(ReplaceEach(s, matches), word) == Words(s, word)
    decreases |s|
  {
    if s != "" {
      assert ReplaceEach(s, matches)[1..] == ReplaceEach(s[1..], matches);
      EachLeavesWords(s[1..], if IsSeparator(s[0]) then "" else word + [s[0]], matches);
    }
  }

  lemma {:induction false} TrimStartLeavesWords(s: string)
    ensures Words(TrimStart(s), "") == Words(s, "")
    decreases |s|
  {
    if s != "" && IsSpace(s[0]) {
      SpaceIsWhiteSpace(s[0]);
      TrimStartLeavesWords(s[1..]);
      assert [] + Words(s[1..], "") == Words(s[1..], "");
    }
  }

  lemma {:induction false} LastSeparatorEndsNothing(s: string, word: string)
    requires s != "" && IsSeparator(s[|s| - 1])
    ensures Words(s, word) == Words(s[..|s| - 1], word)
    decreases |s|
  {
    var init := s[..|s| - 1];
    if init == "" {
      assert s[1..] == "";
      assert Words("", "") == [] && Finished(word) + [] == Finished(word);
    } else {
      assert s[1..][..|s[1..]| - 1] == init[1..];
      LastSeparatorEndsNothing(s[1..], if IsSeparator(s[0]) then "" else word + [s[0]]);
    }
  }

  lemma {:induction false} TrimEndLeavesWords(s: string)
    ensures Words(TrimEnd(s), "") == Words(s, "")
    decreases |s|
  {
    if s != "" && IsSpace(s[|s| - 1]) {
      SpaceIsWhiteSpace(s[|s| - 1]);
      LastSeparatorEndsNothing(s, "");
      TrimEndLeavesWords(s[..|s| - 1]);
    }
  }

  lemma SeparatedLeavesWords(s: string)
    ensures Words(Separated(s), "") == Words(s, "")
  {
    var a := ReplaceRuns(s, IsSlashOrUnderscore);
    var b := ReplaceEach(a, IsHyphen);
    var c := ReplaceRuns(b, IsSpace);
    forall x ensures IsSpace(x) ==> IsSeparator(x) { SpaceIsWhiteSpace(x); }
    RunsLeaveWords(s, "", IsSlashOrUnderscore);
    EachLeavesWords(a, "", IsHyphen);
    RunsLeaveWords(b, "", IsSpace);
    TrimStartLeavesWords(c);
    TrimEndLeavesWords(TrimStart(c));
  }

  /** What is left of a text in normal form while a word is being read. */
  predicate Remainder(s: string, word: string) {
    && (forall i :: 0 <= i < |s| && IsSeparator(s[i]) ==> s[i] == ' ')
    && (forall i :: 0 < i < |s| ==> !(s[i - 1] == ' ' && s[i] == ' '))
    && (s != "" ==> s[|s| - 1] != ' ')
    && (s != "" && s[0] == ' ' ==> word != "")
  }

  lemma {:induction false} JoiningTheWords(s: string, word: string)
    requires Remainder(s, word)
    ensures Join(Words(s, word)) == word + s
    decreases |s|
  {
    if s != "" {
      var rest := s[1..];
      assert forall i :: 0 <= i < |rest| ==> rest[i] == s[i + 1];
      assert rest != "" ==> rest[|rest| - 1] == s[|s| - 1];
      if IsSeparator(s[0]) {
        assert rest != "" && rest[0] != ' ';
        JoiningTheWords(rest, "");
        var words := Words(rest, "");
        assert words != [] && ([word] + words)[1..] == words;
        assert word + s == word + " " + rest;
      } else {
        JoiningTheWords(rest, word + [s[0]]);
        assert word + [s[0]] + rest == word + s;
      }
    }
  }

  lemma NormalIsRemainder(s: string)
    requires IsNormal(s)
    ensures Remainder(s, "")
  {
    forall i | 0 <= i < |s| && IsSeparator(s[i]) ensures s[i] == ' ' {
      SpaceIsWhiteSpace(s[i]);
    }
    assert IsSpace(' ');
  }

  /** For every case mapping: the words of the lower-cased category, joined by single blanks. */
  lemma NormalizeCategoryJoinsTheWords(lower: string -> string, value: Option<string>)
    ensures NormalizeCategory(lower, value) ==
      if value.None? then "" else Join(Words(lower(value.value), ""))
  {
    if value.Some? {
      var s := lower(value.value);
      SeparatedIsNormal(s);
      NormalIsRemainder(Separated(s));
      JoiningTheWords(Separated(s), "");
      SeparatedLeavesWords(s);
    }
  }
}
