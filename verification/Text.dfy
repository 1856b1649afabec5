/** Substring search, as `String.prototype.includes` and `startsWith` do it. */
module Text {

  predicate StartsWith(s: string, prefix: string) {
    |prefix| <= |s| && s[..|prefix|] == prefix
  }

  /** Does the word stand somewhere in the text? */
  predicate Contains(s: string, word: string)
    decreases |s|
  {
    StartsWith(s, word) || (|s| > 0 && Contains(s[1..], word))
  }

  predicate OccursAt(s: string, word: string, i: nat) {
    i + |word| <= |s| && s[i..i + |word|] == word
  }

  lemma {:induction false} ContainsAt(s: string, word: string, i: nat)
    requires OccursAt(s, word, i)
    ensures Contains(s, word)
    decreases |s|
  {
    if i > 0 {
      assert s[1..][i - 1..i - 1 + |word|] == word;
      ContainsAt(s[1..], word, i - 1);
    }
  }

  lemma ContainsSuffix(start: string, word: string)
    ensures Contains(start + word, word)
  {
    assert OccursAt(start + word, word, |start|);
    ContainsAt(start + word, word, |start|);
  }

  /** `Contains` finds an occurrence whenever there is one, and only then. */
  lemma {:induction false} ContainsIsOccurrence(s: string, word: string)
    ensures Contains(s, word) <==> exists i: nat :: OccursAt(s, word, i)
    decreases |s|
  {
    if StartsWith(s, word) {
      assert OccursAt(s, word, 0);
    } else if Contains(s, word) {
      ContainsIsOccurrence(s[1..], word);
      var i: nat :| OccursAt(s[1..], word, i);
      assert s[i + 1..i + 1 + |word|] == word;
      assert OccursAt(s, word, i + 1);
    }
    if i: nat :| OccursAt(s, word, i) {
      ContainsAt(s, word, i);
    }
  }

  /** What a word contains, every text that contains the word contains. */
  lemma ContainsTransitive(s: string, word: string, part: string)
    requires Contains(s, word) && Contains(word, part)
    ensures Contains(s, part)
  {
    ContainsIsOccurrence(s, word);
    ContainsIsOccurrence(word, part);
    var i: nat :| OccursAt(s, word, i);
    var j: nat :| OccursAt(word, part, j);
    forall k | 0 <= k < |part| ensures s[i + j + k] == part[k] {
      assert word[j..j + |part|][k] == word[j + k];
      assert s[i..i + |word|][j + k] == s[i + j + k];
    }
    assert s[i + j..i + j + |part|] == part;
    ContainsAt(s, part, i + j);
  }
}
