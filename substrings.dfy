/**
 * Python's substring test `word in text`, the only string test the
 * question classifier uses. Matching is by raw characters: there is no
 * notion of a word boundary, so "gi" occurs in "give".
 */
module Substrings {

  /** `s.startswith(prefix)`, compared character by character. */
  function IsPrefix(prefix: string, s: string): (b: bool)
    ensures b ==> |prefix| <= |s|
  {
    |prefix| == 0 || (0 < |s| && prefix[0] == s[0] && IsPrefix(prefix[1..], s[1..]))
  }

  /** The character-by-character comparison agrees with comparing a slice. */
  lemma {:induction false} IsPrefixIffSlice(prefix: string, s: string)
    ensures IsPrefix(prefix, s) <==> |prefix| <= |s| && s[..|prefix|] == prefix
  {
    if |prefix| > 0 && 0 < |s| {
      IsPrefixIffSlice(prefix[1..], s[1..]);
      if |prefix| <= |s| && s[..|prefix|] == prefix {
        assert s[1..][..|prefix| - 1] == prefix[1..];
      }
      if IsPrefix(prefix, s) {
        assert s[..|prefix|] == [s[0]] + s[1..][..|prefix| - 1];
      }
    }
  }

  /** `word in text`: some suffix of `text` starts with `word` (the empty word occurs everywhere). */
  function Contains(text: string, word: string): (b: bool)
    ensures |word| == 0 ==> b
    ensures b ==> |word| <= |text|
    decreases |text|
  {
    IsPrefix(word, text) || (0 < |text| && Contains(text[1..], word))
  }

  /** `word` occurs in `text` starting at index `i`. */
  predicate OccursAt(text: string, word: string, i: int)
  {
    0 <= i && i + |word| <= |text| && text[i..i + |word|] == word
  }

  /** Each word's `in` test agrees with its positional definition. */
  lemma SomeWordOccurs(text: string, words: seq<string>)
    ensures (exists k :: 0 <= k < |words| && Contains(text, words[k]))
            <==> exists k, i :: 0 <= k < |words| && OccursAt(text, words[k], i)
  {
    forall k | 0 <= k < |words|
      ensures Contains(text, words[k]) <==> exists i :: OccursAt(text, words[k], i)
    {
      ContainsIffOccurs(text, words[k]);
    }
  }

  /** `any(word in text for word in words)`: some listed word occurs at some index of `text`. */
  function AnyIn(text: string, words: seq<string>): (b: bool)
    ensures b <==> exists k, i :: 0 <= k < |words| && OccursAt(text, words[k], i)
  {
    SomeWordOccurs(text, words);
    exists k :: 0 <= k < |words| && Contains(text, words[k])
  }

  /** The recursive search agrees with the positional definition of an occurrence. */
  lemma {:induction false} ContainsIffOccurs(text: string, word: string)
    ensures Contains(text, word) <==> exists i :: OccursAt(text, word, i)
    decreases |text|
  {
    IsPrefixIffSlice(word, text);
    if IsPrefix(word, text) {
      assert OccursAt(text, word, 0);
    } else if |text| == 0 {
      assert forall i :: !OccursAt(text, word, i);
    } else {
      var tail := text[1..];
      ContainsIffOccurs(tail, word);
      assert !OccursAt(text, word, 0);
      forall i | 0 < i ensures OccursAt(text, word, i) == OccursAt(tail, word, i - 1) {
        if i + |word| <= |text| {
          assert tail[i - 1..i - 1 + |word|] == text[i..i + |word|];
        }
      }
      if Contains(tail, word) {
        var i :| OccursAt(tail, word, i);
        assert OccursAt(text, word, i + 1);
      }
    }
  }

  /** An occurrence at a known index is a witness for `Contains`. */
  lemma ContainsWitness(text: string, word: string, i: int)
    requires OccursAt(text, word, i)
    ensures Contains(text, word)
  {
    ContainsIffOccurs(text, word);
  }

  /** `text` has no occurrence of the character `c`. */
  predicate Lacks(text: string, c: char)
  {
    forall i :: 0 <= i < |text| ==> text[i] != c
  }

  /** `text` never has `x` immediately followed by `y`. */
  predicate LacksPair(text: string, x: char, y: char)
  {
    forall i :: 0 <= i < |text| - 1 ==> text[i] != x || text[i + 1] != y
  }

  /** A word containing a character that `text` lacks does not occur in `text`. */
  lemma NotContainsByChar(text: string, word: string, k: int)
    requires 0 <= k < |word| && Lacks(text, word[k])
    ensures !Contains(text, word)
  {
    forall i | 0 <= i && i + |word| <= |text| ensures !OccursAt(text, word, i) {
      assert text[i..i + |word|][k] == text[i + k];
    }
    ContainsIffOccurs(text, word);
  }

  /** A word containing two adjacent characters that are never adjacent in `text` does not occur in it. */
  lemma NotContainsByPair(text: string, word: string, k: int)
    requires 0 <= k < |word| - 1 && LacksPair(text, word[k], word[k + 1])
    ensures !Contains(text, word)
  {
    forall i | 0 <= i && i + |word| <= |text| ensures !OccursAt(text, word, i) {
      assert text[i..i + |word|][k] == text[i + k];
      assert text[i..i + |word|][k + 1] == text[i + k + 1];
    }
    ContainsIffOccurs(text, word);
  }

  lemma LacksConcat(a: string, b: string, c: char)
    requires Lacks(a, c) && Lacks(b, c)
    ensures Lacks(a + b, c)
  {
  }

  lemma LacksPairConcat(a: string, b: string, x: char, y: char)
    requires LacksPair(a, x, y) && LacksPair(b, x, y)
    requires |a| == 0 || |b| == 0 || a[|a| - 1] != x || b[0] != y
    ensures LacksPair(a + b, x, y)
  {
    var t := a + b;
    forall i | 0 <= i < |t| - 1 ensures t[i] != x || t[i + 1] != y {
      if i + 1 < |a| {
        assert t[i] == a[i] && t[i + 1] == a[i + 1];
      } else if i + 1 == |a| {
        assert t[i] == a[|a| - 1] && t[i + 1] == b[0];
      } else {
        assert t[i] == b[i - |a|] && t[i + 1] == b[i - |a| + 1];
      }
    }
  }

  /** An occurrence inside either part of a concatenation is an occurrence in the whole. */
  lemma ContainsInConcat(a: string, b: string, word: string)
    requires Contains(a, word) || Contains(b, word)
    ensures Contains(a + b, word)
  {
    ContainsIffOccurs(a, word);
    ContainsIffOccurs(b, word);
    if Contains(a, word) {
      var i :| OccursAt(a, word, i);
      assert (a + b)[i..i + |word|] == a[i..i + |word|];
      ContainsWitness(a + b, word, i);
    } else {
      var i :| OccursAt(b, word, i);
      assert (a + b)[|a| + i..|a| + i + |word|] == b[i..i + |word|];
      ContainsWitness(a + b, word, |a| + i);
    }
  }

  /** Occurrence is transitive: a word inside a part of `text` is inside `text`. */
  lemma ContainsTransitive(text: string, middle: string, word: string)
    requires Contains(text, middle) && Contains(middle, word)
    ensures Contains(text, word)
  {
    ContainsIffOccurs(text, middle);
    ContainsIffOccurs(middle, word);
    var i :| OccursAt(text, middle, i);
    var j :| OccursAt(middle, word, j);
    forall k | 0 <= k < |word| ensures text[i + j + k] == word[k] {
      assert text[i..i + |middle|][j + k] == middle[j + k];
      assert middle[j..j + |word|][k] == word[k];
    }
    assert text[i + j..i + j + |word|] == word;
    ContainsWitness(text, word, i + j);
  }
}
