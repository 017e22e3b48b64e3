/** The prefixes of a word that seed the search (`create_word_beginnings`). */
module WordBeginnings {

  /**
   * How many beginnings a word has. The loop stops when its index reaches
   * `len(word) - 2`, so a word of length n >= 3 has n - 2 of them, a word of
   * length 0 or 2 has none, and a one-letter word (where `len - 2` is -1 and
   * the stop is never reached) has one: the word itself.
   */
  function BeginningCount(word: string): (k: nat)
    ensures k <= |word|
  {
    if |word| == 1 then 1 else if |word| <= 2 then 0 else |word| - 2
  }

  /** The beginnings as a value, for the specifications of the search. */
  ghost function Beginnings(word: string): seq<string> {
    seq(BeginningCount(word), k requires 0 <= k < BeginningCount(word) => word[..k + 1])
  }

  /** Prefixes of increasing length, so no beginning occurs twice. */
  lemma BeginningsArePrefixes(word: string, b: string)
    ensures b in Beginnings(word) <==> 1 <= |b| <= BeginningCount(word) && b == word[..|b|]
  {
    if 1 <= |b| <= BeginningCount(word) && b == word[..|b|] {
      assert Beginnings(word)[|b| - 1] == b;
    }
  }

  /**
   * Builds `word[:1], word[:2], ...` and stops at index `len(word) - 2`:
   * the prefixes of lengths 1 to len - 2 for a word of three or more letters,
   * none for a word of length 0 or 2, and the word itself for a one-letter word.
   */
  method CreateWordBeginnings(word: string) returns (beginnings: seq<string>)
    ensures |beginnings| == BeginningCount(word)
    ensures forall k :: 0 <= k < |beginnings| ==> beginnings[k] == word[..k + 1]
    ensures |word| >= 3 ==> |beginnings| == |word| - 2
    ensures |word| == 0 || |word| == 2 ==> beginnings == []
    ensures |word| == 1 ==> beginnings == [word]
    ensures beginnings == Beginnings(word)
  {
    beginnings := [];
    var j := 0;
    while j < |word|
      invariant 0 <= j <= |word|
      invariant |word| >= 2 ==> j <= |word| - 2
      invariant |beginnings| == j
      invariant forall k :: 0 <= k < j ==> beginnings[k] == word[..k + 1]
    {
      if j == |word| - 2 {
        break;
      }
      beginnings := beginnings + [word[..j + 1]];
      j := j + 1;
    }
    assert |word| == 1 ==> word[..1] == word;
    assert forall k :: 0 <= k < |beginnings| ==> beginnings[k] == Beginnings(word)[k];
  }
}
