/** Lab7/lab7-q3.py: the number of vowels in a word, letters compared in lower case. Two
    versions of the test exist: a substring test against "aeiou" and a membership test in
    the list ["a", "e", "i", "o", "u"]. */
module Vowels {

  /** str.lower on one letter, for the ASCII letters. */
  function Lower(c: char): (r: char)
    ensures 'A' <= c <= 'Z' ==> r as int == c as int + 32
    ensures !('A' <= c <= 'Z') ==> r == c
  {
    if 'A' <= c <= 'Z' then (c as int + 32) as char else c
  }

  /** str.upper on one letter, for the ASCII letters. */
  function Upper(c: char): (r: char)
    ensures 'a' <= c <= 'z' ==> r as int == c as int - 32
    ensures !('a' <= c <= 'z') ==> r == c
  {
    if 'a' <= c <= 'z' then (c as int - 32) as char else c
  }

  /** The upper-cased word, letter by letter. */
  function UpperWord(w: string): (r: string)
    ensures |r| == |w| && forall i :: 0 <= i < |w| ==> r[i] == Upper(w[i])
  {
    if |w| == 0 then [] else UpperWord(w[..|w| - 1]) + [Upper(w[|w| - 1])]
  }

  const VowelLetters: string := "aeiou"
  const VowelList: seq<string> := ["a", "e", "i", "o", "u"]

  /** A letter counts when its lower case is one of a, e, i, o, u. */
  predicate IsVowel(c: char)
  {
    Lower(c) == 'a' || Lower(c) == 'e' || Lower(c) == 'i' || Lower(c) == 'o' || Lower(c) == 'u'
  }

  /** Python's `t in s` on strings: t occurs as a contiguous piece of s. */
  function Occurs(t: string, s: string): (r: bool)
    ensures r ==> |t| <= |s|
    ensures |t| == 0 ==> r
    decreases |s|
  {
    t <= s || (|s| > 0 && Occurs(t, s[1..]))
  }

  /** t is a prefix of the suffix of s that starts at position k. */
  ghost predicate StartsAt(t: string, s: string, k: int)
  {
    0 <= k <= |s| && t <= s[k..]
  }

  /** The recursive test finds t exactly when t starts at some position of s. */
  lemma {:induction false} OccursIffStartsAt(t: string, s: string)
    ensures Occurs(t, s) <==> exists k :: StartsAt(t, s, k)
    decreases |s|
  {
    if t <= s {
      assert StartsAt(t, s, 0);
    } else if |s| > 0 {
      OccursIffStartsAt(t, s[1..]);
      if Occurs(t, s[1..]) {
        var k :| StartsAt(t, s[1..], k);
        assert s[1..][k..] == s[k + 1..];
        assert StartsAt(t, s, k + 1);
      }
      if exists k :: StartsAt(t, s, k) {
        var k :| StartsAt(t, s, k);
        assert k != 0;
        assert s[1..][k - 1..] == s[k..];
        assert StartsAt(t, s[1..], k - 1);
      }
    }
  }

  /** A one-letter piece occurs exactly when the letter does. */
  lemma {:induction false} OccursLetter(c: char, s: string)
    ensures Occurs([c], s) <==> c in s
    decreases |s|
  {
    if |s| > 0 {
      OccursLetter(c, s[1..]);
      assert s == [s[0]] + s[1..];
    }
  }

  /** The number of vowels in the word, defined letter by letter from the back. */
  function VowelCount(w: string): (n: nat)
    ensures n <= |w|
  {
    if |w| == 0 then 0 else VowelCount(w[..|w| - 1]) + (if IsVowel(w[|w| - 1]) then 1 else 0)
  }

  /** The first version: `letter.lower() in "aeiou"`, a substring test. */
  method CountVowels(word: string) returns (result: nat)
    ensures result == VowelCount(word)
  {
    result := 0;
    var i := 0;
    while i < |word|
      invariant 0 <= i <= |word|
      invariant result == VowelCount(word[..i])
    {
      var letter := word[i];
      SubstringTest(letter);
      if Occurs([Lower(letter)], VowelLetters) {
        result := result + 1;
      }
      assert word[..i + 1][..i] == word[..i];
      i := i + 1;
    }
    assert word[..i] == word;
  }

  /** The second version: `letter.lower() in vowels`, a list membership test. */
  method CountVowelsInList(word: string) returns (result: nat)
    ensures result == VowelCount(word)
  {
    result := 0;
    var i := 0;
    while i < |word|
      invariant 0 <= i <= |word|
      invariant result == VowelCount(word[..i])
    {
      var letter := word[i];
      ListTest(letter);
      if [Lower(letter)] in VowelList {
        result := result + 1;
      }
      assert word[..i + 1][..i] == word[..i];
      i := i + 1;
    }
    assert word[..i] == word;
  }

  /** The substring test accepts exactly the vowels. */
  lemma SubstringTest(c: char)
    ensures Occurs([Lower(c)], VowelLetters) <==> IsVowel(c)
  {
    OccursLetter(Lower(c), VowelLetters);
  }

  /** The list test accepts exactly the vowels. */
  lemma ListTest(c: char)
    ensures [Lower(c)] in VowelList <==> IsVowel(c)
  {
    if [Lower(c)] in VowelList {
      var k :| 0 <= k < |VowelList| && VowelList[k] == [Lower(c)];
      assert VowelList[k][0] == Lower(c);
    }
  }

  /** The two versions count the same. */
  lemma {:induction false} VersionsAgree(c: char)
    ensures Occurs([Lower(c)], VowelLetters) <==> [Lower(c)] in VowelList
  {
    SubstringTest(c);
    ListTest(c);
  }

  /** Counting a word made of two pieces counts each piece. */
  lemma {:induction false} VowelCountAppend(a: string, b: string)
    ensures VowelCount(a + b) == VowelCount(a) + VowelCount(b)
    decreases |b|
  {
    if |b| == 0 {
      assert a + b == a;
    } else {
      assert (a + b)[..|a + b| - 1] == a + b[..|b| - 1];
      VowelCountAppend(a, b[..|b| - 1]);
    }
  }

  /** Case does not matter: the upper-cased word has as many vowels. */
  lemma {:induction false} VowelCountUpper(w: string)
    ensures VowelCount(UpperWord(w)) == VowelCount(w)
    decreases |w|
  {
    if |w| > 0 {
      var u := UpperWord(w);
      assert u[..|u| - 1] == UpperWord(w[..|w| - 1]);
      VowelCountUpper(w[..|w| - 1]);
      assert IsVowel(Upper(w[|w| - 1])) <==> IsVowel(w[|w| - 1]);
    }
  }

  /** The positions of a word that hold a vowel. */
  function VowelPositions(w: string): set<nat>
  {
    set i: nat | i < |w| && IsVowel(w[i])
  }

  /** The count is the number of positions that hold a vowel. */
  lemma {:induction false} VowelCountPositions(w: string)
    ensures VowelCount(w) == |VowelPositions(w)|
    decreases |w|
  {
    if |w| > 0 {
      var p := w[..|w| - 1];
      VowelCountPositions(p);
      PositionsOfLonger(w);
    }
  }

  /** One more letter adds its position when it is a vowel. */
  lemma PositionsOfLonger(w: string)
    requires |w| > 0
    ensures IsVowel(w[|w| - 1]) ==>
              VowelPositions(w) == VowelPositions(w[..|w| - 1]) + {|w| - 1}
              && |VowelPositions(w)| == |VowelPositions(w[..|w| - 1])| + 1
    ensures !IsVowel(w[|w| - 1]) ==> VowelPositions(w) == VowelPositions(w[..|w| - 1])
  {
    var p := w[..|w| - 1];
    var last: nat := |w| - 1;
    forall i: nat | i < |p|
      ensures i in VowelPositions(w) <==> i in VowelPositions(p)
    {
      assert p[i] == w[i];
    }
    assert last !in VowelPositions(p);
    if IsVowel(w[last]) {
      assert VowelPositions(w) == VowelPositions(p) + {last};
    } else {
      assert VowelPositions(w) == VowelPositions(p);
    }
  }
}
