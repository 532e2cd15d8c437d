/** Lab7/lab7-q5.py: `dash_separator` writes the letters of a word with a dash between each
    two. It builds the word with a dash after every letter and prints that text without its
    last character. The printed text is the result here. */
module Dashes {

  /** The text the loop builds: every letter followed by a dash. */
  function Dashed(w: string): (r: string)
    ensures |r| == 2 * |w|
    ensures forall i :: 0 <= i < |w| ==> r[2 * i] == w[i] && r[2 * i + 1] == '-'
  {
    if |w| == 0 then [] else Dashed(w[..|w| - 1]) + [w[|w| - 1], '-']
  }

  /** Python's `s[:-1]`: everything but the last character, and "" for "". */
  function DropLast(s: string): (r: string)
    ensures |s| == 0 ==> r == []
    ensures |s| > 0 ==> |r| == |s| - 1 && r + [s[|s| - 1]] == s
  {
    if |s| == 0 then [] else s[..|s| - 1]
  }

  /** dash_separator: the letters in order, a dash between two letters and none at either end
      when the word's own last letter is no dash. */
  function DashSeparator(word: string): (out: string)
    ensures |word| == 0 ==> out == []
    ensures |word| > 0 ==> |out| == 2 * |word| - 1 && out[|out| - 1] == word[|word| - 1]
    ensures forall i :: 0 <= i < |word| ==> 2 * i < |out| && out[2 * i] == word[i]
    ensures forall i :: 0 <= i < |word| - 1 ==> out[2 * i + 1] == '-'
  {
    DropLast(Dashed(word))
  }

  /** The letters at the even positions of a text. */
  function EvenPositions(s: string): (r: string)
    ensures |r| == (|s| + 1) / 2
    ensures forall i :: 0 <= i < |r| ==> r[i] == s[2 * i]
    decreases |s|
  {
    if |s| == 0 then []
    else if |s| == 1 then [s[0]]
    else [s[0]] + EvenPositions(s[2..])
  }

  /** The word can be read back from the printed text. */
  lemma DashSeparatorRoundTrip(word: string)
    ensures EvenPositions(DashSeparator(word)) == word
  {
    var e := EvenPositions(DashSeparator(word));
    assert |e| == |word|;
    assert forall i :: 0 <= i < |word| ==> e[i] == word[i];
  }

  /** The built text of a word starts with its first letter and a dash. */
  lemma {:induction false} DashedCons(c: char, rest: string)
    ensures Dashed([c] + rest) == [c, '-'] + Dashed(rest)
    decreases |rest|
  {
    if |rest| > 0 {
      var w := [c] + rest;
      assert w[..|w| - 1] == [c] + rest[..|rest| - 1];
      DashedCons(c, rest[..|rest| - 1]);
    }
  }

  /** The printed text is the letters joined with dashes: a one-letter word prints as itself,
      and a longer one prints its first letter, a dash and the rest. */
  lemma DashSeparatorCons(c: char, rest: string)
    ensures |rest| == 0 ==> DashSeparator([c] + rest) == [c]
    ensures |rest| > 0 ==> DashSeparator([c] + rest) == [c, '-'] + DashSeparator(rest)
  {
    DashedCons(c, rest);
    var d := Dashed(rest);
    if |rest| > 0 {
      assert ([c, '-'] + d)[..|d| + 1] == [c, '-'] + d[..|d| - 1];
    } else {
      assert rest == [];
    }
  }

  /** The for loop of dash_separator, with the text it builds and the text it prints. */
  method DashSeparatorFor(word: string) returns (result: string, printed: string)
    ensures result == Dashed(word)
    ensures printed == DashSeparator(word)
  {
    result := "";
    for i := 0 to |word|
      invariant result == Dashed(word[..i])
    {
      assert word[..i + 1][..i] == word[..i];
      result := result + [word[i]] + "-";
    }
    assert word[..|word|] == word;
    printed := if |result| == 0 then result else result[..|result| - 1];
  }

  /** The while loop the source offers as an alternative; it builds the same text. */
  method DashSeparatorWhile(word: string) returns (result: string, printed: string)
    ensures result == Dashed(word)
    ensures printed == DashSeparator(word)
  {
    result := "";
    var index := 0;
    while index < |word|
      invariant 0 <= index <= |word|
      invariant result == Dashed(word[..index])
    {
      assert word[..index + 1][..index] == word[..index];
      result := result + [word[index]] + "-";
      index := index + 1;
    }
    assert word[..index] == word;
    printed := DropLast(result);
  }
}
