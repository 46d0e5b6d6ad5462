/** String operations the handlers and the recommender rely on: ASCII case
    folding, prefix and suffix tests, joining with a separator, and splitting on
    a separator (the inverse of joining). */
module Text {

  /** The ASCII part of `str.lower()`: upper-case Latin letters become lower case,
      every other character is unchanged. */
  function LowerChar(c: char): char
  {
    if 'A' <= c <= 'Z' then (c as int + 32) as char else c
  }

  function Lower(s: string): (r: string)
    ensures |r| == |s|
    ensures forall i {:trigger r[i]} :: 0 <= i < |s| ==> r[i] == LowerChar(s[i])
  {
    seq(|s|, i requires 0 <= i < |s| => LowerChar(s[i]))
  }

  /** Folding case keeps '.' and only '.' as '.'. */
  lemma LowerCharDot(c: char)
    ensures LowerChar(c) == '.' <==> c == '.'
  {
  }

  /** Folding case commutes with taking a suffix. */
  lemma LowerSuffix(s: string, i: nat)
    requires i <= |s|
    ensures Lower(s[i..]) == Lower(s)[i..]
  {
  }

  predicate StartsWith(s: string, prefix: string)
  {
    |prefix| <= |s| && s[..|prefix|] == prefix
  }

  predicate EndsWith(s: string, suffix: string)
  {
    |suffix| <= |s| && s[|s| - |suffix|..] == suffix
  }

  /** `sep.join(words)`: the words in order with one separator between neighbours. */
  function Join(words: seq<string>, sep: string): string
  {
    if |words| == 0 then ""
    else if |words| == 1 then words[0]
    else words[0] + sep + Join(words[1..], sep)
  }

  /** `s.split(c)` for a one-character separator: the maximal runs between
      separators, empty runs included, so there is always at least one piece. */
  function Split(s: string, c: char): (pieces: seq<string>)
    ensures |pieces| >= 1
    ensures forall k :: 0 <= k < |pieces| ==> c !in pieces[k]
  {
    if s == [] then [""]
    else
      var rest := Split(s[1..], c);
      if s[0] == c then [""] + rest
      else [[s[0]] + rest[0]] + rest[1..]
  }

  /** A word without the separator splits into itself, and a word followed by
      the separator and a tail splits into that word and the pieces of the tail. */
  lemma {:induction false} SplitWord(w: string, c: char, tail: string)
    requires c !in w
    ensures Split(w, c) == [w]
    ensures Split(w + [c] + tail, c) == [w] + Split(tail, c)
  {
    if w == [] {
      assert w + [c] + tail == [c] + tail;
      assert ([c] + tail)[1..] == tail;
    } else {
      SplitWord(w[1..], c, tail);
      assert (w + [c] + tail)[1..] == w[1..] + [c] + tail;
      assert [w[0]] + w[1..] == w;
    }
  }

  /** Splitting undoes joining whenever no word contains the separator. */
  lemma {:induction false} SplitJoin(words: seq<string>, c: char)
    requires |words| > 0
    requires forall k :: 0 <= k < |words| ==> c !in words[k]
    ensures Split(Join(words, [c]), c) == words
  {
    if |words| == 1 {
      SplitWord(words[0], c, "");
    } else {
      SplitJoin(words[1..], c);
      SplitWord(words[0], c, Join(words[1..], [c]));
      assert [words[0]] + words[1..] == words;
    }
  }
}
