/** Splitting a synonym into its words (src/netspeak/QueryNormalizer.cpp). */
module SplitWordsLaws {
  import opened Queries
  import opened Sequences

  /** The words with one space between each two of them. */
  function JoinWords(words: seq<string>): string
    requires words != []
  {
    if |words| == 1 then words[0] else JoinWords(words[..|words| - 1]) + " " + words[|words| - 1]
  }

  predicate NoSpaces(words: seq<string>)
  {
    forall i :: 0 <= i < |words| ==> ' ' !in words[i]
  }

  lemma JoinSnoc(words: seq<string>, w: string)
    requires words != []
    ensures JoinWords(words + [w]) == JoinWords(words) + " " + w
  {
    assert (words + [w])[..|words|] == words;
  }

  lemma LongerLast(before: string, w: string, ch: char)
    ensures before + (w + [ch]) == before + w + [ch]
  {
  }

  /** A longer last word. */
  lemma JoinLonger(words: seq<string>, ch: char)
    requires words != []
    ensures var last := |words| - 1; JoinWords(words[..last] + [words[last] + [ch]]) == JoinWords(words) + [ch]
  {
    var last := |words| - 1;
    var front, w := words[..last], words[last];
    if last > 0 {
      JoinSnoc(front, w + [ch]);
      LongerLast(JoinWords(front) + " ", w, ch);
    } else {
      assert front + [w + [ch]] == [w + [ch]];
    }
  }

  /** The words have no spaces, and joined again they are the text. */
  lemma {:induction false} SplitIsJoined(s: string)
    ensures NoSpaces(SplitWords(s)) && JoinWords(SplitWords(s)) == s
  {
    if s != [] {
      var front, ch := s[..|s| - 1], s[|s| - 1];
      var words := SplitWords(front);
      SplitIsJoined(front);
      assert s == front + [ch];
      if ch == ' ' {
        JoinSnoc(words, "");
        assert JoinWords(words) + " " + "" == front + [ch];
      } else {
        JoinLonger(words, ch);
      }
    }
  }

  lemma SplitSnoc(s: string, ch: char)
    ensures var words := SplitWords(s);
            SplitWords(s + [ch]) == if ch == ' ' then words + [""] else words[..|words| - 1] + [words[|words| - 1] + [ch]]
  {
    assert (s + [ch])[..|s|] == s;
  }

  lemma LastReplaced(front: seq<string>, w: string)
    ensures (front + [w])[..|front + [w]| - 1] == front && (front + [w])[|front + [w]| - 1] == w
  {
  }

  lemma {:induction false} SplitMoreOfWord(s: string, w: string)
    requires ' ' !in w
    ensures var words := SplitWords(s); SplitWords(s + w) == words[..|words| - 1] + [words[|words| - 1] + w]
  {
    var words := SplitWords(s);
    if w == [] {
      assert s + w == s && words[|words| - 1] + w == words[|words| - 1];
    } else {
      var front, ch := w[..|w| - 1], w[|w| - 1];
      assert w == front + [ch] && ch in w;
      SplitMoreOfWord(s, front);
      SplitSnoc(s + front, ch);
      LongerLast(s, front, ch);
      LongerLast(words[|words| - 1], front, ch);
      LastReplaced(words[..|words| - 1], words[|words| - 1] + front);
    }
  }

  /** Words without spaces that are joined are split into the same words. */
  lemma {:induction false} JoinedIsSplit(words: seq<string>)
    requires words != [] && NoSpaces(words)
    ensures SplitWords(JoinWords(words)) == words
  {
    var front, w := words[..|words| - 1], words[|words| - 1];
    assert words == front + [w];
    if front == [] {
      SplitMoreOfWord("", w);
      assert "" + w == w;
    } else {
      JoinedIsSplit(front);
      SplitSnoc(JoinWords(front), ' ');
      SplitMoreOfWord(JoinWords(front) + " ", w);
      assert "" + w == w;
    }
  }
}
