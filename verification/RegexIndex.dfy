/**
 * The vocabulary index: its word list, its character set and the four ways in which it answers a query.
 * A word is kept as text; the program keeps the offset and the length of its bytes.
 */
module RegexIndexes {
  import opened Languages
  import opened MachineInts
  import opened Options
  import opened RegexBounds
  import opened RegexSyntax
  import opened RegexQueries
  import opened Sequences
  import opened Utf8
  import opened WordTables

  // ------------------------------------------------------------------ the word list

  /** The non-empty lines of a text. */
  function Lines(text: string): seq<string>
    decreases |text|
  {
    var k := IndexOf(text, '\n');
    var line := if k > 0 then [text[..k]] else [];
    if k < |text| then line + Lines(text[k + 1..]) else line
  }

  lemma {:induction false} LineCount(text: string)
    ensures 2 * |Lines(text)| <= |text| + 1
    decreases |text|
  {
    var k := IndexOf(text, '\n');
    if k < |text| { LineCount(text[k + 1..]); }
  }

  lemma {:induction false} IndexOfIsFirst(s: string, c: char)
    ensures c !in s[..IndexOf(s, c)]
    ensures IndexOf(s, c) < |s| ==> s[IndexOf(s, c)] == c
  {
    if s != "" && s[0] != c {
      IndexOfIsFirst(s[1..], c);
      assert s[..IndexOf(s, c)] == [s[0]] + s[1..][..IndexOf(s[1..], c)];
    }
  }

  predicate PlainWord(w: string)
  {
    w != "" && '\n' !in w
  }

  lemma {:induction false} LinesArePlain(text: string)
    ensures forall i :: 0 <= i < |Lines(text)| ==> PlainWord(Lines(text)[i])
    decreases |text|
  {
    var k := IndexOf(text, '\n');
    IndexOfIsFirst(text, '\n');
    if k < |text| { LinesArePlain(text[k + 1..]); }
  }

  ghost predicate InSome(words: seq<string>, c: char)
  {
    exists i :: 0 <= i < |words| && c in words[i]
  }

  lemma InSomeAppend(a: seq<string>, b: seq<string>, c: char)
    ensures InSome(a + b, c) <==> InSome(a, c) || InSome(b, c)
  {
    if i :| 0 <= i < |a| && c in a[i] { assert c in (a + b)[i]; }
    if i :| 0 <= i < |b| && c in b[i] { assert c in (a + b)[|a| + i]; }
  }

  /** Every character of the text but the line breaks is a character of some word. */
  lemma {:induction false} LinesKeepCharacters(text: string, c: char)
    requires c != '\n'
    ensures c in text <==> InSome(Lines(text), c)
    decreases |text|
  {
    var k := IndexOf(text, '\n');
    IndexOfIsFirst(text, '\n');
    var line := if k > 0 then [text[..k]] else [];
    assert InSome(line, c) <==> c in text[..k] by {
      if k > 0 { assert line[0] == text[..k]; }
    }
    if k < |text| {
      var rest := text[k + 1..];
      LinesKeepCharacters(rest, c);
      assert text == text[..k] + ['\n'] + rest;
      InSomeAppend(line, Lines(rest), c);
    } else {
      assert text[..k] == text;
    }
  }

  function Joined(words: seq<string>): string
  {
    if words == [] then "" else words[0] + "\n" + Joined(words[1..])
  }

  /** Writing words line by line and indexing the text gives the same words back. */
  lemma {:induction false} LinesOfJoined(words: seq<string>)
    requires forall i :: 0 <= i < |words| ==> PlainWord(words[i])
    ensures Lines(Joined(words)) == words
  {
    if words != [] {
      var w, text := words[0], Joined(words);
      LinesOfJoined(words[1..]);
      assert text[..|w|] == w && text[|w|] == '\n' && text[|w| + 1..] == Joined(words[1..]);
      assert PlainWord(w);
      FirstIndexIsUnique(text, '\n', |w|);
      assert Lines(text) == [w] + Lines(Joined(words[1..]));
    }
  }

  method Find(s: string, c: char, from: nat) returns (pos: nat)
    requires from <= |s|
    ensures pos == from + IndexOf(s[from..], c)
  {
    pos := from;
    while pos < |s| && s[pos] != c
      invariant from <= pos <= |s|
      invariant c !in s[from..pos]
    {
      pos := pos + 1;
    }
    if pos < |s| {
      assert s[from..][..pos - from] == s[from..pos];
      FirstIndexIsUnique(s[from..], c, pos - from);
    } else {
      assert s[from..pos] == s[from..];
      IndexOfIsFirst(s[from..], c);
    }
  }

  lemma LinesFrom(text: string, prev: nat, pos: nat)
    requires prev <= |text| && pos == prev + IndexOf(text[prev..], '\n')
    ensures pos < |text|
      ==> Lines(text[prev..]) == (if pos > prev then [text[prev..pos]] else []) + Lines(text[pos + 1..])
    ensures pos >= |text| ==> Lines(text[prev..]) == if |text| > prev then [text[prev..]] else []
  {
    var rest := text[prev..];
    assert rest[..pos - prev] == text[prev..pos];
    if pos < |text| {
      assert rest[pos - prev + 1..] == text[pos + 1..];
    } else {
      assert rest[..pos - prev] == rest;
    }
  }

  lemma LinesNext(words: seq<string>, text: string, prev: nat, pos: nat)
    requires prev <= |text| && pos == prev + IndexOf(text[prev..], '\n') && pos < |text|
    ensures words + Lines(text[prev..])
         == (if pos > prev then words + [text[prev..pos]] else words) + Lines(text[pos + 1..])
  {
    LinesFrom(text, prev, pos);
    var rest := Lines(text[pos + 1..]);
    EmptyLeft(rest);
    if pos > prev { AppendAssoc(words, [text[prev..pos]], rest); }
  }

  method InitializeWords(vocabulary: string) returns (words: seq<string>)
    ensures words == Lines(vocabulary)
  {
    words := [];
    var prev := 0;
    var pos := Find(vocabulary, '\n', prev);
    ghost var goal := Lines(vocabulary);
    assert vocabulary[0..] == vocabulary && words + goal == goal;
    while pos < |vocabulary|
      invariant prev <= |vocabulary| && pos == prev + IndexOf(vocabulary[prev..], '\n')
      invariant words + Lines(vocabulary[prev..]) == goal
      decreases |vocabulary| - prev
    {
      LinesNext(words, vocabulary, prev, pos);
      if pos - prev > 0 {
        words := words + [vocabulary[prev..pos]];
      }
      prev := pos + 1;
      pos := Find(vocabulary, '\n', prev);
    }
    LinesFrom(vocabulary, prev, pos);
    if |vocabulary| > prev {
      words := words + [vocabulary[prev..]];
    }
  }

  /** All characters of the vocabulary but line breaks and carriage returns. */
  function AllChars(vocabulary: string): set<char>
  {
    (set c | c in vocabulary) - {'\n', '\r'}
  }

  ghost predicate Over(w: string, chars: set<char>)
  {
    forall i :: 0 <= i < |w| ==> w[i] in chars
  }

  lemma WordsAreOverAllChars(vocabulary: string, i: nat)
    requires i < |Lines(vocabulary)| && '\r' !in Lines(vocabulary)[i]
    ensures Over(Lines(vocabulary)[i], AllChars(vocabulary))
  {
    var w := Lines(vocabulary)[i];
    LinesArePlain(vocabulary);
    forall j | 0 <= j < |w|
      ensures w[j] in AllChars(vocabulary)
    {
      assert PlainWord(w) && w[j] in w;
      LinesKeepCharacters(vocabulary, w[j]);
    }
  }

  // ------------------------------------------------------------------ optimising a query

  method ContainsUnknownCharacters(s: string, known: set<char>) returns (r: bool)
    ensures r <==> !Over(s, known)
  {
    for i := 0 to |s|
      invariant forall j :: 0 <= j < i ==> s[j] in known
    {
      if s[i] !in known {
        return true;
      }
    }
    return false;
  }

  /** A and B have the same members among the strings over the given characters. */
  ghost predicate Agree(A: Language<char>, B: Language<char>, chars: set<char>)
  {
    forall w :: Over(w, chars) ==> (Has(A, w) <==> Has(B, w))
  }

  lemma AgreeCat(A: Language<char>, B: Language<char>, C: Language<char>, D: Language<char>, chars: set<char>)
    requires Agree(A, C, chars) && Agree(B, D, chars)
    ensures Agree(Cat(A, B), Cat(C, D), chars)
  {
    forall w | Over(w, chars)
      ensures Has(Cat(A, B), w) <==> Has(Cat(C, D), w)
    {
      if Has(Cat(A, B), w) { AgreeSplit(w, A, B, C, D, chars); }
      if Has(Cat(C, D), w) { AgreeSplit(w, C, D, A, B, chars); }
    }
  }

  lemma AgreeSplit(w: string, A: Language<char>, B: Language<char>, C: Language<char>, D: Language<char>,
                   chars: set<char>)
    requires Agree(A, C, chars) && Agree(B, D, chars) && Over(w, chars) && Has(Cat(A, B), w)
    ensures Has(Cat(C, D), w)
  {
    var k :| Splits(w, k, A, B);
    assert Over(w[..k], chars) && Over(w[k..], chars);
    assert Splits(w, k, C, D);
  }

  /** All members are over the given characters. */
  ghost predicate AllOver(A: Language<char>, chars: set<char>)
  {
    forall w :: Has(A, w) ==> Over(w, chars)
  }

  lemma AllOverCat(A: Language<char>, B: Language<char>, chars: set<char>)
    requires AllOver(A, chars) && AllOver(B, chars)
    ensures AllOver(Cat(A, B), chars)
  {
    forall w | Has(Cat(A, B), w)
      ensures Over(w, chars)
    {
      var k :| Splits(w, k, A, B);
      assert w == w[..k] + w[k..];
    }
  }

  lemma KnownUnit(unit: RegexUnit, chars: set<char>)
    requires !unit.Wildcard() && Over(unit.value, chars)
    ensures AllOver(UnitLang(unit), chars)
  {
  }

  /** The unit that replaces a given one, or nothing. */
  method OptimizeForVocabulary(unit: RegexUnit, allChars: set<char>) returns (r: Option<RegexUnit>)
    ensures Agree(if r.Some? then UnitLang(r.value) else Epsilon(), UnitLang(unit), allChars)
    ensures r.Some? ==> (r.value.Wildcard() <==> unit.Wildcard())
    ensures r.None? ==> !unit.Wildcard()
    ensures r.Some? && !unit.Wildcard() ==> AllOver(UnitLang(r.value), allChars)
  {
    if unit.Wildcard() {
      return Some(unit);
    }
    var unknown := ContainsUnknownCharacters(unit.value, allChars);
    if !unknown {
      KnownUnit(unit, allChars);
      return Some(unit);
    }
    if unit.Word? {
      KnownUnit(CharSet(""), allChars);
      return Some(CharSet(""));
    }
    if unit.OptionalWord? {
      return None;
    }
    var newValue := "";
    for i := 0 to |unit.value|
      invariant forall c :: c in newValue <==> c in unit.value[..i] && c in allChars
    {
      TakeNext(unit.value, i);
      if unit.value[i] in allChars {
        newValue := newValue + [unit.value[i]];
      }
    }
    assert unit.value[..|unit.value|] == unit.value;
    assert forall j :: 0 <= j < |newValue| ==> newValue[j] in newValue;
    KnownUnit(CharSet(newValue), allChars);
    return Some(CharSet(newValue));
  }

  method OptimizeQuery(query: seq<RegexUnit>, allChars: set<char>) returns (q: seq<RegexUnit>)
    ensures Agree(Lang(q), Lang(query), allChars)
    ensures BuiltQuery(q)
    ensures HasWildcard(query) ==> q == REJECT_ALL || HasWildcard(q)
    ensures !HasWildcard(query) ==> AllOver(Lang(q), allChars)
  {
    var builder := new RegexQueryBuilder();
    for i := 0 to |query|
      invariant fresh(builder) && builder.Valid()
      invariant Agree(builder.Denotes(), Lang(query[..i]), allChars)
      invariant !builder.rejectAll ==> (HasWildcard(builder.units) <==> HasWildcard(query[..i]))
      invariant !HasWildcard(query[..i]) ==> AllOver(builder.Denotes(), allChars)
    {
      ghost var before := builder.Denotes();
      TakeNext(query, i);
      WildcardSnoc(query[..i], query[i]);
      LangSnoc(query[..i], query[i]);
      var unit := OptimizeForVocabulary(query[i], allChars);
      if unit.Some? {
        builder.Add(unit.value);
        if !HasWildcard(query[..i + 1]) { AllOverCat(before, UnitLang(unit.value), allChars); }
        AgreeCat(before, UnitLang(unit.value), Lang(query[..i]), UnitLang(query[i]), allChars);
      } else {
        AgreeCat(before, Epsilon(), Lang(query[..i]), UnitLang(query[i]), allChars);
        CatEpsilon(before);
      }
    }
    assert query[..|query|] == query;
    q := builder.ToQuery();
  }

  lemma WildcardSnoc(units: seq<RegexUnit>, u: RegexUnit)
    ensures HasWildcard(units + [u]) <==> HasWildcard(units) || u.Wildcard()
  {
    if u.Wildcard() { assert u in units + [u]; }
    if HasWildcard(units) {
      var v :| v in units && v.Wildcard();
      assert v in units + [u];
    }
  }

  // ------------------------------------------------------------------ the words that a query selects

  predicate FirstOccurrence(words: seq<string>, i: nat)
    requires i < |words|
  {
    words[i] !in words[..i]
  }

  ghost predicate Selected(words: seq<string>, L: Language<char>, once: bool, i: nat)
  {
    i < |words| && Has(L, words[i]) && (once ==> FirstOccurrence(words, i))
  }

  /**
   * The indexes below n of the words in L, ascending. A scan meets every occurrence of a word,
   * a look-up (once) only the first.
   */
  ghost function Indexes(words: seq<string>, L: Language<char>, once: bool, n: nat): seq<nat>
  {
    if n == 0 then []
    else Indexes(words, L, once, n - 1) + if Selected(words, L, once, n - 1) then [n - 1] else []
  }

  ghost predicate Ascending(s: seq<nat>)
  {
    forall i, j :: 0 <= i < j < |s| ==> s[i] < s[j]
  }

  lemma Member<T>(s: seq<T>, i: nat)
    requires i < |s|
    ensures s[i] in s
  {
  }

  lemma {:induction false} AscendingUnique(words: seq<string>, L: Language<char>, once: bool, n: nat, s: seq<nat>)
    requires Ascending(s) && forall i: nat :: i in s <==> i < n && Selected(words, L, once, i)
    ensures s == Indexes(words, L, once, n)
  {
    if n == 0 {
      if s != [] { Member(s, 0); }
    } else if Selected(words, L, once, n - 1) {
      var front := DropLast(s, n);
      AscendingUnique(words, L, once, n - 1, front);
    } else {
      AscendingUnique(words, L, once, n - 1, s);
    }
  }

  lemma DropLast(s: seq<nat>, n: nat) returns (front: seq<nat>)
    requires Ascending(s) && n > 0 && n - 1 in s && forall i: nat :: i in s ==> i < n
    ensures s == front + [n - 1] && Ascending(front)
    ensures forall i: nat :: i in front <==> i in s && i < n - 1
  {
    var k :| 0 <= k < |s| && s[k] == n - 1;
    assert forall j :: 0 <= j < |s| ==> s[j] in s;
    assert k == |s| - 1;
    front := s[..k];
  }

  lemma {:induction false} IndexesFacts(words: seq<string>, L: Language<char>, once: bool, n: nat)
    ensures Ascending(Indexes(words, L, once, n))
    ensures forall i: nat :: i in Indexes(words, L, once, n) <==> i < n && Selected(words, L, once, i)
  {
    if n > 0 {
      var front := Indexes(words, L, once, n - 1);
      IndexesFacts(words, L, once, n - 1);
      assert forall i :: 0 <= i < |front| ==> front[i] in front;
      forall i: nat
        ensures i in Indexes(words, L, once, n) <==> i < n && Selected(words, L, once, i)
      {
        assert i in front <==> i < n - 1 && Selected(words, L, once, i);
      }
    }
  }

  lemma {:induction false} IndexesGrow(words: seq<string>, L: Language<char>, once: bool, m: nat, n: nat)
    requires m <= n
    ensures Indexes(words, L, once, m) <= Indexes(words, L, once, n)
  {
    if m < n { IndexesGrow(words, L, once, m, n - 1); }
  }

  /** Languages with the same members among the words select the same indexes. */
  lemma {:induction false} SameSelection(words: seq<string>, A: Language<char>, B: Language<char>, a: bool, b: bool, n: nat)
    requires forall i :: 0 <= i < |words| ==> (Has(A, words[i]) <==> Has(B, words[i]))
    requires a == b || Distinct(words)
    ensures Indexes(words, A, a, n) == Indexes(words, B, b, n)
  {
    if n > 0 { SameSelection(words, A, B, a, b, n - 1); }
  }

  function Prefix<T>(s: seq<T>, n: nat): seq<T>
  {
    if |s| <= n then s else s[..n]
  }

  function WordsAt(words: seq<string>, indexes: seq<nat>): seq<string>
    requires forall i :: 0 <= i < |indexes| ==> indexes[i] < |words|
  {
    seq(|indexes|, i requires 0 <= i < |indexes| => words[indexes[i]])
  }

  /** The first max words of the vocabulary that are in L, in the order of the vocabulary. */
  ghost function FirstWords(words: seq<string>, L: Language<char>, once: bool, max: nat): seq<string>
  {
    IndexesFacts(words, L, once, |words|);
    var indexes := Indexes(words, L, once, |words|);
    assert forall i :: 0 <= i < |indexes| ==> indexes[i] in indexes;
    WordsAt(words, Prefix(indexes, max))
  }

  // ------------------------------------------------------------------ sorting and removing duplicates

  ghost predicate NonDescending(s: seq<nat>)
  {
    forall i, j :: 0 <= i < j < |s| ==> s[i] <= s[j]
  }

  function Dedup(s: seq<nat>): seq<nat>
  {
    if |s| <= 1 then s
    else
      var front, last := s[..|s| - 1], s[|s| - 1];
      if last == s[|s| - 2] then Dedup(front) else Dedup(front) + [last]
  }

  lemma DedupFacts(s: seq<nat>)
    requires NonDescending(s)
    ensures Ascending(Dedup(s)) && forall i :: i in Dedup(s) <==> i in s
  {
    DedupAscends(s);
    DedupKeeps(s);
  }

  lemma {:induction false} DedupKeeps(s: seq<nat>)
    ensures forall i :: i in Dedup(s) <==> i in s
  {
    if |s| > 1 {
      var front, last := s[..|s| - 1], s[|s| - 1];
      DedupKeeps(front);
      InitAndLast(s);
      InSnoc(front, last);
      InSnoc(Dedup(front), last);
      if last == s[|s| - 2] { assert front[|front| - 1] == last; }
    }
  }

  lemma {:induction false} DedupAscends(s: seq<nat>)
    requires NonDescending(s)
    ensures Ascending(Dedup(s))
    ensures s != [] ==> Dedup(s) != [] && Dedup(s)[|Dedup(s)| - 1] == s[|s| - 1]
  {
    if |s| > 1 {
      DedupAscends(s[..|s| - 1]);
      AscendingSnoc(Dedup(s[..|s| - 1]), s[|s| - 1]);
    }
  }

  lemma AscendingSnoc(s: seq<nat>, x: nat)
    requires Ascending(s) && s != [] && s[|s| - 1] <= x
    ensures s[|s| - 1] < x ==> Ascending(s + [x])
  {
  }

  lemma {:induction false} DedupGrows(s: seq<nat>, n: nat)
    requires n <= |s|
    ensures Dedup(s[..n]) <= Dedup(s)
    decreases |s|
  {
    if n == |s| {
      assert s[..n] == s;
    } else {
      var front := s[..|s| - 1];
      DedupGrows(front, n);
      assert front[..n] == s[..n];
    }
  }

  /** The first max distinct values of an ascending list, as the look-up adds them. */
  method TakeDistinct(indexes: seq<nat>, max: nat) returns (r: seq<nat>)
    requires max > 0
    ensures r == Prefix(Dedup(indexes), max)
  {
    r := [];
    if |indexes| > 0 {
      var last := indexes[0];
      r := [last];
      var added := 1;
      var i := 1;
      while i < |indexes| && added < max
        invariant 1 <= i <= |indexes| && last == indexes[i - 1]
        invariant added == |r| <= max && r == Dedup(indexes[..i])
      {
        assert indexes[..i + 1][..i] == indexes[..i];
        var index := indexes[i];
        if index != last {
          last := index;
          r := r + [last];
          added := added + 1;
        }
        i := i + 1;
      }
      DedupGrows(indexes, i);
      assert indexes[..|indexes|] == indexes;
    }
  }

  // ------------------------------------------------------------------ the index

  class DefaultRegexIndex {
    const vocabulary: string
    var words: seq<string>
    var allChars: set<char>
    var table: array<int>
    ghost var dist: seq<nat>

    ghost predicate Valid()
      reads this, table
    {
      && words == Lines(vocabulary)
      && allChars == AllChars(vocabulary)
      && Table(words, table[..], dist)
      && forall i :: 0 <= i < |words| ==> ByteLength(words[i]) <= 0xFFFF
    }

    /** Offsets are kept in 32 bits and word lengths in 16 bits. */
    constructor (vocabulary: string)
      requires ByteLength(vocabulary) <= UINT32_MAX
      requires forall i :: 0 <= i < |Lines(vocabulary)| ==> ByteLength(Lines(vocabulary)[i]) <= 0xFFFF
      ensures Valid() && fresh(table) && this.vocabulary == vocabulary
    {
      var list := InitializeWords(vocabulary);
      LineCount(vocabulary);
      var slots, d := InitializeWordHashTable(list);
      this.vocabulary := vocabulary;
      words := list;
      allChars := AllChars(vocabulary);
      table := slots;
      dist := d;
    }

    /** One combination overruns the hash table. */
    ghost predicate SomeOverrun(combos: seq<string>)
      reads this, table
    {
      exists c :: c in combos && Overruns(words, table[..], c)
    }

    /** Scans the vocabulary; lengths are compared in 16 bits before a word is matched. */
    method MatchQueryRegex(query: seq<RegexUnit>, matches: seq<string>, max: nat)
      returns (r: seq<string>, ghost limit: nat)
      requires Valid() && max > 0
      ensures r == matches + FirstWords(words, Limited(Lang(query), limit), false, max)
      ensures ScanLimit(query, limit)
    {
      var minBytes := MinUtf8InputLength(query);
      var maxBytes := MaxUtf8InputLength(query);
      var minLength := Truncated(minBytes);
      var maxLength := Truncated(maxBytes);
      limit := maxLength;
      assert ScanLimit(query, limit);
      r := ScanWords(words, query, matches, max, minBytes, minLength, maxLength);
    }

    /**
     * The first max words of the vocabulary that the query accepts are added, on every path,
     * unless a look-up leaves the hash table.
     */
    method MatchQuery(query: seq<RegexUnit>, matches: seq<string>, max: uint32)
      returns (inside: bool, r: seq<string>)
      requires Valid() && ShortValues(query)
      ensures inside && Answerable(words, query) ==> r == matches + FirstWords(words, Lang(query), false, max)
      ensures !inside ==> SomeOverrun(Combos(Stack(query), ""))
    {
      if max == 0 {
        return true, matches;
      }
      var q := OptimizeQuery(query, allChars);
      if AcceptAllNonEmpty(query) {
        LinesArePlain(vocabulary);
        AllWordsSelected(words, query);
        FirstOfAll(words, max);
        if Answerable(words, query) { Answered(words, Lang(query), All(), false, max); }
        return true, matches + words[..Min(max, |words|)];
      }
      var rejectAll := RejectAll(query);
      if rejectAll {
        NothingSelected(words, max);
        return true, matches;
      }
      BuiltQueryIsShort(q);
      var bound := CombinationsUpperBound(q);
      if bound < 1000 {
        inside, r := MatchQueryHashLookup(query, matches, max);
        if HasWildcard(q) { NoChoicesNoLanguage(q); }
        if q == REJECT_ALL { RejectAllIffEmpty(q); }
        if Answerable(words, query) {
          LookupFindsAll(vocabulary, query, q);
          Answered(words, Lang(query), Listed(Combos(Stack(query), "")), true, max);
        }
        return;
      }
      ghost var limit;
      r, limit := MatchQueryRegex(query, matches, max);
      if Answerable(words, query) {
        ScanKeepsAll(words, query, limit);
        Answered(words, Lang(query), Limited(Lang(query), limit), false, max);
      }
      return true, r;
    }

    /** Looks up all combinations, wildcards taken literally. */
    method MatchQueryHashLookup(query: seq<RegexUnit>, matches: seq<string>, max: nat)
      returns (inside: bool, r: seq<string>)
      requires Valid() && max > 0
      ensures inside <==> !SomeOverrun(Combos(Stack(query), ""))
      ensures inside ==> r == matches + FirstWords(words, Listed(Combos(Stack(query), "")), true, max)
    {
      var stack := FiniteQueryToUtf8(query);
      var lookup := new HashLookup(this);
      inside := lookup.Match(stack, 0);
      r := matches;
      if inside {
        r := AddFound(words, lookup.indexes, matches, max, Combos(stack, ""));
      }
    }
  }

  /** RegexQuery::accept_all_non_empty. */
  predicate AcceptAllNonEmpty(query: seq<RegexUnit>)
  {
    || query == [Star]
    || (|query| == 2 && ((query[0].Star? && query[1].QMark?) || (query[0].QMark? && query[1].Star?)))
  }

  lemma AcceptAllNonEmptyMeaning(query: seq<RegexUnit>, w: string)
    requires AcceptAllNonEmpty(query) && w != ""
    ensures Has(Lang(query), w)
  {
    if query == [Star] {
      LangOne(Star);
      assert Has(UnitLang(Star), w);
    } else {
      assert query == [query[0]] + [query[1]];
      PairMeaning(query[0], query[1], w, if query[0].Star? then |w| - 1 else 1);
    }
  }

  lemma PairMeaning(a: RegexUnit, b: RegexUnit, w: string, k: nat)
    requires k <= |w| && Has(UnitLang(a), w[..k]) && Has(UnitLang(b), w[k..])
    ensures Has(Lang([a] + [b]), w)
  {
    LangOne(a);
    SameHas(UnitLang(a), Lang([a]), w[..k]);
    SplitIntro(w, k, Lang([a]), UnitLang(b));
    LangSnoc([a], b);
    SameHas(Cat(Lang([a]), UnitLang(b)), Lang([a] + [b]), w);
  }

  /** A character set without duplicates is no larger than Unicode. */
  lemma BuiltQueryIsShort(q: seq<RegexUnit>)
    requires BuiltQuery(q)
    ensures ShortValues(q)
  {
    forall u | u in q && u.CharSet?
      ensures |u.value| <= UINT32_MAX
    {
      if q != REJECT_ALL { assert CanonicalUnit(u); }
      var codes := seq(|u.value|, i requires 0 <= i < |u.value| => u.value[i] as int);
      Pigeonhole(codes, 0x110000);
    }
  }

  /** What the answer to a query rests on beyond the index itself. */
  ghost predicate Answerable(words: seq<string>, query: seq<RegexUnit>)
  {
    && Distinct(words)
    && (HasWildcard(query) ==> forall i :: 0 <= i < |words| ==> '\r' !in words[i])
    && (Star in query || forall w :: Has(Lang(query), w) ==> ByteLength(w) <= 0xFFFF)
  }

  ghost predicate SameWords(words: seq<string>, A: Language<char>, B: Language<char>)
  {
    forall i :: 0 <= i < |words| ==> (Has(A, words[i]) <==> Has(B, words[i]))
  }

  /** All four ways to answer come down to a language with the right words in it. */
  lemma Answered(words: seq<string>, L: Language<char>, M: Language<char>, once: bool, max: nat)
    requires SameWords(words, L, M) && Distinct(words)
    ensures FirstWords(words, M, once, max) == FirstWords(words, L, false, max)
  {
    SameSelection(words, M, L, once, false, |words|);
  }

  lemma ScanKeepsAll(words: seq<string>, query: seq<RegexUnit>, limit: nat)
    requires Answerable(words, query) && ScanLimit(query, limit)
    requires forall i :: 0 <= i < |words| ==> ByteLength(words[i]) <= 0xFFFF
    ensures SameWords(words, Lang(query), Limited(Lang(query), limit))
  {
    var L := Lang(query);
    forall i | 0 <= i < |words|
      ensures Has(L, words[i]) <==> Has(Limited(L, limit), words[i])
    {
      assert HasWithin(L, limit, words[i]) <==> Has(Limited(L, limit), words[i]);
      if Star !in query && Has(L, words[i]) {
        var n :| Longest(L, n) && limit == Truncated(Finite(n));
        assert L != Nothing();
      }
    }
  }

  lemma AllCombinationsListed(query: seq<RegexUnit>, w: string)
    requires !HasWildcard(query)
    ensures Has(Listed(Combos(Stack(query), "")), w) <==> Has(Lang(query), w)
  {
    if w in Combos(Stack(query), "") {
      var t := CombosSound(query, "", w);
      assert "" + t == t;
    }
    if Has(Lang(query), w) {
      CombosComplete(query, "", w);
      assert "" + w == w;
    }
  }

  /**
   * The look-up enumerates the query as it was given. When the optimised query rejects everything while
   * the given one has wildcards, their literal combinations are matches, so none of them is a word.
   */
  lemma ListedIsAccepted(query: seq<RegexUnit>, w: string)
    requires w in Combos(Stack(query), "")
    ensures Has(Lang(query), w)
  {
    var t := CombosSound(query, "", w);
    assert "" + t == t;
  }

  lemma LookupFindsAll(vocabulary: string, query: seq<RegexUnit>, q: seq<RegexUnit>)
    requires Answerable(Lines(vocabulary), query) && Agree(Lang(q), Lang(query), AllChars(vocabulary))
    requires HasWildcard(query) ==> Lang(q) == Nothing()
    ensures SameWords(Lines(vocabulary), Lang(query), Listed(Combos(Stack(query), "")))
  {
    var words := Lines(vocabulary);
    forall i | 0 <= i < |words|
      ensures Has(Lang(query), words[i]) <==> Has(Listed(Combos(Stack(query), "")), words[i])
    {
      if HasWildcard(query) {
        WordsAreOverAllChars(vocabulary, i);
        assert !Has(Lang(q), words[i]);
        if words[i] in Combos(Stack(query), "") { ListedIsAccepted(query, words[i]); }
      } else {
        AllCombinationsListed(query, words[i]);
      }
    }
  }

  lemma AllWordsSelected(words: seq<string>, query: seq<RegexUnit>)
    requires AcceptAllNonEmpty(query) && forall i :: 0 <= i < |words| ==> PlainWord(words[i])
    ensures SameWords(words, Lang(query), All())
  {
    forall i | 0 <= i < |words|
      ensures Has(Lang(query), words[i])
    {
      assert PlainWord(words[i]);
      AcceptAllNonEmptyMeaning(query, words[i]);
    }
  }

  lemma NothingSelected(words: seq<string>, max: nat)
    ensures FirstWords(words, Nothing(), false, max) == []
  {
    IndexesFacts(words, Nothing(), false, |words|);
    var ids := Indexes(words, Nothing(), false, |words|);
    if ids != [] { Member(ids, 0); }
  }

  lemma {:induction false} AllIndexes(words: seq<string>, n: nat)
    requires n <= |words|
    ensures Indexes(words, All(), false, n) == seq(n, i requires 0 <= i < n => i)
  {
    if n > 0 { AllIndexes(words, n - 1); }
  }

  lemma FirstOfAll(words: seq<string>, max: nat)
    ensures FirstWords(words, All(), false, max) == words[..Min(max, |words|)]
  {
    AllIndexes(words, |words|);
  }

  /** A finite language, listed. */
  ghost function Listed(list: seq<string>): Language<char>
  {
    Language(iset s | s in list)
  }

  method FiniteQueryToUtf8(query: seq<RegexUnit>) returns (stack: seq<seq<string>>)
    ensures stack == Stack(query)
  {
    stack := [];
    for i := 0 to |query|
      invariant stack == Stack(query[..i])
    {
      var alternatives := [];
      if query[i].CharSet? {
        for j := 0 to |query[i].value|
          invariant alternatives == Alternatives(CharSet(query[i].value[..j]))
        {
          alternatives := alternatives + [[query[i].value[j]]];
        }
        assert query[i].value[..|query[i].value|] == query[i].value;
      } else if query[i].OptionalWord? {
        alternatives := [query[i].value, ""];
      } else {
        alternatives := [query[i].Text()];
      }
      stack := stack + [alternatives];
    }
    assert query[..|query|] == query;
  }

  /** One enumeration: the word under construction is shared by all levels. */
  class HashLookup {
    const index: DefaultRegexIndex
    var word: string
    var indexes: seq<nat>

    constructor (index: DefaultRegexIndex)
      ensures this.index == index && word == "" && indexes == []
    {
      this.index := index;
      word, indexes := "", [];
    }

    /**
     * Tries every combination below the given level. Stops when a look-up leaves the table;
     * otherwise the word is restored and exactly the indexes of the combinations that exist are added.
     */
    method Match(stack: seq<seq<string>>, stackIndex: nat) returns (inside: bool)
      requires index.Valid() && stackIndex <= |stack|
      modifies this
      ensures inside <==> !index.SomeOverrun(Combos(stack[stackIndex..], old(word)))
      ensures inside ==> word == old(word)
      ensures inside ==> Extended(index.words, old(indexes), Combos(stack[stackIndex..], old(word)), indexes)
      decreases |stack| - stackIndex
    {
      if stackIndex >= |stack| {
        var found := FindWord(index.words, index.table, word, index.dist);
        assert Combos(stack[stackIndex..], word) == [word];
        if found.OutOfBounds? {
          assert word in [word];
          return false;
        }
        if found.Found? {
          indexes := indexes + [found.index];
        }
        OneLookup(index.words, old(indexes), word, found, indexes);
        return true;
      }
      var current := stack[stackIndex];
      ghost var base, rest := word, stack[stackIndex + 1..];
      assert stack[stackIndex..][0] == current && stack[stackIndex..][1..] == rest;
      for j := 0 to |current|
        invariant word == base
        invariant !index.SomeOverrun(CombosFrom(current[..j], rest, base))
        invariant Extended(index.words, old(indexes), CombosFrom(current[..j], rest, base), indexes)
      {
        var len := |word|;
        ghost var before := indexes;
        word := word + current[j];
        inside := Match(stack, stackIndex + 1);
        ghost var done, more := CombosFrom(current[..j], rest, base), Combos(rest, base + current[j]);
        TakeNext(current, j);
        CombosFromSnoc(current[..j], current[j], rest, base);
        if !inside {
          forall c | c in more
            ensures c in CombosFrom(current, rest, base)
          {
            CombosMember(current, rest, base, c);
          }
          return false;
        }
        ExtendedTwice(index.words, old(indexes), done, before, more, indexes);
        word := word[..len];
      }
      assert current[..|current|] == current;
      return true;
    }
  }

  ghost predicate Hit(words: seq<string>, combos: seq<string>, i: nat)
  {
    i < |words| && words[i] in combos && FirstOccurrence(words, i)
  }

  /** after holds what before holds and the first index of each combination that is a word. */
  ghost predicate Extended(words: seq<string>, before: seq<nat>, combos: seq<string>, after: seq<nat>)
  {
    forall i: nat :: i in after <==> i in before || Hit(words, combos, i)
  }

  lemma ExtendedTwice(words: seq<string>, a: seq<nat>, done: seq<string>, b: seq<nat>, more: seq<string>, c: seq<nat>)
    requires Extended(words, a, done, b) && Extended(words, b, more, c)
    ensures Extended(words, a, done + more, c)
  {
    forall i: nat
      ensures i in c <==> i in a || Hit(words, done + more, i)
    {
      assert Hit(words, done + more, i) <==> Hit(words, done, i) || Hit(words, more, i);
    }
  }

  lemma OneLookup(words: seq<string>, before: seq<nat>, word: string, found: Lookup, after: seq<nat>)
    requires found.Absent? || found.Found?
    requires found.Found?
      ==> found.index < |words| && words[found.index] == word && word !in words[..found.index]
    requires found.Absent? ==> word !in words
    requires after == if found.Found? then before + [found.index] else before
    ensures Extended(words, before, [word], after)
  {
    if found.Found? {
      forall i: nat | Hit(words, [word], i)
        ensures i == found.index
      {
        FirstIsUnique(words, i, found.index);
      }
    }
  }

  lemma FirstIsUnique(words: seq<string>, i: nat, j: nat)
    requires i < |words| && j < |words| && words[i] == words[j]
    requires FirstOccurrence(words, i) && FirstOccurrence(words, j)
    ensures i == j
  {
    if i < j { InPrefix(words, i, j); }
    if j < i { InPrefix(words, j, i); }
  }

  lemma InPrefix<T>(s: seq<T>, i: nat, j: nat)
    requires i < j <= |s|
    ensures s[i] in s[..j]
  {
    assert s[..j][i] == s[i];
  }

  /** Adds the words of the indexes found, each once and in the order of the vocabulary. */
  method AddFound(words: seq<string>, indexes: seq<nat>, matches: seq<string>, max: nat, ghost combos: seq<string>)
    returns (r: seq<string>)
    requires max > 0 && Extended(words, [], combos, indexes)
    ensures r == matches + FirstWords(words, Listed(combos), true, max)
  {
    var leq := (a: nat, b: nat) => a <= b;
    var sorted := Sort(indexes, leq);
    SameMembers(indexes, sorted);
    assert NonDescending(sorted) by {
      forall i, j | 0 <= i < j < |sorted|
        ensures sorted[i] <= sorted[j]
      {
        assert leq(sorted[i], sorted[j]);
      }
    }
    var ids := TakeDistinct(sorted, max);
    FoundIndexes(words, sorted, combos);
    IndexesFacts(words, Listed(combos), true, |words|);
    r := AppendWords(words, ids, matches);
  }

  method AppendWords(words: seq<string>, ids: seq<nat>, matches: seq<string>) returns (r: seq<string>)
    requires forall i :: 0 <= i < |ids| ==> ids[i] < |words|
    ensures r == matches + WordsAt(words, ids)
  {
    r := matches;
    for i := 0 to |ids|
      invariant r == matches + WordsAt(words, ids[..i])
    {
      TakeNext(ids, i);
      WordsAtSnoc(matches, words, ids[..i], ids[i]);
      r := r + [words[ids[i]]];
    }
    assert ids[..|ids|] == ids;
  }

  lemma FoundIndexes(words: seq<string>, sorted: seq<nat>, combos: seq<string>)
    requires NonDescending(sorted) && Extended(words, [], combos, sorted)
    ensures Dedup(sorted) == Indexes(words, Listed(combos), true, |words|)
    ensures forall i :: 0 <= i < |Dedup(sorted)| ==> Dedup(sorted)[i] < |words|
  {
    var all := Dedup(sorted);
    DedupFacts(sorted);
    forall i: nat
      ensures i in all <==> i < |words| && Selected(words, Listed(combos), true, i)
    {
      assert i in all <==> Hit(words, combos, i);
    }
    AscendingUnique(words, Listed(combos), true, |words|, all);
    assert forall i :: 0 <= i < |all| ==> all[i] in all;
  }

  /** The lower length bound rejects no match, even when it is cut to 16 bits. */
  lemma LengthTest(query: seq<RegexUnit>, word: string, minBytes: Bytes, limit: nat)
    requires minBytes.Finite? ==> Shortest(Lang(query), minBytes.n)
    requires minBytes.SizeMax? <==> Lang(query) == Nothing()
    ensures Has(Limited(Lang(query), limit), word)
      <==> !(ByteLength(word) < Truncated(minBytes) || ByteLength(word) > limit) && Accepts(query, word)
  {
    AcceptsIffMatches(query, word);
    assert HasWithin(Lang(query), limit, word) <==> Has(Limited(Lang(query), limit), word);
    if Has(Lang(query), word) && minBytes.Finite? {
      assert ByteLength(word) >= minBytes.n >= Truncated(minBytes);
    }
  }

  lemma ScanDone(words: seq<string>, L: Language<char>, i: nat, ids: seq<nat>, max: nat)
    requires i <= |words| && ids == Indexes(words, L, false, i)
    requires |ids| <= max && (i == |words| || |ids| == max)
    requires forall k :: 0 <= k < |ids| ==> ids[k] < |words|
    ensures WordsAt(words, ids) == FirstWords(words, L, false, max)
  {
    IndexesGrow(words, L, false, i, |words|);
    IndexesFacts(words, L, false, |words|);
    assert Prefix(Indexes(words, L, false, |words|), max) == ids;
  }

  lemma WordsAtSnoc(matches: seq<string>, words: seq<string>, ids: seq<nat>, i: nat)
    requires i < |words| && forall k :: 0 <= k < |ids| ==> ids[k] < |words|
    ensures forall k :: 0 <= k < |ids + [i]| ==> (ids + [i])[k] < |words|
    ensures matches + WordsAt(words, ids + [i]) == matches + WordsAt(words, ids) + [words[i]]
  {
    assert WordsAt(words, ids + [i]) == WordsAt(words, ids) + [words[i]];
    AppendAssoc(matches, WordsAt(words, ids), [words[i]]);
  }

  /** The loop of the plain scan: the first words within the length limits that the regex accepts. */
  method ScanWords(words: seq<string>, query: seq<RegexUnit>, matches: seq<string>, max: nat, ghost minBytes: Bytes,
                   minLength: nat, maxLength: nat)
    returns (r: seq<string>)
    requires minBytes.Finite? ==> Shortest(Lang(query), minBytes.n)
    requires minBytes.SizeMax? <==> Lang(query) == Nothing()
    requires minLength == Truncated(minBytes)
    ensures r == matches + FirstWords(words, Limited(Lang(query), maxLength), false, max)
  {
    ghost var L := Limited(Lang(query), maxLength);
    ghost var ids := [];
    r := matches;
    var added := 0;
    var i := 0;
    while i < |words| && added < max
      invariant i <= |words| && added == |ids| <= max
      invariant ids == Indexes(words, L, false, i)
      invariant forall k :: 0 <= k < |ids| ==> ids[k] < |words|
      invariant r == matches + WordsAt(words, ids)
    {
      var length := ByteLength(words[i]);
      LengthTest(query, words[i], minBytes, maxLength);
      if !(length < minLength || length > maxLength) && Accepts(query, words[i]) {
        WordsAtSnoc(matches, words, ids, i);
        r := r + [words[i]];
        ids := ids + [i];
        added := added + 1;
      }
      i := i + 1;
    }
    ScanDone(words, L, i, ids, max);
  }

  /** A byte count in 16 bits. */
  function Truncated(b: Bytes): nat
  {
    if b.SizeMax? then 0xFFFF else b.n % 0x1_0000
  }

  ghost predicate HasWithin(L: Language<char>, limit: nat, s: string)
  {
    Has(L, s) && ByteLength(s) <= limit
  }

  ghost function Limited(L: Language<char>, limit: nat): Language<char>
  {
    Language(iset s | HasWithin(L, limit, s))
  }

  /** The length limit of a scan is the longest match, cut to 16 bits. */
  ghost predicate ScanLimit(query: seq<RegexUnit>, limit: nat)
  {
    if Star in query then limit == 0xFFFF
    else exists n :: Longest(Lang(query), n) && limit == Truncated(Finite(n))
  }
}
