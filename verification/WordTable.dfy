/** The hash table over the words of a vocabulary: hashing, sizing, insertion by linear probing, and look-up. */
module WordTables {
  import opened Bits
  import opened MachineInts
  import opened Sequences
  import opened Utf8

  /** Marks an empty slot. */
  const EMPTY: int := UINT32_MAX

  // ------------------------------------------------------------------ hashing

  /** The value of a byte as a signed char. */
  function SignedChar(b: int): int
  {
    if b < 128 then b else b - 256
  }

  function HashOf(bytes: seq<int>): uint32
  {
    if bytes == [] then 0x12345678
    else (HashOf(bytes[..|bytes| - 1]) * 31 + SignedChar(bytes[|bytes| - 1])) % (UINT32_MAX + 1)
  }

  function Hash(word: string): uint32
  {
    HashOf(EncodeAll(word))
  }

  method HashWord(word: string) returns (h: uint32)
    ensures h == Hash(word)
  {
    var bytes := EncodeAll(word);
    h := 0x12345678;
    for offset := 0 to |bytes|
      invariant h == HashOf(bytes[..offset])
    {
      assert bytes[..offset + 1][..offset] == bytes[..offset];
      h := (h * 31 + SignedChar(bytes[offset])) % (UINT32_MAX + 1);
    }
    assert bytes[..|bytes|] == bytes;
  }

  /** The slot at which probing for a word starts. */
  function Home(word: string, n: nat): (h: nat)
    requires n > 0
    ensures h < n
  {
    Hash(word) % n
  }

  // ------------------------------------------------------------------ sizing

  function TableSize(w: nat): nat
    requires w <= 0x8000_0000
  {
    var n := NextPowOf2(w);
    if n < w + w / 2 then n * 2 else n
  }

  lemma TableSizeFacts(w: nat, n: nat) returns (k: nat)
    requires w <= 0x8000_0000 && n == TableSize(w)
    ensures w == 0 ==> n == 0
    ensures w > 0 ==> n == Pow2(k) && k <= 32
    ensures w == 1 ==> n == 1
    ensures w >= 2 ==> n > w
    ensures w + w / 2 <= n <= UINT32_MAX + 1
  {
    var r := NextPowOf2(w);
    k := NextPowOf2IsLeast(w, r);
    PowersOfTwo();
    if w > 0 {
      Pow2Monotone(k, 31);
      if r < w + w / 2 { k := k + 1; }
    }
  }

  // ------------------------------------------------------------------ the table

  /** The slot that is reached after d probes. */
  function Slot(home: nat, d: nat, n: nat): (p: nat)
    requires home < n && d < n
    ensures p < n
  {
    if home + d < n then home + d else home + d - n
  }

  function Probe(words: seq<string>, i: nat, d: nat, n: nat): (p: nat)
    requires i < |words| && d < n
    ensures p < n
  {
    Slot(Home(words[i], n), d, n)
  }

  /**
   * The first count words are in the table, word i after dist[i] probes; every slot on the way to it
   * holds a word that was inserted earlier, and there is nothing else in the table.
   */
  ghost predicate Filled(table: seq<int>, words: seq<string>, count: nat, dist: seq<nat>)
  {
    && |dist| == count <= |words|
    && (forall i :: 0 <= i < count ==> dist[i] < |table| && table[Probe(words, i, dist[i], |table|)] == i)
    && (forall p {:trigger table[p]} :: 0 <= p < |table| && table[p] != EMPTY
         ==> 0 <= table[p] < count && p == Probe(words, table[p], dist[table[p]], |table|))
    && (forall i, d :: 0 <= i < count && 0 <= d < dist[i] ==> 0 <= table[Probe(words, i, d, |table|)] < i)
  }

  ghost predicate Table(words: seq<string>, table: seq<int>, dist: seq<nat>)
  {
    && |words| <= 0x8000_0000
    && |table| == TableSize(|words|)
    && Filled(table, words, |words|, dist)
  }

  lemma FreeSlot(table: seq<int>, words: seq<string>, count: nat, dist: seq<nat>) returns (p: nat)
    requires Filled(table, words, count, dist) && count < |table|
    ensures p < |table| && table[p] == EMPTY
  {
    if forall p :: 0 <= p < |table| ==> table[p] != EMPTY {
      forall p, q | 0 <= p < q < |table|
        ensures table[p] != table[q]
      {
        assert table[p] != EMPTY && table[q] != EMPTY;
      }
      Pigeonhole(table, count);
    }
    p :| 0 <= p < |table| && table[p] == EMPTY;
  }

  /** The number of probes from a home slot to slot p. */
  function Distance(home: nat, p: nat, n: nat): (d: nat)
    requires home < n && p < n
    ensures d < n && Slot(home, d, n) == p
  {
    if home <= p then p - home else p + n - home
  }

  lemma NextSlot(home: nat, d: nat, n: nat, k: nat)
    requires n == Pow2(k) && home < n && d + 1 < n
    ensures And(Slot(home, d, n) + 1, n - 1) == Slot(home, d + 1, n)
  {
    OnesIsPow2Less1(k);
    MaskIsRemainder(Slot(home, d, n) + 1, k);
    RemainderOf(Slot(home, d, n) + 1, if Slot(home, d, n) + 1 < n then 0 else 1, n, Slot(home, d + 1, n));
  }

  lemma HomeByMask(word: string, n: nat, k: nat)
    requires n == Pow2(k)
    ensures And(Hash(word), n - 1) == Home(word, n)
  {
    OnesIsPow2Less1(k);
    MaskIsRemainder(Hash(word), k);
  }

  ghost predicate TakenBefore(table: seq<int>, word: string, d: nat)
    requires table != [] && d <= |table|
  {
    forall j :: 0 <= j < d ==> table[Slot(Home(word, |table|), j, |table|)] != EMPTY
  }

  /** Linear probing up to the first empty slot. */
  method FindEmptySlot(table: array<int>, word: string, ghost free: nat, ghost k: nat)
    returns (hash: nat, ghost d: nat)
    requires table.Length == Pow2(k) && free < table.Length && table[free] == EMPTY
    ensures d < table.Length && hash == Slot(Home(word, table.Length), d, table.Length)
    ensures table[hash] == EMPTY && TakenBefore(table[..], word, d)
  {
    var mask := table.Length - 1;
    hash := HashWord(word);
    hash := And(hash, mask);
    HomeByMask(word, table.Length, k);
    ghost var home := Home(word, table.Length);
    d := 0;
    while table[hash] != EMPTY
      invariant d <= Distance(home, free, table.Length)
      invariant hash == Slot(home, d, table.Length)
      invariant TakenBefore(table[..], word, d)
      decreases table.Length - d
    {
      NextSlot(home, d, table.Length, k);
      hash := And(hash + 1, mask);
      d := d + 1;
    }
  }

  method Insert(table: array<int>, words: seq<string>, index: nat, ghost dist: seq<nat>, ghost k: nat)
    returns (ghost d: nat)
    requires Filled(table[..], words, index, dist)
    requires index < |words| && index < table.Length == Pow2(k) && index < EMPTY
    modifies table
    ensures Filled(table[..], words, index + 1, dist + [d])
  {
    ghost var before := table[..];
    ghost var free := FreeSlot(before, words, index, dist);
    var hash;
    hash, d := FindEmptySlot(table, words[index], free, k);
    Inserted(before, words, index, dist, d);
    table[hash] := index;
    assert table[..] == before[hash := index];
  }

  lemma Inserted(before: seq<int>, words: seq<string>, index: nat, dist: seq<nat>, d: nat)
    requires Filled(before, words, index, dist)
    requires index < |words| && d < |before| && index < EMPTY
    requires before[Probe(words, index, d, |before|)] == EMPTY
    requires TakenBefore(before, words[index], d)
    ensures Filled(before[Probe(words, index, d, |before|) := index], words, index + 1, dist + [d])
  {
    var n := |before|;
    var p := Probe(words, index, d, n);
    var after := before[p := index];
    var dist' := dist + [d];
    forall i | 0 <= i < index + 1
      ensures dist'[i] < n && after[Probe(words, i, dist'[i], n)] == i
    {
      if i < index { assert before[Probe(words, i, dist[i], n)] == i; }
    }
    forall i, j | 0 <= i < index + 1 && 0 <= j < dist'[i]
      ensures 0 <= after[Probe(words, i, j, n)] < i
    {
      if i == index {
        SlotsDiffer(Home(words[index], n), j, d, n);
        assert before[Probe(words, index, j, n)] != EMPTY;
      } else {
        assert 0 <= before[Probe(words, i, j, n)] < i;
      }
    }
  }

  lemma SlotsDiffer(home: nat, i: nat, j: nat, n: nat)
    requires home < n && i < n && j < n && i != j
    ensures Slot(home, i, n) != Slot(home, j, n)
  {
  }

  method InitializeWordHashTable(words: seq<string>) returns (table: array<int>, ghost dist: seq<nat>)
    requires |words| <= 0x8000_0000
    ensures fresh(table)
    ensures Table(words, table[..], dist)
  {
    var n := NextPowOf2(|words|);
    if n < |words| + |words| / 2 {
      n := n * 2;
    }
    ghost var k := TableSizeFacts(|words|, n);
    table := new int[n];
    for i := 0 to n
      invariant forall j :: 0 <= j < i ==> table[j] == EMPTY
    {
      table[i] := EMPTY;
    }
    dist := [];
    for index := 0 to |words|
      invariant Filled(table[..], words, index, dist)
    {
      ghost var d := Insert(table, words, index, dist, k);
      dist := dist + [d];
    }
  }

  // ------------------------------------------------------------------ look-up

  datatype Lookup = Found(index: nat) | Absent | OutOfBounds

  ghost predicate Stops(table: seq<int>, words: seq<string>, word: string, p: nat)
    requires p < |table|
  {
    table[p] == EMPTY || (0 <= table[p] < |words| && words[table[p]] == word)
  }

  /** None of the first d probes of the look-up ends it. */
  ghost predicate NoStopBefore(words: seq<string>, table: seq<int>, word: string, d: nat)
    requires table != [] && d <= |table|
  {
    forall j :: 0 <= j < d ==> !Stops(table, words, word, Slot(Home(word, |table|), j, |table|))
  }

  lemma NoStopYet(words: seq<string>, table: seq<int>, word: string, d: nat)
    requires table != [] && d < |table| && NoStopBefore(words, table, word, d)
    requires !Stops(table, words, word, Slot(Home(word, |table|), d, |table|))
    ensures NoStopBefore(words, table, word, d + 1)
  {
  }

  /**
   * The look-up steps without the table mask, so it leaves the table when no slot between the home slot
   * and the end is empty or holds the word. (A table of 2^32 slots is the one where the step wraps.)
   */
  ghost predicate Overruns(words: seq<string>, table: seq<int>, word: string)
  {
    || table == []
    || (|table| <= UINT32_MAX && forall p :: Home(word, |table|) <= p < |table| ==> !Stops(table, words, word, p))
  }

  /** What one probe of a slot inside the table decides. */
  lemma Verdict(words: seq<string>, table: seq<int>, word: string, dist: seq<nat>, hash: nat, d: nat, free: nat, k: nat)
    requires Table(words, table, dist) && |table| == Pow2(k) <= UINT32_MAX + 1
    requires Reached(table, word, hash, d, free) && hash < |table| && NoStopBefore(words, table, word, d)
    ensures table[hash] == EMPTY || 0 <= table[hash] < |words|
    ensures table[hash] == EMPTY ==> word !in words
    ensures table[hash] != EMPTY && words[table[hash]] == word ==> word !in words[..table[hash]]
    ensures Stops(table, words, word, hash) ==> !Overruns(words, table, word)
    ensures !Stops(table, words, word, hash) ==>
              && d < |table|
              && NoStopBefore(words, table, word, d + 1)
              && Reached(table, word, And(hash + 1, UINT32_MAX), d + 1, free)
  {
    InsideSlot(word, table, hash, d, free);
    if table[hash] == EMPTY {
      EmptyMeansAbsent(words, table, word, dist, d);
      StopIsInside(words, table, word, hash, d, free);
    } else if words[table[hash]] == word {
      FirstOfEqualWords(words, table, word, dist, d);
      StopIsInside(words, table, word, hash, d, free);
    } else {
      NoStopYet(words, table, word, d);
      Step32(word, table, hash, d, free, k, UINT32_MAX);
    }
  }

  lemma ProbingStarts(words: seq<string>, table: seq<int>, word: string, dist: seq<nat>, k: nat) returns (free: nat)
    requires Table(words, table, dist) && table != [] && |table| == Pow2(k) <= UINT32_MAX + 1
    requires |table| > UINT32_MAX ==> |table| > |words|
    ensures Reached(table, word, And(Hash(word), |table| - 1), 0, free)
    ensures NoStopBefore(words, table, word, 0)
  {
    HomeByMask(word, |table|, k);
    free := 0;
    if |table| > UINT32_MAX { free := FreeSlot(table, words, |words|, dist); }
  }

  lemma InsideSlot(word: string, table: seq<int>, hash: nat, d: nat, free: nat)
    requires Reached(table, word, hash, d, free) && hash < |table|
    ensures d < |table| && hash == Slot(Home(word, |table|), d, |table|)
  {
  }

  method FindWord(words: seq<string>, table: array<int>, word: string, ghost dist: seq<nat>) returns (r: Lookup)
    requires Table(words, table[..], dist)
    ensures r.OutOfBounds? <==> Overruns(words, table[..], word)
    ensures r.Found? ==> r.index < |words| && words[r.index] == word && word !in words[..r.index]
    ensures r.Absent? ==> word !in words
  {
    ghost var t := table[..];
    ghost var k := TableSizeFacts(|words|, |t|);
    var mask := if table.Length == 0 then UINT32_MAX else table.Length - 1;
    var hash: nat := HashWord(word);
    hash := And(hash, mask);
    if table.Length == 0 {
      return OutOfBounds;
    }
    ghost var free := ProbingStarts(words, t, word, dist, k);
    r := ProbeFrom(words, table, word, hash, dist, free, k);
  }

  /** The probing loop, from the home slot on. */
  method ProbeFrom(words: seq<string>, table: array<int>, word: string, home: nat, ghost dist: seq<nat>, ghost free: nat,
                   ghost k: nat)
    returns (r: Lookup)
    requires Table(words, table[..], dist) && table.Length == Pow2(k) <= UINT32_MAX + 1
    requires Reached(table[..], word, home, 0, free) && NoStopBefore(words, table[..], word, 0)
    ensures r.OutOfBounds? <==> Overruns(words, table[..], word)
    ensures r.Found? ==> r.index < |words| && words[r.index] == word && word !in words[..r.index]
    ensures r.Absent? ==> word !in words
  {
    ghost var t := table[..];
    var hash: nat := home;
    ghost var d: nat := 0;
    while true
      invariant Reached(t, word, hash, d, free)
      invariant NoStopBefore(words, t, word, d)
      decreases |t| - d
    {
      if hash >= table.Length {
        NothingStops(words, t, word, d);
        return OutOfBounds;
      }
      var index := table[hash];
      Verdict(words, t, word, dist, hash, d, free, k);
      if index == EMPTY {
        return Absent;
      }
      if words[index] == word {
        return Found(index);
      }
      hash := And(hash + 1, UINT32_MAX);
      d := d + 1;
    }
  }

  /** Where the look-up stands after d steps; a table of 2^32 slots has a free slot that ends it. */
  ghost predicate Reached(table: seq<int>, word: string, hash: nat, d: nat, free: nat)
  {
    && table != [] && d <= |table|
    && (|table| <= UINT32_MAX ==> hash == Home(word, |table|) + d <= |table|)
    && (|table| > UINT32_MAX
      ==> (&& free < |table| && table[free] == EMPTY
           && d <= Distance(Home(word, |table|), free, |table|)
           && hash == Slot(Home(word, |table|), d, |table|)))
  }

  lemma StopIsInside(words: seq<string>, table: seq<int>, word: string, hash: nat, d: nat, free: nat)
    requires Reached(table, word, hash, d, free) && hash < |table| && Stops(table, words, word, hash)
    ensures !Overruns(words, table, word)
  {
  }

  lemma NothingStops(words: seq<string>, table: seq<int>, word: string, d: nat)
    requires table != [] && |table| <= UINT32_MAX && Home(word, |table|) + d == |table|
    requires NoStopBefore(words, table, word, d)
    ensures Overruns(words, table, word)
  {
    forall p | Home(word, |table|) <= p < |table|
      ensures !Stops(table, words, word, p)
    {
      assert Slot(Home(word, |table|), p - Home(word, |table|), |table|) == p;
    }
  }

  lemma Step32(word: string, table: seq<int>, hash: nat, d: nat, free: nat, k: nat, mask: nat)
    requires Reached(table, word, hash, d, free) && hash < |table| && table[hash] != EMPTY
    requires |table| == Pow2(k) <= UINT32_MAX + 1 && mask == UINT32_MAX
    ensures d < |table| && Reached(table, word, And(hash + 1, mask), d + 1, free)
  {
    MaskOfAllBits(hash + 1, mask);
    if |table| > UINT32_MAX {
      StepAround(Home(word, |table|), |table|, hash, d, free, k);
    }
  }

  lemma StepAround(home: nat, n: nat, hash: nat, d: nat, free: nat, k: nat)
    requires n == Pow2(k) == UINT32_MAX + 1 && home < n && free < n
    requires d <= Distance(home, free, n) && hash == Slot(home, d, n) != free
    ensures d + 1 <= Distance(home, free, n) && (hash + 1) % n == Slot(home, d + 1, n)
  {
    NextSlot(home, d, n, k);
    OnesIsPow2Less1(k);
    MaskIsRemainder(hash + 1, k);
  }

  /** Where a stored word stands relative to the d-th probe from its home slot. */
  lemma StoredWord(words: seq<string>, table: seq<int>, word: string, dist: seq<nat>, i: nat, d: nat)
    requires table != [] && d < |table| && Filled(table, words, |words|, dist) && |words| <= EMPTY
    requires i < |words| && words[i] == word
    ensures dist[i] < |table| && Stops(table, words, word, Slot(Home(word, |table|), dist[i], |table|))
    ensures d < dist[i] ==> 0 <= table[Slot(Home(word, |table|), d, |table|)] < i
    ensures d == dist[i] ==> table[Slot(Home(word, |table|), d, |table|)] == i
  {
    assert table[Probe(words, i, dist[i], |table|)] == i;
    assert d < dist[i] ==> 0 <= table[Probe(words, i, d, |table|)] < i;
  }

  lemma EmptyMeansAbsent(words: seq<string>, table: seq<int>, word: string, dist: seq<nat>, d: nat)
    requires table != [] && d < |table| && Filled(table, words, |words|, dist) && |words| <= EMPTY
    requires NoStopBefore(words, table, word, d)
    requires table[Slot(Home(word, |table|), d, |table|)] == EMPTY
    ensures word !in words
  {
    if i :| 0 <= i < |words| && words[i] == word {
      StoredWord(words, table, word, dist, i, d);
    }
  }

  lemma FirstOfEqualWords(words: seq<string>, table: seq<int>, word: string, dist: seq<nat>, d: nat)
    requires table != [] && d < |table| && Filled(table, words, |words|, dist) && |words| <= EMPTY
    requires NoStopBefore(words, table, word, d)
    requires table[Slot(Home(word, |table|), d, |table|)] != EMPTY
    requires words[table[Slot(Home(word, |table|), d, |table|)]] == word
    ensures word !in words[..table[Slot(Home(word, |table|), d, |table|)]]
  {
    var c := table[Slot(Home(word, |table|), d, |table|)];
    StoredWord(words, table, word, dist, c, d);
    if i :| 0 <= i < c && words[i] == word {
      StoredWord(words, table, word, dist, i, d);
    }
  }

  // ------------------------------------------------------------------ when a look-up stays in the table

  /** With two or more words some slot stays empty. */
  lemma SomeSlotIsEmpty(words: seq<string>, table: seq<int>, dist: seq<nat>)
    requires Table(words, table, dist) && |words| >= 2
    ensures exists p :: 0 <= p < |table| && table[p] == EMPTY
  {
    var _ := TableSizeFacts(|words|, |table|);
    var _ := FreeSlot(table, words, |words|, dist);
  }

  lemma EmptyLastSlotIsSafe(words: seq<string>, table: seq<int>, word: string)
    requires table != [] && table[|table| - 1] == EMPTY
    ensures !Overruns(words, table, word)
  {
    assert Stops(table, words, word, |table| - 1);
  }

  /** A word of the vocabulary is lost exactly when it had to be stored past the end, in a wrapped slot. */
  lemma StoredWordOverrunsIffWrapped(words: seq<string>, table: seq<int>, dist: seq<nat>, i: nat)
    requires Table(words, table, dist) && i < |words| && words[i] !in words[..i]
    ensures table != [] && |table| <= UINT32_MAX
      ==> (Overruns(words, table, words[i]) <==> Home(words[i], |table|) + dist[i] >= |table|)
  {
    var _ := TableSizeFacts(|words|, |table|);
    var home := Home(words[i], |table|);
    if home + dist[i] >= |table| {
      if 0 < |table| <= UINT32_MAX { WrappedOverruns(words, table, dist, i); }
    } else {
      StoredWord(words, table, words[i], dist, i, 0);
      assert Slot(home, dist[i], |table|) == home + dist[i];
    }
  }

  lemma WrappedOverruns(words: seq<string>, table: seq<int>, dist: seq<nat>, i: nat)
    requires Table(words, table, dist) && i < |words| && words[i] !in words[..i]
    requires 0 < |table| <= UINT32_MAX && Home(words[i], |table|) + dist[i] >= |table|
    ensures Overruns(words, table, words[i])
  {
    var home := Home(words[i], |table|);
    forall p | home <= p < |table|
      ensures !Stops(table, words, words[i], p)
    {
      StoredWord(words, table, words[i], dist, i, p - home);
      assert Slot(home, p - home, |table|) == p;
    }
  }

  /** A vocabulary of one word has a table of one full slot: every other word overruns it. */
  lemma SingleWordVocabulary(word: string, other: string, table: seq<int>, dist: seq<nat>)
    requires Table([word], table, dist)
    ensures Overruns([word], table, other) <==> other != word
  {
    var _ := TableSizeFacts(1, |table|);
    assert Home(other, 1) == 0;
    assert table[Probe([word], 0, dist[0], 1)] == 0;
    assert Stops(table, [word], other, 0) <==> [word][0] == other;
  }

  /** No vocabulary at all: every look-up reads outside the table. */
  lemma EmptyVocabulary(word: string, table: seq<int>, dist: seq<nat>)
    requires Table([], table, dist)
    ensures Overruns([], table, word)
  {
    var _ := TableSizeFacts(0, |table|);
  }

  /** Two words that share the last slot of their table: the second cannot be looked up. */
  lemma LostWord(table: seq<int>, dist: seq<nat>)
    requires Table(["c", "g"], table, dist)
    ensures Overruns(["c", "g"], table, "g")
  {
    var words := ["c", "g"];
    assert TableSize(2) == 4;
    assert EncodeAll("c") == [99] && EncodeAll("g") == [103];
    assert HashOf([99][..0]) == 0x12345678 && HashOf([103][..0]) == 0x12345678;
    assert Home("c", 4) == 3 && Home("g", 4) == 3;
    StoredWord(words, table, "c", dist, 0, 0);
    StoredWordOverrunsIffWrapped(words, table, dist, 1);
    StoredWord(words, table, "g", dist, 1, 0);
  }
}
