/** Answering one query without wildcards left open: postlists of all words are searched and intersected. */
module Retrieval {
  import opened MachineInts
  import opened Options
  import opened Sequences

  /** ( n-gram frequency, n-gram id ) */
  datatype Entry = Entry(freq: nat, id: nat)

  /** A position in a postlist and the frequency found there. */
  datatype Sample = Sample(index: nat, freq: nat)

  /** The two inverted indexes, by key. */
  datatype Indexes = Indexes(phrases: map<string, seq<Entry>>, samples: map<string, seq<Sample>>)

  /** A word of the query with the key of its postlist. */
  datatype Unit = Unit(key: string, word: string, frequency: nat, pruning: nat)

  // ------------------------------------------------------------------ ordered postlists

  predicate Above(a: Entry, b: Entry)
  {
    a.freq > b.freq || (a.freq == b.freq && a.id > b.id)
  }

  ghost predicate Descending(list: seq<Entry>)
  {
    forall i, j :: 0 <= i < j < |list| ==> Above(list[i], list[j])
  }

  lemma {:induction false} DescendingUnique(a: seq<Entry>, b: seq<Entry>)
    requires Descending(a) && Descending(b) && forall e :: e in a <==> e in b
    ensures a == b
  {
    if a == [] {
      NoMembers(b);
    } else {
      assert a[0] in b;
      assert b[0] in a;
      HighestIsFirst(a, b[0]);
      HighestIsFirst(b, a[0]);
      forall e
        ensures e in a[1..] <==> e in b[1..]
      {
        InTail(a, e);
        InTail(b, e);
      }
      DescendingUnique(a[1..], b[1..]);
      HeadAndTail(a);
      HeadAndTail(b);
    }
  }

  lemma NoMembers(list: seq<Entry>)
    requires forall e :: e !in list
    ensures list == []
  {
    if list != [] {
      HeadIsMember(list);
    }
  }

  lemma HeadIsMember(list: seq<Entry>)
    requires list != []
    ensures list[0] in list
  {
  }

  lemma HighestIsFirst(list: seq<Entry>, e: Entry)
    requires Descending(list) && e in list
    ensures e == list[0] || Above(list[0], e)
  {
  }

  lemma InTail(list: seq<Entry>, e: Entry)
    requires Descending(list) && list != []
    ensures e in list[1..] <==> e in list && e != list[0]
  {
  }

  predicate Wanted(e: Entry, bound: nat, ids: Option<set<nat>>)
  {
    e.freq <= bound && (ids.Some? ==> e.id in ids.value)
  }

  function Filter(list: seq<Entry>, bound: nat, ids: Option<set<nat>>): seq<Entry>
  {
    if list == [] then []
    else Filter(list[..|list| - 1], bound, ids)
         + if Wanted(list[|list| - 1], bound, ids) then [list[|list| - 1]] else []
  }

  lemma {:induction false} FilterFacts(list: seq<Entry>, bound: nat, ids: Option<set<nat>>)
    ensures forall e :: e in Filter(list, bound, ids) <==> e in list && Wanted(e, bound, ids)
    ensures Descending(list) ==> Descending(Filter(list, bound, ids))
  {
    if list != [] {
      var front, last := list[..|list| - 1], list[|list| - 1];
      FilterFacts(front, bound, ids);
      assert list == front + [last];
      var kept := Filter(front, bound, ids);
      forall i | 0 <= i < |kept|
        ensures Descending(list) ==> Above(kept[i], last)
      {
        assert kept[i] in kept && kept[i] in front;
      }
    }
  }

  function Take(list: seq<Entry>, n: nat): seq<Entry>
  {
    if |list| <= n then list else list[..n]
  }

  // ------------------------------------------------------------------ searching one postlist

  function Slice(list: seq<Entry>, begin: nat, length: nat): seq<Entry>
  {
    var b := Min(begin, |list|);
    list[b..b + Min(length, |list| - b)]
  }

  /** The samples of a list are true and in order. */
  ghost predicate TrueSamples(list: seq<Entry>, samples: seq<Sample>)
  {
    && (forall i :: 0 <= i < |samples| ==> samples[i].index < |list| && list[samples[i].index].freq == samples[i].freq)
    && (forall i, j :: 0 <= i < j < |samples| ==> samples[i].index <= samples[j].index)
  }

  /** No sample points into the middle of a run of equal frequencies. */
  ghost predicate SamplesStartClasses(list: seq<Entry>, samples: seq<Sample>)
  {
    forall i :: 0 <= i < |samples| && 0 < samples[i].index < |list|
      ==> list[samples[i].index - 1].freq > list[samples[i].index].freq
  }

  /** Where reading starts, given the last sample that was passed. */
  function Begin(samples: seq<Sample>, maxFreq: nat, previous: Sample): nat
  {
    if samples == [] then 0
    else if samples[0].freq == maxFreq then samples[0].index
    else if samples[0].freq < maxFreq then previous.index
    else Begin(samples[1..], maxFreq, samples[0])
  }

  /** The start is the first sample that has the frequency, or else the last one above it (0 if there is none), provided
      that some sample is not above it. If all samples are above the frequency, reading starts at the beginning. */
  lemma {:induction false} BeginIs(samples: seq<Sample>, maxFreq: nat, previous: Sample, k: nat)
    requires k <= |samples| && forall i :: 0 <= i < k ==> samples[i].freq > maxFreq
    ensures k < |samples| && samples[k].freq == maxFreq ==> Begin(samples, maxFreq, previous) == samples[k].index
    ensures k < |samples| && samples[k].freq < maxFreq
       ==> Begin(samples, maxFreq, previous) == if k == 0 then previous.index else samples[k - 1].index
    ensures k == |samples| ==> Begin(samples, maxFreq, previous) == 0
  {
    if k > 0 {
      var rest := samples[1..];
      assert forall i :: 0 <= i < |rest| ==> rest[i] == samples[i + 1];
      BeginIs(rest, maxFreq, samples[0], k - 1);
    }
  }

  /** The position of the last sample above the frequency, 0 if there is none. */
  function LastAbove(samples: seq<Sample>, maxFreq: nat): nat
  {
    if samples == [] then 0
    else
      var last := samples[|samples| - 1];
      if last.freq > maxFreq then last.index else LastAbove(samples[..|samples| - 1], maxFreq)
  }

  lemma {:induction false} LastAboveIs(samples: seq<Sample>, maxFreq: nat, k: nat)
    requires k <= |samples| && (forall i :: 0 <= i < k ==> samples[i].freq > maxFreq)
    requires forall i :: k <= i < |samples| ==> samples[i].freq <= maxFreq
    ensures LastAbove(samples, maxFreq) == if k == 0 then 0 else samples[k - 1].index
  {
    if k < |samples| {
      LastAboveIs(samples[..|samples| - 1], maxFreq, k);
    }
  }

  lemma {:induction false} FirstNotAbove(samples: seq<Sample>, maxFreq: nat) returns (k: nat)
    ensures k <= |samples| && (forall i :: 0 <= i < k ==> samples[i].freq > maxFreq)
    ensures k < |samples| ==> samples[k].freq <= maxFreq
  {
    k := 0;
    while k < |samples| && samples[k].freq > maxFreq
      invariant k <= |samples| && forall i :: 0 <= i < k ==> samples[i].freq > maxFreq
    {
      k := k + 1;
    }
  }

  lemma SampleFrequenciesFall(list: seq<Entry>, samples: seq<Sample>)
    requires Descending(list) && TrueSamples(list, samples)
    ensures forall i, j :: 0 <= i < j < |samples| ==> samples[i].freq >= samples[j].freq
  {
    forall i, j | 0 <= i < j < |samples|
      ensures samples[i].freq >= samples[j].freq
    {
      var a, b := samples[i].index, samples[j].index;
      assert a == b || Above(list[a], list[b]);
    }
  }

  /** A search that hits no sample starts at the last one above its frequency if and only if some sample is below the
      frequency, or that last sample stands at the beginning anyway. */
  lemma StartsAtLastAboveIff(list: seq<Entry>, samples: seq<Sample>, maxFreq: nat)
    requires Descending(list) && TrueSamples(list, samples) && forall i :: 0 <= i < |samples| ==> samples[i].freq != maxFreq
    ensures Begin(samples, maxFreq, Sample(0, 0)) == LastAbove(samples, maxFreq)
       <==> (exists i :: 0 <= i < |samples| && samples[i].freq < maxFreq) || LastAbove(samples, maxFreq) == 0
  {
    SampleFrequenciesFall(list, samples);
    var k := FirstNotAbove(samples, maxFreq);
    BeginIs(samples, maxFreq, Sample(0, 0), k);
    forall i | k <= i < |samples|
      ensures samples[i].freq <= maxFreq
    {
      if k < i { assert samples[k].freq >= samples[i].freq; }
    }
    LastAboveIs(samples, maxFreq, k);
    if k < |samples| { assert samples[k].freq < maxFreq; }
  }

  /** All samples are above the frequency: the search starts at the beginning, and with a pruning of two it loses the entry
      that it would find from the last sample on. */
  lemma PrunedAway()
    ensures var list, samples := [Entry(9, 1), Entry(7, 1), Entry(5, 1)], [Sample(0, 9), Sample(1, 7)];
            && Descending(list) && TrueSamples(list, samples)
            && Begin(samples, 5, Sample(0, 0)) == 0 && LastAbove(samples, 5) == 1
            && Filter(Slice(list, 0, 2), 5, None) == [] && Filter(Slice(list, 1, 2), 5, None) == [Entry(5, 1)]
  {
    var list, samples := [Entry(9, 1), Entry(7, 1), Entry(5, 1)], [Sample(0, 9), Sample(1, 7)];
    BeginIs(samples, 5, Sample(0, 0), 2);
    LastAboveIs(samples, 5, 2);
    FilterTwo(Entry(9, 1), Entry(7, 1), 5);
    FilterTwo(Entry(7, 1), Entry(5, 1), 5);
    assert Slice(list, 0, 2) == [Entry(9, 1), Entry(7, 1)] && Slice(list, 1, 2) == [Entry(7, 1), Entry(5, 1)];
  }

  lemma FilterTwo(a: Entry, b: Entry, bound: nat)
    ensures Filter([a, b], bound, None) == (if a.freq <= bound then [a] else []) + if b.freq <= bound then [b] else []
  {
    assert [a, b][..1] == [a] && [a][..0] == [];
    assert Filter([a], bound, None) == Filter([a][..0], bound, None) + if a.freq <= bound then [a] else [];
    assert Filter([a, b], bound, None) == Filter([a, b][..1], bound, None) + if b.freq <= bound then [b] else [];
  }

  /** Entries below the frequency are never skipped; none of that frequency is, when samples start classes. */
  lemma {:induction false} BeginSkipsOnlyAbove(list: seq<Entry>, samples: seq<Sample>, maxFreq: nat, previous: Sample,
                                               i: nat)
    requires Descending(list) && TrueSamples(list, samples) && i < Begin(samples, maxFreq, previous)
    requires previous.index == 0 || (previous.index < |list| && list[previous.index].freq > maxFreq)
    ensures i < |list| && list[i].freq >= maxFreq
    ensures SamplesStartClasses(list, samples) ==> list[i].freq > maxFreq
  {
    if samples[0].freq == maxFreq {
      assert Above(list[i], list[samples[0].index]);
      var k := samples[0].index;
      if i < k - 1 { assert Above(list[i], list[k - 1]); }
    } else if samples[0].freq < maxFreq {
      assert Above(list[i], list[previous.index]);
    } else {
      var rest := samples[1..];
      assert forall j :: 0 <= j < |rest| ==> rest[j] == samples[j + 1];
      BeginSkipsOnlyAbove(list, rest, maxFreq, samples[0], i);
    }
  }

  /** The sample that a search for the frequency stops at, when it has exactly that frequency. */
  function Hit(samples: seq<Sample>, maxFreq: nat): Option<Sample>
  {
    if samples == [] || samples[0].freq < maxFreq then None
    else if samples[0].freq == maxFreq then Some(samples[0])
    else Hit(samples[1..], maxFreq)
  }

  ghost predicate HitStartsClass(list: seq<Entry>, hit: Option<Sample>, maxFreq: nat)
  {
    hit.Some? && 0 < hit.value.index < |list| ==> list[hit.value.index - 1].freq > maxFreq
  }

  lemma {:induction false} HitIsBegin(list: seq<Entry>, samples: seq<Sample>, maxFreq: nat, previous: Sample)
    requires TrueSamples(list, samples)
    ensures var hit := Hit(samples, maxFreq);
            hit.Some? ==> hit.value.index == Begin(samples, maxFreq, previous) && hit.value.freq == maxFreq
                          && hit.value.index < |list| && list[hit.value.index].freq == maxFreq
  {
    if samples != [] && samples[0].freq > maxFreq {
      var rest := samples[1..];
      assert forall j :: 0 <= j < |rest| ==> rest[j] == samples[j + 1];
      HitIsBegin(list, rest, maxFreq, samples[0]);
    }
  }

  lemma {:induction false} NoHitSkipsOnlyAbove(list: seq<Entry>, samples: seq<Sample>, maxFreq: nat, previous: Sample, i: nat)
    requires Descending(list) && TrueSamples(list, samples) && i < Begin(samples, maxFreq, previous)
    requires previous.index == 0 || (previous.index < |list| && list[previous.index].freq > maxFreq)
    requires Hit(samples, maxFreq).None?
    ensures i < |list| && list[i].freq > maxFreq
  {
    if samples[0].freq < maxFreq {
      assert Above(list[i], list[previous.index]);
    } else {
      var rest := samples[1..];
      assert forall j :: 0 <= j < |rest| ==> rest[j] == samples[j + 1];
      NoHitSkipsOnlyAbove(list, rest, maxFreq, samples[0], i);
    }
  }

  /** A search skips no entry of the frequency or below exactly when it hits no sample of that frequency, or the sample
      that it hits stands at the start of the run of that frequency. */
  lemma SearchLosesNothingIff(list: seq<Entry>, samples: seq<Sample>, maxFreq: nat)
    requires Descending(list) && TrueSamples(list, samples)
    ensures (forall i :: 0 <= i < Begin(samples, maxFreq, Sample(0, 0)) && i < |list| ==> list[i].freq > maxFreq)
       <==> HitStartsClass(list, Hit(samples, maxFreq), maxFreq)
  {
    var begin, hit := Begin(samples, maxFreq, Sample(0, 0)), Hit(samples, maxFreq);
    HitIsBegin(list, samples, maxFreq, Sample(0, 0));
    forall i | 0 <= i < begin && i < |list| && HitStartsClass(list, hit, maxFreq)
      ensures list[i].freq > maxFreq
    {
      if hit.None? {
        NoHitSkipsOnlyAbove(list, samples, maxFreq, Sample(0, 0), i);
      } else if i < begin - 1 {
        assert Above(list[i], list[begin - 1]);
      }
    }
  }

  /** Two entries of one frequency, the second of them sampled: a search for that frequency loses the first. */
  lemma TiesAreSkipped()
    ensures var list, samples := [Entry(7, 2), Entry(7, 1)], [Sample(1, 7)];
            Descending(list) && TrueSamples(list, samples) && Begin(samples, 7, Sample(0, 0)) == 1
  {
  }

  method Search(ix: Indexes, key: string, maxFreq: nat, pruning: nat) returns (r: Option<seq<Entry>>)
    ensures r.Some? <==> key in ix.phrases
    ensures r.Some? ==> r.value == Slice(ix.phrases[key], SearchBegin(ix, key, maxFreq), pruning)
  {
    var begin := 0;
    if key in ix.samples {
      var samples := ix.samples[key];
      var previous := Sample(0, 0);
      var i := 0;
      while i < |samples|
        invariant i <= |samples| && begin == 0
        invariant Begin(samples, maxFreq, Sample(0, 0)) == Begin(samples[i..], maxFreq, previous)
      {
        if samples[i].freq == maxFreq {
          begin := samples[i].index;
          break;
        }
        if samples[i].freq < maxFreq {
          begin := previous.index;
          break;
        }
        previous := samples[i];
        i := i + 1;
      }
    }
    if key !in ix.phrases {
      return None;
    }
    return Some(Slice(ix.phrases[key], begin, pruning));
  }

  function SearchBegin(ix: Indexes, key: string, maxFreq: nat): nat
  {
    if key in ix.samples then Begin(ix.samples[key], maxFreq, Sample(0, 0)) else 0
  }

  lemma FilterStep(list: seq<Entry>, i: nat, bound: nat, ids: Option<set<nat>>)
    requires i < |list|
    ensures Filter(list[..i + 1], bound, ids)
         == Filter(list[..i], bound, ids) + if Wanted(list[i], bound, ids) then [list[i]] else []
  {
    assert list[..i + 1][..i] == list[..i];
  }

  method SkipToFirst(postlist: seq<Entry>, bound: nat, ids: Option<set<nat>>) returns (i: nat)
    ensures i <= |postlist| && Filter(postlist[..i], bound, ids) == []
    ensures i < |postlist| ==> Wanted(postlist[i], bound, ids)
  {
    i := 0;
    while i < |postlist| && !Wanted(postlist[i], bound, ids)
      invariant i <= |postlist| && Filter(postlist[..i], bound, ids) == []
    {
      FilterStep(postlist, i, bound, ids);
      i := i + 1;
    }
  }

  function Kept(list: seq<Entry>, ids: Option<set<nat>>): seq<Entry>
  {
    if list == [] then []
    else Kept(list[..|list| - 1], ids)
         + if ids.None? || list[|list| - 1].id in ids.value then [list[|list| - 1]] else []
  }

  /** The second loop: frequencies are not compared again. */
  method CollectRest(postlist: seq<Entry>, start: nat, ids: Option<set<nat>>, count: nat) returns (out: seq<Entry>)
    requires start <= |postlist|
    ensures out == Take(Kept(postlist[start..], ids), count)
    ensures forall e :: e in out ==> e in postlist && (ids.Some? ==> e.id in ids.value)
  {
    ghost var rest := postlist[start..];
    out := [];
    var i := start;
    var left := count;
    while i < |postlist| && left != 0
      invariant start <= i <= |postlist| && |out| + left == count
      invariant out == Kept(rest[..i - start], ids)
    {
      assert rest[..i + 1 - start][..i - start] == rest[..i - start];
      if ids.None? || postlist[i].id in ids.value {
        left := left - 1;
        out := out + [postlist[i]];
      }
      i := i + 1;
    }
    KeptFacts(rest[..i - start], ids);
    KeptGrows(rest, i - start, ids);
    assert rest[..|rest|] == rest;
  }

  lemma {:induction false} KeptGrows(list: seq<Entry>, n: nat, ids: Option<set<nat>>)
    requires n <= |list|
    ensures Kept(list[..n], ids) <= Kept(list, ids)
    decreases |list|
  {
    if n == |list| {
      assert list[..n] == list;
    } else {
      KeptGrows(list[..|list| - 1], n, ids);
      assert list[..|list| - 1][..n] == list[..n];
    }
  }

  lemma {:induction false} KeptFacts(list: seq<Entry>, ids: Option<set<nat>>)
    ensures forall e :: e in Kept(list, ids) ==> e in list && (ids.Some? ==> e.id in ids.value)
  {
    if list != [] { KeptFacts(list[..|list| - 1], ids); }
  }

  /** In a sorted list everything after the first entry that qualifies is within the bound. */
  lemma {:induction false} FilterIsKept(list: seq<Entry>, i: nat, bound: nat, ids: Option<set<nat>>)
    requires Descending(list) && i < |list| && Filter(list[..i], bound, ids) == [] && Wanted(list[i], bound, ids)
    ensures Filter(list, bound, ids) == [list[i]] + Kept(list[i + 1..], ids)
    decreases |list|
  {
    var front, last := list[..|list| - 1], list[|list| - 1];
    if i == |list| - 1 {
      assert list[..i] == front;
    } else {
      assert front[..i] == list[..i];
      FilterIsKept(front, i, bound, ids);
      assert Above(list[i], last);
      assert list[i + 1..][..|list| - i - 2] == front[i + 1..];
    }
  }

  /** The two loops of both retrieval steps: skip to the first entry that qualifies, then take what follows. */
  method Collect(postlist: seq<Entry>, bound: nat, ids: Option<set<nat>>, count: nat)
    returns (out: seq<Entry>, maxFreq: nat)
    ensures Descending(postlist) ==> out == Take(Filter(postlist, bound, ids), count)
    ensures forall e :: e in out ==> e in postlist && (ids.Some? ==> e.id in ids.value)
    ensures maxFreq == if out == [] then 0 else out[0].freq
  {
    out, maxFreq := [], 0;
    if count == 0 {
      return;
    }
    var i := SkipToFirst(postlist, bound, ids);
    if i == |postlist| {
      assert postlist[..i] == postlist;
      return;
    }
    maxFreq := postlist[i].freq;
    var rest := CollectRest(postlist, i + 1, ids, count - 1);
    out := [postlist[i]] + rest;
    if Descending(postlist) { FilterIsKept(postlist, i, bound, ids); }
  }

  // ------------------------------------------------------------------ intersecting the postlists of a query

  function Ids(entries: seq<Entry>): set<nat>
  {
    set e | e in entries :: e.id
  }

  /** e is in the postlist of every unit, and not above the bound. */
  ghost predicate Matches(ix: Indexes, units: seq<Unit>, bound: nat, e: Entry)
  {
    e.freq <= bound && forall u :: u in units ==> InList(ix, u, e)
  }

  /** The data an exact answer rests on: sorted lists that pruning does not cut, true samples, one frequency per id. */
  ghost predicate Consistent(ix: Indexes, units: seq<Unit>)
  {
    && (forall u :: u in units && u.key in ix.phrases ==> SoundList(ix, u))
    && (forall u, v, a, b :: u in units && v in units && InList(ix, u, a) && InList(ix, v, b) && a.id == b.id ==> a == b)
  }

  /** Sorted lists with one frequency per id: all that a sound answer rests on. */
  ghost predicate Coherent(ix: Indexes, units: seq<Unit>)
  {
    && (forall u :: u in units && u.key in ix.phrases ==> Descending(ix.phrases[u.key]))
    && (forall u, v, a, b :: u in units && v in units && InList(ix, u, a) && InList(ix, v, b) && a.id == b.id ==> a == b)
  }

  ghost predicate InList(ix: Indexes, unit: Unit, e: Entry)
  {
    unit.key in ix.phrases && e in ix.phrases[unit.key]
  }

  ghost predicate SoundList(ix: Indexes, unit: Unit)
    requires unit.key in ix.phrases
  {
    var list := ix.phrases[unit.key];
    && Descending(list)
    && |list| <= unit.pruning && |list| <= UINT32_MAX
    && (unit.key in ix.samples
        ==> TrueSamples(list, ix.samples[unit.key]) && SamplesStartClasses(list, ix.samples[unit.key]))
  }

  /** Searching with the bound loses no entry that is not above it. */
  lemma SearchKeepsWanted(ix: Indexes, unit: Unit, bound: nat, ids: Option<set<nat>>)
    requires unit.key in ix.phrases && SoundList(ix, unit)
    ensures var list, found := ix.phrases[unit.key], Slice(ix.phrases[unit.key], SearchBegin(ix, unit.key, bound), unit.pruning);
            Descending(found) && Filter(found, bound, ids) == Filter(list, bound, ids)
  {
    var list := ix.phrases[unit.key];
    var begin := SearchBegin(ix, unit.key, bound);
    var b := Min(begin, |list|);
    assert Slice(list, begin, unit.pruning) == list[b..];
    forall i | 0 <= i < b
      ensures list[i].freq > bound
    {
      if unit.key in ix.samples { BeginSkipsOnlyAbove(list, ix.samples[unit.key], bound, Sample(0, 0), i); }
    }
    FilterSkips(list, b, bound, ids);
  }

  lemma {:induction false} FilterSkips(list: seq<Entry>, b: nat, bound: nat, ids: Option<set<nat>>)
    requires b <= |list| && forall i :: 0 <= i < b ==> list[i].freq > bound
    ensures Filter(list[b..], bound, ids) == Filter(list, bound, ids)
    decreases |list|
  {
    if b < |list| {
      FilterSkips(list[..|list| - 1], b, bound, ids);
      assert list[b..][..|list| - b - 1] == list[..|list| - 1][b..];
    } else if b > 0 {
      FilterSkips(list[..|list| - 1], b - 1, bound, ids);
      assert list[b..] == [] && list[..|list| - 1][b - 1..] == [];
    }
  }

  /** common lists, in order, exactly the entries that the given units have in common. */
  ghost predicate IsCommon(ix: Indexes, units: seq<Unit>, bound: nat, common: seq<Entry>)
  {
    Descending(common) && forall e :: e in common <==> Matches(ix, units, bound, e)
  }

  lemma FirstCommon(ix: Indexes, units: seq<Unit>, bound: nat)
    requires |units| == 1 && units[0].key in ix.phrases && Consistent(ix, units)
    ensures IsCommon(ix, units, bound, Filter(ix.phrases[units[0].key], bound, None))
  {
    FilterFacts(ix.phrases[units[0].key], bound, None);
    forall e
      ensures Matches(ix, units, bound, e) <==> e.freq <= bound && InList(ix, units[0], e)
    {
      assert units[0] in units;
    }
  }

  /** One intersection, bounded by the highest frequency that is still possible. */
  lemma NextCommon(ix: Indexes, units: seq<Unit>, unit: Unit, bound: nat, common: seq<Entry>, cur: nat)
    requires units != [] && IsCommon(ix, units, bound, common)
    requires Consistent(ix, units + [unit]) && unit.key in ix.phrases
    requires cur == if common == [] then 0 else common[0].freq
    ensures IsCommon(ix, units + [unit], bound, Filter(ix.phrases[unit.key], cur, Some(Ids(common))))
  {
    var list := ix.phrases[unit.key];
    assert unit in units + [unit] && units[0] in units && units[0] in units + [unit];
    FilterFacts(list, cur, Some(Ids(common)));
    forall e
      ensures e in Filter(list, cur, Some(Ids(common))) <==> Matches(ix, units + [unit], bound, e)
    {
      MatchesSnoc(ix, units, unit, bound, e);
      if e in common { NotAboveFirst(common, e); }
      if e in list && e.id in Ids(common) {
        var f :| f in common && f.id == e.id;
        assert InList(ix, units[0], f) && InList(ix, unit, e);
        assert e == f;
      }
    }
  }

  lemma MatchesSnoc(ix: Indexes, units: seq<Unit>, unit: Unit, bound: nat, e: Entry)
    ensures Matches(ix, units + [unit], bound, e) <==> Matches(ix, units, bound, e) && InList(ix, unit, e)
  {
    assert unit in units + [unit];
    assert forall u :: u in units ==> u in units + [unit];
  }

  lemma NotAboveFirst(list: seq<Entry>, e: Entry)
    requires Descending(list) && e in list
    ensures e.freq <= list[0].freq
  {
    var k :| 0 <= k < |list| && list[k] == e;
    if k > 0 { assert Above(list[0], list[k]); }
  }

  // ------------------------------------------------------------------ the retrieval steps and the loop over the units

  const SIZE_MAX: nat := 0xFFFF_FFFF_FFFF_FFFF

  lemma {:induction false} FilterIsNotLonger(list: seq<Entry>, bound: nat, ids: Option<set<nat>>)
    ensures |Filter(list, bound, ids)| <= |list|
  {
    if list != [] { FilterIsNotLonger(list[..|list| - 1], bound, ids); }
  }

  /** initialize_result_set (without ids) and intersect_result_set. */
  method Retrieve(ix: Indexes, unit: Unit, bound: nat, ids: Option<set<nat>>, count: nat)
    returns (out: seq<Entry>, maxFreq: nat, unknownWord: string)
    ensures unit.key !in ix.phrases ==> out == [] && unknownWord == unit.word
    ensures unit.key in ix.phrases ==> unknownWord == ""
    ensures unit.key in ix.phrases && SoundList(ix, unit) ==> out == Take(Filter(ix.phrases[unit.key], bound, ids), count)
    ensures forall e :: e in out ==> InList(ix, unit, e) && (ids.Some? ==> e.id in ids.value)
    ensures unit.key in ix.phrases && Descending(ix.phrases[unit.key]) ==> forall e :: e in out ==> e.freq <= bound
    ensures maxFreq == if out == [] then 0 else out[0].freq
  {
    var postlist := Search(ix, unit.key, bound, unit.pruning);
    if postlist.None? {
      return [], 0, unit.word;
    }
    out, maxFreq := Collect(postlist.value, bound, ids, count);
    unknownWord := "";
    if Descending(ix.phrases[unit.key]) { FilterFacts(postlist.value, bound, ids); }
    if SoundList(ix, unit) { SearchKeepsWanted(ix, unit, bound, ids); }
  }

  /** The first count entries, in order, that all units have in common; nothing when there is no word at all. */
  ghost predicate IsAnswer(ix: Indexes, units: seq<Unit>, bound: nat, count: nat, entries: seq<Entry>)
  {
    if units == [] then entries == []
    else exists common :: IsCommon(ix, units, bound, common) && entries == Take(common, count)
  }

  /** What one more unit leaves of the common entries. */
  ghost function Narrowed(ix: Indexes, unit: Unit, first: bool, common: seq<Entry>, cur: nat): seq<Entry>
  {
    if unit.key in ix.phrases
    then Filter(ix.phrases[unit.key], cur, if first then None else Some(Ids(common)))
    else []
  }

  /** One step of the loop. An unknown word leaves nothing, for the whole query. */
  lemma StepIsCommon(ix: Indexes, units: seq<Unit>, it: nat, bound: nat, common: seq<Entry>, cur: nat)
    requires it < |units| && Consistent(ix, units)
    requires it > 0 ==> IsCommon(ix, units[..it], bound, common) && cur == if common == [] then 0 else common[0].freq
    requires it == 0 ==> cur == bound
    ensures units[it] in units
    ensures IsCommon(ix, units[..it + 1], bound, Narrowed(ix, units[it], it == 0, common, cur))
    ensures |Narrowed(ix, units[it], it == 0, common, cur)| <= SIZE_MAX
  {
    var unit := units[it];
    var prefix := units[..it + 1];
    TakeNext(units, it);
    assert forall u :: u in prefix ==> u in units;
    assert unit in prefix;
    if unit.key !in ix.phrases {
      UnknownWordLeavesNothing(ix, prefix, unit, bound);
    } else {
      KnownWord(ix, units, unit, cur, if it == 0 then None else Some(Ids(common)));
      if it == 0 { FirstCommon(ix, prefix, bound); } else { NextCommon(ix, units[..it], unit, bound, common, cur); }
    }
  }

  lemma KnownWord(ix: Indexes, units: seq<Unit>, unit: Unit, cur: nat, ids: Option<set<nat>>)
    requires Consistent(ix, units) && unit in units && unit.key in ix.phrases
    ensures |Filter(ix.phrases[unit.key], cur, ids)| <= SIZE_MAX
  {
    assert SoundList(ix, unit);
    FilterIsNotLonger(ix.phrases[unit.key], cur, ids);
  }

  lemma UnknownWordLeavesNothing(ix: Indexes, units: seq<Unit>, unit: Unit, bound: nat)
    requires unit in units && unit.key !in ix.phrases
    ensures IsCommon(ix, units, bound, [])
  {
    forall e
      ensures !Matches(ix, units, bound, e)
    {
      assert !InList(ix, unit, e);
    }
  }

  lemma NothingInCommon(ix: Indexes, units: seq<Unit>, it: nat, bound: nat)
    requires 0 < it <= |units| && IsCommon(ix, units[..it], bound, [])
    ensures IsCommon(ix, units, bound, [])
  {
    assert forall u :: u in units[..it] ==> u in units;
    forall e
      ensures !Matches(ix, units, bound, e)
    {
      assert !Matches(ix, units[..it], bound, e);
    }
  }

  lemma SameAnswer(ix: Indexes, a: seq<Unit>, b: seq<Unit>, bound: nat, count: nat, entries: seq<Entry>)
    requires forall u :: u in a <==> u in b
    requires |a| == |b|
    ensures Consistent(ix, a) <==> Consistent(ix, b)
    ensures Coherent(ix, a) <==> Coherent(ix, b)
    ensures AllMatch(ix, a, bound, entries) <==> AllMatch(ix, b, bound, entries)
    ensures IsAnswer(ix, a, bound, count, entries) <==> IsAnswer(ix, b, bound, count, entries)
  {
    forall common
      ensures IsCommon(ix, a, bound, common) <==> IsCommon(ix, b, bound, common)
    {
      assert forall e :: Matches(ix, a, bound, e) <==> Matches(ix, b, bound, e);
    }
  }

  /** The loop of the query processor over the units in ascending order of frequency. */
  method Intersect(ix: Indexes, units: seq<Unit>, maxPhraseFrequency: nat, maxPhraseCount: nat, jumpin: nat)
    returns (entries: seq<Entry>, unknown: seq<string>)
    ensures Consistent(ix, units)
      ==> IsAnswer(ix, units, Min(maxPhraseFrequency, jumpin), maxPhraseCount, entries)
    ensures Coherent(ix, units) ==> AllMatch(ix, units, Min(maxPhraseFrequency, jumpin), entries)
    ensures Consistent(ix, units) ==> unknown == UnknownWords(ix, units, Min(maxPhraseFrequency, jumpin))
    ensures Unknown(ix, units, unknown)
  {
    ghost var bound := Min(maxPhraseFrequency, jumpin);
    entries, unknown := [], [];
    var src, dst: set<nat> := {}, {};
    var cur: nat := maxPhraseFrequency;
    ghost var found: seq<Entry> := [];
    var it := 0;
    while it < |units|
      invariant it <= |units| && dst == {}
      invariant it == 0 ==> cur == maxPhraseFrequency
      invariant it < |units| ==> entries == [] && unknown == []
      invariant 0 < it < |units| ==> src == Ids(found) && found != []
      invariant 0 < it < |units| && Consistent(ix, units) ==> Between(ix, units, it, bound, cur, found)
      invariant 0 < it && Coherent(ix, units) ==> AllMatch(ix, units[..it], bound, found)
      invariant it == |units| ==> entries == found && Unknown(ix, units, unknown)
      invariant it == |units| && Consistent(ix, units) ==> Finished(ix, units, bound, maxPhraseCount, entries, unknown)
    {
      var unit, first, last := units[it], it == 0, it == |units| - 1;
      ghost var start: nat := if first then bound else cur;
      var count := if last then maxPhraseCount else SIZE_MAX;
      var out, maxFreq, unknownWord;
      if first {
        out, maxFreq, unknownWord := Retrieve(ix, unit, Min(cur, jumpin), None, count);
      } else {
        out, maxFreq, unknownWord := Retrieve(ix, unit, cur, Some(src), count);
      }
      if unknownWord != "" {
        unknown := unknown + [unknownWord];
      }
      if Consistent(ix, units) {
        assert unit in units;
        ConsistentStep(ix, units, it, bound, start, found, out, count, maxPhraseCount);
      }
      if Coherent(ix, units) { StepIsSound(ix, units, it, bound, found, out); }
      if last {
        entries := out;
      } else {
        dst := Ids(out);
        cur := maxFreq;
        src, dst := dst, {};
      }
      found := out;
      it := it + 1;
      assert units[..|units|] == units;
      NoIds(found);
      if src == {} {
        break;
      }
    }
  }

  /** Between two units, all of which have postlists: what they have in common, and its highest frequency. */
  ghost predicate Between(ix: Indexes, units: seq<Unit>, it: nat, bound: nat, cur: nat, found: seq<Entry>)
    requires it <= |units|
  {
    IsCommon(ix, units[..it], bound, found) && found != [] && cur == found[0].freq && AllKnown(ix, units[..it])
  }

  ghost predicate Finished(ix: Indexes, units: seq<Unit>, bound: nat, count: nat, entries: seq<Entry>, unknown: seq<string>)
  {
    IsAnswer(ix, units, bound, count, entries) && unknown == UnknownWords(ix, units, bound)
  }

  /** The word that one unit makes the program report. */
  function Report(ix: Indexes, unit: Unit): seq<string>
  {
    if unit.key !in ix.phrases && unit.word != "" then [unit.word] else []
  }

  lemma ConsistentStep(ix: Indexes, units: seq<Unit>, it: nat, bound: nat, start: nat, found: seq<Entry>, out: seq<Entry>,
                       count: nat, maxPhraseCount: nat)
    requires it < |units| && Consistent(ix, units)
    requires if it == 0 then start == bound else Between(ix, units, it, bound, start, found)
    requires out == Take(Narrowed(ix, units[it], it == 0, found, start), count)
    requires count == if it == |units| - 1 then maxPhraseCount else SIZE_MAX
    ensures it == |units| - 1 ==> Finished(ix, units, bound, maxPhraseCount, out, Report(ix, units[it]))
    ensures it < |units| - 1 && out == [] ==> Finished(ix, units, bound, maxPhraseCount, [], Report(ix, units[it]))
    ensures it < |units| - 1 && out != [] ==> Between(ix, units, it + 1, bound, out[0].freq, out) && Report(ix, units[it]) == []
  {
    var next := Narrowed(ix, units[it], it == 0, found, start);
    StepIsCommon(ix, units, it, bound, found, start);
    StepReports(ix, units, it, bound, found, next);
    assert units[..|units|] == units;
    if next == [] || it == |units| - 1 { ReportEnds(ix, units, it, bound, next); }
    if next == [] && it < |units| - 1 {
      NothingInCommon(ix, units, it + 1, bound);
      assert [] == Take([], maxPhraseCount);
    }
  }

  ghost predicate AllMatch(ix: Indexes, units: seq<Unit>, bound: nat, found: seq<Entry>)
  {
    forall e :: e in found ==> Matches(ix, units, bound, e)
  }

  lemma StepIsSound(ix: Indexes, units: seq<Unit>, it: nat, bound: nat, found: seq<Entry>, out: seq<Entry>)
    requires it < |units| && Coherent(ix, units)
    requires it > 0 ==> AllMatch(ix, units[..it], bound, found)
    requires forall e :: e in out ==> InList(ix, units[it], e) && (it > 0 ==> e.id in Ids(found))
    requires it == 0 ==> forall e :: e in out ==> e.freq <= bound
    ensures AllMatch(ix, units[..it + 1], bound, out)
  {
    TakeNext(units, it);
    assert units[it] in units;
    assert forall u :: u in units[..it] ==> u in units;
    forall e | e in out
      ensures Matches(ix, units[..it + 1], bound, e)
    {
      MatchesSnoc(ix, units[..it], units[it], bound, e);
      if it > 0 {
        var f :| f in found && f.id == e.id;
        assert units[0] in units[..it] && InList(ix, units[0], f);
        assert e == f;
      }
    }
  }

  lemma NoIds(entries: seq<Entry>)
    ensures Ids(entries) == {} ==> entries == []
  {
    if entries != [] {
      assert entries[0] in entries;
      assert entries[0].id in Ids(entries);
    }
  }

  ghost predicate AllKnown(ix: Indexes, units: seq<Unit>)
  {
    forall u :: u in units ==> u.key in ix.phrases
  }

  /** Some entry within the bound is in the postlists of all units. */
  ghost predicate SomeMatch(ix: Indexes, units: seq<Unit>, bound: nat)
  {
    exists e :: Matches(ix, units, bound, e)
  }

  /** The position of the first unit without a postlist. */
  function FirstUnknown(ix: Indexes, units: seq<Unit>): (k: nat)
    ensures k <= |units| && (k < |units| ==> units[k].key !in ix.phrases)
    ensures forall i :: 0 <= i < k ==> units[i].key in ix.phrases
  {
    if units == [] || units[0].key !in ix.phrases then 0 else 1 + FirstUnknown(ix, units[1..])
  }

  /** The words that are reported: that of the first unit without a postlist, if the processing gets that far, because the
      units before it have an entry in common. A word without characters is not reported. */
  ghost function UnknownWords(ix: Indexes, units: seq<Unit>, bound: nat): seq<string>
  {
    var k := FirstUnknown(ix, units);
    if k < |units| && (k == 0 || SomeMatch(ix, units[..k], bound)) && units[k].word != "" then [units[k].word] else []
  }

  ghost predicate Unknown(ix: Indexes, units: seq<Unit>, unknown: seq<string>)
  {
    forall w :: w in unknown ==> exists u :: u in units && u.word == w && u.key !in ix.phrases
  }

  lemma KnownPrefix(ix: Indexes, units: seq<Unit>, it: nat)
    requires it <= |units| && AllKnown(ix, units[..it])
    ensures FirstUnknown(ix, units) >= it
  {
    forall i | 0 <= i < it
      ensures units[i].key in ix.phrases
    {
      assert units[..it][i] in units[..it];
    }
  }

  lemma FirstUnknownIs(ix: Indexes, units: seq<Unit>, it: nat)
    requires it < |units| && AllKnown(ix, units[..it]) && units[it].key !in ix.phrases
    ensures FirstUnknown(ix, units) == it
  {
    KnownPrefix(ix, units, it);
  }

  /** At most one word is reported, and w is if and only if it has characters and is the word of a unit without a postlist,
      all units before that one have postlists, and these have an entry in common. */
  lemma ReportedIff(ix: Indexes, units: seq<Unit>, bound: nat, w: string)
    ensures |UnknownWords(ix, units, bound)| <= 1
    ensures w in UnknownWords(ix, units, bound)
       <==> w != "" && exists k :: 0 <= k < |units| && units[k].word == w && units[k].key !in ix.phrases
                                   && AllKnown(ix, units[..k]) && (k == 0 || SomeMatch(ix, units[..k], bound))
  {
    var f := FirstUnknown(ix, units);
    forall k | 0 <= k < |units| && units[k].key !in ix.phrases && AllKnown(ix, units[..k])
      ensures k == f
    {
      FirstUnknownIs(ix, units, k);
    }
    if w in UnknownWords(ix, units, bound) {
      assert AllKnown(ix, units[..f]);
    }
  }

  lemma StepReports(ix: Indexes, units: seq<Unit>, it: nat, bound: nat, common: seq<Entry>, next: seq<Entry>)
    requires it < |units| && AllKnown(ix, units[..it])
    requires it > 0 ==> IsCommon(ix, units[..it], bound, common) && common != []
    ensures units[it].key !in ix.phrases ==> UnknownWords(ix, units, bound) == Report(ix, units[it])
    ensures units[it].key in ix.phrases ==> AllKnown(ix, units[..it + 1])
  {
    TakeNext(units, it);
    if units[it].key !in ix.phrases {
      FirstUnknownIs(ix, units, it);
      if it > 0 { assert common[0] in common && Matches(ix, units[..it], bound, common[0]); }
    }
  }

  /** Nothing in common, or no unit left: no word is reported any more. */
  lemma ReportEnds(ix: Indexes, units: seq<Unit>, it: nat, bound: nat, next: seq<Entry>)
    requires it < |units| && IsCommon(ix, units[..it + 1], bound, next) && (next == [] || it == |units| - 1)
    requires units[it].key in ix.phrases ==> AllKnown(ix, units[..it + 1])
    ensures units[it].key in ix.phrases ==> UnknownWords(ix, units, bound) == []
  {
    if units[it].key in ix.phrases {
      KnownPrefix(ix, units, it + 1);
      var k := FirstUnknown(ix, units);
      if k < |units| {
        NothingMatchesMore(ix, units, it + 1, k, bound);
      }
    }
  }

  lemma NothingMatchesMore(ix: Indexes, units: seq<Unit>, n: nat, k: nat, bound: nat)
    requires n <= k <= |units| && IsCommon(ix, units[..n], bound, [])
    ensures !SomeMatch(ix, units[..k], bound)
  {
    forall e
      ensures !Matches(ix, units[..k], bound, e)
    {
      assert !Matches(ix, units[..n], bound, e);
      assert forall u :: u in units[..n] ==> u in units[..k];
    }
  }

  /** An arrangement in ascending order of frequency; the standard leaves open which one where frequencies are equal. */
  ghost predicate InFrequencyOrder(units: seq<Unit>, metadata: seq<Unit>)
  {
    && multiset(units) == multiset(metadata)
    && forall i, j :: 0 <= i < j < |units| ==> units[i].frequency <= units[j].frequency
  }

  /**
   * The whole query: whatever order the frequencies impose on the units, the answer is the first
   * max_phrase_count entries within the bound that every word's postlist holds.
   */
  method Process(ix: Indexes, metadata: seq<Unit>, maxPhraseFrequency: nat, maxPhraseCount: nat, jumpin: nat)
    returns (entries: seq<Entry>, unknown: seq<string>)
    ensures Consistent(ix, metadata)
      ==> IsAnswer(ix, metadata, Min(maxPhraseFrequency, jumpin), maxPhraseCount, entries)
    ensures Coherent(ix, metadata) ==> AllMatch(ix, metadata, Min(maxPhraseFrequency, jumpin), entries)
    ensures Unknown(ix, metadata, unknown)
    ensures Consistent(ix, metadata)
      ==> exists units :: InFrequencyOrder(units, metadata)
                          && unknown == UnknownWords(ix, units, Min(maxPhraseFrequency, jumpin))
  {
    var units := Sort(metadata, (a: Unit, b: Unit) => a.frequency <= b.frequency);
    SameMembers(metadata, units);
    assert InFrequencyOrder(units, metadata);
    entries, unknown := Intersect(ix, units, maxPhraseFrequency, maxPhraseCount, jumpin);
    SameAnswer(ix, metadata, units, Min(maxPhraseFrequency, jumpin), maxPhraseCount, entries);
  }

  /** There is only one answer. */
  lemma AnswerIsUnique(ix: Indexes, units: seq<Unit>, bound: nat, count: nat, a: seq<Entry>, b: seq<Entry>)
    requires IsAnswer(ix, units, bound, count, a) && IsAnswer(ix, units, bound, count, b)
    ensures a == b
  {
    if units != [] {
      var x :| IsCommon(ix, units, bound, x) && a == Take(x, count);
      var y :| IsCommon(ix, units, bound, y) && b == Take(y, count);
      DescendingUnique(x, y);
    }
  }
}
