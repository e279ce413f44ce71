/** Merging two slices of one result list whose order compares frequencies only. */
module RefMerge {
  import opened Sequences

  /** A phrase reference; references are equal when their ids are, and ordered by descending frequency. */
  datatype Ref = Ref(id: nat, freq: nat)
  {
    predicate Less(rhs: Ref)
    {
      freq > rhs.freq
    }
  }

  /** A result list: frequencies never rise, and each id occurs once. */
  ghost predicate ResultList(list: seq<Ref>)
  {
    && (forall i, j :: 0 <= i < j < |list| ==> list[i].freq >= list[j].freq)
    && (forall i, j :: 0 <= i < j < |list| ==> list[i].id != list[j].id)
  }

  /** No reference before the position has the frequency of the one that stands there. */
  ghost predicate StartsClass(list: seq<Ref>, k: nat)
  {
    k < |list| && (k == 0 || list[k - 1].freq > list[k].freq)
  }

  lemma EarlierIsLess(list: seq<Ref>, i: nat, k: nat)
    requires ResultList(list) && StartsClass(list, k)
    ensures i < k ==> list[i].Less(list[k])
    ensures k <= i < |list| ==> !list[i].Less(list[k])
  {
  }

  /** disjoint_with. */
  predicate DisjointWith(a: seq<Ref>, b: seq<Ref>)
  {
    if a == [] || b == [] then true
    else if a[0].Less(b[0]) then a[|a| - 1].Less(b[0])
    else b[|b| - 1].Less(a[0])
  }

  /** The references that follow in the list never have a higher frequency. */
  lemma NeverRises(list: seq<Ref>, i: nat, j: nat)
    requires ResultList(list) && i <= j < |list|
    ensures list[i].freq >= list[j].freq
  {
  }

  /** Whatever the slices: the test says exactly that one of them ends before the other starts, at another frequency. */
  lemma DisjointWithIff(list: seq<Ref>, a: nat, b: nat, c: nat, d: nat)
    requires ResultList(list) && a < b <= |list| && c < d <= |list|
    ensures DisjointWith(list[a..b], list[c..d])
       <==> (b <= c && list[b - 1].freq > list[c].freq) || (d <= a && list[d - 1].freq > list[a].freq)
  {
    if b <= c { NeverRises(list, a, b - 1); } else { NeverRises(list, if c < b - 1 then c else b - 1, b - 1); }
    if d <= a { NeverRises(list, c, d - 1); } else { NeverRises(list, if a < d - 1 then a else d - 1, d - 1); }
  }

  ghost predicate Share(a: seq<Ref>, b: seq<Ref>)
  {
    exists i, j :: 0 <= i < |a| && 0 <= j < |b| && a[i].id == b[j].id
  }

  /** The test of the four end points is exact. */
  lemma DisjointWithIsExact(list: seq<Ref>, a: nat, b: nat, c: nat, d: nat)
    requires ResultList(list) && a < b <= |list| && c < d <= |list|
    requires StartsClass(list, a) && StartsClass(list, c)
    ensures DisjointWith(list[a..b], list[c..d]) <==> !Share(list[a..b], list[c..d])
  {
    var x, y := list[a..b], list[c..d];
    EarlierIsLess(list, a, c);
    EarlierIsLess(list, b - 1, c);
    EarlierIsLess(list, d - 1, a);
    if a < c < b { assert x[c - a].id == y[0].id; }
    if c <= a < d { assert x[0].id == y[a - c].id; }
  }

  /** std::set_union; of two equivalent references the first is taken. */
  function SetUnion(a: seq<Ref>, b: seq<Ref>): seq<Ref>
    decreases |a| + |b|
  {
    if a == [] then b
    else if b == [] then a
    else if a[0].Less(b[0]) then [a[0]] + SetUnion(a[1..], b)
    else if b[0].Less(a[0]) then [b[0]] + SetUnion(a, b[1..])
    else [a[0]] + SetUnion(a[1..], b[1..])
  }

  method Merge(a: seq<Ref>, b: seq<Ref>) returns (r: seq<Ref>)
    ensures r == SetUnion(a, b)
  {
    r := [];
    var i, j := 0, 0;
    ghost var left := SetUnion(a, b);
    while i < |a| && j < |b|
      invariant i <= |a| && j <= |b|
      invariant left == SetUnion(a[i..], b[j..])
      invariant r + left == SetUnion(a, b)
      decreases |a| - i + |b| - j
    {
      UnionStep(a, b, i, j);
      var x := a[i];
      if a[i].Less(b[j]) {
        i := i + 1;
      } else if b[j].Less(a[i]) {
        x := b[j];
        j := j + 1;
      } else {
        i, j := i + 1, j + 1;
      }
      left := SetUnion(a[i..], b[j..]);
      AppendAssoc(r, [x], left);
      r := r + [x];
    }
    UnionRest(a[i..], b[j..]);
    r := r + a[i..] + b[j..];
  }

  lemma UnionRest(a: seq<Ref>, b: seq<Ref>)
    requires a == [] || b == []
    ensures SetUnion(a, b) == a + b
  {
  }

  lemma UnionStep(a: seq<Ref>, b: seq<Ref>, i: nat, j: nat)
    requires i < |a| && j < |b|
    ensures SetUnion(a[i..], b[j..])
         == if a[i].Less(b[j]) then [a[i]] + SetUnion(a[i + 1..], b[j..])
            else if b[j].Less(a[i]) then [b[j]] + SetUnion(a[i..], b[j + 1..])
            else [a[i]] + SetUnion(a[i + 1..], b[j + 1..])
  {
    assert a[i..][1..] == a[i + 1..] && b[j..][1..] == b[j + 1..];
  }

  /** Slices that start together: they run in step, and the longer one supplies the rest. */
  lemma {:induction false} UnionInStep(list: seq<Ref>, a: nat, b: nat, d: nat)
    requires a <= b <= |list| && a <= d <= |list|
    ensures SetUnion(list[a..b], list[a..d]) == list[a..if b < d then d else b]
    decreases |list| - a
  {
    if a < b && a < d {
      UnionInStep(list, a + 1, b, d);
      assert list[a..b][1..] == list[a + 1..b] && list[a..d][1..] == list[a + 1..d];
      assert [list[a]] + list[a + 1..if b < d then d else b] == list[a..if b < d then d else b];
    }
  }

  /** Until the second slice starts, every reference of the first goes before it. */
  lemma {:induction false} UnionFirstAhead(list: seq<Ref>, a: nat, b: nat, c: nat, d: nat)
    requires ResultList(list) && a <= c <= b <= |list| && c < d <= |list| && StartsClass(list, c)
    ensures SetUnion(list[a..b], list[c..d]) == list[a..if b < d then d else b]
    decreases c - a
  {
    if a == c {
      UnionInStep(list, a, b, d);
    } else {
      UnionFirstAhead(list, a + 1, b, c, d);
      EarlierIsLess(list, a, c);
      assert list[a..b][1..] == list[a + 1..b];
      assert [list[a]] + list[a + 1..if b < d then d else b] == list[a..if b < d then d else b];
    }
  }

  lemma {:induction false} UnionSecondAhead(list: seq<Ref>, a: nat, b: nat, c: nat, d: nat)
    requires ResultList(list) && c <= a <= d <= |list| && a < b <= |list| && StartsClass(list, a)
    ensures SetUnion(list[a..b], list[c..d]) == list[c..if b < d then d else b]
    decreases a - c
  {
    if a == c {
      UnionInStep(list, a, b, d);
    } else {
      UnionSecondAhead(list, a, b, c + 1, d);
      EarlierIsLess(list, c, a);
      assert list[c..d][1..] == list[c + 1..d];
      assert [list[c]] + list[c + 1..if b < d then d else b] == list[c..if b < d then d else b];
    }
  }

  /** Slices that overlap or touch merge to exactly the slice that covers both. */
  lemma MergeIsCoveringSlice(list: seq<Ref>, a: nat, b: nat, c: nat, d: nat)
    requires ResultList(list) && a < b <= |list| && c < d <= |list|
    requires StartsClass(list, a) && StartsClass(list, c)
    requires a <= d && c <= b
    ensures SetUnion(list[a..b], list[c..d]) == list[if a < c then a else c..if b < d then d else b]
  {
    if a <= c { UnionFirstAhead(list, a, b, c, d); } else { UnionSecondAhead(list, a, b, c, d); }
  }

  // ---------------------------------------------------------------- slices that are cut anywhere

  lemma {:induction false} UnionLength(a: seq<Ref>, b: seq<Ref>)
    ensures |SetUnion(a, b)| <= |a| + |b|
    decreases |a| + |b|
  {
    if a != [] && b != [] {
      UnionLength(a[1..], b);
      UnionLength(a, b[1..]);
      UnionLength(a[1..], b[1..]);
    }
  }

  lemma SliceFront(list: seq<Ref>, i: nat, j: nat)
    requires i < j <= |list|
    ensures list[i..j][0] == list[i] && list[i..j][1..] == list[i + 1..j] && list[i..j] == [list[i]] + list[i + 1..j]
  {
  }

  /** One step of the union of two slices of the list. */
  lemma SliceStep(list: seq<Ref>, i: nat, b: nat, j: nat, d: nat)
    requires i < b <= |list| && j < d <= |list|
    ensures SetUnion(list[i..b], list[j..d])
         == if list[i].Less(list[j]) then [list[i]] + SetUnion(list[i + 1..b], list[j..d])
            else if list[j].Less(list[i]) then [list[j]] + SetUnion(list[i..b], list[j + 1..d])
            else [list[i]] + SetUnion(list[i + 1..b], list[j + 1..d])
  {
    SliceFront(list, i, b);
    SliceFront(list, j, d);
  }

  /** The first slice starts earlier and ends later: the second adds nothing. */
  lemma {:induction false} UnionWithinFirst(list: seq<Ref>, i: nat, b: nat, j: nat, d: nat)
    requires ResultList(list) && i <= j <= d <= b <= |list|
    ensures SetUnion(list[i..b], list[j..d]) == list[i..b]
    decreases b - i
  {
    if j == d {
      assert list[j..d] == [];
    } else if i == j {
      UnionInStep(list, i, b, d);
    } else {
      SliceStep(list, i, b, j, d);
      NeverRises(list, i, j);
      UnionWithinFirst(list, i + 1, b, if list[i].Less(list[j]) then j else j + 1, d);
      SliceFront(list, i, b);
    }
  }

  /** The first slice starts earlier and reaches beyond the frequency at which the second starts. */
  lemma {:induction false} UnionBeyondClass(list: seq<Ref>, i: nat, b: nat, j: nat, d: nat)
    requires ResultList(list) && i <= j < b < d <= |list| && list[b].freq < list[j].freq
    ensures SetUnion(list[i..b], list[j..d]) == list[i..d]
    decreases b - i
  {
    if i == j {
      UnionInStep(list, i, b, d);
    } else {
      SliceStep(list, i, b, j, d);
      NeverRises(list, i, j);
      if list[i].Less(list[j]) {
        UnionBeyondClass(list, i + 1, b, j, d);
      } else if list[b].freq < list[j + 1].freq {
        UnionBeyondClass(list, i + 1, b, j + 1, d);
      } else {
        NeverRises(list, j + 1, b);
        UnionFirstAhead(list, i + 1, b, j + 1, d);
      }
      SliceFront(list, i, d);
    }
  }

  /** The first slice ends inside the run of equal frequencies in which the second one starts: references are lost. */
  lemma {:induction false} UnionLoses(list: seq<Ref>, i: nat, b: nat, j: nat, d: nat)
    requires ResultList(list) && i < j < d <= |list| && i <= b < d
    requires list[j - 1].freq == list[j].freq && (j <= b ==> list[b].freq == list[j].freq) && j <= b + 1
    ensures |SetUnion(list[i..b], list[j..d])| < d - i
    decreases d - i
  {
    if i == b || j > b {
      UnionLength(list[i..b], list[j..d]);
    } else {
      SliceStep(list, i, b, j, d);
      NeverRises(list, i, j);
      if list[i].Less(list[j]) {
        UnionLoses(list, i + 1, b, j, d);
      } else if j + 1 == d {
        assert list[j + 1..d] == [];
        assert |SetUnion(list[i + 1..b], [])| == b - i - 1;
      } else if j + 1 <= b {
        NeverRises(list, j, j + 1);
        NeverRises(list, j + 1, b);
        UnionLoses(list, i + 1, b, j + 1, d);
      } else {
        UnionLength(list[i + 1..b], list[j + 1..d]);
      }
    }
  }

  /** The second slice starts earlier, but the first one inside a run: of that run the wrong reference comes first. */
  lemma {:induction false} UnionMisplaces(list: seq<Ref>, a: nat, b: nat, i: nat, d: nat, end: nat)
    requires ResultList(list) && i < a < b <= |list| && a <= d <= end <= |list| && list[a - 1].freq == list[a].freq
    ensures SetUnion(list[a..b], list[i..d]) != list[i..end]
    decreases a - i
  {
    SliceStep(list, a, b, i, d);
    NeverRises(list, i, a);
    SliceFront(list, i, end);
    if list[i].Less(list[a]) {
      UnionMisplaces(list, a, b, i + 1, d, end);
      assert ([list[i]] + SetUnion(list[a..b], list[i + 1..d]))[1..] == SetUnion(list[a..b], list[i + 1..d]);
    } else {
      assert list[a].id != list[i].id;
    }
  }

  /** The later slice starts where the merge can tell its references from those of the earlier one. */
  ghost predicate CutsAgree(list: seq<Ref>, a: nat, b: nat, c: nat, d: nat)
    requires a < b <= |list| && c < d <= |list|
  {
    || a == c
    || (a < c && (StartsClass(list, c) || d <= b || list[b].freq < list[c].freq))
    || (c < a && StartsClass(list, a))
  }

  /** Two slices that overlap or touch merge to the slice that covers both exactly when they start together, or the later
      one starts at a new frequency, or the first one starts earlier and reaches to the end of the second or of its
      first frequency. */
  lemma MergeCoversIff(list: seq<Ref>, a: nat, b: nat, c: nat, d: nat)
    requires ResultList(list) && a < b <= |list| && c < d <= |list| && a <= d && c <= b
    ensures SetUnion(list[a..b], list[c..d]) == list[if a < c then a else c..if b < d then d else b]
       <==> CutsAgree(list, a, b, c, d)
  {
    if a == c {
      UnionInStep(list, a, b, d);
    } else if a < c {
      if StartsClass(list, c) {
        UnionFirstAhead(list, a, b, c, d);
      } else if d <= b {
        UnionWithinFirst(list, a, b, c, d);
      } else if list[b].freq < list[c].freq {
        UnionBeyondClass(list, a, b, c, d);
      } else {
        NeverRises(list, c - 1, c);
        NeverRises(list, c, b);
        UnionLoses(list, a, b, c, d);
      }
    } else if StartsClass(list, a) {
      UnionSecondAhead(list, a, b, c, d);
    } else {
      NeverRises(list, a - 1, a);
      UnionMisplaces(list, a, b, c, d, if b < d then d else b);
    }
  }

  /** Slices that are cut inside a run of equal frequencies lose a reference. */
  lemma MergeLosesTies()
    ensures var list := [Ref(1, 5), Ref(2, 5), Ref(3, 5)];
            ResultList(list) && SetUnion(list[0..2], list[1..3]) == [Ref(1, 5), Ref(2, 5)]
  {
    var list := [Ref(1, 5), Ref(2, 5), Ref(3, 5)];
    assert list[0..2] == [Ref(1, 5), Ref(2, 5)] && list[1..3] == [Ref(2, 5), Ref(3, 5)];
    assert SetUnion([Ref(2, 5)], [Ref(3, 5)]) == [Ref(2, 5)];
  }
}
