/** Sorting a postlist that may not fit into memory: sorted runs in temporary files and a merge of all of them. */
module PostlistSorter {
  import opened Sequences

  ghost predicate Arranged<T(!new)>(r: seq<T>, s: seq<T>, leq: (T, T) -> bool)
  {
    Sorted(r, leq) && multiset(r) == multiset(s)
  }

  /** All values of all runs. */
  ghost function Pool<T>(runs: seq<seq<T>>): multiset<T>
  {
    if runs == [] then multiset{} else Pool(runs[..|runs| - 1]) + multiset(runs[|runs| - 1])
  }

  lemma {:induction false} PoolWithout<T>(runs: seq<seq<T>>, i: nat)
    requires i < |runs|
    ensures Pool(runs) == Pool(runs[..i] + runs[i + 1..]) + multiset(runs[i])
  {
    var front, last := runs[..|runs| - 1], runs[|runs| - 1];
    if i == |front| {
      assert runs[..i] + runs[i + 1..] == front;
    } else {
      PoolWithout(front, i);
      var fewer := runs[..i] + runs[i + 1..];
      assert fewer[..|fewer| - 1] == front[..i] + front[i + 1..];
    }
  }

  lemma PoolUpdate<T>(runs: seq<seq<T>>, i: nat, run: seq<T>)
    requires i < |runs|
    ensures Pool(runs[i := run]) + multiset(runs[i]) == Pool(runs) + multiset(run)
  {
    PoolWithout(runs, i);
    PoolWithout(runs[i := run], i);
    assert runs[i := run][..i] + runs[i := run][i + 1..] == runs[..i] + runs[i + 1..];
  }

  ghost predicate SortedRuns<T(!new)>(runs: seq<seq<T>>, leq: (T, T) -> bool)
  {
    forall i :: 0 <= i < |runs| ==> runs[i] != [] && Sorted(runs[i], leq)
  }

  ghost predicate NoRunLonger<T>(runs: seq<seq<T>>, n: nat)
  {
    forall i :: 0 <= i < |runs| ==> |runs[i]| <= n
  }

  /** Sorts the collected values and writes them to a new temporary file. */
  method WriteRun<T(!new)>(runs: seq<seq<T>>, values: seq<T>, leq: (T, T) -> bool, ghost n: nat)
    returns (r: seq<seq<T>>)
    requires TotalPreorder(leq) && SortedRuns(runs, leq) && values != []
    requires NoRunLonger(runs, n) && |values| <= n
    ensures SortedRuns(r, leq) && Pool(r) == Pool(runs) + multiset(values) && NoRunLonger(r, n)
  {
    var run := Sort(values, leq);
    AddRun(runs, run, leq);
    r := runs + [run];
  }

  /** Cuts the values into sorted runs, none of them empty and none longer than a bucket may be. */
  method Scatter<T(!new)>(postlist: seq<T>, bucketCount: nat, leq: (T, T) -> bool) returns (runs: seq<seq<T>>)
    requires TotalPreorder(leq)
    ensures SortedRuns(runs, leq) && Pool(runs) == multiset(postlist)
    ensures bucketCount > 0 ==> NoRunLonger(runs, 1 + Quotient(|postlist|, bucketCount))
  {
    var count := if bucketCount == 0 then 1 else bucketCount;
    var maxValuesPerBucket := 1 + Quotient(|postlist|, count);
    runs := ScatterInto(postlist, maxValuesPerBucket, leq);
  }

  /** The first i values: those before `written` are in runs, the others are collected for the next one. */
  ghost predicate Collecting<T(!new)>(runs: seq<seq<T>>, values: seq<T>, written: nat, postlist: seq<T>, i: nat, maxValues: nat,
                                      leq: (T, T) -> bool)
  {
    && written <= i <= |postlist| && values == postlist[written..i] && |values| < maxValues
    && SortedRuns(runs, leq) && NoRunLonger(runs, maxValues)
    && Pool(runs) == multiset(postlist[..written])
  }

  lemma CollectNext<T(!new)>(runs: seq<seq<T>>, values: seq<T>, written: nat, postlist: seq<T>, i: nat, maxValues: nat,
                             leq: (T, T) -> bool)
    requires i < |postlist| && Collecting(runs, values, written, postlist, i, maxValues, leq) && |values| + 1 < maxValues
    ensures Collecting(runs, values + [postlist[i]], written, postlist, i + 1, maxValues, leq)
  {
    SliceNext(postlist, written, i);
  }

  lemma RunIsFull<T(!new)>(runs: seq<seq<T>>, values: seq<T>, written: nat, postlist: seq<T>, i: nat, maxValues: nat,
                           leq: (T, T) -> bool, r: seq<seq<T>>)
    requires i < |postlist| && Collecting(runs, values, written, postlist, i, maxValues, leq)
    requires SortedRuns(r, leq) && NoRunLonger(r, maxValues) && Pool(r) == Pool(runs) + multiset(values + [postlist[i]])
    ensures Collecting(r, [], i + 1, postlist, i + 1, maxValues, leq)
  {
    SliceNext(postlist, written, i);
    JoinSlices(postlist, written, i + 1);
  }

  method ScatterInto<T(!new)>(postlist: seq<T>, maxValues: nat, leq: (T, T) -> bool) returns (runs: seq<seq<T>>)
    requires TotalPreorder(leq) && maxValues > 0
    ensures SortedRuns(runs, leq) && Pool(runs) == multiset(postlist) && NoRunLonger(runs, maxValues)
  {
    runs := [];
    var values: seq<T> := [];
    ghost var written := 0;
    for i := 0 to |postlist|
      invariant Collecting(runs, values, written, postlist, i, maxValues, leq)
    {
      ghost var before, collected := runs, values;
      values := values + [postlist[i]];
      if |values| == maxValues {
        runs := WriteRun(runs, values, leq, maxValues);
        RunIsFull(before, collected, written, postlist, i, maxValues, leq, runs);
        values, written := [], i + 1;
      } else {
        CollectNext(runs, collected, written, postlist, i, maxValues, leq);
      }
    }
    assert postlist[..|postlist|] == postlist;
    JoinSlices(postlist, written, |postlist|);
    if values != [] {
      runs := WriteRun(runs, values, leq, maxValues);
    }
  }

  lemma SliceNext<T>(s: seq<T>, i: nat, j: nat)
    requires i <= j < |s|
    ensures s[i..j + 1] == s[i..j] + [s[j]]
  {
  }

  lemma JoinSlices<T>(s: seq<T>, i: nat, j: nat)
    requires i <= j <= |s|
    ensures multiset(s[..j]) == multiset(s[..i]) + multiset(s[i..j])
  {
    assert s[..j] == s[..i] + s[i..j];
  }

  lemma AddRun<T(!new)>(runs: seq<seq<T>>, run: seq<T>, leq: (T, T) -> bool)
    requires SortedRuns(runs, leq) && run != [] && Sorted(run, leq)
    ensures SortedRuns(runs + [run], leq) && Pool(runs + [run]) == Pool(runs) + multiset(run)
  {
    assert (runs + [run])[..|runs|] == runs;
  }

  /** std::min_element: the first position of a least value. */
  method MinElement<T(!new)>(values: seq<T>, leq: (T, T) -> bool) returns (k: nat)
    requires values != [] && TotalPreorder(leq)
    ensures k < |values| && forall i :: 0 <= i < |values| ==> leq(values[k], values[i])
    ensures forall i :: 0 <= i < k ==> !leq(values[i], values[k])
  {
    k := 0;
    for i := 1 to |values|
      invariant k < i
      invariant forall j :: 0 <= j < i ==> leq(values[k], values[j])
      invariant forall j :: 0 <= j < k ==> !leq(values[j], values[k])
    {
      if !leq(values[k], values[i]) {
        k := i;
      }
    }
  }

  /** What is left of the runs: the value that was read from each, and the rest of its file. */
  ghost function Left<T>(values: seq<T>, files: seq<seq<T>>): seq<seq<T>>
    requires |values| == |files|
  {
    seq(|values|, i requires 0 <= i < |values| => [values[i]] + files[i])
  }

  lemma HeadsAreLeast<T(!new)>(values: seq<T>, files: seq<seq<T>>, k: nat, leq: (T, T) -> bool)
    requires |values| == |files| && k < |values| && TotalPreorder(leq) && SortedRuns(Left(values, files), leq)
    requires forall i :: 0 <= i < |values| ==> leq(values[k], values[i])
    ensures forall x :: x in Pool(Left(values, files)) ==> leq(values[k], x)
  {
    var runs := Left(values, files);
    forall x | x in Pool(runs)
      ensures leq(values[k], x)
    {
      var i := SomeRun(runs, x);
      var j :| 0 <= j < |runs[i]| && runs[i][j] == x;
      assert runs[i] != [] && runs[i][0] == values[i];
      assert leq(values[i], x);
    }
  }

  lemma {:induction false} SomeRun<T>(runs: seq<seq<T>>, x: T) returns (i: nat)
    requires x in Pool(runs)
    ensures i < |runs| && x in runs[i]
  {
    var last := |runs| - 1;
    if x in runs[last] { i := last; } else { i := SomeRun(runs[..last], x); }
  }

  /** Takes a least head and reads the next value of its run; an exhausted run is dropped. */
  method Next<T(!new)>(values: seq<T>, files: seq<seq<T>>, leq: (T, T) -> bool)
    returns (x: T, values': seq<T>, files': seq<seq<T>>)
    requires TotalPreorder(leq) && |values| == |files| && values != [] && SortedRuns(Left(values, files), leq)
    ensures |values'| == |files'| && SortedRuns(Left(values', files'), leq)
    ensures Pool(Left(values, files)) == Pool(Left(values', files')) + multiset{x}
    ensures forall y :: y in Pool(Left(values, files)) ==> leq(x, y)
  {
    var k := MinElement(values, leq);
    HeadsAreLeast(values, files, k, leq);
    x := values[k];
    ghost var runs := Left(values, files);
    assert runs[k] == [x] + files[k];
    if files[k] != [] {
      values', files' := values[k := files[k][0]], files[k := files[k][1..]];
      Advanced(values, files, k, leq);
    } else {
      values', files' := values[..k] + values[k + 1..], files[..k] + files[k + 1..];
      Dropped(values, files, k, leq);
    }
  }

  lemma Advanced<T(!new)>(values: seq<T>, files: seq<seq<T>>, k: nat, leq: (T, T) -> bool)
    requires |values| == |files| && k < |values| && files[k] != [] && SortedRuns(Left(values, files), leq)
    ensures var values', files' := values[k := files[k][0]], files[k := files[k][1..]];
            && SortedRuns(Left(values', files'), leq)
            && Pool(Left(values, files)) == Pool(Left(values', files')) + multiset{values[k]}
  {
    var runs := Left(values, files);
    LeftAdvanced(values, files, k);
    assert runs[k] != [] && Sorted(runs[k], leq);
    TailSorted(runs[k], leq);
    PoolUpdate(runs, k, files[k]);
    ghost var rest := files[k];
    assert multiset(runs[k]) == multiset{values[k]} + multiset(rest);
    TakenOut(Pool(runs[k := rest]), Pool(runs), multiset(rest), values[k]);
  }

  lemma TakenOut<T>(a: multiset<T>, b: multiset<T>, rest: multiset<T>, x: T)
    requires a + (multiset{x} + rest) == b + rest
    ensures b == a + multiset{x}
  {
    forall y
      ensures b[y] == (a + multiset{x})[y]
    {
      assert (a + (multiset{x} + rest))[y] == (b + rest)[y];
    }
  }

  lemma LeftAdvanced<T>(values: seq<T>, files: seq<seq<T>>, k: nat)
    requires |values| == |files| && k < |values| && files[k] != []
    ensures Left(values[k := files[k][0]], files[k := files[k][1..]]) == Left(values, files)[k := files[k]]
    ensures Left(values, files)[k] == [values[k]] + files[k] && files[k] == Left(values, files)[k][1..]
  {
    assert files[k] == [files[k][0]] + files[k][1..];
  }

  lemma TailSorted<T(!new)>(s: seq<T>, leq: (T, T) -> bool)
    requires s != [] && Sorted(s, leq)
    ensures Sorted(s[1..], leq)
  {
  }

  lemma Dropped<T(!new)>(values: seq<T>, files: seq<seq<T>>, k: nat, leq: (T, T) -> bool)
    requires |values| == |files| && k < |values| && files[k] == [] && SortedRuns(Left(values, files), leq)
    ensures var values', files' := values[..k] + values[k + 1..], files[..k] + files[k + 1..];
            && SortedRuns(Left(values', files'), leq)
            && Pool(Left(values, files)) == Pool(Left(values', files')) + multiset{values[k]}
  {
    var values', files' := values[..k] + values[k + 1..], files[..k] + files[k + 1..];
    var runs := Left(values, files);
    assert Left(values', files') == runs[..k] + runs[k + 1..];
    assert runs[k] == [values[k]];
    PoolWithout(runs, k);
  }

  /** The k-way merge of all runs. Every run has a first value to read, so reading never fails. */
  method Merge<T(!new)>(runs: seq<seq<T>>, leq: (T, T) -> bool) returns (out: seq<T>)
    requires TotalPreorder(leq) && SortedRuns(runs, leq)
    ensures Sorted(out, leq) && multiset(out) == Pool(runs)
  {
    var values, files := ReadHeads(runs);
    ghost var left := Pool(runs);
    out := [];
    while values != []
      invariant |values| == |files| && SortedRuns(Left(values, files), leq)
      invariant left == Pool(Left(values, files))
      invariant multiset(out) + left == Pool(runs)
      invariant Sorted(out, leq) && NothingLeftBelow(out, left, leq)
      decreases |left|
    {
      var x;
      x, values, files := Next(values, files, leq);
      AppendLeast(out, x, left, Pool(Left(values, files)), leq);
      left := Pool(Left(values, files));
      out := out + [x];
    }
    assert Left(values, files) == [];
  }

  ghost predicate NothingLeftBelow<T(!new)>(out: seq<T>, left: multiset<T>, leq: (T, T) -> bool)
  {
    forall i, x :: 0 <= i < |out| && x in left ==> leq(out[i], x)
  }

  lemma AppendLeast<T(!new)>(out: seq<T>, x: T, left: multiset<T>, left': multiset<T>, leq: (T, T) -> bool)
    requires Sorted(out, leq) && NothingLeftBelow(out, left, leq)
    requires left == left' + multiset{x} && forall y :: y in left ==> leq(x, y)
    ensures Sorted(out + [x], leq) && NothingLeftBelow(out + [x], left', leq)
  {
    assert x in left;
    assert forall y :: y in left' ==> y in left;
  }

  method ReadHeads<T(!new)>(runs: seq<seq<T>>) returns (values: seq<T>, files: seq<seq<T>>)
    requires forall i :: 0 <= i < |runs| ==> runs[i] != []
    ensures |values| == |files| && Left(values, files) == runs
  {
    values, files := [], [];
    for i := 0 to |runs|
      invariant |values| == |files| == i && Left(values, files) == runs[..i]
    {
      assert runs[i] == [runs[i][0]] + runs[i][1..];
      values := values + [runs[i][0]];
      files := files + [runs[i][1..]];
    }
  }

  function BucketCount(totalSize: nat, maxMemoryUsageMb: nat): nat
  {
    Quotient(totalSize, 1 + maxMemoryUsageMb * 1024 * 1024)
  }

  function Quotient(a: nat, b: nat): nat
    requires b > 0
  {
    a / b
  }

  /** Ordered by the comparison and the same values, whatever the memory limit and the size in bytes. */
  method SortPostlist<T(!new)>(postlist: seq<T>, totalSize: nat, maxMemoryUsageMb: nat, leq: (T, T) -> bool)
    returns (sorted: seq<T>)
    requires TotalPreorder(leq)
    ensures Arranged(sorted, postlist, leq)
  {
    var bucketCount := BucketCount(totalSize, maxMemoryUsageMb);
    if bucketCount == 0 {
      sorted := Sort(postlist, leq);
    } else {
      var buckets := Scatter(postlist, bucketCount, leq);
      sorted := Merge(buckets, leq);
    }
  }
}
