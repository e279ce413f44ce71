/** Building postlists, writing them, and reading slices of what was written. */
module PostlistFiles {
  import opened MachineInts
  import opened Options
  import opened PostlistIterators
  import opened Sequences

  /** valueSize is 0 when the values differ in size. */
  datatype Head = Head(valueCount: nat, valueSize: nat, totalSize: nat)

  /** A serialised postlist; the sizes are there when the values differ in size. */
  datatype File = File(head: Head, sizes: seq<nat>, payload: seq<int>)

  datatype Iter = Variable(v: VariableSizeIter) | Constant(c: ConstantSizeIter)

  /** The iterator stands before the first of exactly these values. */
  ghost predicate Iterates(it: Iter, values: seq<Value>)
    reads if it.Variable? then {it.v} else {}, if it.Constant? then {it.c} else {}
  {
    match it
    case Variable(v) => v.Valid() && v.values == values && v.indexCur == 0
    case Constant(c) => c.Valid() && c.values == values && c.indexCur == 0
  }

  // ------------------------------------------------------------------ the head

  lemma {:induction false} SumIsPayload(values: seq<Value>)
    ensures Sum(Sizes(values)) == |Payload(values)|
  {
    if values != [] {
      var front := values[..|values| - 1];
      SumIsPayload(front);
      assert Sizes(values)[..|values| - 1] == Sizes(front);
    }
  }

  method Accumulate(sizes: seq<nat>) returns (sum: nat)
    ensures sum == Sum(sizes)
  {
    sum := 0;
    for i := 0 to |sizes|
      invariant sum == Sum(sizes[..i])
    {
      assert sizes[..i + 1][..i] == sizes[..i];
      sum := sum + sizes[i];
    }
    assert sizes[..|sizes|] == sizes;
  }

  ghost predicate HeadOf(head: Head, values: seq<Value>)
  {
    && head.valueCount == |values| && head.totalSize == |Payload(values)|
    && (head.valueSize > 0 ==> values != [] && Uniform(values, head.valueSize))
    && (head.valueSize == 0 ==> values == [] || !exists size :: size > 0 && Uniform(values, size))
  }

  method MakeHead(ghost values: seq<Value>, sizes: seq<nat>) returns (head: Head)
    requires sizes == Sizes(values)
    ensures HeadOf(head, values)
  {
    SumIsPayload(values);
    if sizes == [] {
      return Head(0, 0, 0);
    }
    var total := Accumulate(sizes);
    var valueSize := sizes[0];
    for i := 0 to |sizes|
      invariant valueSize == sizes[0]
      invariant forall j :: 0 <= j < i ==> sizes[j] == sizes[0]
    {
      if sizes[i] != valueSize {
        assert |values[i]| != |values[0]|;
        return Head(|sizes|, 0, total);
      }
    }
    assert forall i :: 0 <= i < |values| ==> |values[i]| == sizes[i];
    return Head(|sizes|, valueSize, total);
  }

  /** Values of one size have to fit into a page, since such a page takes whole values only. Other values need not. */
  ghost predicate FixedSizesFit(values: seq<Value>, pageSize: nat)
  {
    forall size :: size > 0 && values != [] && Uniform(values, size) ==> size <= pageSize
  }

  // ------------------------------------------------------------------ building

  class PostlistBuilder {
    const pageSize: nat
    var memUsage: nat
    var values: seq<Value>
    var sizes: seq<nat>
    var swap: Option<seq<int>>
    /** All values pushed since the last build. */
    ghost var pushed: seq<Value>

    ghost predicate Valid()
      reads this
    {
      && sizes == Sizes(pushed)
      && (swap.None? ==> values == pushed && memUsage == |Payload(pushed)| <= pageSize)
      && (swap.Some? ==> values == [] && swap.value == Payload(pushed))
    }

    constructor (pageSize: nat)
      ensures Valid() && pushed == [] && this.pageSize == pageSize
    {
      this.pageSize := pageSize;
      memUsage, values, sizes, swap, pushed := 0, [], [], None, [];
    }

    /** Values stay in memory until they exceed a page; then all of them move to the swap file. */
    method PushBack(value: Value)
      requires Valid()
      modifies this
      ensures Valid() && pushed == old(pushed) + [value]
    {
      ghost var all := pushed + [value];
      assert all[..|pushed|] == pushed;
      assert Sizes(all) == sizes + [|value|];
      sizes := sizes + [|value|];
      pushed := all;
      if swap.Some? {
        swap := Some(swap.value + value);
      } else {
        values := values + [value];
        memUsage := memUsage + |value|;
        if memUsage > pageSize {
          SwapOutValues();
        }
      }
    }

    method SwapOutValues()
      requires values == pushed
      modifies this`swap, this`values, this`memUsage
      ensures values == [] && memUsage == 0 && swap == Some(Payload(pushed))
    {
      var stream := WriteValues(values);
      swap := Some(stream);
      values := [];
      memUsage := 0;
    }

    /** The postlist of all pushed values; the builder is empty afterwards. */
    method Build() returns (head: Head, it: Iter)
      requires Valid()
      requires FixedSizesFit(pushed, pageSize)
      modifies this
      ensures Valid() && pushed == [] && fresh(if it.Variable? then {it.v} else {}) && fresh(if it.Constant? then {it.c} else {})
      ensures HeadOf(head, old(pushed)) && Iterates(it, old(pushed)) && (it.Variable? <==> head.valueSize == 0)
    {
      ghost var all := pushed;
      head := MakeHead(all, sizes);
      WholeStream(all);
      if swap.Some? {
        if head.valueSize == 0 {
          var v := new VariableSizeIter.Paged(all, sizes, swap.value, 0, pageSize);
          it := Variable(v);
        } else {
          var c := new ConstantSizeIter.Paged(all, |sizes|, head.valueSize, swap.value, 0, pageSize);
          it := Constant(c);
        }
      } else {
        var page := WriteValues(values);
        if head.valueSize == 0 {
          var v := new VariableSizeIter.InMemory(all, sizes, page);
          it := Variable(v);
        } else {
          var c := new ConstantSizeIter.InMemory(all, |sizes|, head.valueSize, page);
          it := Constant(c);
        }
      }
      memUsage, values, sizes, swap, pushed := 0, [], [], None, [];
    }
  }

  lemma WholeStream(values: seq<Value>)
    ensures Payload(values)[0..0 + |Payload(values)|] == Payload(values)
  {
  }

  method WriteValues(values: seq<Value>) returns (stream: seq<int>)
    ensures stream == Payload(values)
  {
    stream := [];
    for i := 0 to |values|
      invariant stream == Payload(values[..i])
    {
      assert values[..i + 1][..i] == values[..i];
      stream := stream + values[i];
    }
    assert values[..|values|] == values;
  }

  // ------------------------------------------------------------------ reading a slice

  /** The file holds exactly these values. */
  ghost predicate FileOf(file: File, values: seq<Value>)
  {
    && HeadOf(file.head, values) && file.payload == Payload(values)
    && (file.head.valueSize == 0 ==> file.sizes == Sizes(values))
  }

  function Slice(values: seq<Value>, begin: nat, count: nat): seq<Value>
  {
    var b := Min(begin, |values|);
    values[b..b + Min(count, |values| - b)]
  }

  /** The page size of a swap file that is opened without one. */
  const DEFAULT_PAGE_SIZE: nat := 5 * 1024 * 1024

  /** Values of one size are read in one piece, or else have to fit into a page of the default size. */
  ghost predicate FixedSizeReads(size: nat, slice: seq<Value>, pageSize: nat)
  {
    size <= DEFAULT_PAGE_SIZE || |Payload(slice)| <= pageSize
  }

  /** Reads part of a postlist: at most valueCount values from indexBegin on. A part that exceeds the page size stays in
      the file, and its pages have the default size. */
  method ReadSlice(file: File, indexBegin: nat, valueCount: nat, pageSize: nat, ghost values: seq<Value>)
    returns (it: Iter)
    requires FileOf(file, values) && FixedSizeReads(file.head.valueSize, Slice(values, indexBegin, valueCount), pageSize)
    ensures Iterates(it, Slice(values, indexBegin, valueCount))
    ensures fresh(if it.Variable? then {it.v} else {}) && fresh(if it.Constant? then {it.c} else {})
  {
    var begin := Min(indexBegin, file.head.valueCount);
    var count := Min(valueCount, file.head.valueCount - begin);
    if file.head.valueSize == 0 {
      var v := ReadVariable(file, begin, count, pageSize, values);
      it := Variable(v);
    } else {
      var c := ReadConstant(file, begin, count, pageSize, values);
      it := Constant(c);
    }
  }

  method ReadVariable(file: File, begin: nat, count: nat, pageSize: nat, ghost values: seq<Value>)
    returns (v: VariableSizeIter)
    requires FileOf(file, values) && file.head.valueSize == 0 && begin + count <= |values|
    ensures fresh(v) && v.Valid() && v.values == values[begin..begin + count] && v.indexCur == 0
  {
    ghost var slice := values[begin..begin + count];
    PayloadSlice(values, begin, begin + count);
    SliceSizes(values, begin, begin + count);
    var skipped := Accumulate(file.sizes[..begin]);
    var sizes := file.sizes[begin..begin + count];
    var total := Accumulate(sizes);
    PartOfStream(file.payload, skipped, total, Payload(slice));
    if total > pageSize {
      v := new VariableSizeIter.Paged(slice, sizes, file.payload, skipped, DEFAULT_PAGE_SIZE);
    } else {
      v := new VariableSizeIter.InMemory(slice, sizes, file.payload[skipped..skipped + total]);
    }
  }

  method ReadConstant(file: File, begin: nat, count: nat, pageSize: nat, ghost values: seq<Value>)
    returns (c: ConstantSizeIter)
    requires FileOf(file, values) && 0 < file.head.valueSize && begin + count <= |values|
    requires FixedSizeReads(file.head.valueSize, values[begin..begin + count], pageSize)
    ensures fresh(c) && c.Valid() && c.values == values[begin..begin + count] && c.indexCur == 0
  {
    ghost var slice := values[begin..begin + count];
    var size := file.head.valueSize;
    PayloadSlice(values, begin, begin + count);
    UniformDistance(values, size, begin, begin + count);
    var skipped, total := Times(begin, size), Times(count, size);
    PartOfStream(file.payload, skipped, total, Payload(slice));
    if total > pageSize {
      c := new ConstantSizeIter.Paged(slice, count, size, file.payload, skipped, DEFAULT_PAGE_SIZE);
    } else {
      c := new ConstantSizeIter.InMemory(slice, count, size, file.payload[skipped..skipped + total]);
    }
  }

  lemma SliceSizes(values: seq<Value>, i: nat, j: nat)
    requires i <= j <= |values|
    ensures Sizes(values)[i..j] == Sizes(values[i..j])
    ensures Sum(Sizes(values)[..i]) == Offset(values, i)
    ensures Sum(Sizes(values)[i..j]) == |Payload(values[i..j])|
  {
    assert Sizes(values)[..i] == Sizes(values[..i]);
    assert Sizes(values)[i..j] == Sizes(values[i..j]);
    SumIsPayload(values[..i]);
    SumIsPayload(values[i..j]);
  }

  lemma PartOfStream(stream: seq<int>, skipped: nat, total: nat, part: seq<int>)
    requires skipped + total <= |stream| && stream[skipped..skipped + total] == part
    ensures stream[skipped..skipped + |part|] == part
  {
  }

  // ------------------------------------------------------------------ the round trip

  method Write(head: Head, it: Iter, ghost values: seq<Value>) returns (file: File)
    requires HeadOf(head, values) && Iterates(it, values) && (it.Variable? <==> head.valueSize == 0)
    modifies if it.Variable? then {it.v} else {}, if it.Constant? then {it.c} else {}
    ensures FileOf(file, values)
  {
    if it.Variable? {
      var sizes, payload := it.v.Write();
      file := File(head, sizes, payload);
    } else {
      var payload := it.c.Write();
      file := File(head, [], payload);
    }
  }

  /** All values that the iterator yields, after which it is rewound. */
  method Drain(it: Iter, ghost values: seq<Value>) returns (out: seq<Value>)
    requires Iterates(it, values)
    modifies if it.Variable? then {it.v} else {}, if it.Constant? then {it.c} else {}
    ensures out == values && Iterates(it, values)
  {
    if it.Variable? {
      out := DrainVariable(it.v);
    } else {
      out := DrainConstant(it.c);
    }
  }

  method DrainVariable(v: VariableSizeIter) returns (out: seq<Value>)
    requires v.Valid() && v.indexCur == 0
    modifies v
    ensures v.Valid() && v.indexCur == 0
    ensures out == v.values
  {
    ghost var values := v.values;
    out := [];
    var value := v.Next();
    while value.Some?
      invariant v.Valid() && |out| <= |values| && out == values[..|out|]
      invariant value == if |out| < |values| then Some(values[|out|]) else None
      invariant v.indexCur == |out| + if value.Some? then 1 else 0
      decreases |values| - |out|
    {
      TakeNext(values, |out|);
      out := out + [value.value];
      value := v.Next();
    }
    v.Rewind();
  }

  method DrainConstant(c: ConstantSizeIter) returns (out: seq<Value>)
    requires c.Valid() && c.indexCur == 0
    modifies c
    ensures c.Valid() && c.indexCur == 0
    ensures out == c.values
  {
    ghost var values := c.values;
    out := [];
    var value := c.Next();
    while value.Some?
      invariant c.Valid() && |out| <= |values| && out == values[..|out|]
      invariant value == if |out| < |values| then Some(values[|out|]) else None
      invariant c.indexCur == |out| + if value.Some? then 1 else 0
      decreases |values| - |out|
    {
      TakeNext(values, |out|);
      out := out + [value.value];
      value := c.Next();
    }
    c.Rewind();
  }

  /**
   * Values that are pushed into a builder, built, written and read back from any position with any length
   * come out as exactly that slice, and once more after a rewind, whether they are paged or not.
   */
  method RoundTrip(values: seq<Value>, buildPage: nat, readPage: nat, begin: nat, count: nat)
    returns (once: seq<Value>, again: seq<Value>)
    requires FixedSizesFit(values, buildPage)
    requires forall size :: size > 0 && values != [] && Uniform(values, size) ==>
               FixedSizeReads(size, Slice(values, begin, count), readPage)
    ensures once == again == Slice(values, begin, count)
  {
    var builder := new PostlistBuilder(buildPage);
    for i := 0 to |values|
      invariant builder.Valid() && fresh(builder) && builder.pushed == values[..i] && builder.pageSize == buildPage
    {
      TakeNext(values, i);
      builder.PushBack(values[i]);
    }
    assert values[..|values|] == values;
    var head, built := builder.Build();
    var file := Write(head, built, values);
    var it := ReadSlice(file, begin, count, readPage, values);
    ghost var slice := Slice(values, begin, count);
    once := Drain(it, slice);
    again := Drain(it, slice);
  }
}
