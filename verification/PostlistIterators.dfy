/**
 * Iterating over the values of a postlist, in memory or page by page from a swap file.
 * A value is its serialised bytes; a file is a sequence of bytes and a position.
 */
module PostlistIterators {
  import opened MachineInts
  import opened Options
  import opened Sequences

  type Value = seq<int>

  // ------------------------------------------------------------------ payloads

  function Sizes(values: seq<Value>): seq<nat>
  {
    seq(|values|, i requires 0 <= i < |values| => |values[i]|)
  }

  /** The bytes of all values, one after the other. */
  function Payload(values: seq<Value>): seq<int>
  {
    if values == [] then [] else Payload(values[..|values| - 1]) + values[|values| - 1]
  }

  /** Where value i starts in the payload. */
  function Offset(values: seq<Value>, i: nat): nat
    requires i <= |values|
  {
    |Payload(values[..i])|
  }

  lemma {:induction false} PayloadAppend(a: seq<Value>, b: seq<Value>)
    ensures Payload(a + b) == Payload(a) + Payload(b)
  {
    if b == [] {
      assert a + b == a;
    } else {
      PayloadAppend(a, b[..|b| - 1]);
      assert (a + b)[..|a + b| - 1] == a + b[..|b| - 1];
    }
  }

  lemma PayloadSlice(values: seq<Value>, i: nat, j: nat)
    requires i <= j <= |values|
    ensures Offset(values, i) <= Offset(values, j) <= |Payload(values)|
    ensures Payload(values)[Offset(values, i)..Offset(values, j)] == Payload(values[i..j])
    ensures |Payload(values[i..j])| == Offset(values, j) - Offset(values, i)
  {
    PayloadAppend(values[..i], values[i..j]);
    PayloadAppend(values[..j], values[j..]);
    assert values[..j] == values[..i] + values[i..j] && values == values[..j] + values[j..];
  }

  lemma OffsetNext(values: seq<Value>, i: nat)
    requires i < |values|
    ensures Offset(values, i + 1) == Offset(values, i) + |values[i]| <= |Payload(values)|
    ensures Payload(values)[Offset(values, i)..Offset(values, i + 1)] == values[i]
  {
    PayloadSlice(values, i, i + 1);
    assert values[i..i + 1] == [values[i]] && Payload([values[i]]) == values[i] by {
      assert [values[i]][..0] == [];
    }
  }

  lemma WholePayload(values: seq<Value>)
    ensures Offset(values, 0) == 0 && Offset(values, |values|) == |Payload(values)|
  {
    assert values[..|values|] == values;
  }

  /** What a page gives for the value at cur, and the offset behind that value. */
  lemma PageYields(values: seq<Value>, page: seq<int>, begin: nat, cur: nat, end: nat, from: nat)
    requires begin <= cur < end <= |values| && page == Payload(values[begin..end])
    requires from == Offset(values, cur) - Offset(values, begin)
    ensures from + |values[cur]| <= |page| && page[from..from + |values[cur]|] == values[cur]
    ensures from + |values[cur]| == Offset(values, cur + 1) - Offset(values, begin)
  {
    PageHolds(values, begin, cur, end);
    OffsetNext(values, cur);
  }

  // ------------------------------------------------------------------ values of different sizes

  class VariableSizeIter {
    ghost const values: seq<Value>
    const sizes: seq<nat>
    const stream: seq<int>
    const start: nat
    const paged: bool
    const pageSize: nat
    var position: nat
    var buffer: seq<int>
    var indexBegin: nat
    var indexCur: nat
    var indexEnd: nat
    var offset: nat

    /** The page holds the values from indexBegin to indexEnd, and the stream stands behind them. */
    ghost predicate Valid()
      reads this
    {
      && sizes == Sizes(values)
      && indexBegin <= indexCur <= indexEnd <= |values|
      && buffer == Payload(values[indexBegin..indexEnd])
      && offset == Offset(values, indexCur) - Offset(values, indexBegin)
      && (!paged ==> indexBegin == 0 && indexEnd == |values|)
      && (paged ==> StreamHolds() && position == start + Offset(values, indexEnd))
    }

    ghost predicate StreamHolds()
      reads this
    {
      start + |Payload(values)| <= |stream| && stream[start..start + |Payload(values)|] == Payload(values)
    }

    constructor InMemory(ghost values: seq<Value>, sizes: seq<nat>, page: seq<int>)
      requires sizes == Sizes(values) && page == Payload(values)
      ensures Valid() && indexCur == 0 && this.values == values
    {
      this.values, this.sizes, stream, start, paged, pageSize := values, sizes, [], 0, false, 0;
      position, buffer, indexBegin, indexCur, indexEnd, offset := 0, page, 0, 0, |sizes|, 0;
      WholePayload(values);
      assert values[0..|values|] == values;
    }

    constructor Paged(ghost values: seq<Value>, sizes: seq<nat>, stream: seq<int>, start: nat, pageSize: nat)
      requires sizes == Sizes(values) && start + |Payload(values)| <= |stream|
      requires stream[start..start + |Payload(values)|] == Payload(values)
      ensures Valid() && indexCur == 0 && this.values == values
    {
      this.values, this.sizes, this.stream, this.start, paged, this.pageSize := values, sizes, stream, start, true, pageSize;
      position, buffer, indexBegin, indexCur, indexEnd, offset := start, [], 0, 0, 0, 0;
      WholePayload(values);
    }

    /** How many values the next page takes: as many as fit, and the first one that exceeds the page size. */
    method MeasurePage(first: nat) returns (newValueCount: nat, newBufferSize: nat)
      requires sizes == Sizes(values) && first <= |values|
      ensures first + newValueCount <= |values|
      ensures newBufferSize == Offset(values, first + newValueCount) - Offset(values, first)
      ensures newValueCount == 0 <==> first == |values|
    {
      newValueCount, newBufferSize := 0, 0;
      PayloadSlice(values, first, first);
      for i := first to |sizes|
        invariant newValueCount == i - first
        invariant newBufferSize == Offset(values, i) - Offset(values, first)
      {
        OffsetNext(values, i);
        newValueCount := newValueCount + 1;
        newBufferSize := newBufferSize + sizes[i];
        if newBufferSize > pageSize {
          return;
        }
      }
    }

    /** Reads the next page, if there is one. */
    method Swap() returns (newValueCount: nat)
      requires Valid() && paged
      modifies this`position, this`buffer, this`indexBegin, this`indexCur, this`indexEnd, this`offset
      ensures Valid() && indexEnd == old(indexEnd) + newValueCount
      ensures newValueCount == 0 <==> old(indexEnd) == |values|
      ensures newValueCount > 0 ==> indexBegin == indexCur == old(indexEnd)
      ensures newValueCount == 0 ==> indexCur == old(indexCur)
    {
      var first := indexEnd;
      var newBufferSize;
      newValueCount, newBufferSize := MeasurePage(first);
      if newValueCount != 0 {
        PageRead(values, stream, start, first, first + newValueCount);
        buffer := stream[position..position + newBufferSize];
        position, offset := position + newBufferSize, 0;
        indexBegin, indexCur, indexEnd := first, first, first + newValueCount;
      }
    }

    /** The next value, until there is none. */
    method Next() returns (value: Option<Value>)
      requires Valid()
      modifies this`position, this`buffer, this`indexBegin, this`indexCur, this`indexEnd, this`offset
      ensures Valid()
      ensures value == if old(indexCur) < |values| then Some(values[old(indexCur)]) else None
      ensures indexCur == old(indexCur) + if value.Some? then 1 else 0
    {
      if indexCur == |sizes| {
        return None;
      }
      if indexCur == indexEnd {
        var _ := Swap();
      }
      var cur, from := indexCur, offset;
      PageYields(values, buffer, indexBegin, cur, indexEnd, from);
      value := Some(buffer[from..from + sizes[cur]]);
      offset, indexCur := from + sizes[cur], cur + 1;
    }

    method Rewind()
      requires Valid()
      modifies this`position, this`buffer, this`indexBegin, this`indexCur, this`indexEnd, this`offset
      ensures Valid() && indexCur == 0
      ensures paged ==> indexEnd == 0
    {
      offset := 0;
      indexCur := 0;
      WholePayload(values);
      if paged {
        position, indexBegin, indexEnd, buffer := start, 0, 0, [];
      }
    }

    /** Writes the sizes and the payload, page by page. */
    method Write() returns (writtenSizes: seq<nat>, payload: seq<int>)
      requires Valid()
      modifies this`position, this`buffer, this`indexBegin, this`indexCur, this`indexEnd, this`offset
      ensures Valid() && writtenSizes == Sizes(values) && payload == Payload(values)
    {
      Rewind();
      writtenSizes := sizes;
      if !paged {
        WholeSlice(values);
        return sizes, buffer;
      }
      payload := [];
      var more := Swap();
      WholePayload(values);
      while more != 0
        invariant Valid() && (more == 0 ==> indexEnd == |values| && payload == Payload(values))
        invariant more != 0 ==> payload == Payload(values[..indexBegin])
        decreases |values| - indexEnd, more
      {
        PayloadGrows(values, indexBegin, indexEnd);
        payload := payload + buffer;
        more := Swap();
      }
    }
  }

  lemma PayloadGrows(values: seq<Value>, i: nat, j: nat)
    requires i <= j <= |values|
    ensures Payload(values[..i]) + Payload(values[i..j]) == Payload(values[..j])
    ensures j == |values| ==> Payload(values[..j]) == Payload(values)
  {
    PayloadAppend(values[..i], values[i..j]);
    assert values[..j] == values[..i] + values[i..j];
    assert values[..|values|] == values;
  }

  lemma WholeSlice(values: seq<Value>)
    ensures values[0..|values|] == values
  {
  }

  // ------------------------------------------------------------------ values of one size

  ghost predicate Uniform(values: seq<Value>, size: nat)
  {
    forall i :: 0 <= i < |values| ==> |values[i]| == size
  }

  function Times(count: nat, size: nat): nat
  {
    count * size
  }

  lemma TimesAdds(a: nat, b: nat, size: nat)
    ensures Times(a + b, size) == Times(a, size) + Times(b, size)
  {
  }

  lemma {:induction false} UniformOffset(values: seq<Value>, size: nat, i: nat)
    requires Uniform(values, size) && i <= |values|
    ensures Offset(values, i) == Times(i, size)
  {
    if i == 0 {
      WholePayload(values);
    } else {
      UniformOffset(values, size, i - 1);
      OffsetNext(values, i - 1);
      TimesAdds(i - 1, 1, size);
    }
  }

  lemma UniformDistance(values: seq<Value>, size: nat, i: nat, j: nat)
    requires Uniform(values, size) && i <= j <= |values|
    ensures Offset(values, j) - Offset(values, i) == Times(j - i, size)
    ensures Offset(values, i) == Times(i, size)
  {
    UniformOffset(values, size, i);
    UniformOffset(values, size, j);
    TimesAdds(i, j - i, size);
  }

  class ConstantSizeIter {
    ghost const values: seq<Value>
    const count: nat
    const size: nat
    const stream: seq<int>
    const start: nat
    const paged: bool
    const pageSize: nat
    var position: nat
    var buffer: seq<int>
    var indexBegin: nat
    var indexCur: nat
    var indexEnd: nat

    ghost predicate Valid()
      reads this
    {
      && count == |values| && Uniform(values, size) && size > 0
      && indexBegin <= indexCur <= indexEnd <= |values|
      && buffer == Payload(values[indexBegin..indexEnd])
      && (!paged ==> indexBegin == 0 && indexEnd == |values|)
      && (paged ==> StreamHolds() && position == start + Offset(values, indexEnd) && size <= pageSize)
    }

    ghost predicate StreamHolds()
      reads this
    {
      start + |Payload(values)| <= |stream| && stream[start..start + |Payload(values)|] == Payload(values)
    }

    constructor InMemory(ghost values: seq<Value>, count: nat, size: nat, page: seq<int>)
      requires count == |values| && Uniform(values, size) && size > 0 && page == Payload(values)
      ensures Valid() && indexCur == 0 && this.values == values
    {
      this.values, this.count, this.size, stream, start, paged, pageSize := values, count, size, [], 0, false, 0;
      position, buffer, indexBegin, indexCur, indexEnd := 0, page, 0, 0, count;
      WholeSlice(values);
    }

    /** A page must be able to hold one value; otherwise no page would ever advance. */
    constructor Paged(ghost values: seq<Value>, count: nat, size: nat, stream: seq<int>, start: nat, pageSize: nat)
      requires count == |values| && Uniform(values, size) && 0 < size <= pageSize
      requires start + |Payload(values)| <= |stream|
      requires stream[start..start + |Payload(values)|] == Payload(values)
      ensures Valid() && indexCur == 0 && this.values == values
    {
      this.values, this.count, this.size := values, count, size;
      this.stream, this.start, paged, this.pageSize := stream, start, true, pageSize;
      position, buffer, indexBegin, indexCur, indexEnd := start, [], 0, 0, 0;
      WholePayload(values);
    }

    method Swap() returns (newValueCount: nat)
      requires Valid() && paged
      modifies this`position, this`buffer, this`indexBegin, this`indexCur, this`indexEnd
      ensures Valid() && indexEnd == old(indexEnd) + newValueCount
      ensures newValueCount == 0 <==> old(indexEnd) == |values|
      ensures newValueCount > 0 ==> indexBegin == indexCur == old(indexEnd)
      ensures newValueCount == 0 ==> indexCur == old(indexCur)
    {
      var first := indexEnd;
      var maxValuesPerPage := ValuesPerPage(pageSize, size);
      newValueCount := Min(count - first, maxValuesPerPage);
      if newValueCount != 0 {
        PageRead(values, stream, start, first, first + newValueCount);
        UniformDistance(values, size, first, first + newValueCount);
        buffer := stream[position..position + Times(newValueCount, size)];
        position := position + Times(newValueCount, size);
        indexBegin, indexCur, indexEnd := first, first, first + newValueCount;
      }
    }

    /** The next value, until there is none. */
    method Next() returns (value: Option<Value>)
      requires Valid()
      modifies this`position, this`buffer, this`indexBegin, this`indexCur, this`indexEnd
      ensures Valid()
      ensures value == if old(indexCur) < |values| then Some(values[old(indexCur)]) else None
      ensures indexCur == old(indexCur) + if value.Some? then 1 else 0
    {
      if indexCur == count {
        return None;
      }
      if indexCur == indexEnd {
        var _ := Swap();
      }
      var cur := indexCur;
      PageHolds(values, indexBegin, cur, indexEnd);
      UniformDistance(values, size, indexBegin, cur);
      var from := Times(cur - indexBegin, size);
      value := Some(buffer[from..from + size]);
      indexCur := cur + 1;
    }

    method Rewind()
      requires Valid()
      modifies this`position, this`buffer, this`indexBegin, this`indexCur, this`indexEnd
      ensures Valid() && indexCur == 0
      ensures paged ==> indexEnd == 0
    {
      indexCur := 0;
      WholePayload(values);
      if paged {
        position, indexBegin, indexEnd, buffer := start, 0, 0, [];
      }
    }

    method Write() returns (payload: seq<int>)
      requires Valid()
      modifies this`position, this`buffer, this`indexBegin, this`indexCur, this`indexEnd
      ensures Valid() && payload == Payload(values)
    {
      Rewind();
      if !paged {
        WholeSlice(values);
        return buffer;
      }
      payload := [];
      var more := Swap();
      WholePayload(values);
      while more != 0
        invariant Valid() && (more == 0 ==> indexEnd == |values| && payload == Payload(values))
        invariant more != 0 ==> payload == Payload(values[..indexBegin])
        decreases |values| - indexEnd, more
      {
        PayloadGrows(values, indexBegin, indexEnd);
        payload := payload + buffer;
        more := Swap();
      }
    }
  }

  function ValuesPerPage(pageSize: nat, size: nat): (n: nat)
    requires 0 < size
    ensures size <= pageSize ==> n > 0
  {
    pageSize / size
  }

  lemma PageRead(values: seq<Value>, stream: seq<int>, start: nat, i: nat, j: nat)
    requires i <= j <= |values| && start + |Payload(values)| <= |stream|
    requires stream[start..start + |Payload(values)|] == Payload(values)
    ensures Offset(values, i) <= Offset(values, j) <= |Payload(values)|
    ensures stream[start + Offset(values, i)..start + Offset(values, j)] == Payload(values[i..j])
  {
    PayloadSlice(values, i, j);
    SliceOfSlice(stream, start, start + |Payload(values)|, Offset(values, i), Offset(values, j));
  }

  lemma PageHolds(values: seq<Value>, begin: nat, cur: nat, end: nat)
    requires begin <= cur < end <= |values|
    ensures Offset(values, begin) <= Offset(values, cur)
    ensures Offset(values, cur) - Offset(values, begin) + |values[cur]| <= |Payload(values[begin..end])|
    ensures var o := Offset(values, cur) - Offset(values, begin);
            Payload(values[begin..end])[o..o + |values[cur]|] == values[cur]
  {
    PayloadSlice(values, begin, end);
    PayloadSlice(values, begin, cur);
    PayloadSlice(values, cur + 1, end);
    OffsetNext(values, cur);
    var o := Offset(values, cur) - Offset(values, begin);
    SliceOfSlice(Payload(values), Offset(values, begin), Offset(values, end), o, o + |values[cur]|);
  }
}
