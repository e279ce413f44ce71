/**
 * Building an index from unsorted records: records are spread over bucket files by the hash of their key,
 * redistributed when the buckets grow too large, and finally grouped bucket by bucket.
 * The order in which the file system lists the bucket files is a parameter.
 */
module UnsortedInput {
  import PostlistSorter
  import opened Options
  import opened Sequences

  datatype Record<T> = Record(key: string, value: T)

  /** The values of one key, in the order of their records. */
  function ValuesOf<T>(records: seq<Record<T>>, key: string): seq<T>
  {
    if records == [] then []
    else
      var last := records[|records| - 1];
      ValuesOf(records[..|records| - 1], key) + if last.key == key then [last.value] else []
  }

  lemma ValuesOfSnoc<T>(records: seq<Record<T>>, r: Record<T>, key: string)
    ensures ValuesOf(records + [r], key) == ValuesOf(records, key) + if r.key == key then [r.value] else []
  {
    assert (records + [r])[..|records|] == records;
  }

  function Home(key: string, n: nat, hash: string -> nat): (b: nat)
    requires n > 0
    ensures b < n
  {
    hash(key) % n
  }

  /** The values, if they belong here. */
  function If<T>(here: bool, values: seq<T>): seq<T>
  {
    if here then values else []
  }

  /** All records of one key lie in one bucket, in the order in which they were inserted. */
  ghost predicate Partitioned<T(!new)>(buckets: seq<seq<Record<T>>>, history: seq<Record<T>>, hash: string -> nat)
  {
    && buckets != []
    && forall b, key :: 0 <= b < |buckets|
         ==> ValuesOf(buckets[b], key) == If(Home(key, |buckets|, hash) == b, ValuesOf(history, key))
  }

  method EmptyBuckets<T(!new)>(n: nat, hash: string -> nat) returns (buckets: seq<seq<Record<T>>>)
    requires n > 0
    ensures |buckets| == n && Partitioned(buckets, [], hash)
  {
    buckets := seq(n, i => []);
  }

  method InsertRecord<T(!new)>(buckets: seq<seq<Record<T>>>, record: Record<T>, hash: string -> nat,
                         ghost history: seq<Record<T>>) returns (r: seq<seq<Record<T>>>)
    requires Partitioned(buckets, history, hash)
    ensures |r| == |buckets| && Partitioned(r, history + [record], hash)
  {
    var home := Home(record.key, |buckets|, hash);
    r := buckets[home := buckets[home] + [record]];
    forall b, key | 0 <= b < |r|
      ensures ValuesOf(r[b], key) == If(Home(key, |r|, hash) == b, ValuesOf(history + [record], key))
    {
      ValuesOfSnoc(history, record, key);
      ValuesOfSnoc(buckets[home], record, key);
    }
  }

  /** b receives the values of its keys from the records, and nothing else. */
  ghost predicate Received<T(!new)>(before: seq<seq<Record<T>>>, after: seq<seq<Record<T>>>, records: seq<Record<T>>,
                                    hash: string -> nat)
  {
    && |after| == |before| > 0
    && forall b, key :: 0 <= b < |after|
         ==> ValuesOf(after[b], key) == ValuesOf(before[b], key) + If(Home(key, |after|, hash) == b, ValuesOf(records, key))
  }

  /** Copies the records of one old bucket file to the new ones. */
  method Redistribute<T(!new)>(des: seq<seq<Record<T>>>, records: seq<Record<T>>, hash: string -> nat)
    returns (r: seq<seq<Record<T>>>)
    requires des != []
    ensures Received(des, r, records, hash)
  {
    r := des;
    for i := 0 to |records|
      invariant Received(des, r, records[..i], hash)
    {
      var home := Home(records[i].key, |r|, hash);
      TakeNext(records, i);
      ReceivedNext(des, r, records[..i], records[i], home, hash);
      r := r[home := r[home] + [records[i]]];
    }
    assert records[..|records|] == records;
  }

  lemma ReceivedNext<T(!new)>(des: seq<seq<Record<T>>>, r: seq<seq<Record<T>>>, records: seq<Record<T>>,
                              record: Record<T>, home: nat, hash: string -> nat)
    requires Received(des, r, records, hash) && home == Home(record.key, |r|, hash)
    ensures Received(des, r[home := r[home] + [record]], records + [record], hash)
  {
    var after := r[home := r[home] + [record]];
    forall b, key | 0 <= b < |after|
      ensures ValuesOf(after[b], key)
           == ValuesOf(des[b], key) + If(Home(key, |after|, hash) == b, ValuesOf(records + [record], key))
    {
      assert ValuesOf(r[b], key) == ValuesOf(des[b], key) + If(Home(key, |r|, hash) == b, ValuesOf(records, key));
      if b == home {
        ReceivedHere(des[b], r[b], records, record, key, Home(key, |r|, hash) == b);
      } else {
        ValuesOfSnoc(records, record, key);
      }
    }
  }

  lemma ReceivedHere<T>(before: seq<Record<T>>, now: seq<Record<T>>, records: seq<Record<T>>, record: Record<T>,
                        key: string, here: bool)
    requires ValuesOf(now, key) == ValuesOf(before, key) + If(here, ValuesOf(records, key))
    requires record.key == key ==> here
    ensures ValuesOf(now + [record], key) == ValuesOf(before, key) + If(here, ValuesOf(records + [record], key))
  {
    var one := if record.key == key then [record.value] else [];
    ValuesOfSnoc(now, record, key);
    ValuesOfSnoc(records, record, key);
    AppendAssoc(ValuesOf(before, key), If(here, ValuesOf(records, key)), one);
    EmptyRight(ValuesOf(before, key));
  }

  /** Every bucket file is listed once. */
  ghost predicate Listing(order: seq<nat>, n: nat)
  {
    && Distinct(order)
    && (forall i :: 0 <= i < |order| ==> order[i] < n)
    && (forall b :: 0 <= b < n ==> b in order)
  }

  /** Moves all records to a new number of buckets. */
  method Rehash<T(!new)>(buckets: seq<seq<Record<T>>>, order: seq<nat>, newCount: nat, hash: string -> nat,
                         ghost history: seq<Record<T>>) returns (des: seq<seq<Record<T>>>)
    requires Partitioned(buckets, history, hash) && Listing(order, |buckets|) && newCount > 0
    ensures |des| == newCount && Partitioned(des, history, hash)
  {
    des := EmptyBuckets(newCount, hash);
    for i := 0 to |order|
      invariant |des| == newCount && Moved(buckets, des, order[..i], hash, history)
    {
      TakeNext(order, i);
      ghost var before := des;
      des := Redistribute(des, buckets[order[i]], hash);
      MovedNext(buckets, before, des, order[..i], order[i], hash, history);
    }
    assert order[..|order|] == order;
  }

  /** The keys of the buckets that were read so far have moved. */
  ghost predicate Moved<T(!new)>(buckets: seq<seq<Record<T>>>, des: seq<seq<Record<T>>>, read: seq<nat>,
                                 hash: string -> nat, history: seq<Record<T>>)
  {
    && buckets != [] && des != []
    && forall b, key :: 0 <= b < |des|
         ==> ValuesOf(des[b], key) == MovedValues(b, key, |des|, |buckets|, read, hash, history)
  }

  ghost function MovedValues<T>(b: nat, key: string, newCount: nat, oldCount: nat, read: seq<nat>, hash: string -> nat,
                                history: seq<Record<T>>): seq<T>
    requires newCount > 0 && oldCount > 0
  {
    If(Home(key, newCount, hash) == b && Home(key, oldCount, hash) in read, ValuesOf(history, key))
  }

  lemma MovedNext<T(!new)>(buckets: seq<seq<Record<T>>>, before: seq<seq<Record<T>>>, des: seq<seq<Record<T>>>,
                           read: seq<nat>, next: nat, hash: string -> nat, history: seq<Record<T>>)
    requires Partitioned(buckets, history, hash) && Moved(buckets, before, read, hash, history)
    requires next < |buckets| && next !in read && Received(before, des, buckets[next], hash)
    ensures Moved(buckets, des, read + [next], hash, history)
  {
    forall b: nat, key | b < |des|
      ensures ValuesOf(des[b], key) == MovedValues(b, key, |des|, |buckets|, read + [next], hash, history)
    {
      var here, old_ := Home(key, |des|, hash) == b, Home(key, |buckets|, hash);
      assert ValuesOf(des[b], key) == ValuesOf(before[b], key) + If(here, ValuesOf(buckets[next], key));
      assert ValuesOf(buckets[next], key) == If(old_ == next, ValuesOf(history, key));
      assert ValuesOf(before[b], key) == MovedValues(b, key, |des|, |buckets|, read, hash, history);
      MovedOnce(here, old_, read, next, ValuesOf(history, key));
    }
  }

  lemma MovedOnce<T>(here: bool, home: nat, read: seq<nat>, next: nat, values: seq<T>)
    requires next !in read
    ensures If(here && home in read, values) + If(here, If(home == next, values)) == If(here && home in read + [next], values)
  {
  }

  // ------------------------------------------------------------------ grouping and storing

  ghost predicate Grouped<T(!new)>(postlists: map<string, seq<T>>, records: seq<Record<T>>)
  {
    forall key :: (key in postlists <==> ValuesOf(records, key) != [])
      && (key in postlists ==> postlists[key] == ValuesOf(records, key))
  }

  /** One postlist per key of a bucket file. */
  method Group<T(!new)>(bucket: seq<Record<T>>) returns (postlists: map<string, seq<T>>)
    ensures Grouped(postlists, bucket)
  {
    postlists := map[];
    for i := 0 to |bucket|
      invariant Grouped(postlists, bucket[..i])
    {
      var record := bucket[i];
      TakeNext(bucket, i);
      forall key
        ensures ValuesOf(bucket[..i + 1], key)
             == ValuesOf(bucket[..i], key) + if record.key == key then [record.value] else []
      {
        ValuesOfSnoc(bucket[..i], record, key);
      }
      var old_ := if record.key in postlists then postlists[record.key] else [];
      postlists := postlists[record.key := old_ + [record.value]];
    }
    assert bucket[..|bucket|] == bucket;
  }

  /** Sorted as configured, or left in insertion order. */
  ghost predicate AsConfigured<T(!new)>(r: seq<T>, values: seq<T>, sorting: Option<(T, T) -> bool>)
  {
    if sorting.Some? then PostlistSorter.Arranged(r, values, sorting.value) else r == values
  }

  function TotalSize(count: nat, valueSize: nat): nat
  {
    count * valueSize
  }

  method SortOne<T(!new)>(values: seq<T>, valueSize: nat, sorting: Option<(T, T) -> bool>) returns (r: seq<T>)
    requires sorting.Some? ==> TotalPreorder(sorting.value)
    ensures AsConfigured(r, values, sorting)
  {
    if sorting.None? {
      return values;
    }
    r := PostlistSorter.SortPostlist(values, TotalSize(|values|, valueSize), 100, sorting.value);
  }

  method SortAll<T(!new)>(postlists: map<string, seq<T>>, valueSize: nat, sorting: Option<(T, T) -> bool>)
    returns (r: map<string, seq<T>>)
    requires sorting.Some? ==> TotalPreorder(sorting.value)
    ensures r.Keys == postlists.Keys && forall key :: key in r ==> AsConfigured(r[key], postlists[key], sorting)
  {
    r := postlists;
    var left := postlists.Keys;
    while left != {}
      invariant r.Keys == postlists.Keys && left <= r.Keys
      invariant forall key :: key in left ==> r[key] == postlists[key]
      invariant forall key :: key in r && key !in left ==> AsConfigured(r[key], postlists[key], sorting)
      decreases |left|
    {
      var key :| key in left;
      var sorted := SortOne(r[key], valueSize, sorting);
      r := r[key := sorted];
      left := left - {key};
    }
  }

  /** The keys of the buckets read so far are stored, each with its own values. */
  ghost predicate Stored<T(!new)>(storage: map<string, seq<T>>, history: seq<Record<T>>, read: seq<nat>, n: nat,
                                  hash: string -> nat, sorting: Option<(T, T) -> bool>)
    requires n > 0
  {
    forall key :: (key in storage <==> Home(key, n, hash) in read && ValuesOf(history, key) != [])
      && (key in storage ==> AsConfigured(storage[key], ValuesOf(history, key), sorting))
  }

  /**
   * Every distinct key is stored once with exactly its values, and counted once.
   * Storing fails exactly when some record has an empty key.
   */
  method Index<T(!new)>(buckets: seq<seq<Record<T>>>, order: seq<nat>, hash: string -> nat, valueSize: nat,
                        sorting: Option<(T, T) -> bool>, ghost history: seq<Record<T>>)
    returns (storage: map<string, seq<T>>, keyCount: nat, ok: bool)
    requires Partitioned(buckets, history, hash) && Listing(order, |buckets|)
    requires sorting.Some? ==> TotalPreorder(sorting.value)
    ensures ok <==> ValuesOf(history, "") == []
    ensures ok ==> forall key :: key in storage <==> ValuesOf(history, key) != []
    ensures ok ==> forall key :: key in storage ==> AsConfigured(storage[key], ValuesOf(history, key), sorting)
    ensures ok ==> keyCount == |storage|
  {
    storage, keyCount, ok := map[], 0, true;
    for i := 0 to |order|
      invariant ok && "" !in storage && keyCount == |storage|
      invariant Stored(storage, history, order[..i], |buckets|, hash, sorting)
    {
      var bucket := buckets[order[i]];
      var postlists := Group(bucket);
      var sorted := SortAll(postlists, valueSize, sorting);
      keyCount := keyCount + |sorted|;
      TakeNext(order, i);
      GroupIsNew(buckets, order, i, hash, history, postlists);
      if "" in sorted {
        return storage, keyCount, false;
      }
      StoredNext(storage, history, order[..i], order[i], |buckets|, hash, sorting, postlists, sorted);
      storage := storage + sorted;
    }
    assert order[..|order|] == order;
    assert Home("", |buckets|, hash) in order;
    assert forall key :: Home(key, |buckets|, hash) in order;
  }

  /** A bucket groups the keys that belong there, and no key that was stored before. */
  lemma GroupIsNew<T(!new)>(buckets: seq<seq<Record<T>>>, order: seq<nat>, i: nat, hash: string -> nat,
                            history: seq<Record<T>>, postlists: map<string, seq<T>>)
    requires Partitioned(buckets, history, hash) && i < |order| && order[i] < |buckets|
    requires Grouped(postlists, buckets[order[i]])
    ensures forall key :: key in postlists <==> Home(key, |buckets|, hash) == order[i] && ValuesOf(history, key) != []
    ensures forall key :: key in postlists ==> postlists[key] == ValuesOf(history, key)
  {
    var b := order[i];
    forall key
      ensures key in postlists <==> Home(key, |buckets|, hash) == b && ValuesOf(history, key) != []
      ensures key in postlists ==> postlists[key] == ValuesOf(history, key)
    {
      assert ValuesOf(buckets[b], key) == If(Home(key, |buckets|, hash) == b, ValuesOf(history, key));
    }
  }

  lemma StoredNext<T(!new)>(storage: map<string, seq<T>>, history: seq<Record<T>>, read: seq<nat>, next: nat, n: nat,
                            hash: string -> nat, sorting: Option<(T, T) -> bool>, postlists: map<string, seq<T>>,
                            sorted: map<string, seq<T>>)
    requires n > 0 && next !in read && Stored(storage, history, read, n, hash, sorting)
    requires forall key :: key in postlists <==> Home(key, n, hash) == next && ValuesOf(history, key) != []
    requires forall key :: key in postlists ==> postlists[key] == ValuesOf(history, key)
    requires sorted.Keys == postlists.Keys
    requires forall key :: key in sorted ==> AsConfigured(sorted[key], postlists[key], sorting)
    ensures Stored(storage + sorted, history, read + [next], n, hash, sorting)
    ensures |storage + sorted| == |storage| + |sorted|
  {
    assert (storage + sorted).Keys == storage.Keys + sorted.Keys;
    assert storage.Keys !! sorted.Keys;
  }

  /** The indexer: its bucket files and statistics. Any hash function will do. */
  class Indexer<T(!new)> {
    const hash: string -> nat
    const maxBucketSize: nat
    var buckets: seq<seq<Record<T>>>
    var totalSize: nat
    ghost var history: seq<Record<T>>

    ghost predicate Valid()
      reads this
    {
      Partitioned(buckets, history, hash)
    }

    constructor (hash: string -> nat, maxBucketSize: nat)
      ensures Valid() && history == [] && this.hash == hash
    {
      this.hash := hash;
      this.maxBucketSize := if maxBucketSize == 0 then 10 * 1024 * 1024 else maxBucketSize;
      var fs: seq<seq<Record<T>>> := EmptyBuckets(2, hash);
      buckets, totalSize, history := fs, 0, [];
    }

    /**
     * Adds a record, and redistributes all of them when the buckets have grown too large. The new number of
     * buckets is a prime that is not below twice the old number or an estimate; only that it is positive matters.
     */
    method Insert(record: Record<T>, valueSize: nat, newCount: nat, order: seq<nat>)
      requires Valid() && newCount > 0 && Listing(order, |buckets|)
      modifies this`buckets, this`totalSize, this`history
      ensures Valid() && history == old(history) + [record]
      ensures totalSize == old(totalSize) + valueSize
    {
      ghost var all := history + [record];
      var fs := InsertRecord(buckets, record, hash, history);
      totalSize := totalSize + valueSize;
      if PostlistSorter.Quotient(totalSize, |fs|) > maxBucketSize {
        fs := Rehash(fs, order, newCount, hash, all);
      }
      buckets, history := fs, all;
    }
  }
}
