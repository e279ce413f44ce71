/** When the hash table of a vocabulary is safe for every look-up (src/netspeak/regex/DefaultRegexIndex.cpp). */
module TableOverruns {
  import opened Combinatorics
  import opened MachineInts
  import opened Utf8
  import opened WordTables

  // ------------------------------------------------------------------ every hash value belongs to some word

  /** The hash of n copies of the character '@' before it is cut to 32 bits. */
  function Base(n: nat): nat
  {
    if n == 0 then 0x12345678 else Base(n - 1) * 31 + 64
  }

  lemma HashNext(h: nat, d: nat)
    ensures (h % TWO_32 * 31 + d) % TWO_32 == (h * 31 + d) % TWO_32
  {
    var q, r := h / TWO_32, h % TWO_32;
    assert h * 31 + d == (r * 31 + d) + q * 31 * TWO_32;
    AddMultiple(r * 31 + d, q * 31, TWO_32);
  }

  /** One more digit behind the hash of the others. */
  lemma DigitHashed(hash: nat, base: nat, v: nat)
    requires hash == (base + v / 31) % TWO_32
    ensures (hash * 31 + (64 + v % 31)) % TWO_32 == (base * 31 + 64 + v) % TWO_32
  {
    HashNext(base + v / 31, 64 + v % 31);
    assert (base + v / 31) * 31 + (64 + v % 31) == base * 31 + 64 + v;
  }

  lemma FewerDigits(v: nat, p: nat)
    requires v < 31 * p
    ensures v / 31 < p
  {
  }

  /** The digits of v in base 31, as characters from '@' on. */
  function Digits(v: nat, n: nat): (bytes: seq<int>)
    ensures |bytes| == n && forall i :: 0 <= i < n ==> 64 <= bytes[i] < 95
  {
    if n == 0 then [] else Digits(v / 31, n - 1) + [64 + v % 31]
  }

  lemma {:induction false} HashOfDigits(v: nat, n: nat)
    requires v < Pow(31, n)
    ensures HashOf(Digits(v, n)) == (Base(n) + v) % TWO_32
  {
    if n > 0 {
      FewerDigits(v, Pow(31, n - 1));
      HashOfDigits(v / 31, n - 1);
      HashSnoc(Digits(v / 31, n - 1), 64 + v % 31);
      DigitHashed(HashOf(Digits(v / 31, n - 1)), Base(n - 1), v);
    }
  }

  lemma HashSnoc(bytes: seq<int>, b: int)
    requires 0 <= b < 128
    ensures HashOf(bytes + [b]) == (HashOf(bytes) * 31 + b) % TWO_32
  {
    assert (bytes + [b])[..|bytes|] == bytes;
  }

  function TextOf(bytes: seq<int>): (s: string)
    requires forall i :: 0 <= i < |bytes| ==> 64 <= bytes[i] < 95
    ensures |s| == |bytes|
  {
    if bytes == [] then "" else [bytes[0] as char] + TextOf(bytes[1..])
  }

  lemma {:induction false} TextIsEncoded(bytes: seq<int>)
    requires forall i :: 0 <= i < |bytes| ==> 64 <= bytes[i] < 95
    ensures EncodeAll(TextOf(bytes)) == bytes
  {
    if bytes != [] {
      TextIsEncoded(bytes[1..]);
      assert TextOf(bytes)[1..] == TextOf(bytes[1..]);
      assert bytes == [bytes[0]] + bytes[1..];
    }
  }

  lemma SevenDigits(n: nat)
    requires n >= 7
    ensures Pow(31, n) > TWO_32
  {
    assert Pow(31, 1) == 31 && Pow(31, 2) == 961;
    assert Pow(31, 4) == 923521 by { PowAdd(31, 2, 2); }
    assert Pow(31, 7) == 27512614111 by { PowAdd(31, 4, 3); PowAdd(31, 1, 2); }
    PowAdd(31, 7, n - 7);
    PowAtLeastOne(n - 7);
    MulMonotone(Pow(31, 7), 1, Pow(31, n - 7));
  }

  lemma {:induction false} PowAtLeastOne(n: nat)
    ensures Pow(31, n) >= 1
  {
    if n > 0 { PowAtLeastOne(n - 1); }
  }

  /** Every hash value is that of words of any length from seven on. */
  lemma SomeWordHashes(h: uint32, n: nat) returns (word: string)
    requires n >= 7
    ensures Hash(word) == h && |word| == n
  {
    var b := Base(n) % TWO_32;
    var v := if h >= b then h - b else h - b + TWO_32;
    SevenDigits(n);
    HashOfDigits(v, n);
    word := TextOf(Digits(v, n));
    TextIsEncoded(Digits(v, n));
    HashIs(Base(n), v, h);
  }

  lemma HashIs(base: nat, v: nat, h: uint32)
    requires v == (if h >= base % TWO_32 then h - base % TWO_32 else h - base % TWO_32 + TWO_32)
    ensures (base + v) % TWO_32 == h
  {
    var q := base / TWO_32;
    assert base == q * TWO_32 + base % TWO_32;
    AddMultiple(h, if h >= base % TWO_32 then q else q + 1, TWO_32);
  }

  // ------------------------------------------------------------------ safe for every look-up

  /** No look-up leaves the table if and only if its last slot is empty (or it has 2^32 slots, where the step wraps). */
  lemma NeverOverrunsIff(words: seq<string>, table: seq<int>, dist: seq<nat>)
    requires Table(words, table, dist)
    ensures (forall word :: !Overruns(words, table, word))
       <==> table != [] && (|table| > UINT32_MAX || table[|table| - 1] == EMPTY)
  {
    if table == [] {
      assert Overruns(words, table, "");
    } else if |table| <= UINT32_MAX {
      if table[|table| - 1] == EMPTY {
        forall word
          ensures !Overruns(words, table, word)
        {
          EmptyLastSlotIsSafe(words, table, word);
        }
      } else {
        var word := OverrunningWord(words, table, dist);
      }
    }
  }

  /** A full last slot is overrun by another word that starts there. */
  lemma OverrunningWord(words: seq<string>, table: seq<int>, dist: seq<nat>) returns (word: string)
    requires Table(words, table, dist) && 0 < |table| <= UINT32_MAX && table[|table| - 1] != EMPTY
    ensures Overruns(words, table, word)
  {
    var last := |table| - 1;
    var stored := words[table[last]];
    word := SomeWordHashes(last, if |stored| == 7 then 8 else 7);
    HomeOfLast(word, last);
    LastHoldsOther(words, table, dist, word);
  }

  lemma LastHoldsOther(words: seq<string>, table: seq<int>, dist: seq<nat>, word: string)
    requires Table(words, table, dist) && 0 < |table| <= UINT32_MAX && Home(word, |table|) == |table| - 1
    requires table[|table| - 1] != EMPTY
    requires |words[table[|table| - 1]]| != |word|
    ensures Overruns(words, table, word)
  {
    assert !Stops(table, words, word, |table| - 1);
  }

  lemma HomeOfLast(word: string, last: nat)
    requires Hash(word) == last
    ensures Home(word, last + 1) == last
  {
    Unwrapped(last, last + 1);
  }
}
