/** How many words a regex query can stand for, how long they are in bytes, and when a word matches. */
module RegexBounds {
  import opened Combinatorics
  import opened Languages
  import opened MachineInts
  import opened RegexQueries
  import opened Sequences
  import opened Utf8

  // ------------------------------------------------------------------ combinations

  /** The strings that stand for one unit when all combinations are generated; wildcards stand for themselves. */
  function Alternatives(u: RegexUnit): seq<string>
  {
    match u
    case CharSet(v) => seq(|v|, i requires 0 <= i < |v| => [v[i]])
    case OptionalWord(v) => [v, ""]
    case _ => [u.Text()]
  }

  function Stack(units: seq<RegexUnit>): seq<seq<string>>
  {
    seq(|units|, i requires 0 <= i < |units| => Alternatives(units[i]))
  }

  /** All strings that continue the given prefix by one alternative of every remaining level, in order. */
  function Combos(stack: seq<seq<string>>, prefix: string): seq<string>
    decreases 2 * |stack|, 0
  {
    if stack == [] then [prefix] else CombosFrom(stack[0], stack[1..], prefix)
  }

  function CombosFrom(alternatives: seq<string>, rest: seq<seq<string>>, prefix: string): seq<string>
    decreases 2 * |rest| + 1, |alternatives|
  {
    if alternatives == [] then []
    else Combos(rest, prefix + alternatives[0]) + CombosFrom(alternatives[1..], rest, prefix)
  }

  function Product(stack: seq<seq<string>>): nat
  {
    if stack == [] then 1 else |stack[0]| * Product(stack[1..])
  }

  lemma {:induction false} CombosCount(stack: seq<seq<string>>, prefix: string)
    ensures |Combos(stack, prefix)| == Product(stack)
    decreases 2 * |stack|, 0
  {
    if stack != [] { CombosFromCount(stack[0], stack[1..], prefix); }
  }

  lemma {:induction false} CombosFromCount(alternatives: seq<string>, rest: seq<seq<string>>, prefix: string)
    ensures |CombosFrom(alternatives, rest, prefix)| == |alternatives| * Product(rest)
    decreases 2 * |rest| + 1, |alternatives|
  {
    if alternatives != [] {
      CombosCount(rest, prefix + alternatives[0]);
      CombosFromCount(alternatives[1..], rest, prefix);
      assert |alternatives| * Product(rest) == (|alternatives| - 1) * Product(rest) + Product(rest);
    }
  }

  lemma {:induction false} CombosMember(alternatives: seq<string>, rest: seq<seq<string>>, prefix: string, s: string)
    ensures s in CombosFrom(alternatives, rest, prefix)
      <==> exists k :: 0 <= k < |alternatives| && s in Combos(rest, prefix + alternatives[k])
  {
    if alternatives != [] {
      CombosMember(alternatives[1..], rest, prefix, s);
      if s in CombosFrom(alternatives[1..], rest, prefix) {
        var k :| 0 <= k < |alternatives| - 1 && s in Combos(rest, prefix + alternatives[1..][k]);
        assert s in Combos(rest, prefix + alternatives[k + 1]);
      }
      if k :| 0 < k < |alternatives| && s in Combos(rest, prefix + alternatives[k]) {
        assert alternatives[1..][k - 1] == alternatives[k];
      }
    }
  }

  lemma {:induction false} CombosFromSnoc(alternatives: seq<string>, last: string, rest: seq<seq<string>>, prefix: string)
    ensures CombosFrom(alternatives + [last], rest, prefix)
         == CombosFrom(alternatives, rest, prefix) + Combos(rest, prefix + last)
  {
    if alternatives == [] {
      assert alternatives + [last] == [last];
    } else {
      CombosFromSnoc(alternatives[1..], last, rest, prefix);
      assert (alternatives + [last])[1..] == alternatives[1..] + [last];
    }
  }

  lemma AlternativesBelong(u: RegexUnit)
    ensures forall k :: 0 <= k < |Alternatives(u)| ==> Has(UnitLang(u), Alternatives(u)[k])
  {
  }

  lemma AlternativesCover(u: RegexUnit, s: string) returns (k: nat)
    requires !u.Wildcard() && Has(UnitLang(u), s)
    ensures k < |Alternatives(u)| && Alternatives(u)[k] == s
  {
    k := 0;
    if u.CharSet? {
      k :| k < |u.value| && u.value[k] == s[0];
    } else if u.OptionalWord? && s != u.value {
      k := 1;
    }
  }

  lemma StackTail(units: seq<RegexUnit>)
    requires units != []
    ensures Stack(units) != [] && Stack(units)[0] == Alternatives(units[0]) && Stack(units)[1..] == Stack(units[1..])
  {
  }

  /** Every generated string matches, even when wildcards are taken literally. */
  lemma {:induction false} CombosSound(units: seq<RegexUnit>, prefix: string, s: string) returns (t: string)
    requires s in Combos(Stack(units), prefix)
    ensures s == prefix + t && Has(Lang(units), t)
    decreases |units|
  {
    t := "";
    if units != [] {
      var alternative := FirstChoice(units, prefix, s);
      var tail := CombosSound(units[1..], prefix + alternative, s);
      CatIntro(alternative, tail, UnitLang(units[0]), Lang(units[1..]));
      LangCons(units);
      t := alternative + tail;
      AppendAssoc(prefix, alternative, tail);
    }
  }

  lemma FirstChoice(units: seq<RegexUnit>, prefix: string, s: string) returns (alternative: string)
    requires units != [] && s in Combos(Stack(units), prefix)
    ensures Has(UnitLang(units[0]), alternative) && s in Combos(Stack(units[1..]), prefix + alternative)
  {
    StackTail(units);
    var alternatives, rest := Alternatives(units[0]), Stack(units[1..]);
    CombosMember(alternatives, rest, prefix, s);
    var k :| 0 <= k < |alternatives| && s in Combos(rest, prefix + alternatives[k]);
    AlternativesBelong(units[0]);
    alternative := alternatives[k];
  }

  /** Without wildcards every match is generated. */
  lemma {:induction false} CombosComplete(units: seq<RegexUnit>, prefix: string, t: string)
    requires !HasWildcard(units) && Has(Lang(units), t)
    ensures prefix + t in Combos(Stack(units), prefix)
    decreases |units|
  {
    if units == [] {
      assert prefix + t == prefix;
    } else {
      StackTail(units);
      LangCons(units);
      assert units[0] in units;
      var a, b := CatElim(t, UnitLang(units[0]), Lang(units[1..]));
      var k := AlternativesCover(units[0], a);
      CombosComplete(units[1..], prefix + a, b);
      assert prefix + t == (prefix + a) + b;
      CombosMember(Alternatives(units[0]), Stack(units[1..]), prefix, prefix + t);
    }
  }

  lemma {:induction false} ProductSnoc(stack: seq<seq<string>>, top: seq<string>)
    ensures Product(stack + [top]) == Product(stack) * |top|
  {
    if stack == [] {
      assert stack + [top] == [top];
    } else {
      ProductSnoc(stack[1..], top);
      assert (stack + [top])[1..] == stack[1..] + [top];
      MulAssoc(|stack[0]|, Product(stack[1..]), |top|);
    }
  }

  lemma {:induction false} ProductOfPrefixZero(stack: seq<seq<string>>, n: nat)
    requires n <= |stack| && Product(stack[..n]) == 0
    ensures Product(stack) == 0
    decreases |stack| - n
  {
    if n < |stack| {
      ProductSnoc(stack[..n], stack[n]);
      TakeNext(stack, n);
      assert Product(stack[..n + 1]) == 0;
      ProductOfPrefixZero(stack, n + 1);
    } else {
      assert stack[..n] == stack;
    }
  }

  function Choices(units: seq<RegexUnit>): nat
  {
    Product(Stack(units))
  }

  lemma ChoicesSnoc(units: seq<RegexUnit>, i: nat)
    requires i < |units|
    ensures Choices(units[..i + 1]) == Choices(units[..i]) * |Alternatives(units[i])|
  {
    ProductSnoc(Stack(units[..i]), Alternatives(units[i]));
    assert Stack(units[..i]) + [Alternatives(units[i])] == Stack(units[..i + 1]);
  }

  /** The string lengths fit the machine, so that the 64-bit product below cannot wrap. */
  predicate ShortValues(units: seq<RegexUnit>)
  {
    forall u :: u in units && u.CharSet? ==> |u.value| <= UINT32_MAX
  }

  ghost predicate Unbounded(units: seq<RegexUnit>)
  {
    HasWildcard(units) || Choices(units) >= UINT32_MAX
  }

  /**
   * A result below UINT32_MAX is the exact number of generated strings; a positive one also says that
   * there is no wildcard, and 0 that nothing matches.
   */
  method CombinationsUpperBound(units: seq<RegexUnit>) returns (r: uint32)
    requires ShortValues(units)
    ensures r < UINT32_MAX ==> r == Choices(units) && (HasWildcard(units) ==> r == 0)
    ensures r == UINT32_MAX ==> exists k :: 0 <= k <= |units| && Unbounded(units[..k])
  {
    var count: uint64 := 1;
    for i := 0 to |units|
      invariant count == Choices(units[..i]) && 0 < count < UINT32_MAX
      invariant !HasWildcard(units[..i])
    {
      var unit := units[i];
      assert units[..i + 1][i] == unit;
      assert unit in units;
      ChoicesSnoc(units, i);
      if unit.Wildcard() {
        assert HasWildcard(units[..i + 1]);
        assert Unbounded(units[..i + 1]);
        return UINT32_MAX;
      } else if unit.OptionalWord? {
        count := count * 2;
      } else if unit.CharSet? {
        ProductFits(count, |unit.value|);
        count := count * |unit.value|;
      }
      if count == 0 {
        assert Stack(units)[..i + 1] == Stack(units[..i + 1]);
        ProductOfPrefixZero(Stack(units), i + 1);
        return 0;
      }
      if count >= UINT32_MAX {
        assert Unbounded(units[..i + 1]);
        return UINT32_MAX;
      }
    }
    assert units[..|units|] == units;
    return count;
  }

  lemma ProductFits(a: nat, b: nat)
    requires a < UINT32_MAX && b <= UINT32_MAX
    ensures 0 <= a * b <= UINT64_MAX
  {
    MulMonotone(a, b, UINT32_MAX);
  }

  lemma {:induction false} NoChoicesNoLanguage(units: seq<RegexUnit>)
    requires Choices(units) == 0
    ensures Lang(units) == Nothing()
  {
    if units != [] {
      StackTail(units);
      LangCons(units);
      if Choices(units[1..]) == 0 {
        NoChoicesNoLanguage(units[1..]);
        CatNothing(UnitLang(units[0]));
      } else {
        assert |Alternatives(units[0])| == 0;
        Extensional(UnitLang(units[0]), Nothing());
        CatNothing(Lang(units[1..]));
      }
    }
  }

  /** RegexQuery::reject_all is exact on every query the builder makes. */
  method RejectAll(query: seq<RegexUnit>) returns (r: bool)
    requires ShortValues(query)
    ensures r ==> Lang(query) == Nothing()
    ensures BuiltQuery(query) ==> (r <==> Lang(query) == Nothing())
  {
    var bound := CombinationsUpperBound(query);
    r := bound == 0;
    if r {
      NoChoicesNoLanguage(query);
    } else {
      RejectAllWhenBuilt(query);
    }
  }

  lemma RejectAllWhenBuilt(query: seq<RegexUnit>)
    requires query != REJECT_ALL
    ensures BuiltQuery(query) ==> Lang(query) != Nothing()
  {
    if BuiltQuery(query) { RejectAllIffEmpty(query); }
  }

  // ------------------------------------------------------------------ byte lengths

  /** A byte count, or SIZE_MAX in its role of "no such count". */
  datatype Bytes = Finite(n: nat) | SizeMax

  ghost predicate Shortest(L: Language<char>, n: nat)
  {
    && (forall s :: Has(L, s) ==> ByteLength(s) >= n)
    && (exists s :: Has(L, s) && ByteLength(s) == n)
  }

  ghost predicate Longest(L: Language<char>, n: nat)
  {
    && (forall s :: Has(L, s) ==> ByteLength(s) <= n)
    && (L != Nothing() ==> exists s :: Has(L, s) && ByteLength(s) == n)
  }

  lemma SomeMember<T(!new)>(L: Language<T>) returns (s: seq<T>)
    requires L != Nothing()
    ensures Has(L, s)
  {
    if !exists s :: Has(L, s) { Extensional(L, Nothing()); }
    s :| Has(L, s);
  }

  lemma ShortestCat(A: Language<char>, a: nat, B: Language<char>, b: nat)
    requires Shortest(A, a) && Shortest(B, b)
    ensures Shortest(Cat(A, B), a + b)
  {
    forall s | Has(Cat(A, B), s)
      ensures ByteLength(s) >= a + b
    {
      var x, y := CatElim(s, A, B);
      ByteLengthAppend(x, y);
    }
    var x :| Has(A, x) && ByteLength(x) == a;
    var y :| Has(B, y) && ByteLength(y) == b;
    CatIntro(x, y, A, B);
    ByteLengthAppend(x, y);
  }

  lemma LongestCat(A: Language<char>, a: nat, B: Language<char>, b: nat)
    requires Longest(A, a) && Longest(B, b)
    ensures Longest(Cat(A, B), a + b)
  {
    forall s | Has(Cat(A, B), s)
      ensures ByteLength(s) <= a + b
    {
      var x, y := CatElim(s, A, B);
      ByteLengthAppend(x, y);
    }
    if Cat(A, B) != Nothing() {
      var s := SomeMember(Cat(A, B));
      var _, _ := CatElim(s, A, B);
      var x :| Has(A, x) && ByteLength(x) == a;
      var y :| Has(B, y) && ByteLength(y) == b;
      CatIntro(x, y, A, B);
      ByteLengthAppend(x, y);
    }
  }

  lemma OneByteLength(s: string)
    requires |s| == 1
    ensures ByteLength(s) == NumberOfBytes(s[0])
  {
  }

  method WordBytes(value: string) returns (n: nat)
    ensures n == ByteLength(value)
  {
    n := 0;
    for i := 0 to |value|
      invariant n == ByteLength(value[..i])
    {
      TakeNext(value, i);
      ByteLengthAppend(value[..i], [value[i]]);
      OneByteLength([value[i]]);
      n := n + NumberOfBytes(value[i]);
    }
    assert value[..|value|] == value;
  }

  method CharSetMin(value: string) returns (n: nat)
    requires value != ""
    ensures Shortest(CharSetLang(value), n)
  {
    var min := SizeMax;
    ghost var best := value[0];
    for i := 0 to |value|
      invariant i > 0 ==> min.Finite?
      invariant min.Finite? ==> min.n > 1 && best in value && NumberOfBytes(best) == min.n
      invariant min.Finite? ==> forall c :: c in value[..i] ==> NumberOfBytes(c) >= min.n
    {
      var bytes := NumberOfBytes(value[i]);
      if min.SizeMax? || bytes < min.n {
        min := Finite(bytes);
        best := value[i];
        if bytes == 1 {
          CharSetShortest(value, best);
          return bytes;
        }
      }
    }
    CharSetShortest(value, best);
    return min.n;
  }

  lemma CharSetShortest(value: string, best: char)
    requires best in value && forall c :: c in value ==> NumberOfBytes(c) >= NumberOfBytes(best)
    ensures Shortest(CharSetLang(value), NumberOfBytes(best))
  {
    forall s | Has(CharSetLang(value), s)
      ensures ByteLength(s) >= NumberOfBytes(best)
    {
      OneByteLength(s);
    }
    OneByteLength([best]);
    assert Has(CharSetLang(value), [best]);
  }

  method CharSetMax(value: string) returns (n: nat)
    ensures Longest(CharSetLang(value), n)
  {
    n := 0;
    ghost var best: char := 'a';
    for i := 0 to |value|
      invariant i > 0 ==> best in value && NumberOfBytes(best) == n
      invariant i == 0 ==> n == 0
      invariant forall c :: c in value[..i] ==> NumberOfBytes(c) <= n
    {
      var bytes := NumberOfBytes(value[i]);
      if bytes > n {
        n := bytes;
        best := value[i];
        if n == 4 {
          CharSetLongest(value, best);
          return;
        }
      }
    }
    if value == "" {
      Extensional(CharSetLang(value), Nothing());
    } else {
      CharSetLongest(value, best);
    }
  }

  lemma CharSetLongest(value: string, best: char)
    requires best in value && forall c :: c in value ==> NumberOfBytes(c) <= NumberOfBytes(best)
    ensures Longest(CharSetLang(value), NumberOfBytes(best))
  {
    forall s | Has(CharSetLang(value), s)
      ensures ByteLength(s) <= NumberOfBytes(best)
    {
      OneByteLength(s);
    }
    OneByteLength([best]);
    assert Has(CharSetLang(value), [best]);
  }

  lemma WildcardBytes()
    ensures Shortest(Singles(), 1) && Longest(Singles(), 4) && Shortest(All(), 0)
  {
    forall s: string | Has(Singles(), s)
      ensures 1 <= ByteLength(s) <= 4
    {
      OneByteLength(s);
    }
    var short, long := ['a'], [0x10000 as char];
    OneByteLength(short);
    OneByteLength(long);
    assert Has(Singles(), short) && Has(Singles(), long);
    assert Has(All<char>(), "");
  }

  lemma WordLanguageBytes(value: string)
    ensures Shortest(Just(value), ByteLength(value)) && Longest(Just(value), ByteLength(value))
    ensures Shortest(UnitLang(OptionalWord(value)), 0) && Longest(UnitLang(OptionalWord(value)), ByteLength(value))
  {
    assert Has(Just(value), value);
    assert Has(UnitLang(OptionalWord(value)), "") && Has(UnitLang(OptionalWord(value)), value);
  }

  /** The smallest number of bytes of a match is attained; SIZE_MAX means that nothing matches. */
  method MinUtf8InputLength(units: seq<RegexUnit>) returns (r: Bytes)
    ensures r.Finite? ==> Shortest(Lang(units), r.n)
    ensures r.SizeMax? <==> Lang(units) == Nothing()
  {
    var min := 0;
    assert Has(Lang([]), "");
    for i := 0 to |units|
      invariant Shortest(Lang(units[..i]), min)
    {
      var unit := units[i];
      var more := 0;
      TakeNext(units, i);
      LangSnoc(units[..i], unit);
      WildcardBytes();
      if unit.Word? {
        more := WordBytes(unit.value);
        WordLanguageBytes(unit.value);
      } else if unit.QMark? {
        more := 1;
      } else if unit.CharSet? {
        if unit.value == "" {
          EmptySetInside(units, i);
          return SizeMax;
        }
        more := CharSetMin(unit.value);
      } else if unit.OptionalWord? {
        WordLanguageBytes(unit.value);
      }
      ShortestCat(Lang(units[..i]), min, UnitLang(unit), more);
      min := min + more;
    }
    assert units[..|units|] == units;
    return Finite(min);
  }

  lemma EmptySetInside(units: seq<RegexUnit>, i: nat)
    requires i < |units| && units[i] == CharSet("")
    ensures Lang(units) == Nothing()
  {
    AddEmpty(units[i], Lang(units[..i]));
    LangSnoc(units[..i], units[i]);
    LangAppend(units[..i] + [units[i]], units[i + 1..]);
    assert units[..i] + [units[i]] + units[i + 1..] == units;
    CatNothing(Lang(units[i + 1..]));
  }

  /** The largest number of bytes of a match is attained when anything matches; SIZE_MAX means there is a star. */
  method MaxUtf8InputLength(units: seq<RegexUnit>) returns (r: Bytes)
    ensures r.Finite? ==> Longest(Lang(units), r.n)
    ensures r.SizeMax? <==> Star in units
  {
    var max := 0;
    assert Has(Lang([]), "");
    for i := 0 to |units|
      invariant Longest(Lang(units[..i]), max)
      invariant Star !in units[..i]
    {
      var unit := units[i];
      var more := 0;
      TakeNext(units, i);
      LangSnoc(units[..i], unit);
      WildcardBytes();
      if unit.Word? || unit.OptionalWord? {
        more := WordBytes(unit.value);
        WordLanguageBytes(unit.value);
      } else if unit.QMark? {
        more := 4;
      } else if unit.CharSet? {
        more := CharSetMax(unit.value);
      } else {
        return SizeMax;
      }
      LongestCat(Lang(units[..i]), max, UnitLang(unit), more);
      max := max + more;
    }
    assert units[..|units|] == units;
    return Finite(max);
  }

  // ------------------------------------------------------------------ matching one word

  /** Backtracking match of a whole word, in the place of the regular-expression engine. */
  predicate Accepts(units: seq<RegexUnit>, s: string)
    decreases |units|, |s|
  {
    if units == [] then s == ""
    else match units[0]
      case QMark => s != "" && Accepts(units[1..], s[1..])
      case Star => Accepts(units[1..], s) || (s != "" && Accepts(units, s[1..]))
      case Word(v) => v <= s && Accepts(units[1..], s[|v|..])
      case CharSet(v) => s != "" && s[0] in v && Accepts(units[1..], s[1..])
      case OptionalWord(v) => (v <= s && Accepts(units[1..], s[|v|..])) || Accepts(units[1..], s)
  }

  /** A prefix that the first unit accepts, and a rest that the others accept. */
  lemma MatchedPrefix(units: seq<RegexUnit>, s: string, n: nat)
    requires units != [] && n <= |s| && Has(UnitLang(units[0]), s[..n]) && Has(Lang(units[1..]), s[n..])
    ensures Has(Lang(units), s)
  {
    LangCons(units);
    CatIntro(s[..n], s[n..], UnitLang(units[0]), Lang(units[1..]));
    assert s[..n] + s[n..] == s;
  }

  lemma {:induction false} AcceptsOnlyMatches(units: seq<RegexUnit>, s: string)
    requires Accepts(units, s)
    ensures Has(Lang(units), s)
    decreases |units|, |s|, 1
  {
    if units != [] {
      match units[0] {
        case QMark => UnitThenRest(units, s, 1);
        case Star =>
          if Accepts(units[1..], s) {
            assert s[0..] == s;
            UnitThenRest(units, s, 0);
          } else {
            AcceptsOnlyMatches(units, s[1..]);
            StarTakesMore(units, s);
          }
        case Word(v) =>
          assert s[..|v|] == v;
          UnitThenRest(units, s, |v|);
        case CharSet(v) => UnitThenRest(units, s, 1);
        case OptionalWord(v) =>
          if v <= s && Accepts(units[1..], s[|v|..]) {
            assert s[..|v|] == v;
            UnitThenRest(units, s, |v|);
          } else {
            assert s[0..] == s;
            UnitThenRest(units, s, 0);
          }
      }
    }
  }

  lemma {:induction false} UnitThenRest(units: seq<RegexUnit>, s: string, n: nat)
    requires units != [] && n <= |s| && Has(UnitLang(units[0]), s[..n]) && Accepts(units[1..], s[n..])
    ensures Has(Lang(units), s)
    decreases |units|, |s|, 0
  {
    AcceptsOnlyMatches(units[1..], s[n..]);
    MatchedPrefix(units, s, n);
  }

  lemma StarTakesMore(units: seq<RegexUnit>, s: string)
    requires units != [] && units[0].Star? && s != "" && Has(Lang(units), s[1..])
    ensures Has(Lang(units), s)
  {
    LangCons(units);
    var a, b := CatElim(s[1..], UnitLang(units[0]), Lang(units[1..]));
    RestOfRest(s, a, b);
    MatchedPrefix(units, s, 1 + |a|);
  }

  lemma RestOfRest(s: string, a: string, b: string)
    requires s != "" && s[1..] == a + b
    ensures 1 + |a| <= |s| && s[1 + |a|..] == b
  {
    assert s[1 + |a|..] == s[1..][|a|..];
  }

  lemma {:induction false} StarSkips(units: seq<RegexUnit>, a: string, b: string)
    requires units != [] && units[0].Star? && Accepts(units[1..], b)
    ensures Accepts(units, a + b)
  {
    if a == "" {
      assert a + b == b;
    } else {
      StarSkips(units, a[1..], b);
      assert (a + b)[1..] == a[1..] + b;
    }
  }

  lemma {:induction false} AcceptsAllMatches(units: seq<RegexUnit>, s: string)
    requires Has(Lang(units), s)
    ensures Accepts(units, s)
    decreases |units|
  {
    if units != [] {
      LangCons(units);
      var a, b := CatElim(s, UnitLang(units[0]), Lang(units[1..]));
      AcceptsAllMatches(units[1..], b);
      assert s[|a|..] == b && s[..|a|] == a;
      if units[0].Star? {
        StarSkips(units, a, b);
      }
    }
  }

  lemma AcceptsIffMatches(units: seq<RegexUnit>, s: string)
    ensures Accepts(units, s) <==> Has(Lang(units), s)
  {
    if Accepts(units, s) { AcceptsOnlyMatches(units, s); }
    if Has(Lang(units), s) { AcceptsAllMatches(units, s); }
  }
}
