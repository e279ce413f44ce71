/**
 * Regex queries over the characters of one word: the unit list, its language, and the builder that
 * rewrites the list while units are added.
 */
module RegexQueries {
  import opened Languages
  import opened MachineInts
  import opened Sequences

  datatype RegexUnit = QMark | Star | Word(value: string) | CharSet(value: string) | OptionalWord(value: string)
  {
    predicate Wildcard()
    {
      QMark? || Star?
    }

    /** The string that every unit carries; wildcards carry their own symbol. */
    function Text(): string
    {
      match this
      case QMark => "?"
      case Star => "*"
      case _ => value
    }
  }

  ghost predicate OneOf(s: string, chars: string)
  {
    |s| == 1 && s[0] in chars
  }

  ghost function CharSetLang(chars: string): Language<char>
  {
    Language(iset s: string | OneOf(s, chars))
  }

  ghost function UnitLang(u: RegexUnit): Language<char>
  {
    match u
    case QMark => Singles()
    case Star => All()
    case Word(v) => Just(v)
    case CharSet(v) => CharSetLang(v)
    case OptionalWord(v) => Union(Just(v), Epsilon())
  }

  /** The language of a unit list, defined from the end because the builder appends. */
  ghost function Lang(units: seq<RegexUnit>): Language<char>
  {
    if units == [] then Epsilon() else Cat(Lang(units[..|units| - 1]), UnitLang(units[|units| - 1]))
  }

  lemma LangSnoc(units: seq<RegexUnit>, u: RegexUnit)
    ensures Lang(units + [u]) == Cat(Lang(units), UnitLang(u))
  {
    assert (units + [u])[..|units|] == units;
  }

  lemma LangOne(u: RegexUnit)
    ensures Lang([u]) == UnitLang(u)
  {
    LangSnoc([], u);
    assert [] + [u] == [u];
    EpsilonCat(UnitLang(u));
  }

  lemma {:induction false} LangAppend(a: seq<RegexUnit>, b: seq<RegexUnit>)
    ensures Lang(a + b) == Cat(Lang(a), Lang(b))
  {
    if b == [] {
      assert a + b == a;
      CatEpsilon(Lang(a));
    } else {
      var c, u := b[..|b| - 1], b[|b| - 1];
      LangAppend(a, c);
      assert a + b == (a + c) + [u];
      LangSnoc(a + c, u);
      CatAssoc(Lang(a), Lang(c), UnitLang(u));
    }
  }

  lemma LangCons(units: seq<RegexUnit>)
    requires units != []
    ensures Lang(units) == Cat(UnitLang(units[0]), Lang(units[1..]))
  {
    LangAppend([units[0]], units[1..]);
    LangOne(units[0]);
    assert [units[0]] + units[1..] == units;
  }

  ghost predicate HasWildcard(units: seq<RegexUnit>)
  {
    exists u :: u in units && u.Wildcard()
  }

  // ------------------------------------------------------------------ canonical form

  ghost predicate CanonicalUnit(u: RegexUnit)
  {
    match u
    case CharSet(v) => |v| >= 2 && Distinct(v)
    case _ => u.Text() != ""
  }

  ghost predicate MayFollow(u: RegexUnit, next: RegexUnit)
  {
    && (u.Star? ==> next.Word? || next.CharSet?)
    && (u.Word? ==> !next.Word?)
  }

  /** Nothing but question marks may hide an optional word from a star that is added next. */
  ghost predicate NoTrailingOptional(units: seq<RegexUnit>)
  {
    forall i {:trigger units[i].OptionalWord?} :: 0 <= i < |units| && units[i].OptionalWord?
      ==> exists k :: i < k < |units| && !units[k].QMark?
  }

  ghost predicate Canonical(units: seq<RegexUnit>)
  {
    && (forall i :: 0 <= i < |units| ==> CanonicalUnit(units[i]))
    && (forall i {:trigger units[i]} :: 0 <= i < |units| - 1 ==> MayFollow(units[i], units[i + 1]))
    && (forall j :: 0 <= j < |units| && units[j].Star? ==> NoTrailingOptional(units[..j]))
  }

  lemma CanonicalPrefix(units: seq<RegexUnit>, n: nat)
    requires Canonical(units) && n <= |units|
    ensures Canonical(units[..n])
  {
    var front := units[..n];
    forall j | 0 <= j < n && front[j].Star?
      ensures NoTrailingOptional(front[..j])
    {
      assert front[..j] == units[..j];
    }
  }

  lemma CanonicalSnoc(units: seq<RegexUnit>, u: RegexUnit)
    requires Canonical(units) && CanonicalUnit(u)
    requires units != [] ==> MayFollow(units[|units| - 1], u)
    requires u.Star? ==> NoTrailingOptional(units)
    ensures Canonical(units + [u])
  {
    var all := units + [u];
    forall j | 0 <= j < |all| && all[j].Star?
      ensures NoTrailingOptional(all[..j])
    {
      assert all[..j] == units[..j];
      if j == |units| { assert units[..j] == units; }
    }
  }

  lemma {:induction false} CanonicalAcceptsSomething(units: seq<RegexUnit>) returns (s: string)
    requires forall i :: 0 <= i < |units| ==> CanonicalUnit(units[i])
    ensures Has(Lang(units), s)
  {
    s := "";
    if units != [] {
      var front, u := units[..|units| - 1], units[|units| - 1];
      var a := CanonicalAcceptsSomething(front);
      var b := u.Text();
      if u.CharSet? { b := [u.value[0]]; }
      assert Has(UnitLang(u), b);
      CatIntro(a, b, Lang(front), UnitLang(u));
      s := a + b;
    }
  }

  // ------------------------------------------------------------------ language laws behind the rewrites

  /** Question marks followed by a star. */
  ghost function AtLeast(n: nat): Language<char>
  {
    Cat(Lang(Repeat(QMark, n)), All())
  }

  lemma {:induction false} AtLeastCommutes(n: nat)
    ensures AtLeast(n) == Cat(All(), Lang(Repeat(QMark, n)))
  {
    if n == 0 {
      EpsilonCat(All<char>());
      CatEpsilon(All<char>());
    } else {
      var front := Lang(Repeat(QMark, n - 1));
      AtLeastCommutes(n - 1);
      LangSnoc(Repeat(QMark, n - 1), QMark);
      CatAssoc(front, Singles(), All());
      AllCommutesWithSingles<char>();
      CatAssoc(front, All(), Singles());
      CatAssoc(All(), front, Singles());
    }
  }

  lemma {:induction false} OneMoreQMark(n: nat)
    ensures Cat(Singles(), AtLeast(n)) == AtLeast(n + 1)
  {
    QMarksCons(n);
    LangAppend([QMark], Repeat(QMark, n));
    LangOne(QMark);
    CatAssoc(Singles(), Lang(Repeat(QMark, n)), All());
  }

  lemma {:induction false} QMarksCons(n: nat)
    ensures Repeat(QMark, n + 1) == [QMark] + Repeat(QMark, n)
  {
    if n > 0 { QMarksCons(n - 1); }
  }

  lemma OptionalAbsorbed(v: string, n: nat)
    ensures Cat(UnitLang(OptionalWord(v)), AtLeast(n)) == AtLeast(n)
  {
    var optional := UnitLang(OptionalWord(v));
    AtLeastCommutes(n);
    CatAssoc(optional, All(), Lang(Repeat(QMark, n)));
    AllAbsorbs(optional);
  }

  // ------------------------------------------------------------------ rewriting one unit

  /** Same characters, each once, in increasing order when there was anything to do. */
  method WithoutDuplicates(characters: string) returns (r: string)
    ensures forall c :: c in characters <==> c in r
    ensures Distinct(r)
  {
    if |characters| < 2 {
      return characters;
    }
    var leq := (a: char, b: char) => a <= b;
    var chars := Sort(characters, leq);
    SameMembers(characters, chars);
    var last := chars[0];
    r := [last];
    for i := 1 to |chars|
      invariant last == chars[i - 1] && last in r
      invariant forall c :: c in r ==> c <= last
      invariant Distinct(r)
      invariant forall c :: c in r <==> c in chars[..i]
    {
      var c := chars[i];
      TakeNext(chars, i);
      if c != last {
        assert leq(chars[i - 1], chars[i]);
        assert last as int < c as int;
        assert c !in r;
        last := c;
        r := r + [c];
      }
    }
    assert chars[..|chars|] == chars;
  }

  method OptimizeUnit(u: RegexUnit) returns (r: RegexUnit)
    ensures UnitLang(r) == UnitLang(u)
    ensures r.Text() == "" ==> !r.Wildcard()
    ensures r.Text() != "" ==> CanonicalUnit(r)
    ensures r.Wildcard() <==> u.Wildcard()
    ensures u.CharSet? && u.value == "" ==> r == u
    ensures r.CharSet? && r.value == "" ==> u == r
  {
    if u.CharSet? {
      var set_ := WithoutDuplicates(u.value);
      assert u.value == "" ==> forall c :: c !in set_;
      if |set_| == 1 {
        forall s: string
          ensures Has(CharSetLang(u.value), s) <==> s == set_
        {
          assert set_[0] in u.value;
          if Has(CharSetLang(u.value), s) { assert s[0] in set_; }
        }
        Extensional(CharSetLang(u.value), Just(set_));
        return Word(set_);
      }
      forall s: string
        ensures Has(CharSetLang(u.value), s) <==> Has(CharSetLang(set_), s)
      {
      }
      Extensional(CharSetLang(u.value), CharSetLang(set_));
      if u.value != "" { assert u.value[0] in set_; }
      return CharSet(set_);
    }
    return u;
  }

  lemma Popped(units: seq<RegexUnit>, qmarks: nat)
    requires units != []
    ensures units[|units| - 1].QMark?
      ==> Cat(Lang(units), AtLeast(qmarks)) == Cat(Lang(units[..|units| - 1]), AtLeast(qmarks + 1))
    ensures units[|units| - 1].OptionalWord?
      ==> Cat(Lang(units), AtLeast(qmarks)) == Cat(Lang(units[..|units| - 1]), AtLeast(qmarks))
  {
    var front, last := units[..|units| - 1], units[|units| - 1];
    CatAssoc(Lang(front), UnitLang(last), AtLeast(qmarks));
    if last.QMark? { OneMoreQMark(qmarks); }
    if last.OptionalWord? { OptionalAbsorbed(last.value, qmarks); }
  }

  method PopOptionalWords(units: seq<RegexUnit>) returns (r: seq<RegexUnit>, qmarks: nat)
    ensures |r| <= |units| && r == units[..|r|]
    ensures r != [] ==> !r[|r| - 1].QMark? && !r[|r| - 1].OptionalWord?
    ensures |r| < |units| ==> units[|r|].QMark? || units[|r|].OptionalWord?
    ensures Cat(Lang(r), AtLeast(qmarks)) == Cat(Lang(units), All())
  {
    r, qmarks := units, 0;
    EpsilonCat(All<char>());
    while r != [] && (r[|r| - 1].QMark? || r[|r| - 1].OptionalWord?)
      invariant |r| <= |units| && r == units[..|r|]
      invariant |r| < |units| ==> units[|r|].QMark? || units[|r|].OptionalWord?
      invariant Cat(Lang(r), AtLeast(qmarks)) == Cat(Lang(units), All())
    {
      Popped(r, qmarks);
      if r[|r| - 1].QMark? {
        qmarks := qmarks + 1;
      }
      r := r[..|r| - 1];
    }
  }

  /** Drops the optional words of the trailing run of question marks and optional words. */
  method RemoveTrailingOptionalWords(units: seq<RegexUnit>) returns (r: seq<RegexUnit>)
    requires Canonical(units)
    requires units != [] && !units[|units| - 1].Star?
    ensures Cat(Lang(r), All()) == Cat(Lang(units), All())
    ensures Canonical(r + [Star])
  {
    var core, qmarks := PopOptionalWords(units);
    StrippedPrefix(units, core);
    CoreThenQMarks(core, qmarks);
    CatAssoc(Lang(core), Lang(Repeat(QMark, qmarks)), All());
    LangAppend(core, Repeat(QMark, qmarks));
    r := core;
    var added := 0;
    while added < qmarks
      invariant added <= qmarks
      invariant r == core + Repeat(QMark, added)
    {
      r := r + [QMark];
      added := added + 1;
    }
  }

  lemma StrippedPrefix(units: seq<RegexUnit>, core: seq<RegexUnit>)
    requires Canonical(units) && units != [] && !units[|units| - 1].Star?
    requires |core| <= |units| && core == units[..|core|]
    requires core != [] ==> !core[|core| - 1].QMark? && !core[|core| - 1].OptionalWord?
    requires |core| < |units| ==> units[|core|].QMark? || units[|core|].OptionalWord?
    ensures Canonical(core) && Stripped(core)
  {
    CanonicalPrefix(units, |core|);
    if core != [] && |core| < |units| { assert MayFollow(units[|core| - 1], units[|core|]); }
  }

  /** What is left when trailing question marks and optional words are gone. */
  predicate Stripped(core: seq<RegexUnit>)
  {
    core == [] || core[|core| - 1].Word? || core[|core| - 1].CharSet?
  }

  lemma CoreThenQMarks(core: seq<RegexUnit>, n: nat)
    requires Canonical(core) && Stripped(core)
    ensures Canonical(core + Repeat(QMark, n)) && NoTrailingOptional(core + Repeat(QMark, n))
    ensures Canonical(core + Repeat(QMark, n) + [Star])
  {
    CanonicalQMarks(core, n);
    NoTrailingQMarks(core, Repeat(QMark, n));
    CanonicalSnoc(core + Repeat(QMark, n), Star);
  }

  lemma {:induction false} CanonicalQMarks(core: seq<RegexUnit>, n: nat)
    requires Canonical(core) && Stripped(core)
    ensures Canonical(core + Repeat(QMark, n))
  {
    if n == 0 {
      EmptyRight(core);
    } else {
      CanonicalQMarks(core, n - 1);
      CanonicalSnoc(core + Repeat(QMark, n - 1), QMark);
      AppendAssoc(core, Repeat(QMark, n - 1), [QMark]);
    }
  }

  lemma NoTrailingQMarks(core: seq<RegexUnit>, qmarks: seq<RegexUnit>)
    requires Stripped(core) && forall i :: 0 <= i < |qmarks| ==> qmarks[i] == QMark
    ensures NoTrailingOptional(core + qmarks)
  {
    var all := core + qmarks;
    forall i | 0 <= i < |all| && all[i].OptionalWord?
      ensures exists k :: i < k < |all| && !all[k].QMark?
    {
      var k := |core| - 1;
      assert i < |core| && all[i] == core[i];
      assert all[k] == core[k] && !all[k].QMark?;
    }
  }

  // ------------------------------------------------------------------ the builder

  const REJECT_ALL: seq<RegexUnit> := [CharSet("")]

  /** What the builder hands out: a canonical list, or the one list that rejects everything. */
  ghost predicate BuiltQuery(q: seq<RegexUnit>)
  {
    q == REJECT_ALL || Canonical(q)
  }

  class RegexQueryBuilder {
    var units: seq<RegexUnit>
    var rejectAll: bool

    ghost predicate Valid()
      reads this
    {
      Canonical(units)
    }

    ghost function Denotes(): Language<char>
      reads this
    {
      if rejectAll then Nothing() else Lang(units)
    }

    constructor ()
      ensures Valid() && Denotes() == Epsilon() && units == [] && !rejectAll
    {
      units, rejectAll := [], false;
    }

    /** The query behaves as if the unit had been appended, whatever was rewritten. */
    method Add(unit: RegexUnit)
      requires Valid()
      modifies this
      ensures Valid()
      ensures Denotes() == Cat(old(Denotes()), UnitLang(unit))
      ensures rejectAll <==> old(rejectAll) || unit == CharSet("")
      ensures !rejectAll ==> (HasWildcard(units) <==> old(HasWildcard(units)) || unit.Wildcard())
    {
      if rejectAll {
        CatNothing(UnitLang(unit));
        return;
      }
      units, rejectAll := Added(units, unit);
    }

    method ToQuery() returns (q: seq<RegexUnit>)
      requires Valid()
      ensures Lang(q) == Denotes()
      ensures BuiltQuery(q)
      ensures q == if rejectAll then REJECT_ALL else units
    {
      if rejectAll {
        LangOne(CharSet(""));
        AddEmpty(CharSet(""), Epsilon());
        return REJECT_ALL;
      }
      return units;
    }
  }

  /** What add does to the list and to the flag while nothing is rejected. */
  method Added(units: seq<RegexUnit>, unit: RegexUnit) returns (r: seq<RegexUnit>, rejectAll: bool)
    requires Canonical(units)
    ensures Canonical(r)
    ensures rejectAll <==> unit == CharSet("")
    ensures rejectAll ==> Cat(Lang(units), UnitLang(unit)) == Nothing()
    ensures !rejectAll ==> Lang(r) == Cat(Lang(units), UnitLang(unit))
    ensures !rejectAll ==> (HasWildcard(r) <==> HasWildcard(units) || unit.Wildcard())
  {
    var u := OptimizeUnit(unit);
    r, rejectAll := units, false;
    if u.Text() == "" {
      AddEmpty(u, Lang(units));
      rejectAll := u.CharSet?;
    } else if units == [] {
      CanonicalSnoc(units, u);
      LangSnoc(units, u);
      r := units + [u];
    } else {
      r := Appended(units, u);
    }
    if !rejectAll { SameCat(Lang(units), UnitLang(u), UnitLang(unit), Lang(r)); }
  }

  lemma SameCat(before: Language<char>, A: Language<char>, B: Language<char>, after: Language<char>)
    requires A == B && after == Cat(before, A)
    ensures after == Cat(before, B)
  {
  }

  lemma AddEmpty(u: RegexUnit, before: Language<char>)
    requires u.Text() == ""
    ensures u.CharSet? ==> UnitLang(u) == Nothing() && Cat(before, UnitLang(u)) == Nothing()
    ensures !u.CharSet? ==> Cat(before, UnitLang(u)) == before
  {
    if u.CharSet? {
      Extensional(CharSetLang(""), Nothing());
      CatNothing(before);
    } else {
      assert Union(Epsilon<char>(), Epsilon()) == Epsilon();
      CatEpsilon(before);
    }
  }

  /** The rewriting step for a unit that meets a non-empty list. */
  method Appended(units: seq<RegexUnit>, u: RegexUnit) returns (r: seq<RegexUnit>)
    requires Canonical(units) && units != [] && CanonicalUnit(u)
    ensures Canonical(r)
    ensures Lang(r) == Cat(Lang(units), UnitLang(u))
    ensures HasWildcard(r) <==> HasWildcard(units) || u.Wildcard()
  {
    var front, prev := units[..|units| - 1], units[|units| - 1];
    assert units == front + [prev];
    CanonicalPrefix(units, |front|);
    LangSnoc(units, u);
    if u.Word? && prev.Word? {
      r := front + [Word(prev.value + u.value)];
      MergeWords(front, prev, u);
    } else if u.QMark? && prev.Star? {
      r := front + [u, prev];
      SwapStar(front);
    } else if u.Star? && prev.Star? {
      r := units;
      AbsorbIntoStar(front, u);
    } else if u.Star? && (prev.OptionalWord? || prev.QMark?) {
      r := RemoveTrailingOptionalWords(units);
      LangSnoc(r, u);
      r := r + [u];
      assert r[|r| - 1].Wildcard();
    } else if u.OptionalWord? && prev.Star? {
      r := units;
      AbsorbIntoStar(front, u);
    } else {
      CanonicalSnoc(units, u);
      r := units + [u];
      assert r[|units|] == u;
    }
  }

  lemma MergeWords(front: seq<RegexUnit>, a: RegexUnit, b: RegexUnit)
    requires a.Word? && b.Word? && Canonical(front + [a]) && Canonical(front) && CanonicalUnit(b)
    ensures Canonical(front + [Word(a.value + b.value)])
    ensures Lang(front + [Word(a.value + b.value)]) == Cat(Lang(front + [a]), UnitLang(b))
    ensures HasWildcard(front + [Word(a.value + b.value)]) <==> HasWildcard(front + [a])
  {
    var merged := Word(a.value + b.value);
    if front != [] { assert MayFollow((front + [a])[|front| - 1], (front + [a])[|front|]); }
    CanonicalSnoc(front, merged);
    LangSnoc(front, a);
    LangSnoc(front, merged);
    CatAssoc(Lang(front), UnitLang(a), UnitLang(b));
    CatJust(a.value, b.value);
  }

  lemma SwapStar(front: seq<RegexUnit>)
    requires Canonical(front + [Star]) && Canonical(front)
    ensures Canonical(front + [QMark, Star])
    ensures Lang(front + [QMark, Star]) == Cat(Lang(front + [Star]), UnitLang(QMark))
    ensures HasWildcard(front + [QMark, Star])
  {
    var before := front + [Star];
    assert before[..|front|] == front;
    assert before[|front|].Star? ==> NoTrailingOptional(before[..|front|]);
    if front != [] { assert MayFollow(before[|front| - 1], before[|front|]); }
    CanonicalSnoc(front, QMark);
    var middle := front + [QMark];
    forall i | 0 <= i < |middle| && middle[i].OptionalWord?
      ensures exists k :: i < k < |middle| && !middle[k].QMark?
    {
      assert front[i].OptionalWord?;
      var k :| i < k < |front| && !front[k].QMark?;
      assert !middle[k].QMark?;
    }
    CanonicalSnoc(middle, Star);
    assert middle + [Star] == front + [QMark, Star];
    assert (front + [QMark, Star])[|front|].Wildcard();
    LangSnoc(front, Star);
    LangSnoc(front, QMark);
    LangSnoc(middle, Star);
    CatAssoc(Lang(front), Singles(), All());
    CatAssoc(Lang(front), All(), Singles());
    AllCommutesWithSingles<char>();
  }

  lemma AbsorbIntoStar(front: seq<RegexUnit>, u: RegexUnit)
    requires u.Star? || u.OptionalWord?
    ensures Cat(Lang(front + [Star]), UnitLang(u)) == Lang(front + [Star])
    ensures HasWildcard(front + [Star])
  {
    assert (front + [Star])[|front|].Wildcard();
    LangSnoc(front, Star);
    CatAssoc(Lang(front), All(), UnitLang(u));
    assert Has(UnitLang(u), []);
    AllAbsorbs(UnitLang(u));
  }

  /** A query that the builder made rejects everything exactly when it is the reject-all query. */
  lemma RejectAllIffEmpty(q: seq<RegexUnit>)
    requires BuiltQuery(q)
    ensures Lang(q) == Nothing() <==> q == REJECT_ALL
  {
    LangOne(CharSet(""));
    AddEmpty(CharSet(""), Epsilon());
    if q != REJECT_ALL {
      var s := CanonicalAcceptsSomething(q);
      assert !Has(Nothing(), s);
    }
  }
}
