/** parse_netspeak_regex_query (src/netspeak/regex/parsers.cpp): the loop that feeds a regex text to the query builder. */
module RegexParser {
  import opened Languages
  import opened Options
  import opened RegexQueries
  import opened RegexSyntax
  import opened Sequences

  /** The characters before the first end character, if there is one. */
  method ReadUntilChar(s: string, begin: nat, endChar: char) returns (r: Option<string>)
    requires begin <= |s|
    ensures r.Some? ==> r.value + [endChar] <= s[begin..] && endChar !in r.value
    ensures r.None? ==> endChar !in s[begin..]
  {
    var result := "";
    for i := begin to |s|
      invariant result == s[begin..i] && endChar !in result
    {
      var c := s[i];
      if c == endChar {
        assert s[begin..][..|result|] == result;
        return Some(result);
      }
      result := result + [c];
    }
    return None;
  }

  method AddOne(builder: RegexQueryBuilder, unit: RegexUnit)
    requires builder.Valid()
    modifies builder
    ensures builder.Valid()
    ensures builder.Denotes() == Cat(old(builder.Denotes()), Lang([unit]))
  {
    ghost var before := builder.Denotes();
    builder.Add(unit);
    LangOne(unit);
    SameCat(before, UnitLang(unit), Lang([unit]), builder.Denotes());
  }

  method AddTwo(builder: RegexQueryBuilder, a: RegexUnit, b: RegexUnit)
    requires builder.Valid()
    modifies builder
    ensures builder.Valid()
    ensures builder.Denotes() == Cat(old(builder.Denotes()), Lang([a, b]))
  {
    ghost var before := builder.Denotes();
    AddOne(builder, a);
    AddOne(builder, b);
    CatAssoc(before, Lang([a]), Lang([b]));
    LangAppend([a], [b]);
    assert [a] + [b] == [a, b];
    SameCat(before, Cat(Lang([a]), Lang([b])), Lang([a, b]), builder.Denotes());
  }

  /** Adds the same unit n times. */
  method AddRepeated(builder: RegexQueryBuilder, unit: RegexUnit, n: nat)
    requires builder.Valid()
    modifies builder
    ensures builder.Valid()
    ensures builder.Denotes() == Cat(old(builder.Denotes()), Lang(Repeat(unit, n)))
  {
    CatEpsilon(builder.Denotes());
    for i := 0 to n
      invariant builder.Valid()
      invariant builder.Denotes() == Cat(old(builder.Denotes()), Lang(Repeat(unit, i)))
    {
      builder.Add(unit);
      LangSnoc(Repeat(unit, i), unit);
      CatAssoc(old(builder.Denotes()), Lang(Repeat(unit, i)), UnitLang(unit));
    }
  }

  /** Adds the units of the token that starts at the given position, and moves behind it. */
  method AddToken(builder: RegexQueryBuilder, s: string, it: nat) returns (next: nat)
    requires builder.Valid() && it < |s|
    modifies builder
    ensures builder.Valid()
    ensures next == it + TokenLength(s[it..])
    ensures builder.Denotes() == Cat(old(builder.Denotes()), Lang(TokenUnits(s[it..])))
  {
    var c := s[it];
    next := it + 1;
    assert s[it..][1..] == s[it + 1..];
    if c == '?' {
      AddOne(builder, QMark);
    } else if c == '*' {
      AddOne(builder, Star);
    } else if c == '+' {
      AddTwo(builder, QMark, Star);
    } else if c == '.' {
      if it + 1 < |s| && s[it + 1] == '.' {
        AddOne(builder, Star);
        while next < |s| && s[next] == '.'
          invariant it + 1 <= next <= |s|
          invariant forall i :: it <= i < next ==> s[i] == '.'
        {
          next := next + 1;
        }
        DotsCounted(s[it + 1..], next - it - 1);
      } else {
        AddOne(builder, Word("."));
        DotsCounted(s[it + 1..], 0);
      }
    } else if c == '[' {
      var result := ReadUntilChar(s, it + 1, ']');
      if result.Some? {
        var value := result.value;
        BracketRead(s[it + 1..], value, ']');
        next := it + |value| + 2;
        var unit := if |value| == 1 then OptionalWord(value) else CharSet(value);
        AddOne(builder, unit);
      } else {
        AddOne(builder, Word([c]));
      }
    } else if c == '{' {
      var result := ReadUntilChar(s, it + 1, '}');
      if result.Some? {
        var value := result.value;
        BracketRead(s[it + 1..], value, '}');
        next := it + |value| + 2;
        AddRepeated(builder, CharSet(value), |value|);
      } else {
        AddOne(builder, Word([c]));
      }
    } else {
      AddOne(builder, Word([c]));
    }
  }

  lemma BracketRead(rest: string, value: string, end: char)
    requires value + [end] <= rest && end !in value
    ensures end in rest && IndexOf(rest, end) == |value| && rest[..IndexOf(rest, end)] == value
  {
    assert rest[|value|] == end;
    assert rest[..|value|] == value;
    FirstIndexIsUnique(rest, end, |value|);
  }

  lemma TokenFirst(before: Language<char>, s: string, it: nat, next: nat)
    requires it < |s| && next == it + TokenLength(s[it..])
    ensures Cat(Cat(before, Lang(TokenUnits(s[it..]))), Lang(Units(s[next..]))) == Cat(before, Lang(Units(s[it..])))
  {
    var first, rest := TokenUnits(s[it..]), Units(s[next..]);
    DropDrop(s, it, TokenLength(s[it..]));
    assert Units(s[it..]) == first + rest;
    LangAppend(first, rest);
    CatAssoc(before, Lang(first), Lang(rest));
  }

  lemma NothingRead(query: string)
    ensures Cat(Epsilon(), Lang(Units(query[0..]))) == Lang(Units(query))
  {
    assert query[0..] == query;
    EpsilonCat(Lang(Units(query)));
  }

  lemma AllRead(built: Language<char>, query: string, goal: Language<char>)
    requires Cat(built, Lang(Units(query[|query|..]))) == goal
    ensures built == goal
  {
    assert query[|query|..] == "";
    CatEpsilon(built);
  }

  lemma TokenRead(before: Language<char>, after: Language<char>, query: string, it: nat, next: nat, goal: Language<char>)
    requires it < |query| && next == it + TokenLength(query[it..])
    requires Cat(before, Lang(Units(query[it..]))) == goal
    requires after == Cat(before, Lang(TokenUnits(query[it..])))
    ensures Cat(after, Lang(Units(query[next..]))) == goal
  {
    TokenFirst(before, query, it, next);
    StillGoal(before, Lang(TokenUnits(query[it..])), Lang(Units(query[next..])), Lang(Units(query[it..])), after, goal);
  }

  lemma StillGoal(before: Language<char>, first: Language<char>, rest: Language<char>, whole: Language<char>,
                  after: Language<char>, goal: Language<char>)
    requires Cat(before, whole) == goal && Cat(Cat(before, first), rest) == Cat(before, whole)
    requires after == Cat(before, first)
    ensures Cat(after, rest) == goal
  {
  }

  /** The query denotes the concatenation of its tokens, whatever the builder rewrites on the way: it matches the strings
      that can be read token by token. */
  method ParseNetspeakRegexQuery(query: string) returns (q: seq<RegexUnit>)
    ensures Lang(q) == Lang(Units(query))
    ensures forall s :: Has(Lang(q), s) <==> Reads(query, s)
    ensures BuiltQuery(q)
  {
    ghost var goal := Lang(Units(query));
    var builder := new RegexQueryBuilder();
    var it := 0;
    NothingRead(query);
    while it < |query|
      invariant it <= |query|
      invariant fresh(builder) && builder.Valid()
      invariant Cat(builder.Denotes(), Lang(Units(query[it..]))) == goal
      decreases |query| - it
    {
      ghost var before := builder.Denotes();
      var next := AddToken(builder, query, it);
      TokenRead(before, builder.Denotes(), query, it, next, goal);
      it := next;
    }
    AllRead(builder.Denotes(), query, goal);
    q := builder.ToQuery();
    forall s
      ensures Has(Lang(q), s) <==> Reads(query, s)
    {
      ReadsIsMeaning(query, s);
    }
  }
}
