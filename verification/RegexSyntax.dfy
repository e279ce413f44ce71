/** The netspeak regex syntax (src/netspeak/regex/parsers.cpp) and what each of its tokens means. */
module RegexSyntax {
  import opened Languages
  import opened RegexQueries
  import opened Sequences

  /** The position of the first c, or the length when there is none. */
  function IndexOf(s: string, c: char): (n: nat)
    ensures n <= |s| && (c in s ==> n < |s|)
  {
    if s == "" || s[0] == c then 0 else IndexOf(s[1..], c) + 1
  }

  function LeadingDots(s: string): (n: nat)
    ensures n <= |s|
  {
    if s == "" || s[0] != '.' then 0 else LeadingDots(s[1..]) + 1
  }

  /** The syntax: how many characters the first token takes. */
  function TokenLength(s: string): (n: nat)
    requires s != ""
    ensures 0 < n <= |s|
  {
    match s[0]
    case '.' => 1 + LeadingDots(s[1..])
    case '[' => if ']' in s[1..] then IndexOf(s[1..], ']') + 2 else 1
    case '{' => if '}' in s[1..] then IndexOf(s[1..], '}') + 2 else 1
    case _ => 1
  }

  /** The syntax: the units that the first token stands for. */
  function TokenUnits(s: string): seq<RegexUnit>
    requires s != ""
  {
    match s[0]
    case '?' => [QMark]
    case '*' => [Star]
    case '+' => [QMark, Star]
    case '.' => if |s| > 1 && s[1] == '.' then [Star] else [Word(".")]
    case '[' =>
      if ']' !in s[1..] then [Word("[")]
      else
        var value := s[1..][..IndexOf(s[1..], ']')];
        if |value| == 1 then [OptionalWord(value)] else [CharSet(value)]
    case '{' =>
      if '}' !in s[1..] then [Word("{")]
      else
        var value := s[1..][..IndexOf(s[1..], '}')];
        Repeat(CharSet(value), |value|)
    case c => [Word([c])]
  }

  function Units(s: string): seq<RegexUnit>
  {
    if s == "" then [] else TokenUnits(s) + Units(s[TokenLength(s)..])
  }

  lemma {:induction false} FirstIndexIsUnique(s: string, c: char, n: nat)
    requires n < |s| && s[n] == c && c !in s[..n]
    ensures IndexOf(s, c) == n
  {
    if n > 0 {
      assert s[0] in s[..n];
      assert s[1..][..n - 1] == s[..n][1..];
      FirstIndexIsUnique(s[1..], c, n - 1);
    }
  }

  lemma {:induction false} DotsCounted(s: string, n: nat)
    requires n <= |s| && (forall i :: 0 <= i < n ==> s[i] == '.') && (n < |s| ==> s[n] != '.')
    ensures LeadingDots(s) == n
  {
    if n > 0 { DotsCounted(s[1..], n - 1); }
  }

  lemma DropDrop(s: string, m: nat, n: nat)
    requires m + n <= |s|
    ensures s[m..][n..] == s[m + n..]
  {
  }

  // ------------------------------------------------------------------ what the syntax means

  predicate Plain(c: char)
  {
    c !in "?*+.[{"
  }

  lemma PlainToken(s: string)
    requires s != "" && Plain(s[0])
    ensures TokenUnits(s) == [Word([s[0]])] && TokenLength(s) == 1
  {
  }

  /** A query without syntax characters matches itself and nothing else. */
  lemma {:induction false} PlainTextMeansItself(s: string)
    requires forall c :: c in s ==> Plain(c)
    ensures Lang(Units(s)) == Just(s)
  {
    if s != "" {
      var head, tail := [s[0]], s[1..];
      PlainToken(s);
      PlainTextMeansItself(tail);
      assert Units(s) == [Word(head)] + Units(tail);
      LangAppend([Word(head)], Units(tail));
      LangOne(Word(head));
      CatJust(head, tail);
      HeadAndTail(s);
    }
  }

  ghost predicate OutOf(s: string, n: nat, chars: string)
  {
    |s| == n && forall i :: 0 <= i < n ==> s[i] in chars
  }

  lemma OutOfSnoc(a: string, b: string, n: nat, chars: string)
    requires |a| == n && |b| == 1
    ensures OutOf(a + b, n + 1, chars) <==> OutOf(a, n, chars) && OneOf(b, chars)
  {
    assert (a + b)[n] == b[0];
    assert forall i :: 0 <= i < n ==> (a + b)[i] == a[i];
  }

  /** `{abc}` matches the strings of that many characters out of the listed ones. */
  lemma {:induction false} BraceMeaning(chars: string, n: nat, s: string)
    ensures Has(Lang(Repeat(CharSet(chars), n)), s) <==> OutOf(s, n, chars)
  {
    if n > 0 {
      var before := Lang(Repeat(CharSet(chars), n - 1));
      LangSnoc(Repeat(CharSet(chars), n - 1), CharSet(chars));
      if Has(Cat(before, CharSetLang(chars)), s) {
        var a, b := CatElim(s, before, CharSetLang(chars));
        BraceMeaning(chars, n - 1, a);
        OutOfSnoc(a, b, n - 1, chars);
      }
      if OutOf(s, n, chars) {
        var a, b := s[..n - 1], s[n - 1..];
        HeadOf(s, n - 1);
        OutOfSnoc(a, b, n - 1, chars);
        BraceMeaning(chars, n - 1, a);
        CatIntro(a, b, before, CharSetLang(chars));
      }
    }
  }

  lemma HeadOf(s: string, n: nat)
    requires n <= |s|
    ensures s[..n] + s[n..] == s
  {
  }

  /** The first token, and what follows it. */
  lemma FirstToken(query: string, units: seq<RegexUnit>, t: string)
    requires query != "" && TokenUnits(query) == units && query[TokenLength(query)..] == t
    ensures Lang(Units(query)) == Cat(Lang(units), Lang(Units(t)))
  {
    LangAppend(units, Units(t));
  }

  lemma OneUnitFirst(query: string, u: RegexUnit, t: string)
    requires query != "" && TokenUnits(query) == [u] && query[TokenLength(query)..] == t
    ensures Lang(Units(query)) == Cat(UnitLang(u), Lang(Units(t)))
  {
    FirstToken(query, [u], t);
    LangOne(u);
  }

  /** `?` is any character. */
  lemma QMarkLaw(t: string)
    ensures Lang(Units("?" + t)) == Cat(Singles(), Lang(Units(t)))
  {
    assert ("?" + t)[1..] == t;
    OneUnitFirst("?" + t, QMark, t);
  }

  /** `*` is any text. */
  lemma StarLaw(t: string)
    ensures Lang(Units("*" + t)) == Cat(All(), Lang(Units(t)))
  {
    assert ("*" + t)[1..] == t;
    OneUnitFirst("*" + t, Star, t);
  }

  ghost function NonEmptyText(): Language<char>
  {
    Language(iset s: string | |s| > 0)
  }

  /** `+` is any text with characters. */
  lemma PlusLaw(t: string)
    ensures Lang(Units("+" + t)) == Cat(NonEmptyText(), Lang(Units(t)))
  {
    assert ("+" + t)[1..] == t;
    FirstToken("+" + t, [QMark, Star], t);
    PlusUnits();
  }

  lemma PlusUnits()
    ensures Lang([QMark, Star]) == NonEmptyText()
  {
    assert [QMark] + [Star] == [QMark, Star];
    LangAppend([QMark], [Star]);
    LangOne(QMark);
    LangOne(Star);
    forall s: string
      ensures Has(Cat(Singles(), All()), s) <==> s != ""
    {
      if s != "" { SplitIntro(s, 1, Singles(), All()); }
    }
    Extensional(Cat(Singles(), All()), NonEmptyText());
  }

  /** Two or more dots are any text. */
  lemma DotsLaw(n: nat, t: string)
    requires n >= 2 && (t != "" ==> t[0] != '.')
    ensures Lang(Units(Repeat('.', n) + t)) == Cat(All(), Lang(Units(t)))
  {
    var query := Repeat('.', n) + t;
    assert query[0] == '.' && query[1] == '.' && query[n..] == t;
    DotsCounted(query[1..], n - 1);
    OneUnitFirst(query, Star, t);
  }

  /** One dot is itself. */
  lemma DotLaw(t: string)
    requires t != "" ==> t[0] != '.'
    ensures Lang(Units("." + t)) == Cat(Just("."), Lang(Units(t)))
  {
    assert ("." + t)[1..] == t;
    DotsCounted(t, 0);
    OneUnitFirst("." + t, Word("."), t);
  }

  /** A bracket or brace up to its first closing character. */
  lemma Enclosed(open: char, value: string, close: char, t: string)
    requires close !in value
    ensures var query := [open] + value + [close] + t;
            && query[0] == open && close in query[1..] && IndexOf(query[1..], close) == |value|
            && query[1..][..|value|] == value && query[|value| + 2..] == t
  {
    var query := [open] + value + [close] + t;
    assert query[1..] == value + [close] + t;
    assert query[1..][|value|] == close && query[1..][..|value|] == value;
    FirstIndexIsUnique(query[1..], close, |value|);
  }

  /** `[c]` is the character or nothing. */
  lemma OptionalLaw(c: char, t: string)
    requires c != ']'
    ensures Lang(Units("[" + [c] + "]" + t)) == Cat(Union(Just([c]), Epsilon()), Lang(Units(t)))
  {
    Enclosed('[', [c], ']', t);
    OneUnitFirst("[" + [c] + "]" + t, OptionalWord([c]), t);
  }

  /** `[abc]` is one of the characters; `[]` matches nothing. */
  lemma SetLaw(value: string, t: string)
    requires ']' !in value && |value| != 1
    ensures Lang(Units("[" + value + "]" + t)) == Cat(CharSetLang(value), Lang(Units(t)))
  {
    Enclosed('[', value, ']', t);
    OneUnitFirst("[" + value + "]" + t, CharSet(value), t);
  }

  ghost function OutOfLang(n: nat, chars: string): Language<char>
  {
    Language(iset s: string | OutOf(s, n, chars))
  }

  /** `{abc}` is as many characters out of those. */
  lemma BraceLaw(value: string, t: string)
    requires '}' !in value
    ensures Lang(Units("{" + value + "}" + t)) == Cat(OutOfLang(|value|, value), Lang(Units(t)))
  {
    Enclosed('{', value, '}', t);
    FirstToken("{" + value + "}" + t, Repeat(CharSet(value), |value|), t);
    BraceUnits(value, |value|);
  }

  lemma BraceUnits(chars: string, n: nat)
    ensures Lang(Repeat(CharSet(chars), n)) == OutOfLang(n, chars)
  {
    forall s: string
      ensures Has(Lang(Repeat(CharSet(chars), n)), s) <==> Has(OutOfLang(n, chars), s)
    {
      BraceMeaning(chars, n, s);
    }
    Extensional(Lang(Repeat(CharSet(chars), n)), OutOfLang(n, chars));
  }

  /** A bracket or brace that is not closed, and every other character, is itself. */
  lemma LiteralLaw(c: char, t: string)
    requires Plain(c) || (c == '[' && ']' !in t) || (c == '{' && '}' !in t)
    ensures Lang(Units([c] + t)) == Cat(Just([c]), Lang(Units(t)))
  {
    assert ([c] + t)[1..] == t;
    OneUnitFirst([c] + t, Word([c]), t);
  }

  // ------------------------------------------------------------------ reading a string token by token

  /** The first token of the query takes exactly the text p. */
  ghost predicate Takes(query: string, p: string)
    requires query != ""
  {
    match query[0]
    case '?' => |p| == 1
    case '*' => true
    case '+' => p != ""
    case '.' => if |query| > 1 && query[1] == '.' then true else p == "."
    case '[' =>
      if ']' !in query[1..] then p == "["
      else
        var value := query[1..][..IndexOf(query[1..], ']')];
        if |value| == 1 then p == "" || p == value else OneOf(p, value)
    case '{' =>
      if '}' !in query[1..] then p == "{"
      else
        var value := query[1..][..IndexOf(query[1..], '}')];
        OutOf(p, |value|, value)
    case c => p == [c]
  }

  /** The string can be cut into one text for each token of the query. */
  ghost predicate Reads(query: string, s: string)
    decreases |query|
  {
    if query == "" then s == ""
    else exists k :: 0 <= k <= |s| && Takes(query, s[..k]) && Reads(query[TokenLength(query)..], s[k..])
  }

  lemma OneUnitHas(u: RegexUnit, p: string)
    ensures Has(Lang([u]), p) <==> Has(UnitLang(u), p)
  {
    LangOne(u);
  }

  lemma OptionalHas(value: string, p: string)
    ensures Has(Lang([OptionalWord(value)]), p) <==> p == "" || p == value
  {
    OneUnitHas(OptionalWord(value), p);
    UnionHas(Just(value), Epsilon());
  }

  lemma SetHas(value: string, p: string)
    ensures Has(Lang([CharSet(value)]), p) <==> OneOf(p, value)
  {
    OneUnitHas(CharSet(value), p);
  }

  lemma WordHas(value: string, p: string)
    ensures Has(Lang([Word(value)]), p) <==> p == value
  {
    OneUnitHas(Word(value), p);
  }

  lemma BracketTakes(query: string, p: string)
    requires query != "" && query[0] == '['
    ensures Has(Lang(TokenUnits(query)), p) <==> Takes(query, p)
  {
    if ']' !in query[1..] {
      WordHas("[", p);
    } else {
      var value := query[1..][..IndexOf(query[1..], ']')];
      if |value| == 1 { OptionalHas(value, p); } else { SetHas(value, p); }
    }
  }

  lemma BraceTakes(query: string, p: string)
    requires query != "" && query[0] == '{'
    ensures Has(Lang(TokenUnits(query)), p) <==> Takes(query, p)
  {
    if '}' in query[1..] {
      BraceMeaning(query[1..][..IndexOf(query[1..], '}')], IndexOf(query[1..], '}'), p);
    } else {
      WordHas("{", p);
    }
  }

  lemma SimpleTakes(query: string, p: string)
    requires query != "" && query[0] != '[' && query[0] != '{' && query[0] != '+'
    ensures Has(Lang(TokenUnits(query)), p) <==> Takes(query, p)
  {
    var u := TokenUnits(query)[0];
    assert TokenUnits(query) == [u];
    OneUnitHas(u, p);
  }

  lemma TakesIsMeaning(query: string, p: string)
    requires query != ""
    ensures Has(Lang(TokenUnits(query)), p) <==> Takes(query, p)
  {
    if query[0] == '+' {
      PlusUnits();
    } else if query[0] == '[' {
      BracketTakes(query, p);
    } else if query[0] == '{' {
      BraceTakes(query, p);
    } else {
      SimpleTakes(query, p);
    }
  }

  /** The units of a query match exactly the strings that can be read token by token. */
  lemma {:induction false} ReadsIsMeaning(query: string, s: string)
    ensures Has(Lang(Units(query)), s) <==> Reads(query, s)
    decreases |query|
  {
    if query != "" {
      var first, t := TokenUnits(query), query[TokenLength(query)..];
      FirstToken(query, first, t);
      forall k | 0 <= k <= |s|
        ensures Has(Lang(first), s[..k]) && Has(Lang(Units(t)), s[k..]) <==> Takes(query, s[..k]) && Reads(t, s[k..])
      {
        TakesIsMeaning(query, s[..k]);
        ReadsIsMeaning(t, s[k..]);
      }
      CatSplits(s, Lang(first), Lang(Units(t)));
    }
  }

  lemma CatSplits(s: string, A: Language<char>, B: Language<char>)
    ensures Has(Cat(A, B), s) <==> exists k :: 0 <= k <= |s| && Has(A, s[..k]) && Has(B, s[k..])
  {
    if Has(Cat(A, B), s) {
      var a, b := CatElim(s, A, B);
      assert s[..|a|] == a && s[|a|..] == b;
    }
    if k :| 0 <= k <= |s| && Has(A, s[..k]) && Has(B, s[k..]) {
      SplitIntro(s, k, A, B);
    }
  }
}
