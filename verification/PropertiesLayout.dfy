/** Every text of the properties format (src/netspeak/util/PropertiesFormat.cpp), however it is laid out. */
module PropertiesLayouts {
  import opened Options
  import opened Sequences
  import opened PropertiesFormat

  predicate Spaces(s: string)
  {
    forall i :: 0 <= i < |s| ==> IsSpace(s[i])
  }

  predicate NoLineBreaks(s: string)
  {
    forall i :: 0 <= i < |s| ==> !IsLineBreak(s[i])
  }

  predicate StartsWithSpace(t: string)
  {
    t != "" && IsSpace(t[0])
  }

  lemma {:induction false} SpacesAreSkipped(s: string, t: string)
    requires Spaces(s) && !StartsWithSpace(t)
    ensures SkipSpaces(s + t) == t
  {
    if s == "" {
      assert s + t == t;
    } else {
      SpacesAreSkipped(s[1..], t);
      assert (s + t)[1..] == s[1..] + t;
    }
  }

  // ---------------------------------------------------------------- characters

  /** A piece of a key or a value: a character as it is, behind a backslash, or as its code; or the end of a line that goes
      on behind the spaces of the next one. */
  datatype Piece =
    | Plain(c: char)
    | Quoted(c: char)
    | Code(c: char, digits: string)
    | Continued(lineBreak: string, spaces: string)

  predicate IsDigit(c: char, v: nat)
  {
    v < 16 && (c == "0123456789ABCDEF"[v] || c == "0123456789abcdef"[v])
  }

  predicate IsCode(digits: string, c: char)
  {
    && |digits| == 4 && IsAscii(c) && digits[..2] == "00"
    && IsDigit(digits[2], c as int / 16) && IsDigit(digits[3], c as int % 16)
  }

  /** What stands behind the backslash, if there is one. */
  function Escapee(p: Piece): string
  {
    match p
    case Plain(c) => [c]
    case Quoted(c) => [c]
    case Code(_, digits) => "u" + digits
    case Continued(lineBreak, spaces) => lineBreak + spaces
  }

  function PieceText(p: Piece): string
  {
    if p.Plain? then [p.c] else "\\" + Escapee(p)
  }

  function PieceMeaning(p: Piece): string
  {
    match p
    case Plain(c) => [c]
    case Quoted(c) => [c]
    case Code(c, _) => [c]
    case Continued(_, _) => ""
  }

  /** Whether the piece may stand in front of t. */
  predicate Stands(p: Piece, t: string, inKey: bool)
  {
    match p
    case Plain(c) => c != '\\' && !IsLineBreak(c) && (inKey ==> !IsDelimiter(c) && !IsSpace(c))
    case Quoted(c) => c != 'u' && !IsLineBreak(c)
    case Code(c, digits) => IsCode(digits, c)
    case Continued(lineBreak, spaces) =>
      && (lineBreak == "\n" || lineBreak == "\r" || lineBreak == "\r\n") && Spaces(spaces) && !StartsWithSpace(t)
      && (lineBreak == "\r" && spaces == "" && t != "" ==> t[0] != '\n')
  }

  function PiecesText(ps: seq<Piece>): string
  {
    if ps == [] then "" else PieceText(ps[0]) + PiecesText(ps[1..])
  }

  function PiecesMeaning(ps: seq<Piece>): string
  {
    if ps == [] then "" else PieceMeaning(ps[0]) + PiecesMeaning(ps[1..])
  }

  predicate AllStand(ps: seq<Piece>, t: string, inKey: bool)
  {
    ps != [] ==> Stands(ps[0], PiecesText(ps[1..]) + t, inKey) && AllStand(ps[1..], t, inKey)
  }

  lemma DigitIsRead(c: char, v: nat)
    ensures IsDigit(c, v) <==> HexDigit(c) == Some(v)
  {
  }

  lemma CodeIsRead(c: char, digits: string, t: string)
    requires IsCode(digits, c)
    ensures UnicodeEscape(digits + t, 4, 0) == Ok(Read([c], t))
  {
    var high, low := c as int / 16, c as int % 16;
    var s := digits + t;
    DigitIsRead('0', 0);
    DigitIsRead(digits[2], high);
    DigitIsRead(digits[3], low);
    assert digits[0] == digits[..2][0] && digits[1] == digits[..2][1];
    assert s[1..][1..] == digits[2..] + t && s[1..][1..][1..] == digits[3..] + t && s[1..][1..][1..][1..] == t;
    calc {
      UnicodeEscape(s, 4, 0);
      UnicodeEscape(s[1..], 3, 0);
      UnicodeEscape(s[1..][1..], 2, 0);
      UnicodeEscape(s[1..][1..][1..], 1, high);
      UnicodeEscape(t, 0, high * 16 + low);
      Ok(Read([c], t));
    }
  }

  lemma LineBreakIsRead(lineBreak: string, spaces: string, t: string)
    requires Stands(Continued(lineBreak, spaces), t, true)
    ensures Escape(lineBreak + spaces + t) == Ok(Read("", t))
  {
    var s := lineBreak + spaces + t;
    SpacesAreSkipped(spaces, t);
    assert s[|lineBreak|..] == spaces + t;
  }

  lemma QuotedIsRead(c: char, t: string)
    requires c != 'u' && !IsLineBreak(c)
    ensures Escape([c] + t) == Ok(Read([c], t))
  {
    assert ([c] + t)[1..] == t;
  }

  lemma EscapeIsRead(p: Piece, t: string)
    requires Stands(p, t, true) && !p.Plain?
    ensures Escape(Escapee(p) + t) == Ok(Read(PieceMeaning(p), t))
  {
    match p
    case Quoted(c) => QuotedIsRead(c, t);
    case Code(c, digits) => CodeEscape(c, digits, t);
    case Continued(lineBreak, spaces) => LineBreakIsRead(lineBreak, spaces, t);
  }

  lemma CodeEscape(c: char, digits: string, t: string)
    requires IsCode(digits, c)
    ensures Escape("u" + digits + t) == Ok(Read([c], t))
  {
    assert ("u" + digits + t)[1..] == digits + t;
    CodeIsRead(c, digits, t);
  }

  lemma BehindBackslash(u: string, read: Read)
    requires Escape(u) == Ok(read)
    ensures Key("\\" + u) == Prepend(read.text, Key(read.rest)) && Value("\\" + u) == Prepend(read.text, Value(read.rest))
  {
    assert ("\\" + u)[1..] == u;
  }

  lemma PlainIsRead(c: char, t: string)
    ensures Stands(Plain(c), t, true) ==> Key([c] + t) == Prepend([c], Key(t))
    ensures Stands(Plain(c), t, false) ==> Value([c] + t) == Prepend([c], Value(t))
  {
    assert ([c] + t)[1..] == t;
  }

  lemma PieceIsRead(p: Piece, t: string)
    ensures Stands(p, t, true) ==> Key(PieceText(p) + t) == Prepend(PieceMeaning(p), Key(t))
    ensures Stands(p, t, false) ==> Value(PieceText(p) + t) == Prepend(PieceMeaning(p), Value(t))
  {
    if p.Plain? {
      PlainIsRead(p.c, t);
    } else if Stands(p, t, true) {
      EscapeIsRead(p, t);
      BehindBackslash(Escapee(p) + t, Read(PieceMeaning(p), t));
      AppendAssoc("\\", Escapee(p), t);
    }
  }

  lemma {:induction false} KeyIsRead(ps: seq<Piece>, t: string)
    requires AllStand(ps, t, true) && t != "" && (IsDelimiter(t[0]) || IsSpace(t[0]))
    ensures Key(PiecesText(ps) + t) == Ok(Read(PiecesMeaning(ps), t))
  {
    if ps == [] {
      assert PiecesText(ps) + t == t;
    } else {
      KeyIsRead(ps[1..], t);
      PieceIsRead(ps[0], PiecesText(ps[1..]) + t);
      AppendAssoc(PieceText(ps[0]), PiecesText(ps[1..]), t);
    }
  }

  lemma {:induction false} ValueIsRead(ps: seq<Piece>, t: string)
    requires AllStand(ps, t, false) && (t != "" ==> IsLineBreak(t[0]))
    ensures Value(PiecesText(ps) + t) == Ok(Read(PiecesMeaning(ps), t))
  {
    if ps == [] {
      assert PiecesText(ps) + t == t;
    } else {
      ValueIsRead(ps[1..], t);
      PieceIsRead(ps[0], PiecesText(ps[1..]) + t);
      AppendAssoc(PieceText(ps[0]), PiecesText(ps[1..]), t);
    }
  }

  // ---------------------------------------------------------------- lines

  /** What stands between a key and its value: a sign with spaces around it, or spaces only. */
  datatype Between = Between(before: string, sign: string, after: string)

  predicate Separates(b: Between, t: string)
  {
    && Spaces(b.before) && Spaces(b.after) && !StartsWithSpace(t)
    && if b.sign == "" then b.before != "" && b.after == "" && (t != "" ==> !IsDelimiter(t[0]))
       else b.sign == "=" || b.sign == ":"
  }

  function BetweenText(b: Between): string
  {
    b.before + (b.sign + b.after)
  }

  lemma BehindSpaces(before: string, t: string)
    requires before != "" && Spaces(before) && !StartsWithSpace(t)
    ensures Delimiter(before + t) == Ok(Read("", if t != "" && IsDelimiter(t[0]) then SkipSpaces(t[1..]) else t))
  {
    SpacesAreSkipped(before[1..], t);
    assert (before + t)[1..] == before[1..] + t;
  }

  lemma SignIsRead(b: Between, t: string)
    requires Separates(b, t) && b.sign != ""
    ensures Delimiter(BetweenText(b) + t) == Ok(Read("", t))
  {
    var signed := b.sign + (b.after + t);
    assert signed[0] == b.sign[0] && signed[1..] == b.after + t;
    assert BetweenText(b) + t == b.before + signed;
    SpacesAreSkipped(b.after, t);
    if b.before == "" {
      assert b.before + signed == signed;
    } else {
      BehindSpaces(b.before, signed);
    }
  }

  lemma DelimiterIsRead(b: Between, t: string)
    requires Separates(b, t)
    ensures Delimiter(BetweenText(b) + t) == Ok(Read("", t))
  {
    if b.sign == "" {
      assert BetweenText(b) + t == b.before + t;
      BehindSpaces(b.before, t);
    } else {
      SignIsRead(b, t);
    }
  }

  /** A space or a line break, a comment with the line break behind it, or a pair. */
  datatype Item =
    | Gap(c: char)
    | Comment(mark: char, text: string, lineBreak: string)
    | Assignment(key: seq<Piece>, between: Between, value: seq<Piece>)

  function ItemText(item: Item): string
  {
    match item
    case Gap(c) => [c]
    case Comment(mark, text, lineBreak) => [mark] + text + lineBreak
    case Assignment(key, b, value) => PiecesText(key) + (BetweenText(b) + PiecesText(value))
  }

  function ItemPairs(item: Item): seq<Pair>
  {
    if item.Assignment? then [(PiecesMeaning(item.key), PiecesMeaning(item.value))] else []
  }

  /** Whether the item may stand in front of t: a comment and a value go to the end of their line, and what a key starts
      with must not be read as a gap or a comment. */
  predicate Fits(item: Item, t: string)
  {
    match item
    case Gap(c) => IsSpace(c) || IsLineBreak(c)
    case Comment(mark, text, lineBreak) =>
      && (mark == '#' || mark == '!') && NoLineBreaks(text)
      && if lineBreak == "" then t == "" else lineBreak == "\n" || lineBreak == "\r"
    case Assignment(key, b, value) =>
      && (t != "" ==> IsLineBreak(t[0]))
      && AllStand(value, t, false) && Separates(b, PiecesText(value) + t)
      && AllStand(key, BetweenText(b) + (PiecesText(value) + t), true)
      && ItemText(item)[..1] != "#" && ItemText(item)[..1] != "!" && !StartsWithSpace(ItemText(item))
  }

  function LayoutText(items: seq<Item>): string
  {
    if items == [] then "" else ItemText(items[0]) + LayoutText(items[1..])
  }

  function LayoutPairs(items: seq<Item>): seq<Pair>
  {
    if items == [] then [] else ItemPairs(items[0]) + LayoutPairs(items[1..])
  }

  predicate IsLayout(items: seq<Item>)
  {
    items != [] ==> Fits(items[0], LayoutText(items[1..])) && IsLayout(items[1..])
  }

  // ---------------------------------------------------------------- every layout is read

  lemma {:induction false} CommentIsSkipped(text: string, lineBreak: string, t: string)
    requires NoLineBreaks(text) && if lineBreak == "" then t == "" else lineBreak == "\n" || lineBreak == "\r"
    ensures SkipComment(text + lineBreak + t) == t
  {
    var s := text + lineBreak + t;
    if text != "" {
      CommentIsSkipped(text[1..], lineBreak, t);
      assert s[1..] == text[1..] + lineBreak + t;
    } else if lineBreak != "" {
      assert s[1..] == t;
    }
  }

  lemma ItemIsSkipped(item: Item, t: string)
    requires Fits(item, t) && !item.Assignment?
    ensures Parse(ItemText(item) + t) == Parse(t)
  {
    var s := ItemText(item) + t;
    match item
    case Gap(c) => assert s[1..] == t;
    case Comment(mark, text, lineBreak) =>
      assert s[1..] == text + lineBreak + t;
      CommentIsSkipped(text, lineBreak, t);
  }

  lemma EntryIsRead(s: string, key: Read, behind: string, value: Read)
    requires Key(s) == Ok(key) && Delimiter(key.rest) == Ok(Read("", behind)) && Value(behind) == Ok(value)
    ensures Entry(s) == Ok(((key.text, value.text), value.rest))
  {
  }

  lemma AssignmentText(key: string, between: string, value: string, t: string)
    ensures key + (between + value) + t == key + (between + (value + t))
  {
  }

  lemma AssignmentIsRead(item: Item, t: string)
    requires Fits(item, t) && item.Assignment?
    ensures Entry(ItemText(item) + t) == Ok(((PiecesMeaning(item.key), PiecesMeaning(item.value)), t))
  {
    var b, behind := item.between, PiecesText(item.value) + t;
    AssignmentText(PiecesText(item.key), BetweenText(b), PiecesText(item.value), t);
    StartsDelimiter(b, behind);
    KeyIsRead(item.key, BetweenText(b) + behind);
    DelimiterIsRead(b, behind);
    ValueIsRead(item.value, t);
    EntryIsRead(ItemText(item) + t, Read(PiecesMeaning(item.key), BetweenText(b) + behind), behind, Read(PiecesMeaning(item.value), t));
  }

  lemma StartsDelimiter(b: Between, t: string)
    requires Separates(b, t)
    ensures var s := BetweenText(b) + t; s != "" && (IsDelimiter(s[0]) || IsSpace(s[0]))
    ensures var s := BetweenText(b); s != "" && (IsDelimiter(s[0]) || IsSpace(s[0]))
  {
  }

  lemma FirstOfText(text: string, t: string)
    requires text != "" && text[..1] != "#" && text[..1] != "!" && !StartsWithSpace(text) && !IsLineBreak(text[0])
    ensures SkipBeforeKey(text + t) == text + t
  {
    assert text[..1] == [text[0]];
  }

  lemma StartOfPieces(ps: seq<Piece>, t: string, s: string)
    requires AllStand(ps, t, true) && s != "" && (IsDelimiter(s[0]) || IsSpace(s[0]))
    ensures var text := PiecesText(ps) + s; text != "" && !IsLineBreak(text[0])
  {
    if ps == [] {
      assert PiecesText(ps) + s == s;
    } else {
      assert PiecesText(ps)[0] == PieceText(ps[0])[0];
    }
  }

  lemma StartOfKey(item: Item, t: string)
    requires Fits(item, t) && item.Assignment?
    ensures var s := ItemText(item) + t; s != "" && SkipBeforeKey(s) == s
  {
    var b := item.between;
    StartsDelimiter(b, PiecesText(item.value) + t);
    StartOfPieces(item.key, BetweenText(b) + (PiecesText(item.value) + t), BetweenText(b) + PiecesText(item.value));
    FirstOfText(ItemText(item), t);
  }

  /** Every layout is read as its pairs. */
  lemma {:induction false} LayoutIsRead(items: seq<Item>)
    requires IsLayout(items)
    ensures Parse(LayoutText(items)) == Parsed(LayoutPairs(items), None)
  {
    if items != [] {
      var item, rest := items[0], LayoutText(items[1..]);
      LayoutIsRead(items[1..]);
      if item.Assignment? {
        StartOfKey(item, rest);
        AssignmentIsRead(item, rest);
      } else {
        ItemIsSkipped(item, rest);
      }
    }
  }

  // ---------------------------------------------------------------- whatever is read is a layout

  lemma {:induction false} SpacesInFront(s: string) returns (spaces: string)
    ensures s == spaces + SkipSpaces(s) && Spaces(spaces) && !StartsWithSpace(SkipSpaces(s))
  {
    spaces := "";
    if StartsWithSpace(s) {
      var more := SpacesInFront(s[1..]);
      spaces := [s[0]] + more;
    }
  }

  lemma DigitInFront(s: string, digits: nat, value: nat) returns (v: nat)
    requires digits > 0 && UnicodeEscape(s, digits, value).Ok?
    ensures s != "" && IsDigit(s[0], v) && UnicodeEscape(s[1..], digits - 1, value * 16 + v) == UnicodeEscape(s, digits, value)
  {
    v := HexDigit(s[0]).value;
    DigitIsRead(s[0], v);
  }

  lemma TwoDigitsInFront(s: string, digits: nat, value: nat) returns (v: nat, w: nat)
    requires digits > 1 && UnicodeEscape(s, digits, value).Ok?
    ensures |s| > 1 && IsDigit(s[0], v) && IsDigit(s[1], w)
    ensures UnicodeEscape(s[2..], digits - 2, (value * 16 + v) * 16 + w) == UnicodeEscape(s, digits, value)
  {
    v := DigitInFront(s, digits, value);
    w := DigitInFront(s[1..], digits - 1, value * 16 + v);
    assert s[1..][1..] == s[2..];
  }

  lemma HighDigits(a: nat, b: nat, v: nat, w: nat)
    requires v < 16 && w < 16 && ((a * 16 + b) * 16 + v) * 16 + w < 128
    ensures a == 0 && b == 0 && v * 16 + w < 128 && (v * 16 + w) / 16 == v && (v * 16 + w) % 16 == w
  {
  }

  lemma CodeEnds(s: string, value: nat)
    requires UnicodeEscape(s, 0, value).Ok?
    ensures value < 128 && UnicodeEscape(s, 0, value).value == Read([value as char], s)
  {
  }

  lemma CodeInFront(s: string) returns (c: char, digits: string)
    requires UnicodeEscape(s, 4, 0).Ok?
    ensures s == digits + UnicodeEscape(s, 4, 0).value.rest && IsCode(digits, c) && UnicodeEscape(s, 4, 0).value.text == [c]
  {
    var a, b := TwoDigitsInFront(s, 4, 0);
    var v, w := TwoDigitsInFront(s[2..], 2, a * 16 + b);
    assert s[2..][2..] == s[4..];
    CodeEnds(s[4..], ((a * 16 + b) * 16 + v) * 16 + w);
    HighDigits(a, b, v, w);
    c, digits := (v * 16 + w) as char, s[..4];
    assert digits[..2] == "00";
  }

  lemma LineBreakInFront(u: string) returns (p: Piece)
    requires u != "" && IsLineBreak(u[0])
    ensures p.Continued? && Escape(u).Ok? && Escape(u).value.text == ""
    ensures u == Escapee(p) + Escape(u).value.rest && Stands(p, Escape(u).value.rest, true)
  {
    var width := if u[0] == '\r' && |u| > 1 && u[1] == '\n' then 2 else 1;
    var spaces := SpacesInFront(u[width..]);
    p := Continued(u[..width], spaces);
    assert u == u[..width] + u[width..];
  }

  lemma EscapeInFront(u: string) returns (p: Piece)
    requires Escape(u).Ok?
    ensures !p.Plain? && Escape(u).value.text == PieceMeaning(p)
    ensures u == Escapee(p) + Escape(u).value.rest && Stands(p, Escape(u).value.rest, true)
  {
    if u[0] == 'u' {
      var c, digits := CodeInFront(u[1..]);
      p := Code(c, digits);
    } else if IsLineBreak(u[0]) {
      p := LineBreakInFront(u);
    } else {
      p := Quoted(u[0]);
    }
  }

  /** The pieces of one more, in front of a text whose pieces are known. */
  lemma PieceAdded(p: Piece, ps: seq<Piece>, s: string, t: string, inKey: bool)
    requires AllStand(ps, t, inKey) && Stands(p, PiecesText(ps) + t, inKey) && s == PieceText(p) + (PiecesText(ps) + t)
    ensures AllStand([p] + ps, t, inKey) && s == PiecesText([p] + ps) + t
    ensures PiecesMeaning([p] + ps) == PieceMeaning(p) + PiecesMeaning(ps)
  {
    assert ([p] + ps)[1..] == ps;
    AppendAssoc(PieceText(p), PiecesText(ps), t);
  }

  lemma FirstIsEscape(s: string)
    requires s != "" && s[0] == '\\' && (Key(s).Ok? || Value(s).Ok?)
    ensures Escape(s[1..]).Ok? && |Escape(s[1..]).value.rest| < |s|
    ensures var read := Escape(s[1..]).value;
            Key(s) == Prepend(read.text, Key(read.rest)) && Value(s) == Prepend(read.text, Value(read.rest))
  {
  }

  lemma FirstIsPlain(s: string)
    requires s != "" && s[0] != '\\' && !IsLineBreak(s[0])
    ensures Value(s) == Prepend([s[0]], Value(s[1..]))
    ensures !IsDelimiter(s[0]) && !IsSpace(s[0]) ==> Key(s) == Prepend([s[0]], Key(s[1..]))
  {
  }

  lemma PieceInFront(s: string, inKey: bool) returns (p: Piece, t: string)
    requires s != "" && if inKey then Key(s).Ok? && !IsDelimiter(s[0]) && !IsSpace(s[0]) else Value(s).Ok? && !IsLineBreak(s[0])
    ensures s == PieceText(p) + t && |t| < |s| && Stands(p, t, inKey)
    ensures inKey ==> Key(s) == Prepend(PieceMeaning(p), Key(t))
    ensures !inKey ==> Value(s) == Prepend(PieceMeaning(p), Value(t))
  {
    if s[0] == '\\' {
      FirstIsEscape(s);
      p := EscapeInFront(s[1..]);
      t := Escape(s[1..]).value.rest;
      assert s == "\\" + (Escapee(p) + t);
    } else {
      FirstIsPlain(s);
      p, t := Plain(s[0]), s[1..];
    }
  }

  lemma {:induction false} KeyInFront(s: string) returns (ps: seq<Piece>)
    requires Key(s).Ok?
    ensures s == PiecesText(ps) + Key(s).value.rest && AllStand(ps, Key(s).value.rest, true)
    ensures PiecesMeaning(ps) == Key(s).value.text
    decreases |s|
  {
    ps := [];
    if IsDelimiter(s[0]) || IsSpace(s[0]) {
      assert PiecesText(ps) + s == s;
    } else {
      var p, t := PieceInFront(s, true);
      var more := KeyInFront(t);
      PieceAdded(p, more, s, Key(t).value.rest, true);
      ps := [p] + more;
    }
  }

  lemma {:induction false} ValueInFront(s: string) returns (ps: seq<Piece>)
    requires Value(s).Ok?
    ensures s == PiecesText(ps) + Value(s).value.rest && AllStand(ps, Value(s).value.rest, false)
    ensures PiecesMeaning(ps) == Value(s).value.text && (Value(s).value.rest != "" ==> IsLineBreak(Value(s).value.rest[0]))
    decreases |s|
  {
    ps := [];
    if s == "" || IsLineBreak(s[0]) {
      assert PiecesText(ps) + s == s;
    } else {
      var p, t := PieceInFront(s, false);
      var more := ValueInFront(t);
      PieceAdded(p, more, s, Value(t).value.rest, false);
      ps := [p] + more;
    }
  }

  lemma DelimiterInFront(s: string) returns (b: Between)
    requires Delimiter(s).Ok?
    ensures s == BetweenText(b) + Delimiter(s).value.rest && Separates(b, Delimiter(s).value.rest)
  {
    if IsDelimiter(s[0]) {
      var after := SpacesInFront(s[1..]);
      b := Between("", s[..1], after);
    } else {
      var before := SpacesInFront(s[1..]);
      var t := SkipSpaces(s[1..]);
      if t != "" && IsDelimiter(t[0]) {
        var after := SpacesInFront(t[1..]);
        b := Between(s[..1] + before, t[..1], after);
      } else {
        b := Between(s[..1] + before, "", "");
      }
    }
  }

  lemma {:induction false} CommentInFront(s: string) returns (text: string, lineBreak: string)
    ensures s == text + lineBreak + SkipComment(s) && NoLineBreaks(text)
    ensures if lineBreak == "" then SkipComment(s) == "" else lineBreak == "\n" || lineBreak == "\r"
  {
    text, lineBreak := "", "";
    if s != "" {
      if IsLineBreak(s[0]) {
        lineBreak := s[..1];
      } else {
        var more;
        more, lineBreak := CommentInFront(s[1..]);
        text := s[..1] + more;
      }
    }
  }

  lemma EntryInFront(s: string) returns (item: Item)
    requires Entry(s).Ok? && s != "" && SkipBeforeKey(s) == s
    ensures item.Assignment? && s == ItemText(item) + Entry(s).value.1 && Fits(item, Entry(s).value.1)
    ensures ItemPairs(item) == [Entry(s).value.0]
  {
    var key := KeyInFront(s);
    var between := DelimiterInFront(Key(s).value.rest);
    var behind := Delimiter(Key(s).value.rest).value.rest;
    var value := ValueInFront(behind);
    item := Assignment(key, between, value);
    AssignmentText(PiecesText(key), BetweenText(between), PiecesText(value), Entry(s).value.1);
    StartsDelimiter(between, behind);
    NotBeforeKey(ItemText(item), Entry(s).value.1);
  }

  lemma NotBeforeKey(text: string, t: string)
    requires text != "" && SkipBeforeKey(text + t) == text + t
    ensures text[..1] != "#" && text[..1] != "!" && !StartsWithSpace(text)
  {
    assert text[..1] == [text[0]] && (text + t)[0] == text[0];
  }

  lemma ItemAdded(item: Item, items: seq<Item>, s: string)
    requires IsLayout(items) && Fits(item, LayoutText(items)) && s == ItemText(item) + LayoutText(items)
    ensures IsLayout([item] + items) && LayoutText([item] + items) == s
    ensures LayoutPairs([item] + items) == ItemPairs(item) + LayoutPairs(items)
  {
    assert ([item] + items)[1..] == items;
  }

  /** Reading goes on behind a space, a line break or a comment. */
  lemma ReadOn(s: string)
    requires s != ""
    ensures IsSpace(s[0]) || IsLineBreak(s[0]) ==> Parse(s) == Parse(s[1..])
    ensures s[0] == '#' || s[0] == '!' ==> Parse(s) == Parse(SkipComment(s)) && SkipComment(s) == SkipComment(s[1..])
    ensures SkipBeforeKey(s) == s || IsSpace(s[0]) || IsLineBreak(s[0]) || s[0] == '#' || s[0] == '!'
  {
  }

  lemma ReadEntry(s: string)
    requires s != "" && SkipBeforeKey(s) == s && Parse(s).error.None?
    ensures Entry(s).Ok?
    ensures Parse(Entry(s).value.1).error.None? && Parse(s).pairs == [Entry(s).value.0] + Parse(Entry(s).value.1).pairs
  {
  }

  lemma CommentItem(s: string) returns (item: Item, t: string)
    requires s != "" && (s[0] == '#' || s[0] == '!')
    ensures item.Comment? && t == SkipComment(s) && s == ItemText(item) + t && |t| < |s| && Fits(item, t)
  {
    var text, lineBreak := CommentInFront(s[1..]);
    item, t := Comment(s[0], text, lineBreak), SkipComment(s[1..]);
    HeadAndTail(s);
    AppendAssoc([s[0]], text, lineBreak);
    AppendAssoc([s[0]], text + lineBreak, t);
  }

  lemma ItemInFront(s: string) returns (item: Item, t: string)
    requires s != "" && Parse(s).error.None?
    ensures s == ItemText(item) + t && |t| < |s| && Fits(item, t)
    ensures Parse(t).error.None? && Parse(s).pairs == ItemPairs(item) + Parse(t).pairs
  {
    ReadOn(s);
    if IsSpace(s[0]) || IsLineBreak(s[0]) {
      item, t := Gap(s[0]), s[1..];
      HeadAndTail(s);
      NoPairs(item, s, t);
    } else if s[0] == '#' || s[0] == '!' {
      item, t := CommentItem(s);
      NoPairs(item, s, t);
    } else {
      ReadEntry(s);
      item := EntryInFront(s);
      t := Entry(s).value.1;
    }
  }

  lemma NoPairs(item: Item, s: string, t: string)
    requires !item.Assignment? && Parse(s) == Parse(t)
    ensures Parse(s).pairs == ItemPairs(item) + Parse(t).pairs
  {
    assert ItemPairs(item) + Parse(t).pairs == Parse(t).pairs;
  }

  lemma LayoutBehind(item: Item, items: seq<Item>, s: string, t: string)
    requires IsLayout(items) && LayoutText(items) == t && LayoutPairs(items) == Parse(t).pairs
    requires Fits(item, t) && s == ItemText(item) + t && Parse(s).pairs == ItemPairs(item) + Parse(t).pairs
    ensures IsLayout([item] + items) && LayoutText([item] + items) == s && LayoutPairs([item] + items) == Parse(s).pairs
  {
    ItemAdded(item, items, s);
  }

  lemma {:induction false} LayoutOfText(s: string) returns (items: seq<Item>)
    requires Parse(s).error.None?
    ensures IsLayout(items) && LayoutText(items) == s && LayoutPairs(items) == Parse(s).pairs
    decreases |s|
  {
    items := [];
    if s != "" {
      var item, t := ItemInFront(s);
      var more := LayoutOfText(t);
      LayoutBehind(item, more, s, t);
      items := [item] + more;
    }
  }

  /** A text is read without an error exactly if it is a layout, and then it is read as the pairs of the layout. */
  lemma ReadIffLayout(s: string, pairs: seq<Pair>)
    ensures Parse(s) == Parsed(pairs, None) <==> exists items :: IsLayout(items) && LayoutText(items) == s && LayoutPairs(items) == pairs
  {
    if Parse(s) == Parsed(pairs, None) {
      var items := LayoutOfText(s);
    }
    if items :| IsLayout(items) && LayoutText(items) == s && LayoutPairs(items) == pairs {
      LayoutIsRead(items);
    }
  }
}
