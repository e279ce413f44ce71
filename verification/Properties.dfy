/** The properties text format: a reader over a character stream and a writer. A character stands for one byte. */
module PropertiesFormat {
  import opened Options
  import opened Sequences

  datatype FormatError =
    | EofAfterKey
    | LineBreakAfterKey
    | CharacterAfterKey
    | EofDuringEscape
    | EofDuringUnicodeEscape
    | CharacterDuringUnicodeEscape
    | EscapeNotAscii

  datatype Result<T> = Ok(value: T) | Err(error: FormatError)

  /** The characters that were read, and the text that is left. */
  datatype Read = Read(text: string, rest: string)

  predicate IsSpace(c: char)
  {
    c == ' ' || c == '\t'
  }

  predicate IsLineBreak(c: char)
  {
    c == '\r' || c == '\n'
  }

  predicate IsDelimiter(c: char)
  {
    c == '=' || c == ':'
  }

  predicate IsAscii(c: char)
  {
    c as int < 128
  }

  // ------------------------------------------------------------------ the format

  function SkipSpaces(s: string): (r: string)
    ensures |r| <= |s|
  {
    if s != "" && IsSpace(s[0]) then SkipSpaces(s[1..]) else s
  }

  function SkipComment(s: string): (r: string)
    ensures |r| <= |s| && (s != "" ==> |r| < |s|)
  {
    if s == "" then s else if IsLineBreak(s[0]) then s[1..] else SkipComment(s[1..])
  }

  function SkipBeforeKey(s: string): (r: string)
    ensures |r| <= |s|
    decreases |s|
  {
    if s == "" then s
    else if IsSpace(s[0]) || IsLineBreak(s[0]) then SkipBeforeKey(s[1..])
    else if s[0] == '#' || s[0] == '!' then SkipBeforeKey(SkipComment(s))
    else s
  }

  function HexDigit(c: char): Option<nat>
  {
    if '0' <= c <= '9' then Some(c as int - '0' as int)
    else if 'A' <= c <= 'F' then Some(10 + c as int - 'A' as int)
    else if 'a' <= c <= 'f' then Some(10 + c as int - 'a' as int)
    else None
  }

  /** The digits that are left to read, and the value of those that were read. */
  function UnicodeEscape(s: string, digits: nat, value: nat): (r: Result<Read>)
    ensures r.Ok? ==> |r.value.rest| <= |s|
    decreases digits
  {
    if digits == 0 then
      if value >= 128 then Err(EscapeNotAscii) else Ok(Read([value as char], s))
    else if s == "" then Err(EofDuringUnicodeEscape)
    else match HexDigit(s[0])
      case None => Err(CharacterDuringUnicodeEscape)
      case Some(digit) => UnicodeEscape(s[1..], digits - 1, value * 16 + digit)
  }

  /** What follows a backslash. */
  function Escape(s: string): (r: Result<Read>)
    ensures r.Ok? ==> |r.value.rest| < |s|
  {
    if s == "" then Err(EofDuringEscape)
    else if s[0] == 'u' then UnicodeEscape(s[1..], 4, 0)
    else if s[0] == '\n' then Ok(Read("", SkipSpaces(s[1..])))
    else if s[0] == '\r' then
      Ok(Read("", SkipSpaces(if |s| > 1 && s[1] == '\n' then s[2..] else s[1..])))
    else Ok(Read([s[0]], s[1..]))
  }

  function Prepend(text: string, r: Result<Read>): Result<Read>
  {
    match r
    case Ok(read) => Ok(Read(text + read.text, read.rest))
    case Err(e) => Err(e)
  }

  function Key(s: string): (r: Result<Read>)
    ensures r.Ok? ==> |r.value.rest| <= |s|
    decreases |s|
  {
    if s == "" then Err(EofAfterKey)
    else if s[0] == '\\' then
      var escaped := Escape(s[1..]);
      if escaped.Ok? then Prepend(escaped.value.text, Key(escaped.value.rest)) else escaped
    else if IsLineBreak(s[0]) then Err(LineBreakAfterKey)
    else if IsDelimiter(s[0]) || IsSpace(s[0]) then Ok(Read("", s))
    else Prepend([s[0]], Key(s[1..]))
  }

  function Value(s: string): (r: Result<Read>)
    ensures r.Ok? ==> |r.value.rest| <= |s|
    decreases |s|
  {
    if s == "" || IsLineBreak(s[0]) then Ok(Read("", s))
    else if s[0] == '\\' then
      var escaped := Escape(s[1..]);
      if escaped.Ok? then Prepend(escaped.value.text, Value(escaped.value.rest)) else escaped
    else Prepend([s[0]], Value(s[1..]))
  }

  function Delimiter(s: string): (r: Result<Read>)
    ensures r.Ok? ==> |r.value.rest| < |s|
  {
    if s == "" then Err(EofAfterKey)
    else if IsDelimiter(s[0]) then Ok(Read("", SkipSpaces(s[1..])))
    else if IsSpace(s[0]) then
      var t := SkipSpaces(s[1..]);
      Ok(Read("", if t != "" && IsDelimiter(t[0]) then SkipSpaces(t[1..]) else t))
    else Err(CharacterAfterKey)
  }

  type Pair = (string, string)

  /** The pairs up to the end of the text or the first error. */
  datatype Parsed = Parsed(pairs: seq<Pair>, error: Option<FormatError>)

  function Entry(s: string): (r: Result<(Pair, string)>)
    ensures r.Ok? ==> |r.value.1| < |s|
  {
    var key := Key(s);
    if key.Err? then Err(key.error) else
      var delimiter := Delimiter(key.value.rest);
      if delimiter.Err? then Err(delimiter.error) else
        var value := Value(delimiter.value.rest);
        if value.Err? then Err(value.error)
        else Ok(((key.value.text, value.value.text), value.value.rest))
  }

  function Parse(s: string): Parsed
    decreases |s|
  {
    var t := SkipBeforeKey(s);
    if t == "" then Parsed([], None)
    else match Entry(t)
      case Err(e) => Parsed([], Some(e))
      case Ok((pair, rest)) =>
        var more := Parse(rest);
        Parsed([pair] + more.pairs, more.error)
  }

  function HexOf(digit: nat): char
    requires digit < 16
  {
    if digit < 10 then ('0' as int + digit) as char else ('A' as int + digit - 10) as char
  }

  /** A character below 128 as a Unicode escape. */
  function Escaped(c: char): string
    requires IsAscii(c)
  {
    "\\u00" + [HexOf(c as int / 16), HexOf(c as int % 16)]
  }

  function KeyChar(c: char): string
    requires IsAscii(c)
  {
    if c in "\\=:#! " then ['\\', c] else if c < ' ' then Escaped(c) else [c]
  }

  function ValueChar(c: char): string
    requires IsAscii(c)
  {
    if c == '\\' then ['\\', c] else if c < ' ' then Escaped(c) else [c]
  }

  predicate Ascii(s: string)
  {
    forall i :: 0 <= i < |s| ==> IsAscii(s[i])
  }

  function KeyText(key: string): string
    requires Ascii(key)
  {
    if key == "" then "" else KeyChar(key[0]) + KeyText(key[1..])
  }

  function ValueChars(value: string): string
    requires Ascii(value)
  {
    if value == "" then "" else ValueChar(value[0]) + ValueChars(value[1..])
  }

  function ValueText(value: string): string
    requires Ascii(value)
  {
    if value != "" && value[0] == ' ' then "\\ " + ValueChars(value[1..]) else ValueChars(value)
  }

  predicate AsciiPairs(pairs: seq<Pair>)
  {
    forall i :: 0 <= i < |pairs| ==> Ascii(pairs[i].0) && Ascii(pairs[i].1)
  }

  function Line(pair: Pair): string
    requires Ascii(pair.0) && Ascii(pair.1)
  {
    KeyText(pair.0) + "=" + ValueText(pair.1) + "\n"
  }

  function Text(pairs: seq<Pair>): string
    requires AsciiPairs(pairs)
  {
    if pairs == [] then "" else Line(pairs[0]) + Text(pairs[1..])
  }

  // ------------------------------------------------------------------ the round trip

  lemma HexIsRead(digit: nat)
    requires digit < 16
    ensures HexDigit(HexOf(digit)) == Some(digit)
  {
  }

  lemma EscapedIsRead(c: char, t: string)
    requires IsAscii(c)
    ensures Escape(Escaped(c)[1..] + t) == Ok(Read([c], t))
  {
    var high, low := c as int / 16, c as int % 16;
    var s := Escaped(c)[1..] + t;
    HexIsRead(high);
    HexIsRead(low);
    assert s[1..][1..][1..] == [HexOf(high), HexOf(low)] + t;
    assert s[1..][1..][1..][1..] == [HexOf(low)] + t;
    assert s[1..][1..][1..][1..][1..] == t;
    calc {
      UnicodeEscape(s[1..], 4, 0);
      UnicodeEscape(s[1..][1..], 3, 0);
      UnicodeEscape(s[1..][1..][1..], 2, 0);
      UnicodeEscape(s[1..][1..][1..][1..], 1, high);
      UnicodeEscape(t, 0, high * 16 + low);
      Ok(Read([c], t));
    }
  }

  lemma KeyCharIsRead(c: char, t: string)
    requires IsAscii(c)
    ensures Key(KeyChar(c) + t) == Prepend([c], Key(t))
  {
    var s := KeyChar(c) + t;
    if c in "\\=:#! " {
      assert s[1..] == [c] + t && ([c] + t)[1..] == t;
    } else if c < ' ' {
      EscapedIsRead(c, t);
      assert s[1..] == Escaped(c)[1..] + t;
    } else {
      assert s[1..] == t;
    }
  }

  lemma ValueCharIsRead(c: char, t: string)
    requires IsAscii(c)
    ensures Value(ValueChar(c) + t) == Prepend([c], Value(t))
  {
    var s := ValueChar(c) + t;
    if c == '\\' {
      assert s[1..] == [c] + t && ([c] + t)[1..] == t;
    } else if c < ' ' {
      EscapedIsRead(c, t);
      assert s[1..] == Escaped(c)[1..] + t;
    } else {
      assert s[1..] == t;
    }
  }

  lemma {:induction false} KeyTextIsRead(key: string, t: string)
    requires Ascii(key) && t != "" && t[0] == '='
    ensures Key(KeyText(key) + t) == Ok(Read(key, t))
  {
    if key == "" {
      assert KeyText(key) + t == t;
    } else {
      KeyTextIsRead(key[1..], t);
      KeyCharIsRead(key[0], KeyText(key[1..]) + t);
      AppendAssoc(KeyChar(key[0]), KeyText(key[1..]), t);
      HeadAndTail(key);
    }
  }

  lemma {:induction false} ValueCharsAreRead(value: string, t: string)
    requires Ascii(value) && t != "" && t[0] == '\n'
    ensures Value(ValueChars(value) + t) == Ok(Read(value, t))
  {
    if value == "" {
      assert ValueChars(value) + t == t;
    } else {
      ValueCharsAreRead(value[1..], t);
      ValueCharIsRead(value[0], ValueChars(value[1..]) + t);
      AppendAssoc(ValueChar(value[0]), ValueChars(value[1..]), t);
      HeadAndTail(value);
    }
  }

  lemma ValueTextIsRead(value: string, t: string)
    requires Ascii(value) && t != "" && t[0] == '\n'
    ensures Value(ValueText(value) + t) == Ok(Read(value, t))
    ensures SkipSpaces(ValueText(value) + t) == ValueText(value) + t
  {
    if value != "" && value[0] == ' ' {
      SpaceIsEscaped(value[1..], t);
      HeadAndTail(value);
    } else {
      ValueCharsAreRead(value, t);
      NoLeadingSpace(value, t);
    }
  }

  lemma BackslashSpace(rest: string)
    ensures Value("\\ " + rest) == Prepend([' '], Value(rest))
    ensures SkipSpaces("\\ " + rest) == "\\ " + rest
  {
    var s := "\\ " + rest;
    assert s[1..] == [' '] + rest && ([' '] + rest)[1..] == rest;
  }

  lemma SpaceIsEscaped(value: string, t: string)
    requires Ascii(value) && t != "" && t[0] == '\n'
    ensures Value("\\ " + ValueChars(value) + t) == Ok(Read([' '] + value, t))
    ensures SkipSpaces("\\ " + ValueChars(value) + t) == "\\ " + ValueChars(value) + t
  {
    ValueCharsAreRead(value, t);
    BackslashSpace(ValueChars(value) + t);
    AppendAssoc("\\ ", ValueChars(value), t);
  }

  lemma NoLeadingSpace(value: string, t: string)
    requires Ascii(value) && t != "" && t[0] == '\n' && (value == "" || value[0] != ' ')
    ensures SkipSpaces(ValueChars(value) + t) == ValueChars(value) + t
  {
    if value == "" {
      assert ValueChars(value) + t == t;
    } else {
      assert (ValueChars(value) + t)[0] == ValueChar(value[0])[0];
    }
  }

  lemma LineIsRead(pair: Pair, t: string)
    requires Ascii(pair.0) && Ascii(pair.1)
    ensures SkipBeforeKey(Line(pair) + t) == Line(pair) + t
    ensures Entry(Line(pair) + t) == Ok((pair, "\n" + t))
  {
    var afterKey := "=" + (ValueText(pair.1) + ("\n" + t));
    assert Line(pair) + t == KeyText(pair.0) + afterKey;
    KeyTextIsRead(pair.0, afterKey);
    ValueTextIsRead(pair.1, "\n" + t);
    assert afterKey[1..] == ValueText(pair.1) + ("\n" + t);
    KeyStartsEntry(pair.0, afterKey);
  }

  /** No key starts like a comment, a space or a line break. */
  lemma KeyStartsEntry(key: string, afterKey: string)
    requires Ascii(key) && afterKey != "" && afterKey[0] == '='
    ensures SkipBeforeKey(KeyText(key) + afterKey) == KeyText(key) + afterKey
  {
    if key == "" {
      assert KeyText(key) + afterKey == afterKey;
    } else {
      assert (KeyText(key) + afterKey)[0] == KeyChar(key[0])[0];
    }
  }

  /** Reading what was written gives the same pairs, whatever ASCII characters they hold. */
  lemma {:induction false} TextIsRead(pairs: seq<Pair>)
    requires AsciiPairs(pairs)
    ensures Parse(Text(pairs)) == Parsed(pairs, None)
  {
    if pairs != [] {
      var rest := Text(pairs[1..]);
      TextIsRead(pairs[1..]);
      LineIsRead(pairs[0], rest);
      ParseSkipsLineBreak(rest);
      assert [pairs[0]] + pairs[1..] == pairs;
    }
  }

  lemma ParseSkipsLineBreak(t: string)
    ensures Parse("\n" + t) == Parse(t)
  {
    assert ("\n" + t)[1..] == t;
  }

  // ------------------------------------------------------------------ reading from a stream

  /** The part of std::istream that the reader uses; None stands for EOF. */
  class InStream {
    const text: string
    var pos: nat
    var good: bool

    ghost predicate Valid()
      reads this
    {
      pos <= |text| && (good || pos == |text|)
    }

    ghost function Rest(): string
      requires Valid()
      reads this
    {
      text[pos..]
    }

    constructor (text: string)
      ensures Valid() && Rest() == text && good
    {
      this.text, pos, good := text, 0, true;
    }

    method Peek() returns (c: Option<char>)
      requires Valid()
      modifies this`good
      ensures Valid() && c == (if Rest() == "" then None else Some(Rest()[0]))
      ensures good == (old(good) && Rest() != "")
    {
      if pos == |text| {
        good := false;
        return None;
      }
      return Some(text[pos]);
    }

    method Get() returns (c: Option<char>)
      requires Valid()
      modifies this
      ensures Valid() && c == (if old(Rest()) == "" then None else Some(old(Rest())[0]))
      ensures Rest() == if c.None? then "" else old(Rest())[1..]
    {
      c := Peek();
      if c.Some? {
        pos := pos + 1;
      }
    }
  }

  method ConsumeSpaces(input: InStream)
    requires input.Valid()
    modifies input
    ensures input.Valid() && input.Rest() == SkipSpaces(old(input.Rest()))
  {
    var c := input.Peek();
    while c.Some? && IsSpace(c.value)
      invariant input.Valid() && SkipSpaces(input.Rest()) == SkipSpaces(old(input.Rest()))
      invariant c == if input.Rest() == "" then None else Some(input.Rest()[0])
      decreases |input.Rest()|
    {
      var _ := input.Get();
      c := input.Peek();
    }
  }

  method ConsumeComment(input: InStream)
    requires input.Valid()
    modifies input
    ensures input.Valid() && input.Rest() == SkipComment(old(input.Rest()))
  {
    var c := input.Get();
    while c.Some? && !IsLineBreak(c.value)
      invariant input.Valid()
      invariant c.None? ==> input.Rest() == "" && SkipComment(old(input.Rest())) == ""
      invariant c.Some? && IsLineBreak(c.value) ==> SkipComment(old(input.Rest())) == input.Rest()
      invariant c.Some? && !IsLineBreak(c.value) ==> SkipComment(old(input.Rest())) == SkipComment(input.Rest())
      decreases |input.Rest()|, c.Some?
    {
      c := input.Get();
    }
  }

  method HasNextKey(input: InStream) returns (r: bool)
    requires input.Valid()
    modifies input
    ensures input.Valid() && input.Rest() == SkipBeforeKey(old(input.Rest()))
    ensures r <==> input.Rest() != ""
  {
    var c := input.Peek();
    while c.Some? && (IsSpace(c.value) || IsLineBreak(c.value) || c.value == '#' || c.value == '!')
      invariant input.Valid() && SkipBeforeKey(input.Rest()) == SkipBeforeKey(old(input.Rest()))
      invariant c == if input.Rest() == "" then None else Some(input.Rest()[0])
      invariant input.good <==> input.Rest() != ""
      decreases |input.Rest()|
    {
      if IsSpace(c.value) || IsLineBreak(c.value) {
        var _ := input.Get();
      } else {
        ConsumeComment(input);
      }
      c := input.Peek();
    }
    return input.good;
  }

  method ConsumeDelimiter(input: InStream) returns (error: Option<FormatError>)
    requires input.Valid()
    modifies input
    ensures input.Valid()
    ensures Delimiter(old(input.Rest())) == if error.Some? then Err(error.value) else Ok(Read("", input.Rest()))
  {
    var c := input.Get();
    if c.None? {
      return Some(EofAfterKey);
    }
    if IsDelimiter(c.value) {
      ConsumeSpaces(input);
    } else if IsSpace(c.value) {
      ConsumeSpaces(input);
      c := input.Peek();
      if c.Some? && IsDelimiter(c.value) {
        var _ := input.Get();
        ConsumeSpaces(input);
      }
    } else {
      return Some(CharacterAfterKey);
    }
    return None;
  }

  /** What a reading method did is what the format demands: an error, or text added and the rest left. */
  ghost predicate Agrees(format: Result<Read>, before: string, after: string, rest: string, error: Option<FormatError>)
  {
    if error.Some? then format == Err(error.value)
    else format.Ok? && after == before + format.value.text && rest == format.value.rest
  }

  /** The escaped value is kept in 16 bits, which four digits fill. */
  lemma NextHexDigit(s: string, digits: nat, value: nat)
    requires digits > 0
    ensures UnicodeEscape(s, digits, value) ==
      if s == "" then Err(EofDuringUnicodeEscape)
      else if HexDigit(s[0]).None? then Err(CharacterDuringUnicodeEscape)
      else UnicodeEscape(s[1..], digits - 1, value * 16 + HexDigit(s[0]).value)
  {
  }

  method ReadUnicodeEscape(input: InStream, consumer: string) returns (r: string, error: Option<FormatError>)
    requires input.Valid()
    modifies input
    ensures input.Valid()
    ensures Agrees(UnicodeEscape(old(input.Rest()), 4, 0), consumer, r, input.Rest(), error)
  {
    r := consumer;
    var escaped: nat := 0;
    ghost var goal := UnicodeEscape(input.Rest(), 4, 0);
    for i := 0 to 4
      invariant input.Valid()
      invariant goal == UnicodeEscape(input.Rest(), 4 - i, escaped)
    {
      NextHexDigit(input.Rest(), 4 - i, escaped);
      var c := input.Get();
      if c.None? {
        return r, Some(EofDuringUnicodeEscape);
      }
      var digit := HexDigit(c.value);
      if digit.None? {
        return r, Some(CharacterDuringUnicodeEscape);
      }
      escaped := escaped * 16 + digit.value;
    }
    if escaped >= 128 {
      return r, Some(EscapeNotAscii);
    }
    return r + [escaped as char], None;
  }

  method ReadEscaped(input: InStream, consumer: string) returns (r: string, error: Option<FormatError>)
    requires input.Valid()
    modifies input
    ensures input.Valid()
    ensures Agrees(Escape(old(input.Rest())), consumer, r, input.Rest(), error)
  {
    r := consumer;
    var c := input.Get();
    if c.None? {
      return r, Some(EofDuringEscape);
    }
    if c.value == 'u' {
      r, error := ReadUnicodeEscape(input, consumer);
      return;
    }
    if c.value == '\n' {
      ConsumeSpaces(input);
    } else if c.value == '\r' {
      c := input.Peek();
      if c == Some('\n') {
        var _ := input.Get();
      }
      ConsumeSpaces(input);
    } else {
      r := r + [c.value];
    }
    return r, None;
  }

  lemma PrependTwice(a: string, b: string, r: Result<Read>)
    ensures Prepend(a, Prepend(b, r)) == Prepend(a + b, r)
  {
    if r.Ok? { AppendAssoc(a, b, r.value.text); }
  }

  lemma PrependNothing(r: Result<Read>)
    ensures Prepend("", r) == r
  {
    if r.Ok? { assert "" + r.value.text == r.value.text; }
  }

  method ReadKey(input: InStream) returns (key: string, error: Option<FormatError>)
    requires input.Valid()
    modifies input
    ensures input.Valid()
    ensures Key(old(input.Rest())) == if error.Some? then Err(error.value) else Ok(Read(key, input.Rest()))
  {
    key := "";
    PrependNothing(Key(input.Rest()));
    while true
      invariant input.Valid()
      invariant Key(old(input.Rest())) == Prepend(key, Key(input.Rest()))
      decreases |input.Rest()|
    {
      ghost var before, rest := key, input.Rest();
      var c := input.Peek();
      if c.None? {
        return key, Some(EofAfterKey);
      } else if c.value == '\\' {
        var _ := input.Get();
        key, error := ReadEscaped(input, key);
        if error.Some? {
          return;
        }
        PrependTwice(before, Escape(rest[1..]).value.text, Key(input.Rest()));
      } else if IsLineBreak(c.value) {
        return key, Some(LineBreakAfterKey);
      } else if IsDelimiter(c.value) || IsSpace(c.value) {
        assert key + "" == key;
        return key, None;
      } else {
        var _ := input.Get();
        key := key + [c.value];
        PrependTwice(before, [c.value], Key(input.Rest()));
      }
    }
  }

  method ReadValue(input: InStream) returns (value: string, error: Option<FormatError>)
    requires input.Valid()
    modifies input
    ensures input.Valid()
    ensures Value(old(input.Rest())) == if error.Some? then Err(error.value) else Ok(Read(value, input.Rest()))
  {
    value := "";
    PrependNothing(Value(input.Rest()));
    while true
      invariant input.Valid()
      invariant Value(old(input.Rest())) == Prepend(value, Value(input.Rest()))
      decreases |input.Rest()|
    {
      ghost var before, rest := value, input.Rest();
      var c := input.Peek();
      if c.None? || IsLineBreak(c.value) {
        assert value + "" == value;
        return value, None;
      } else if c.value == '\\' {
        var _ := input.Get();
        value, error := ReadEscaped(input, value);
        if error.Some? {
          return;
        }
        PrependTwice(before, Escape(rest[1..]).value.text, Value(input.Rest()));
      } else {
        var _ := input.Get();
        value := value + [c.value];
        PrependTwice(before, [c.value], Value(input.Rest()));
      }
    }
  }

  function PrependPairs(pairs: seq<Pair>, p: Parsed): Parsed
  {
    Parsed(pairs + p.pairs, p.error)
  }

  lemma PrependNextPair(pairs: seq<Pair>, pair: Pair, p: Parsed)
    ensures PrependPairs(pairs, Parsed([pair] + p.pairs, p.error)) == PrependPairs(pairs + [pair], p)
  {
  }

  /** One pair, or the error that ends the reading. */
  method ReadEntry(input: InStream) returns (pair: Pair, error: Option<FormatError>)
    requires input.Valid()
    modifies input
    ensures input.Valid()
    ensures Entry(old(input.Rest())) == if error.Some? then Err(error.value) else Ok((pair, input.Rest()))
  {
    var key, value;
    pair := ("", "");
    key, error := ReadKey(input);
    if error.Some? {
      return;
    }
    error := ConsumeDelimiter(input);
    if error.Some? {
      return;
    }
    value, error := ReadValue(input);
    pair := (key, value);
  }

  /** The pairs up to the end of the stream or the first error. */
  method ReadProperties(input: InStream) returns (pairs: seq<Pair>, error: Option<FormatError>)
    requires input.Valid()
    modifies input
    ensures Parsed(pairs, error) == Parse(old(input.Rest()))
  {
    pairs := [];
    while true
      invariant input.Valid()
      invariant PrependPairs(pairs, Parse(input.Rest())) == Parse(old(input.Rest()))
      decreases |input.Rest()|
    {
      var more := HasNextKey(input);
      if !more {
        return pairs, None;
      }
      var pair;
      pair, error := ReadEntry(input);
      if error.Some? {
        return;
      }
      PrependNextPair(pairs, pair, Parse(input.Rest()));
      pairs := pairs + [pair];
    }
  }

  // ------------------------------------------------------------------ writing

  /** Fails on the first character that is not ASCII. */
  method WriteKey(out: string, key: string) returns (r: string, ok: bool)
    ensures ok <==> Ascii(key)
    ensures ok ==> r == out + KeyText(key)
  {
    r := out;
    for i := 0 to |key|
      invariant Ascii(key[..i]) && r == out + KeyText(key[..i])
    {
      TakeNext(key, i);
      if key[i] as int >= 128 {
        return r, false;
      }
      KeyTextSnoc(key[..i], key[i]);
      AppendAssoc(out, KeyText(key[..i]), KeyChar(key[i]));
      r := r + KeyChar(key[i]);
    }
    assert key[..|key|] == key;
    return r, true;
  }

  lemma {:induction false} KeyTextSnoc(key: string, c: char)
    requires Ascii(key) && IsAscii(c)
    ensures KeyText(key + [c]) == KeyText(key) + KeyChar(c)
  {
    if key == "" {
      assert key + [c] == [c];
    } else {
      KeyTextSnoc(key[1..], c);
      assert (key + [c])[1..] == key[1..] + [c];
    }
  }

  lemma {:induction false} ValueCharsSnoc(value: string, c: char)
    requires Ascii(value) && IsAscii(c)
    ensures ValueChars(value + [c]) == ValueChars(value) + ValueChar(c)
  {
    if value == "" {
      assert value + [c] == [c];
    } else {
      ValueCharsSnoc(value[1..], c);
      assert (value + [c])[1..] == value[1..] + [c];
    }
  }

  method WriteValue(out: string, value: string) returns (r: string, ok: bool)
    ensures ok <==> Ascii(value)
    ensures ok ==> r == out + ValueText(value)
  {
    r := out;
    if value == "" {
      return r, true;
    }
    var it := 0;
    if value[0] == ' ' {
      it := 1;
      r := r + "\\ ";
    }
    ghost var first, start := it, r;
    for i := it to |value|
      invariant Ascii(value[first..i]) && r == start + ValueChars(value[first..i])
    {
      assert value[first..i + 1] == value[first..i] + [value[i]];
      if value[i] as int >= 128 {
        return r, false;
      }
      ValueCharsSnoc(value[first..i], value[i]);
      AppendAssoc(start, ValueChars(value[first..i]), ValueChar(value[i]));
      r := r + ValueChar(value[i]);
    }
    assert value[first..|value|] == value[first..];
    assert Ascii(value) by {
      assert forall j :: first <= j < |value| ==> value[j] == value[first..][j - first];
    }
    AppendAssoc(out, "\\ ", ValueChars(value[first..]));
    return r, true;
  }

  method WriteLine(out: string, pair: Pair) returns (r: string, ok: bool)
    ensures ok <==> Ascii(pair.0) && Ascii(pair.1)
    ensures ok ==> r == out + Line(pair)
  {
    r, ok := WriteKey(out, pair.0);
    if !ok {
      return;
    }
    r := r + "=";
    r, ok := WriteValue(r, pair.1);
    if !ok {
      return;
    }
    LineInParts(out, KeyText(pair.0), ValueText(pair.1));
    r := r + "\n";
  }

  lemma LineInParts(out: string, key: string, value: string)
    ensures out + key + "=" + value + "\n" == out + (key + "=" + value + "\n")
  {
    AppendAssoc(out, key, "=");
    AppendAssoc(out, key + "=", value);
    AppendAssoc(out, key + "=" + value, "\n");
  }

  /** Succeeds exactly on ASCII pairs. */
  method WriteProperties(pairs: seq<Pair>) returns (out: string, ok: bool)
    ensures ok <==> AsciiPairs(pairs)
    ensures ok ==> out == Text(pairs)
  {
    out, ok := "", true;
    for i := 0 to |pairs|
      invariant ok && AsciiPairs(pairs[..i]) && out == Text(pairs[..i])
    {
      TakeNext(pairs, i);
      out, ok := WriteLine(out, pairs[i]);
      if !ok {
        return;
      }
      TextSnoc(pairs[..i], pairs[i]);
    }
    assert pairs[..|pairs|] == pairs;
  }

  lemma {:induction false} TextSnoc(pairs: seq<Pair>, pair: Pair)
    requires AsciiPairs(pairs) && Ascii(pair.0) && Ascii(pair.1)
    ensures AsciiPairs(pairs + [pair]) && Text(pairs + [pair]) == Text(pairs) + Line(pair)
  {
    if pairs == [] {
      EmptyLeft([pair]);
      EmptyLeft(Line(pair));
      EmptyRight(Line(pair));
    } else {
      TextSnoc(pairs[1..], pair);
      TailOfAppend(pairs, [pair]);
      AppendAssoc(Line(pairs[0]), Text(pairs[1..]), Line(pair));
    }
  }
}
