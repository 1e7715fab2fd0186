// A JSON reader following the grammar of RFC 8259 (sections 2 to 7), and the
// proof that it reads back what the printer wrote.
module JsonParser {
  import opened Wrappers
  import opened Arrow
  import opened Columnar
  import opened JsonText
  import Text
  import B = BsonModel

  // The number unscaled * 10^exponent.
  datatype Number = Number(unscaled: int, exponent: int)

  datatype Json =
    | JNull
    | JBool(b: bool)
    | JNum(n: Number)
    | JStr(s: string)
    | JArr(items: seq<Json>)
    | JObj(members: seq<(string, Json)>)

  // What was read, and the text after it.
  datatype Parsed<+T> = Parsed(value: T, rest: string)

  predicate IsJsonSpace(c: char) { c == ' ' || c == '\t' || c == '\n' || c == '\r' }

  function SkipSpace(s: string): (t: string)
    ensures |t| <= |s| && (t != "" ==> !IsJsonSpace(t[0]))
  {
    if s != "" && IsJsonSpace(s[0]) then SkipSpace(s[1..]) else s
  }

  // ---- section 7: strings ----

  function HexValue(c: char): Option<int> {
    if '0' <= c <= '9' then Some(c as int - '0' as int)
    else if 'a' <= c <= 'f' then Some(c as int - 'a' as int + 10)
    else if 'A' <= c <= 'F' then Some(c as int - 'A' as int + 10)
    else None
  }

  // Four hexadecimal digits.
  function HexCode(s: string): (r: Option<int>)
    ensures r.Some? ==> |s| >= 4 && 0 <= r.value < 0x1_0000
  {
    if |s| < 4 then None
    else
      var a :- HexValue(s[0]);
      var b :- HexValue(s[1]);
      var c :- HexValue(s[2]);
      var d :- HexValue(s[3]);
      Some(a * 0x1000 + b * 0x100 + c * 0x10 + d)
  }

  // The character an escape stands for; a pair of surrogates spells one.
  function ParseEscape(s: string): (r: Option<Parsed<char>>)
    ensures r.Some? ==> |r.value.rest| < |s|
  {
    if s == "" then None
    else if s[0] == '"' || s[0] == '\\' || s[0] == '/' then Some(Parsed(s[0], s[1..]))
    else if s[0] == 'b' then Some(Parsed('\U{8}', s[1..]))
    else if s[0] == 'f' then Some(Parsed('\U{C}', s[1..]))
    else if s[0] == 'n' then Some(Parsed('\n', s[1..]))
    else if s[0] == 'r' then Some(Parsed('\r', s[1..]))
    else if s[0] == 't' then Some(Parsed('\t', s[1..]))
    else if s[0] == 'u' then
      var high :- HexCode(s[1..]);
      if high < 0xD800 || high > 0xDFFF then Some(Parsed(high as char, s[5..]))
      else if high > 0xDBFF || |s| < 11 || s[5] != '\\' || s[6] != 'u' then None
      else
        var low :- HexCode(s[7..]);
        if low < 0xDC00 || low > 0xDFFF then None
        else Some(Parsed((0x1_0000 + (high - 0xD800) * 0x400 + (low - 0xDC00)) as char, s[11..]))
    else None
  }

  // After the opening quote: characters and escapes up to the closing one.
  function ParseString(s: string): (r: Option<Parsed<string>>)
    ensures r.Some? ==> |r.value.rest| < |s|
    decreases |s|
  {
    if s == "" then None
    else if s[0] == '"' then Some(Parsed("", s[1..]))
    else if s[0] == '\\' then
      var c :- ParseEscape(s[1..]);
      var more :- ParseString(c.rest);
      Some(Parsed([c.value] + more.value, more.rest))
    else if s[0] as int < 0x20 then None
    else
      var more :- ParseString(s[1..]);
      Some(Parsed([s[0]] + more.value, more.rest))
  }

  // ---- section 6: numbers ----

  function DigitRun(s: string): (n: nat)
    ensures n <= |s| && Text.AllDigits(s[..n]) && (n < |s| ==> !Text.IsDigit(s[n]))
  {
    if s != "" && Text.IsDigit(s[0]) then
      var n := DigitRun(s[1..]);
      assert s[..n + 1] == [s[0]] + s[1..][..n];
      n + 1
    else 0
  }

  function ParseDigits(s: string): (r: Option<Parsed<string>>)
    ensures r.Some? ==> |r.value.rest| < |s| && Text.AllDigits(r.value.value)
  {
    var n := DigitRun(s);
    if n == 0 then None else Some(Parsed(s[..n], s[n..]))
  }

  // No leading zero.
  function ParseWhole(s: string): (r: Option<Parsed<string>>)
    ensures r.Some? ==> |r.value.rest| < |s| && Text.AllDigits(r.value.value)
  {
    var p :- ParseDigits(s);
    if |p.value| > 1 && p.value[0] == '0' then None else Some(p)
  }

  function ParseFraction(s: string): (r: Option<Parsed<string>>)
    ensures r.Some? ==> |r.value.rest| <= |s| && Text.AllDigits(r.value.value)
  {
    if s != "" && s[0] == '.' then ParseDigits(s[1..]) else Some(Parsed("", s))
  }

  function ParseSigned(s: string): (r: Option<Parsed<int>>)
    ensures r.Some? ==> |r.value.rest| < |s|
  {
    if s != "" && (s[0] == '-' || s[0] == '+') then
      var p :- ParseDigits(s[1..]);
      var n: int := Text.DigitsValue(p.value);
      Some(Parsed(if s[0] == '-' then -n else n, p.rest))
    else
      var p :- ParseDigits(s);
      Some(Parsed(Text.DigitsValue(p.value), p.rest))
  }

  function ParseExponent(s: string): (r: Option<Parsed<int>>)
    ensures r.Some? ==> |r.value.rest| <= |s|
  {
    if s != "" && (s[0] == 'e' || s[0] == 'E') then ParseSigned(s[1..]) else Some(Parsed(0, s))
  }

  function ParseUnsigned(s: string): (r: Option<Parsed<Number>>)
    ensures r.Some? ==> |r.value.rest| < |s|
  {
    var whole :- ParseWhole(s);
    var fraction :- ParseFraction(whole.rest);
    var exponent :- ParseExponent(fraction.rest);
    Some(Parsed(Number(Text.DigitsValue(whole.value + fraction.value), exponent.value - |fraction.value|),
                exponent.rest))
  }

  function Negated(p: Option<Parsed<Number>>): Option<Parsed<Number>> {
    match p
    case None => None
    case Some(n) => Some(Parsed(Number(-n.value.unscaled, n.value.exponent), n.rest))
  }

  function ParseNumber(s: string): (r: Option<Parsed<Number>>)
    ensures r.Some? ==> |r.value.rest| < |s|
  {
    if s != "" && s[0] == '-' then Negated(ParseUnsigned(s[1..])) else ParseUnsigned(s)
  }

  // ---- sections 3 to 5: values, objects, arrays ----

  function ParseWord(s: string, word: string, v: Json): (r: Option<Parsed<Json>>)
    requires word != ""
    ensures r.Some? ==> |r.value.rest| < |s|
  {
    if |s| >= |word| && s[..|word|] == word then Some(Parsed(v, s[|word|..])) else None
  }

  function ParseLiteral(s: string): (r: Option<Parsed<Json>>)
    requires s != ""
    ensures r.Some? ==> |r.value.rest| < |s|
  {
    if s[0] == 'n' then ParseWord(s, "null", JNull)
    else if s[0] == 't' then ParseWord(s, "true", JBool(true))
    else ParseWord(s, "false", JBool(false))
  }

  function Wrap<T>(p: Option<Parsed<T>>, f: T -> Json): Option<Parsed<Json>> {
    match p
    case None => None
    case Some(read) => Some(Parsed(f(read.value), read.rest))
  }

  function ParseValue(text: string): (r: Option<Parsed<Json>>)
    ensures r.Some? ==> |r.value.rest| < |text|
    decreases |text|, 1
  {
    var s := SkipSpace(text);
    if s == "" then None
    else if 'a' <= s[0] <= 'z' then ParseLiteral(s)
    else if s[0] == '"' then Wrap(ParseString(s[1..]), x => JStr(x))
    else if s[0] == '[' then ParseArray(s[1..])
    else if s[0] == '{' then ParseObject(s[1..])
    else Wrap(ParseNumber(s), n => JNum(n))
  }

  function ParseArray(text: string): (r: Option<Parsed<Json>>)
    ensures r.Some? ==> |r.value.rest| < |text|
    decreases |text|, 3
  {
    var t := SkipSpace(text);
    if t != "" && t[0] == ']' then Some(Parsed(JArr([]), t[1..]))
    else Wrap(ParseItems(text), items => JArr(items))
  }

  function ParseObject(text: string): (r: Option<Parsed<Json>>)
    ensures r.Some? ==> |r.value.rest| < |text|
    decreases |text|, 4
  {
    var t := SkipSpace(text);
    if t != "" && t[0] == '}' then Some(Parsed(JObj([]), t[1..]))
    else Wrap(ParseMembers(text), members => JObj(members))
  }

  function ParseItems(text: string): (r: Option<Parsed<seq<Json>>>)
    ensures r.Some? ==> |r.value.rest| < |text|
    decreases |text|, 2
  {
    var v :- ParseValue(text);
    var t := SkipSpace(v.rest);
    if t == "" then None
    else if t[0] == ']' then Some(Parsed([v.value], t[1..]))
    else if t[0] == ',' then
      var more :- ParseItems(t[1..]);
      Some(Parsed([v.value] + more.value, more.rest))
    else None
  }

  function ParseMember(text: string): (r: Option<Parsed<(string, Json)>>)
    ensures r.Some? ==> |r.value.rest| < |text|
    decreases |text|, 2
  {
    var s := SkipSpace(text);
    if s == "" || s[0] != '"' then None
    else
      var key :- ParseString(s[1..]);
      var t := SkipSpace(key.rest);
      if t == "" || t[0] != ':' then None
      else
        var v :- ParseValue(t[1..]);
        Some(Parsed((key.value, v.value), v.rest))
  }

  function ParseMembers(text: string): (r: Option<Parsed<seq<(string, Json)>>>)
    ensures r.Some? ==> |r.value.rest| < |text|
    decreases |text|, 3
  {
    var m :- ParseMember(text);
    var t := SkipSpace(m.rest);
    if t == "" then None
    else if t[0] == '}' then Some(Parsed([m.value], t[1..]))
    else if t[0] == ',' then
      var more :- ParseMembers(t[1..]);
      Some(Parsed([m.value] + more.value, more.rest))
    else None
  }

  // ---- the tree of a value ----

  // A text that is a number as a whole.
  predicate IsNumberText(t: string) { ParseNumber(t).Some? && ParseNumber(t).value.rest == "" }

  function NumberOf(t: string): Json
    requires IsNumberText(t)
  {
    JNum(ParseNumber(t).value.value)
  }

  // The texts other libraries give its doubles and decimals are numbers.
  predicate Printable(v: Value, r: Rendering) {
    match v
    case VFloat(d) => IsNumberText(r.double(d))
    case VDecimal(u, scale) => IsNumberText(r.decimal(u, scale))
    case VStruct(fields) => forall f :: f in fields ==> Printable(f.1, r)
    case VList(items) => forall x :: x in items ==> Printable(x, r)
    case _ => true
  }

  function Tree(v: Value, r: Rendering): Json
    requires Printable(v, r)
    decreases v, 1
  {
    match v
    case VNull => JNull
    case VBool(b) => JBool(b)
    case VInt(i) => JNum(Number(i, 0))
    case VFloat(d) => NumberOf(r.double(d))
    case VDecimal(u, scale) => NumberOf(r.decimal(u, scale))
    case VText(s) => JStr(s)
    case VBytes(bytes) => JStr(HexText(bytes))
    case VTime(n) =>
      (match r.timestamp(n / NANOS_PER_MS)
       case Some(t) => JStr(t)
       case None => JNum(Number(n / NANOS_PER_MS, 0)))
    case VStruct(fields) => JObj(Members(fields, r))
    case VList(items) => JArr(Trees(items, r))
  }

  function Trees(items: seq<Value>, r: Rendering): seq<Json>
    requires forall x :: x in items ==> Printable(x, r)
    decreases items, 0
  {
    if items == [] then [] else [Tree(items[0], r)] + Trees(items[1..], r)
  }

  function Members(fields: seq<(string, Value)>, r: Rendering): seq<(string, Json)>
    requires forall f :: f in fields ==> Printable(f.1, r)
    decreases fields, 0
  {
    if fields == [] then [] else [MemberOf(fields[0], r)] + Members(fields[1..], r)
  }

  function MemberOf(f: (string, Value), r: Rendering): (string, Json)
    requires Printable(f.1, r)
    decreases f, 2
  {
    (f.0, Tree(f.1, r))
  }

  // ---- strings read back ----

  lemma HexDigitValue(d: int)
    requires 0 <= d < 16
    ensures HexValue(HexDigit(d)) == Some(d)
  {
  }

  // Two digits spell each byte, the high half first.
  lemma {:induction false} HexReads(bytes: seq<B.byte>, i: nat)
    requires i < |bytes|
    ensures |HexText(bytes)| == 2 * |bytes|
    ensures HexValue(HexText(bytes)[2 * i]) == Some(bytes[i] / 16)
    ensures HexValue(HexText(bytes)[2 * i + 1]) == Some(bytes[i] % 16)
  {
    var b: int := bytes[0];
    HexDigitValue(b / 16);
    HexDigitValue(b % 16);
    HexLength(bytes);
    if i > 0 {
      HexReads(bytes[1..], i - 1);
      assert HexText(bytes)[2 * i] == HexText(bytes[1..])[2 * (i - 1)];
      assert HexText(bytes)[2 * i + 1] == HexText(bytes[1..])[2 * (i - 1) + 1];
    }
  }

  lemma {:induction false} HexLength(bytes: seq<B.byte>)
    ensures |HexText(bytes)| == 2 * |bytes|
  {
    if bytes != [] {
      HexLength(bytes[1..]);
    }
  }

  lemma ControlEscape(c: char, rest: string)
    requires c as int < 0x20 && c != '\n' && c != '\r' && c != '\t'
    ensures ParseEscape(['u', '0', '0', HexDigit(c as int / 16), HexDigit(c as int % 16)] + rest)
         == Some(Parsed(c, rest))
  {
    var s := ['u', '0', '0', HexDigit(c as int / 16), HexDigit(c as int % 16)] + rest;
    HexDigitValue(c as int / 16);
    HexDigitValue(c as int % 16);
    assert s[1..][0] == '0' && s[1..][1] == '0';
    assert HexCode(s[1..]) == Some(c as int);
    assert s[5..] == rest;
  }

  // One quoted character is read as that character.
  lemma EscapeParses(c: char, escape: string, rest: string)
    requires ParseString(rest).Some? && ParseEscape(escape + rest) == Some(Parsed(c, rest))
    ensures ParseString("\\" + escape + rest)
         == Some(Parsed([c] + ParseString(rest).value.value, ParseString(rest).value.rest))
  {
    var s := "\\" + escape + rest;
    assert s[0] == '\\' && s[1..] == escape + rest;
  }

  lemma ShortEscape(c: char, name: char, rest: string)
    requires (c == name && (c == '"' || c == '\\')) || (c == '\n' && name == 'n') || (c == '\r' && name == 'r') ||
             (c == '\t' && name == 't')
    ensures ParseEscape([name] + rest) == Some(Parsed(c, rest))
  {
    assert ([name] + rest)[1..] == rest;
  }

  lemma PlainCharParses(c: char, rest: string)
    requires ParseString(rest).Some? && c as int >= 0x20 && c != '"' && c != '\\'
    ensures ParseString([c] + rest) == Some(Parsed([c] + ParseString(rest).value.value, ParseString(rest).value.rest))
  {
    assert ([c] + rest)[1..] == rest;
  }

  lemma NamedEscape(c: char, name: char, rest: string)
    requires ParseString(rest).Some?
    requires (c == name && (c == '"' || c == '\\')) || (c == '\n' && name == 'n') || (c == '\r' && name == 'r') ||
             (c == '\t' && name == 't')
    ensures ParseString(['\\', name] + rest)
         == Some(Parsed([c] + ParseString(rest).value.value, ParseString(rest).value.rest))
  {
    ShortEscape(c, name, rest);
    EscapeParses(c, [name], rest);
    assert "\\" + [name] + rest == ['\\', name] + rest;
  }

  lemma ControlCharParses(c: char, rest: string)
    requires ParseString(rest).Some? && c as int < 0x20 && c != '\n' && c != '\r' && c != '\t'
    ensures ParseString(QuoteChar(c) + rest)
         == Some(Parsed([c] + ParseString(rest).value.value, ParseString(rest).value.rest))
  {
    var escape := ['u', '0', '0', HexDigit(c as int / 16), HexDigit(c as int % 16)];
    ControlEscape(c, rest);
    EscapeParses(c, escape, rest);
    assert QuoteChar(c) == "\\" + escape;
  }

  lemma QuotedCharParses(c: char, rest: string)
    requires ParseString(rest).Some?
    ensures ParseString(QuoteChar(c) + rest)
         == Some(Parsed([c] + ParseString(rest).value.value, ParseString(rest).value.rest))
  {
    if c == '"' || c == '\\' {
      NamedEscape(c, c, rest);
    } else if c == '\n' {
      NamedEscape(c, 'n', rest);
    } else if c == '\r' {
      NamedEscape(c, 'r', rest);
    } else if c == '\t' {
      NamedEscape(c, 't', rest);
    } else if c as int < 0x20 {
      ControlCharParses(c, rest);
    } else {
      PlainCharParses(c, rest);
    }
  }

  lemma {:induction false} BodyParses(s: string, rest: string)
    ensures ParseString(QuoteBody(s) + "\"" + rest) == Some(Parsed(s, rest))
  {
    if s == "" {
      assert QuoteBody(s) + "\"" + rest == "\"" + rest;
      assert ("\"" + rest)[1..] == rest;
    } else {
      BodyParses(s[1..], rest);
      var tail := QuoteBody(s[1..]) + "\"" + rest;
      assert QuoteBody(s) + "\"" + rest == QuoteChar(s[0]) + tail;
      QuotedCharParses(s[0], tail);
      assert [s[0]] + s[1..] == s;
    }
  }

  // Unquoting a quoted text gives the text, whatever characters it holds.
  lemma QuotedParses(s: string, rest: string)
    ensures QuoteJson(s) + rest != "" && (QuoteJson(s) + rest)[0] == '"'
    ensures ParseString((QuoteJson(s) + rest)[1..]) == Some(Parsed(s, rest))
  {
    BodyParses(s, rest);
    assert (QuoteJson(s) + rest)[1..] == QuoteBody(s) + "\"" + rest;
  }

  lemma QuotedValueParses(s: string, rest: string)
    ensures ParseValue(QuoteJson(s) + rest) == Some(Parsed(JStr(s), rest))
  {
    QuotedParses(s, rest);
  }

  // ---- integers read back ----

  // What may follow a value inside a text.
  predicate Terminated(rest: string) {
    rest == "" || rest[0] == ',' || rest[0] == ']' || rest[0] == '}'
  }

  lemma {:induction false} DigitRunOf(s: string, rest: string)
    requires Text.AllDigits(s) && Terminated(rest)
    ensures DigitRun(s + rest) == |s|
  {
    if s == "" {
      assert s + rest == rest;
    } else {
      assert (s + rest)[1..] == s[1..] + rest;
      assert s[0] in s;
      DigitRunOf(s[1..], rest);
    }
  }

  // What follows a number is not part of it.
  lemma DigitsLocal(t: string, rest: string)
    requires Terminated(rest) && ParseDigits(t).Some?
    ensures ParseDigits(t + rest) == Some(Parsed(ParseDigits(t).value.value, ParseDigits(t).value.rest + rest))
  {
    var n := DigitRun(t);
    RunStops(t, rest);
    assert (t + rest)[..n] == t[..n] && (t + rest)[n..] == t[n..] + rest;
  }

  lemma {:induction false} RunStops(t: string, rest: string)
    requires Terminated(rest)
    ensures DigitRun(t + rest) == DigitRun(t)
  {
    if t == "" {
      assert t + rest == rest;
    } else {
      assert (t + rest)[1..] == t[1..] + rest;
      if Text.IsDigit(t[0]) {
        RunStops(t[1..], rest);
      }
    }
  }

  lemma FractionLocal(t: string, rest: string)
    requires Terminated(rest) && ParseFraction(t).Some?
    ensures ParseFraction(t + rest) == Some(Parsed(ParseFraction(t).value.value, ParseFraction(t).value.rest + rest))
  {
    if t != "" && t[0] == '.' {
      assert (t + rest)[1..] == t[1..] + rest;
      DigitsLocal(t[1..], rest);
    } else if t == "" {
      assert t + rest == rest;
    }
  }

  lemma SignedLocal(t: string, rest: string)
    requires Terminated(rest) && ParseSigned(t).Some?
    ensures ParseSigned(t + rest) == Some(Parsed(ParseSigned(t).value.value, ParseSigned(t).value.rest + rest))
  {
    if t != "" && (t[0] == '-' || t[0] == '+') {
      assert (t + rest)[1..] == t[1..] + rest;
      DigitsLocal(t[1..], rest);
    } else {
      DigitsLocal(t, rest);
    }
  }

  lemma ExponentLocal(t: string, rest: string)
    requires Terminated(rest) && ParseExponent(t).Some?
    ensures ParseExponent(t + rest) == Some(Parsed(ParseExponent(t).value.value, ParseExponent(t).value.rest + rest))
  {
    if t != "" && (t[0] == 'e' || t[0] == 'E') {
      assert (t + rest)[1..] == t[1..] + rest;
      SignedLocal(t[1..], rest);
    } else if t == "" {
      assert t + rest == rest;
    }
  }

  lemma WholeLocal(t: string, rest: string)
    requires Terminated(rest) && ParseWhole(t).Some?
    ensures ParseWhole(t + rest) == Some(Parsed(ParseWhole(t).value.value, ParseWhole(t).value.rest + rest))
  {
    DigitsLocal(t, rest);
  }

  // The number its three parts spell.
  function Spelled(whole: string, fraction: string, exponent: int): Number
    requires Text.AllDigits(whole + fraction)
  {
    Number(Text.DigitsValue(whole + fraction), exponent - |fraction|)
  }

  lemma UnsignedReads(s: string, whole: Parsed<string>, fraction: Parsed<string>, exponent: Parsed<int>)
    requires ParseWhole(s) == Some(whole) && ParseFraction(whole.rest) == Some(fraction)
    requires ParseExponent(fraction.rest) == Some(exponent)
    ensures ParseUnsigned(s) == Some(Parsed(Spelled(whole.value, fraction.value, exponent.value), exponent.rest))
  {
  }

  lemma UnsignedLocal(t: string, rest: string)
    requires Terminated(rest) && ParseUnsigned(t).Some?
    ensures ParseUnsigned(t + rest) == Some(Parsed(ParseUnsigned(t).value.value, ParseUnsigned(t).value.rest + rest))
  {
    var whole := ParseWhole(t).value;
    var fraction := ParseFraction(whole.rest).value;
    var exponent := ParseExponent(fraction.rest).value;
    WholeLocal(t, rest);
    FractionLocal(whole.rest, rest);
    ExponentLocal(fraction.rest, rest);
    UnsignedReads(t, whole, fraction, exponent);
    UnsignedReads(t + rest, Parsed(whole.value, whole.rest + rest), Parsed(fraction.value, fraction.rest + rest),
                  Parsed(exponent.value, exponent.rest + rest));
  }

  // A sign is read off; without one the digits are.
  lemma SignedReads(digits: string)
    requires digits != "" && digits[0] != '-'
    ensures ParseNumber(digits) == ParseUnsigned(digits)
    ensures ParseNumber("-" + digits) == Negated(ParseUnsigned(digits))
  {
    assert ("-" + digits)[1..] == digits;
  }

  lemma UnsignedStart(t: string)
    requires ParseUnsigned(t).Some?
    ensures t != "" && Text.IsDigit(t[0])
  {
  }

  lemma PlainLocal(t: string, rest: string)
    requires Terminated(rest) && ParseUnsigned(t).Some?
    ensures ParseNumber(t) == ParseUnsigned(t) && ParseNumber(t + rest) == ParseUnsigned(t + rest)
    ensures ParseNumber("-" + t) == Negated(ParseUnsigned(t))
    ensures ParseNumber("-" + (t + rest)) == Negated(ParseUnsigned(t + rest))
  {
    UnsignedStart(t);
    SignedReads(t);
    SignedReads(t + rest);
  }

  lemma SameNumber(p: Option<Parsed<Number>>, q: Option<Parsed<Number>>, rest: string)
    requires p.Some? && p.value.rest == "" && q == Some(Parsed(p.value.value, p.value.rest + rest))
    ensures q == Some(Parsed(p.value.value, rest)) && Negated(q) == Some(Parsed(Negated(p).value.value, rest))
  {
    assert "" + rest == rest;
  }

  lemma NumberLocal(t: string, rest: string)
    requires Terminated(rest) && IsNumberText(t)
    ensures ParseNumber(t + rest) == Some(Parsed(ParseNumber(t).value.value, rest))
  {
    var digits := if t[0] == '-' then t[1..] else t;
    UnsignedLocal(digits, rest);
    PlainLocal(digits, rest);
    SameNumber(ParseUnsigned(digits), ParseUnsigned(digits + rest), rest);
    if t[0] == '-' {
      SignStays(t, rest);
    }
  }

  lemma SignStays(t: string, rest: string)
    requires t != "" && t[0] == '-'
    ensures t == "-" + t[1..] && t + rest == "-" + (t[1..] + rest)
  {
  }

  lemma NumberStart(t: string)
    requires IsNumberText(t)
    ensures t != "" && (t[0] == '-' || Text.IsDigit(t[0]))
  {
  }

  lemma ValueIsNumber(s: string)
    requires s != "" && (s[0] == '-' || Text.IsDigit(s[0]))
    ensures ParseValue(s) == Wrap(ParseNumber(s), n => JNum(n))
  {
    assert SkipSpace(s) == s;
    assert s[0] < 'a' && s[0] != '"' && s[0] != '[';
  }

  lemma NumberTextParses(t: string, rest: string)
    requires Terminated(rest) && IsNumberText(t)
    ensures ParseValue(t + rest) == Some(Parsed(NumberOf(t), rest))
  {
    NumberLocal(t, rest);
    NumberStart(t);
    ValueIsNumber(t + rest);
  }

  // An integer's text spells it, without fraction or exponent.
  lemma NaturalIsNumber(n: nat)
    ensures ParseUnsigned(Text.NatText(n)) == Some(Parsed(Number(n, 0), ""))
  {
    var t := Text.NatText(n);
    DigitRunOf(t, "");
    assert t + "" == t && t[..|t|] == t && t[|t|..] == "";
    Text.NatTextValue(n);
  }

  lemma IntegerIsNumber(i: int)
    ensures IsNumberText(Text.IntText(i)) && NumberOf(Text.IntText(i)) == JNum(Number(i, 0))
  {
    var n := if i < 0 then -i else i;
    NaturalIsNumber(n);
    UnsignedStart(Text.NatText(n));
    SignedReads(Text.NatText(n));
  }

  lemma IntegerParses(i: int, rest: string)
    requires Terminated(rest)
    ensures ParseValue(Text.IntText(i) + rest) == Some(Parsed(JNum(Number(i, 0)), rest))
  {
    IntegerIsNumber(i);
    NumberTextParses(Text.IntText(i), rest);
  }

  lemma WordParses(word: string, rest: string)
    requires word == "null" || word == "true" || word == "false"
    ensures ParseValue(word + rest) ==
      Some(Parsed(if word == "null" then JNull else JBool(word == "true"), rest))
  {
    assert (word + rest)[..|word|] == word && (word + rest)[|word|..] == rest;
  }

  lemma ScalarParses(v: Value, r: Rendering, rest: string)
    requires Printable(v, r) && !v.VStruct? && !v.VList? && Terminated(rest)
    ensures ParseValue(PrintValue(v, r) + rest) == Some(Parsed(Tree(v, r), rest))
  {
    match v
    case VNull => WordParses("null", rest);
    case VBool(b) => WordParses(if b then "true" else "false", rest);
    case VInt(i) => IntegerParses(i, rest);
    case VFloat(d) => NumberTextParses(r.double(d), rest);
    case VDecimal(u, scale) => NumberTextParses(r.decimal(u, scale), rest);
    case VText(s) => QuotedValueParses(s, rest);
    case VBytes(bytes) => QuotedValueParses(HexText(bytes), rest);
    case VTime(n) =>
      match r.timestamp(n / NANOS_PER_MS) {
        case Some(t) => QuotedValueParses(t, rest);
        case None => IntegerParses(n / NANOS_PER_MS, rest);
      }
  }

  // ---- nested values read back ----

  lemma ItemsStep(first: string, v: Json, tail: string, more: seq<Json>, rest: string)
    requires ParseValue(first + "," + tail) == Some(Parsed(v, "," + tail))
    requires ParseItems(tail) == Some(Parsed(more, rest))
    ensures ParseItems(first + "," + tail) == Some(Parsed([v] + more, rest))
  {
    assert SkipSpace("," + tail) == "," + tail;
    assert ("," + tail)[1..] == tail;
  }

  lemma ItemsEnd(first: string, v: Json, rest: string)
    requires ParseValue(first + "]" + rest) == Some(Parsed(v, "]" + rest))
    ensures ParseItems(first + "]" + rest) == Some(Parsed([v], rest))
  {
    assert SkipSpace("]" + rest) == "]" + rest;
    assert ("]" + rest)[1..] == rest;
  }

  lemma ItemsText(items: seq<Value>, r: Rendering, rest: string)
    requires |items| > 1
    ensures PrintItems(items, r) + "]" + rest
         == PrintValue(items[0], r) + "," + (PrintItems(items[1..], r) + "]" + rest)
  {
  }

  lemma {:induction false} ItemsParse(items: seq<Value>, r: Rendering, rest: string)
    requires items != [] && forall x :: x in items ==> Printable(x, r)
    ensures ParseItems(PrintItems(items, r) + "]" + rest) == Some(Parsed(Trees(items, r), rest))
    decreases items, 0
  {
    assert items[0] in items;
    if |items| == 1 {
      LastItemParses(items[0], r, rest);
      assert Trees(items, r) == [Tree(items[0], r)];
    } else {
      var tail := PrintItems(items[1..], r) + "]" + rest;
      FirstItemParses(items[0], r, tail);
      ItemsParse(items[1..], r, rest);
      ItemsStep(PrintValue(items[0], r), Tree(items[0], r), tail, Trees(items[1..], r), rest);
      ItemsText(items, r, rest);
    }
  }

  lemma {:induction false} LastItemParses(v: Value, r: Rendering, rest: string)
    requires Printable(v, r)
    ensures ParseItems(PrintValue(v, r) + "]" + rest) == Some(Parsed([Tree(v, r)], rest))
    decreases v, 2
  {
    ValueParses(v, r, "]" + rest);
    assert PrintValue(v, r) + "]" + rest == PrintValue(v, r) + ("]" + rest);
    ItemsEnd(PrintValue(v, r), Tree(v, r), rest);
  }

  lemma {:induction false} FirstItemParses(v: Value, r: Rendering, tail: string)
    requires Printable(v, r)
    ensures ParseValue(PrintValue(v, r) + "," + tail) == Some(Parsed(Tree(v, r), "," + tail))
    decreases v, 2
  {
    ValueParses(v, r, "," + tail);
    assert PrintValue(v, r) + "," + tail == PrintValue(v, r) + ("," + tail);
  }

  lemma MemberReads(key: string, value: string, v: Json, rest: string)
    requires ParseValue(value + rest) == Some(Parsed(v, rest))
    ensures ParseMember(QuoteJson(key) + ":" + value + rest) == Some(Parsed((key, v), rest))
  {
    assert QuoteJson(key) + ":" + value + rest == QuoteJson(key) + (":" + (value + rest));
    PairReads(key, value + rest);
  }

  lemma PairReads(key: string, text: string)
    requires ParseValue(text).Some?
    ensures ParseMember(QuoteJson(key) + (":" + text))
         == Some(Parsed((key, ParseValue(text).value.value), ParseValue(text).value.rest))
  {
    var tail := ":" + text;
    QuotedParses(key, tail);
    assert SkipSpace(QuoteJson(key) + tail) == QuoteJson(key) + tail;
    assert SkipSpace(tail) == tail && tail[1..] == text;
  }

  lemma {:induction false} MemberParses(f: (string, Value), r: Rendering, rest: string)
    requires Printable(f.1, r) && Terminated(rest)
    ensures ParseMember(PrintMember(f, r) + rest) == Some(Parsed(MemberOf(f, r), rest))
    decreases f, 2
  {
    ValueParses(f.1, r, rest);
    MemberReads(f.0, PrintValue(f.1, r), Tree(f.1, r), rest);
  }

  lemma MembersStep(first: string, m: (string, Json), tail: string, more: seq<(string, Json)>, rest: string)
    requires ParseMember(first + "," + tail) == Some(Parsed(m, "," + tail))
    requires ParseMembers(tail) == Some(Parsed(more, rest))
    ensures ParseMembers(first + "," + tail) == Some(Parsed([m] + more, rest))
  {
    assert SkipSpace("," + tail) == "," + tail;
    assert ("," + tail)[1..] == tail;
  }

  lemma MembersEnd(first: string, m: (string, Json), rest: string)
    requires ParseMember(first + "}" + rest) == Some(Parsed(m, "}" + rest))
    ensures ParseMembers(first + "}" + rest) == Some(Parsed([m], rest))
  {
    assert SkipSpace("}" + rest) == "}" + rest;
    assert ("}" + rest)[1..] == rest;
  }

  lemma {:induction false} LastMemberParses(f: (string, Value), r: Rendering, rest: string)
    requires Printable(f.1, r)
    ensures ParseMembers(PrintMember(f, r) + "}" + rest) == Some(Parsed([MemberOf(f, r)], rest))
    decreases f, 3
  {
    MemberParses(f, r, "}" + rest);
    assert PrintMember(f, r) + "}" + rest == PrintMember(f, r) + ("}" + rest);
    MembersEnd(PrintMember(f, r), MemberOf(f, r), rest);
  }

  lemma {:induction false} FirstMemberParses(f: (string, Value), r: Rendering, tail: string)
    requires Printable(f.1, r)
    ensures ParseMember(PrintMember(f, r) + "," + tail) == Some(Parsed(MemberOf(f, r), "," + tail))
    decreases f, 3
  {
    MemberParses(f, r, "," + tail);
    assert PrintMember(f, r) + "," + tail == PrintMember(f, r) + ("," + tail);
  }

  lemma MembersText(fields: seq<(string, Value)>, r: Rendering, rest: string)
    requires |fields| > 1
    ensures PrintMembers(fields, r) + "}" + rest
         == PrintMember(fields[0], r) + "," + (PrintMembers(fields[1..], r) + "}" + rest)
  {
  }

  lemma {:induction false} MembersParse(fields: seq<(string, Value)>, r: Rendering, rest: string)
    requires fields != [] && forall f :: f in fields ==> Printable(f.1, r)
    ensures ParseMembers(PrintMembers(fields, r) + "}" + rest) == Some(Parsed(Members(fields, r), rest))
    decreases fields, 0
  {
    assert fields[0] in fields;
    if |fields| == 1 {
      LastMemberParses(fields[0], r, rest);
      assert Members(fields, r) == [MemberOf(fields[0], r)];
    } else {
      var tail := PrintMembers(fields[1..], r) + "}" + rest;
      FirstMemberParses(fields[0], r, tail);
      MembersParse(fields[1..], r, rest);
      MembersStep(PrintMember(fields[0], r), MemberOf(fields[0], r), tail, Members(fields[1..], r), rest);
      MembersText(fields, r, rest);
    }
  }

  // An opening bracket hands the rest to the list or the object it opens.
  lemma BracketReads(body: string)
    ensures ParseValue("[" + body) == ParseArray(body)
    ensures ParseValue("{" + body) == ParseObject(body)
  {
    assert ("[" + body)[1..] == body && ("{" + body)[1..] == body;
    assert SkipSpace("[" + body) == "[" + body && SkipSpace("{" + body) == "{" + body;
  }

  lemma ArrayReads(body: string, items: seq<Json>, rest: string)
    requires ParseItems(body + "]" + rest) == Some(Parsed(items, rest))
    requires body != "" && !IsJsonSpace(body[0]) && body[0] != ']'
    ensures ParseValue("[" + body + "]" + rest) == Some(Parsed(JArr(items), rest))
  {
    var s := body + "]" + rest;
    assert SkipSpace(s) == s;
    assert "[" + s == "[" + body + "]" + rest;
    BracketReads(s);
  }

  lemma ObjectReads(body: string, members: seq<(string, Json)>, rest: string)
    requires ParseMembers(body + "}" + rest) == Some(Parsed(members, rest))
    requires body != "" && body[0] == '"'
    ensures ParseValue("{" + body + "}" + rest) == Some(Parsed(JObj(members), rest))
  {
    var s := body + "}" + rest;
    assert SkipSpace(s) == s;
    assert "{" + s == "{" + body + "}" + rest;
    BracketReads(s);
  }

  // No printed value starts with a space or a closing bracket.
  lemma PrintedStart(v: Value, r: Rendering)
    requires Printable(v, r)
    ensures var t := PrintValue(v, r); t != "" && !IsJsonSpace(t[0]) && t[0] != ']'
  {
    match v
    case VInt(i) =>
      IntegerIsNumber(i);
      NumberStart(Text.IntText(i));
    case VFloat(d) => NumberStart(r.double(d));
    case VDecimal(u, scale) => NumberStart(r.decimal(u, scale));
    case VTime(n) =>
      IntegerIsNumber(n / NANOS_PER_MS);
      NumberStart(Text.IntText(n / NANOS_PER_MS));
    case _ =>
  }

  lemma EmptyArrayReads(rest: string)
    ensures ParseValue("[" + "" + "]" + rest) == Some(Parsed(JArr([]), rest))
  {
    BracketReads("]" + rest);
    assert "[" + ("]" + rest) == "[" + "" + "]" + rest;
    assert SkipSpace("]" + rest) == "]" + rest && ("]" + rest)[1..] == rest;
  }

  lemma EmptyObjectReads(rest: string)
    ensures ParseValue("{" + "" + "}" + rest) == Some(Parsed(JObj([]), rest))
  {
    BracketReads("}" + rest);
    assert "{" + ("}" + rest) == "{" + "" + "}" + rest;
    assert SkipSpace("}" + rest) == "}" + rest && ("}" + rest)[1..] == rest;
  }

  // The printed text of every nested value, wherever it stands, is read back as
  // that value's tree and not a character further.
  lemma {:induction false} ValueParses(v: Value, r: Rendering, rest: string)
    requires Printable(v, r) && Terminated(rest)
    ensures ParseValue(PrintValue(v, r) + rest) == Some(Parsed(Tree(v, r), rest))
    decreases v, 1
  {
    match v
    case VList(items) =>
      if items == [] {
        EmptyArrayReads(rest);
      } else {
        assert items[0] in items;
        ItemsParse(items, r, rest);
        PrintedStart(items[0], r);
        ArrayReads(PrintItems(items, r), Trees(items, r), rest);
      }
    case VStruct(fields) =>
      if fields == [] {
        EmptyObjectReads(rest);
      } else {
        MembersParse(fields, r, rest);
        ObjectReads(PrintMembers(fields, r), Members(fields, r), rest);
      }
    case _ => ScalarParses(v, r, rest);
  }

  // What the gateway prints for a row of a composite column parses, whole, to the
  // tree of the value the row holds.
  lemma PrintedRowParses(c: Column, row: nat, r: Rendering)
    requires WellFormed(c) && row < Length(c) && Printable(ReadAt(c, row), r)
    ensures ParseValue(ValueToJson(c, row, r)) == Some(Parsed(Tree(ReadAt(c, row), r), ""))
  {
    ColumnPrintsValue(c, row, r);
    ValueParses(ReadAt(c, row), r, "");
    assert PrintValue(ReadAt(c, row), r) + "" == PrintValue(ReadAt(c, row), r);
  }
}
