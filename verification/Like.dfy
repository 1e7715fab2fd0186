// SQL LIKE, the anchored regex it compiles to, and the meaning of that regex.
module LikePattern {
  import opened Wrappers

  // ---- LIKE as SQL defines it ----

  // An escape character with nothing after it makes the pattern invalid.
  predicate Dangling(pattern: string, escape: Option<char>) {
    if pattern == "" then false
    else if Some(pattern[0]) == escape then |pattern| == 1 || Dangling(pattern[2..], escape)
    else Dangling(pattern[1..], escape)
  }

  predicate LikeMatches(pattern: string, escape: Option<char>, s: string) {
    if pattern == "" then s == ""
    else if Some(pattern[0]) == escape then
      |pattern| > 1 && s != "" && s[0] == pattern[1] && LikeMatches(pattern[2..], escape, s[1..])
    else if pattern[0] == '%' then
      exists k :: 0 <= k <= |s| && LikeMatches(pattern[1..], escape, s[k..])
    else
      s != "" && (pattern[0] == '_' || s[0] == pattern[0]) && LikeMatches(pattern[1..], escape, s[1..])
  }

  // ---- the compiler ----

  predicate IsMeta(ch: char) {
    ch in {'.', '^', '$', '*', '+', '?', '(', ')', '[', ']', '{', '}', '|', '\\', '/'}
  }

  function Escaped(ch: char): string {
    if IsMeta(ch) then ['\\', ch] else [ch]
  }

  function RegexBody(pattern: string, escape: Option<char>): Option<string> {
    if pattern == "" then Some("")
    else if Some(pattern[0]) == escape then
      if |pattern| == 1 then None
      else
        var rest :- RegexBody(pattern[2..], escape);
        Some(Escaped(pattern[1]) + rest)
    else
      var rest :- RegexBody(pattern[1..], escape);
      Some((if pattern[0] == '%' then ".*" else if pattern[0] == '_' then "." else Escaped(pattern[0])) + rest)
  }

  function LikeRegex(pattern: string, escape: Option<char>): Option<string> {
    var body :- RegexBody(pattern, escape);
    Some("^" + body + "$")
  }

  method PushEscaped(out: string, ch: char) returns (r: string)
    ensures r == out + Escaped(ch)
  {
    r := out;
    if IsMeta(ch) {
      r := r + ['\\'];
    }
    r := r + [ch];
  }

  function Prepend(prefix: string, body: Option<string>): Option<string> {
    match body
    case None => None
    case Some(rest) => Some(prefix + rest)
  }

  lemma PrependTwice(a: string, b: string, body: Option<string>)
    ensures Prepend(a, Prepend(b, body)) == Prepend(a + b, body)
  {
    if body.Some? {
      assert a + (b + body.value) == a + b + body.value;
    }
  }

  // The loop of the source over the pattern's characters.
  method LikeToRegex(pattern: string, escape: Option<char>) returns (r: Option<string>)
    ensures r == LikeRegex(pattern, escape)
  {
    var out := "^";
    ghost var done := "";
    var i := 0;
    assert pattern[0..] == pattern;
    assert RegexBody(pattern, escape).Some? ==>
      "" + RegexBody(pattern, escape).value == RegexBody(pattern, escape).value;
    while i < |pattern|
      invariant 0 <= i <= |pattern| && out == "^" + done
      invariant RegexBody(pattern, escape) == Prepend(done, RegexBody(pattern[i..], escape))
      decreases |pattern| - i
    {
      var ch := pattern[i];
      ghost var piece: string;
      ghost var step := 1;
      if Some(ch) == escape {
        if i + 1 == |pattern| {
          return None;
        }
        piece, step := Escaped(pattern[i + 1]), 2;
        out := PushEscaped(out, pattern[i + 1]);
        i := i + 2;
      } else {
        if ch == '%' {
          piece := ".*";
          out := out + ".*";
        } else if ch == '_' {
          piece := ".";
          out := out + ".";
        } else {
          piece := Escaped(ch);
          out := PushEscaped(out, ch);
        }
        i := i + 1;
      }
      assert pattern[i - step..][step..] == pattern[i..];
      PrependTwice(done, piece, RegexBody(pattern[i..], escape));
      done := done + piece;
    }
    assert pattern[i..] == "" && done + "" == done;
    r := Some(out + "$");
  }

  // ---- the regex subset: anchors, any character, any run, literals ----

  datatype Item = Any | AnyRun | Lit(c: char)

  predicate IsAlphanumeric(c: char) {
    '0' <= c <= '9' || 'a' <= c <= 'z' || 'A' <= c <= 'Z'
  }

  // An unescaped metacharacter elsewhere, or an escaped letter, is outside the subset.
  function ParseItems(re: string): Option<seq<Item>> {
    if re == "$" then Some([])
    else if re == "" then None
    else if re[0] == '\\' then
      if |re| == 1 || IsAlphanumeric(re[1]) then None
      else
        var rest :- ParseItems(re[2..]);
        Some([Lit(re[1])] + rest)
    else if re[0] == '.' then
      if |re| > 1 && re[1] == '*' then
        var rest :- ParseItems(re[2..]);
        Some([AnyRun] + rest)
      else
        var rest :- ParseItems(re[1..]);
        Some([Any] + rest)
    else if IsMeta(re[0]) then None
    else
      var rest :- ParseItems(re[1..]);
      Some([Lit(re[0])] + rest)
  }

  function ParseRegex(re: string): Option<seq<Item>> {
    if re != "" && re[0] == '^' then ParseItems(re[1..]) else None
  }

  // The whole subject is matched: `^` and `$` stand at its two ends, and the
  // `s` option lets a dot match a newline.
  predicate ItemsMatch(items: seq<Item>, s: string) {
    if items == [] then s == ""
    else
      match items[0]
      case Any => s != "" && ItemsMatch(items[1..], s[1..])
      case AnyRun => exists k :: 0 <= k <= |s| && ItemsMatch(items[1..], s[k..])
      case Lit(c) => s != "" && s[0] == c && ItemsMatch(items[1..], s[1..])
  }

  predicate RegexMatches(re: string, s: string) {
    var items := ParseRegex(re);
    items.Some? && ItemsMatch(items.value, s)
  }

  // ---- the compiler preserves meaning ----

  function ItemsOf(pattern: string, escape: Option<char>): seq<Item>
    requires !Dangling(pattern, escape)
  {
    if pattern == "" then []
    else if Some(pattern[0]) == escape then [Lit(pattern[1])] + ItemsOf(pattern[2..], escape)
    else [if pattern[0] == '%' then AnyRun else if pattern[0] == '_' then Any else Lit(pattern[0])]
         + ItemsOf(pattern[1..], escape)
  }

  lemma {:induction false} BodyExists(pattern: string, escape: Option<char>)
    ensures RegexBody(pattern, escape).None? <==> Dangling(pattern, escape)
  {
    if pattern == "" {
    } else if Some(pattern[0]) == escape {
      if |pattern| > 1 {
        BodyExists(pattern[2..], escape);
      }
    } else {
      BodyExists(pattern[1..], escape);
    }
  }

  // Nothing the compiler emits can be read as a quantifier of what precedes it.
  lemma BodyStart(pattern: string, escape: Option<char>)
    requires RegexBody(pattern, escape).Some?
    ensures var re := RegexBody(pattern, escape).value + "$"; re[0] != '*'
    ensures RegexBody(pattern, escape).value + "$" == "$" <==> pattern == ""
  {
    if pattern != "" {
      var first := if Some(pattern[0]) == escape then Escaped(pattern[1])
        else if pattern[0] == '%' then ".*" else if pattern[0] == '_' then "." else Escaped(pattern[0]);
      assert (RegexBody(pattern, escape).value + "$")[..|first|] == first;
      assert first[0] != '*' && first != "" && first[0] != '$';
    }
  }

  lemma ParseEscaped(ch: char, rest: string)
    requires ParseItems(rest).Some?
    ensures ParseItems(Escaped(ch) + rest) == Some([Lit(ch)] + ParseItems(rest).value)
  {
    var re := Escaped(ch) + rest;
    assert re[|Escaped(ch)|..] == rest;
    assert rest != "";
  }

  lemma {:induction false} BodyParses(pattern: string, escape: Option<char>)
    requires !Dangling(pattern, escape)
    ensures RegexBody(pattern, escape).Some?
    ensures ParseItems(RegexBody(pattern, escape).value + "$") == Some(ItemsOf(pattern, escape))
  {
    BodyExists(pattern, escape);
    if pattern == "" {
    } else if Some(pattern[0]) == escape {
      BodyParses(pattern[2..], escape);
      var rest := RegexBody(pattern[2..], escape).value;
      ParseEscaped(pattern[1], rest + "$");
      assert Escaped(pattern[1]) + rest + "$" == Escaped(pattern[1]) + (rest + "$");
    } else {
      BodyParses(pattern[1..], escape);
      var rest := RegexBody(pattern[1..], escape).value;
      BodyStart(pattern[1..], escape);
      if pattern[0] == '%' {
        var re := ".*" + rest + "$";
        assert re[2..] == rest + "$";
      } else if pattern[0] == '_' {
        var re := "." + rest + "$";
        assert re[1..] == rest + "$";
      } else {
        ParseEscaped(pattern[0], rest + "$");
        assert Escaped(pattern[0]) + rest + "$" == Escaped(pattern[0]) + (rest + "$");
      }
    }
  }

  lemma {:induction false} ItemsMeanLike(pattern: string, escape: Option<char>, s: string)
    requires !Dangling(pattern, escape)
    ensures ItemsMatch(ItemsOf(pattern, escape), s) <==> LikeMatches(pattern, escape, s)
    decreases |pattern|
  {
    if pattern == "" {
    } else if Some(pattern[0]) == escape {
      assert ItemsOf(pattern, escape)[1..] == ItemsOf(pattern[2..], escape);
      if s != "" {
        ItemsMeanLike(pattern[2..], escape, s[1..]);
      }
    } else {
      assert ItemsOf(pattern, escape)[1..] == ItemsOf(pattern[1..], escape);
      if pattern[0] == '%' {
        forall k | 0 <= k <= |s|
          ensures ItemsMatch(ItemsOf(pattern[1..], escape), s[k..]) <==> LikeMatches(pattern[1..], escape, s[k..])
        {
          ItemsMeanLike(pattern[1..], escape, s[k..]);
        }
      } else if s != "" {
        ItemsMeanLike(pattern[1..], escape, s[1..]);
      }
    }
  }

  // For every pattern, escape and subject the generated regex matches exactly
  // what LIKE matches; there is none only for a dangling escape.
  lemma LikeCompiles(pattern: string, escape: Option<char>, s: string)
    ensures LikeRegex(pattern, escape).None? <==> Dangling(pattern, escape)
    ensures !Dangling(pattern, escape) ==>
      (RegexMatches(LikeRegex(pattern, escape).value, s) <==> LikeMatches(pattern, escape, s))
  {
    BodyExists(pattern, escape);
    if !Dangling(pattern, escape) {
      BodyParses(pattern, escape);
      ItemsMeanLike(pattern, escape, s);
      var re := LikeRegex(pattern, escape).value;
      assert re[1..] == RegexBody(pattern, escape).value + "$";
    }
  }

  // ---- where PCRE's own `$` differs ----

  // By default `$` also matches just before a final newline.
  predicate PcreMatches(re: string, s: string) {
    RegexMatches(re, s) || (s != "" && s[|s| - 1] == '\n' && RegexMatches(re, s[..|s| - 1]))
  }

  // So a server with that default accepts one newline more than LIKE does.
  lemma PcreDollarAdmitsNewline(pattern: string, escape: Option<char>, s: string)
    requires LikeRegex(pattern, escape).Some?
    ensures PcreMatches(LikeRegex(pattern, escape).value, s) <==>
      LikeMatches(pattern, escape, s) ||
      (s != "" && s[|s| - 1] == '\n' && LikeMatches(pattern, escape, s[..|s| - 1]))
  {
    LikeCompiles(pattern, escape, s);
    if s != "" {
      LikeCompiles(pattern, escape, s[..|s| - 1]);
    }
  }
}
