// Qualifying bare references to the emulated `pg_catalog` relations.
module Compat {
  import Text

  const NEEDLE: string := "pg_catalog."

  const RELATIONS: seq<string> := ["pg_namespace", "pg_class", "pg_attribute", "pg_type", "pg_index", "pg_roles"]

  // ---- identifiers outside literals ----

  predicate IsWordStart(c: char) { 'a' <= c <= 'z' || 'A' <= c <= 'Z' || c == '_' }

  predicate IsWordChar(c: char) { IsWordStart(c) || Text.IsDigit(c) }

  // A name after one of these belongs to what stands before it.
  predicate Attaches(c: char) { c == '.' || IsWordChar(c) }

  function Word(s: string): (w: string)
    ensures w <= s
  {
    if s != "" && IsWordChar(s[0]) then [s[0]] + Word(s[1..]) else ""
  }

  predicate Listed(word: string) { Text.LowerAscii(word) in RELATIONS }

  // A listed identifier stands alone at the start of s, after `prev`.
  predicate Bare(prev: char, quoted: bool, s: string) {
    s != "" && !quoted && IsWordStart(s[0]) && !Attaches(prev) && Listed(Word(s))
  }

  function Toggle(quoted: bool, c: char): bool { if c == '\'' then !quoted else quoted }

  // An odd number of single quotes is open before position i.
  function Quoted(s: string, i: nat): bool
    requires i <= |s|
  {
    if i == 0 then false else Toggle(Quoted(s, i - 1), s[i - 1])
  }

  function Prev(s: string, i: nat): char
    requires i <= |s|
  {
    if i == 0 then ' ' else s[i - 1]
  }

  predicate BareAt(s: string, i: nat)
    requires i < |s|
  {
    Bare(Prev(s, i), Quoted(s, i), s[i..])
  }

  // Where the qualifier goes.
  function Marks(s: string): (marks: seq<bool>)
    ensures |marks| == |s| && forall i :: 0 <= i < |s| ==> marks[i] == BareAt(s, i)
  {
    seq(|s|, i requires 0 <= i < |s| => BareAt(s, i))
  }

  // The first i characters of s, with `text` before each marked one.
  function Insert(text: string, s: string, marks: seq<bool>, i: nat): string
    requires i <= |s| == |marks|
  {
    if i == 0 then ""
    else Insert(text, s, marks, i - 1) + (if marks[i - 1] then text else "") + [s[i - 1]]
  }

  function Qualified(s: string): string { Insert(NEEDLE, s, Marks(s), |s|) }

  // ---- the loop ----

  lemma CopiedAt(s: string, i: nat)
    requires i < |s| && (Quoted(s, i) || !IsWordStart(s[i]) || Attaches(Prev(s, i)))
    ensures !Marks(s)[i]
  {
    assert !BareAt(s, i);
  }

  // Unmarked text is copied.
  lemma {:induction false} RunCopied(text: string, s: string, marks: seq<bool>, i: nat, j: nat)
    requires i <= j <= |s| == |marks| && forall k :: i <= k < j ==> !marks[k]
    ensures Insert(text, s, marks, j) == Insert(text, s, marks, i) + s[i..j]
  {
    if i == j {
      assert s[i..j] == "";
    } else {
      RunCopied(text, s, marks, i, j - 1);
      assert s[i..j] == s[i..j - 1] + [s[j - 1]];
    }
  }

  // Inside a word nothing is inserted: each character attaches the next.
  lemma WordCopied(s: string, start: nat, j: nat)
    requires start < j <= |s| && forall k :: start <= k < j ==> IsWordChar(s[k])
    ensures Insert(NEEDLE, s, Marks(s), j)
         == Insert(NEEDLE, s, Marks(s), start) + (if BareAt(s, start) then NEEDLE else "") + s[start..j]
  {
    forall k | start < k < j ensures !Marks(s)[k] {
      CopiedAt(s, k);
    }
    RunAfterMark(NEEDLE, s, Marks(s), start, j);
  }

  lemma RunAfterMark(text: string, s: string, marks: seq<bool>, start: nat, j: nat)
    requires start < j <= |s| == |marks| && forall k :: start < k < j ==> !marks[k]
    ensures Insert(text, s, marks, j)
         == Insert(text, s, marks, start) + (if marks[start] then text else "") + s[start..j]
  {
    RunCopied(text, s, marks, start + 1, j);
    assert s[start..j] == [s[start]] + s[start + 1..j];
  }

  lemma {:induction false} WordQuoted(s: string, start: nat, j: nat)
    requires start <= j <= |s| && forall k :: start <= k < j ==> IsWordChar(s[k])
    ensures Quoted(s, j) == Quoted(s, start)
  {
    if j > start {
      WordQuoted(s, start, j - 1);
    }
  }

  lemma {:induction false} WordIs(s: string, start: nat, j: nat)
    requires start <= j <= |s| && (forall k :: start <= k < j ==> IsWordChar(s[k]))
    requires j < |s| ==> !IsWordChar(s[j])
    ensures Word(s[start..]) == s[start..j]
    decreases j - start
  {
    if start < j {
      WordIs(s, start + 1, j);
      assert s[start..][1..] == s[start + 1..];
    }
  }

  method Qualify(sql: string) returns (out: string)
    ensures out == Qualified(sql)
  {
    out := "";
    var i := 0;
    var inQuote := false;
    var prev := ' ';
    while i < |sql|
      invariant i <= |sql| && out == Insert(NEEDLE, sql, Marks(sql), i)
      invariant inQuote == Quoted(sql, i) && prev == Prev(sql, i)
    {
      var c := sql[i];
      if inQuote || c == '\'' {
        CopiedAt(sql, i);
        out := out + [c];
        inQuote := if inQuote then c != '\'' else true;
        prev := c;
        i := i + 1;
      } else if IsWordStart(c) && !Attaches(prev) {
        i, out := CopyWord(sql, i, out);
        prev := sql[i - 1];
      } else {
        CopiedAt(sql, i);
        out := out + [c];
        prev := c;
        i := i + 1;
      }
    }
  }

  lemma BareIffListed(s: string, i: nat)
    requires i < |s| && !Quoted(s, i) && IsWordStart(s[i]) && !Attaches(Prev(s, i))
    ensures BareAt(s, i) <==> Listed(Word(s[i..]))
  {
  }

  lemma WordQualified(s: string, start: nat, end: nat, ident: string)
    requires start < end <= |s| && forall k :: start <= k < end ==> IsWordChar(s[k])
    requires !Quoted(s, start) && IsWordStart(s[start]) && !Attaches(Prev(s, start))
    requires ident == s[start..end] == Word(s[start..])
    ensures Insert(NEEDLE, s, Marks(s), end)
         == Insert(NEEDLE, s, Marks(s), start) + (if Listed(ident) then NEEDLE else "") + ident
  {
    WordCopied(s, start, end);
    BareIffListed(s, start);
  }

  // One unattached identifier, qualified if it is listed.
  method CopyWord(sql: string, start: nat, out: string) returns (end: nat, longer: string)
    requires start < |sql| && out == Insert(NEEDLE, sql, Marks(sql), start)
    requires !Quoted(sql, start) && IsWordStart(sql[start]) && !Attaches(Prev(sql, start))
    ensures start < end <= |sql| && longer == Insert(NEEDLE, sql, Marks(sql), end) && !Quoted(sql, end)
  {
    var ident;
    end, ident := ScanWord(sql, start);
    WordQualified(sql, start, end, ident);
    WordQuoted(sql, start, end);
    assert out + "" == out;
    longer := out;
    if Listed(ident) {
      longer := longer + NEEDLE;
    }
    longer := longer + ident;
  }

  method ScanWord(sql: string, start: nat) returns (end: nat, ident: string)
    requires start < |sql| && IsWordChar(sql[start])
    ensures start < end <= |sql| && forall k :: start <= k < end ==> IsWordChar(sql[k])
    ensures ident == sql[start..end] == Word(sql[start..])
  {
    end := start;
    while end < |sql| && IsWordChar(sql[end])
      invariant start <= end <= |sql| && forall k :: start <= k < end ==> IsWordChar(sql[k])
    {
      end := end + 1;
    }
    ident := sql[start..end];
    WordIs(sql, start, end);
  }

  // ---- the insertions, and nothing else ----

  function Count(marks: seq<bool>, i: nat): nat
    requires i <= |marks|
  {
    if i == 0 then 0 else Count(marks, i - 1) + if marks[i - 1] then 1 else 0
  }

  lemma {:induction false} InsertLength(text: string, s: string, marks: seq<bool>, i: nat)
    requires i <= |s| == |marks|
    ensures |Insert(text, s, marks, i)| == i + |text| * Count(marks, i)
  {
    if i > 0 {
      InsertLength(text, s, marks, i - 1);
      if marks[i - 1] {
        assert |text| * Count(marks, i) == |text| * Count(marks, i - 1) + |text|;
      }
    }
  }

  lemma {:induction false} InsertIsPrefix(text: string, s: string, marks: seq<bool>, i: nat, j: nat)
    requires i <= j <= |s| == |marks|
    ensures Insert(text, s, marks, i) <= Insert(text, s, marks, j)
  {
    if i < j {
      InsertIsPrefix(text, s, marks, i, j - 1);
    }
  }

  lemma InsertedLast(text: string, s: string, marks: seq<bool>, i: nat)
    requires i < |s| == |marks|
    ensures var (out, at) := (Insert(text, s, marks, i + 1), |Insert(text, s, marks, i + 1)| - 1);
      && at >= 0 && out[at] == s[i] && (marks[i] ==> at >= |text| && out[at - |text|..at] == text)
  {
    var before := Insert(text, s, marks, i);
    var mid := if marks[i] then text else "";
    assert Insert(text, s, marks, i + 1) == before + mid + [s[i]];
    assert (before + mid + [s[i]])[|before|..|before| + |mid|] == mid;
  }

  // Each character is copied, in order, moved right by the insertions up to it;
  // an insertion stands directly before each bare identifier, and there are no
  // others. So deleting the insertions gives the input back.
  lemma InsertionsOnly(s: string, i: nat)
    requires i < |s|
    ensures |Qualified(s)| == |s| + 11 * Count(Marks(s), |s|)
    ensures var at := i + 11 * Count(Marks(s), i + 1);
      && at < |Qualified(s)| && Qualified(s)[at] == s[i]
      && (BareAt(s, i) ==> at >= 11 && Qualified(s)[at - 11..at] == NEEDLE)
  {
    InsertLength(NEEDLE, s, Marks(s), |s|);
    InsertLength(NEEDLE, s, Marks(s), i + 1);
    InsertedLast(NEEDLE, s, Marks(s), i);
    InsertIsPrefix(NEEDLE, s, Marks(s), i + 1, |s|);
    var at := i + 11 * Count(Marks(s), i + 1);
    PrefixReads(Insert(NEEDLE, s, Marks(s), i + 1), Qualified(s), at, 11);
  }

  lemma PrefixReads(a: string, b: string, at: nat, n: nat)
    requires a <= b && at < |a|
    ensures at < |b| && b[at] == a[at] && (at >= n ==> b[at - n..at] == a[at - n..at])
  {
  }

  // ---- the same rewriting, read from left to right ----

  function Rewrite(prev: char, quoted: bool, s: string): string
    decreases s
  {
    if s == "" then ""
    else (if Bare(prev, quoted, s) then NEEDLE else "") + [s[0]] + Rewrite(s[0], Toggle(quoted, s[0]), s[1..])
  }

  lemma RewriteStep(s: string, i: nat)
    requires i < |s|
    ensures Rewrite(Prev(s, i), Quoted(s, i), s[i..])
         == (if Marks(s)[i] then NEEDLE else "") + [s[i]] + Rewrite(Prev(s, i + 1), Quoted(s, i + 1), s[i + 1..])
  {
    assert s[i..][1..] == s[i + 1..];
    assert Marks(s)[i] == BareAt(s, i);
  }

  lemma RegroupStep(text: string, s: string, marks: seq<bool>, i: nat, from: string, rest: string, whole: string)
    requires i < |s| == |marks|
    requires from == (if marks[i] then text else "") + [s[i]] + rest
    requires whole == Insert(text, s, marks, i + 1) + rest
    ensures whole == Insert(text, s, marks, i) + from
  {
  }

  lemma {:induction false} InsertThenRewrite(s: string, i: nat)
    requires i <= |s|
    ensures Qualified(s) == Insert(NEEDLE, s, Marks(s), i) + Rewrite(Prev(s, i), Quoted(s, i), s[i..])
    decreases |s| - i
  {
    if i < |s| {
      InsertThenRewrite(s, i + 1);
      RewriteStep(s, i);
      RegroupStep(NEEDLE, s, Marks(s), i, Rewrite(Prev(s, i), Quoted(s, i), s[i..]),
                  Rewrite(Prev(s, i + 1), Quoted(s, i + 1), s[i + 1..]), Qualified(s));
    } else {
      assert s[i..] == "";
    }
  }

  lemma QualifiedIsRewrite(s: string)
    ensures Qualified(s) == Rewrite(' ', false, s)
  {
    InsertThenRewrite(s, 0);
    assert s[0..] == s;
  }

  // ---- idempotence ----

  lemma {:induction false} LowerKeepsLength(s: string)
    ensures |Text.LowerAscii(s)| == |s|
  {
    if s != "" {
      LowerKeepsLength(s[1..]);
    }
  }

  lemma CatalogIsNotListed()
    ensures !Listed("pg_catalog")
  {
    LowerKeepsLength("pg_catalog");
  }

  lemma {:induction false} WordOf(w: string, rest: string)
    requires (forall c :: c in w ==> IsWordChar(c)) && (rest == "" || !IsWordChar(rest[0]))
    ensures Word(w + rest) == w
  {
    if w == "" {
      assert w + rest == rest;
    } else {
      assert w[0] in w;
      WordOf(w[1..], rest);
      assert (w + rest)[1..] == w[1..] + rest;
    }
  }

  // After an attaching character the rewriting keeps the word that follows.
  lemma {:induction false} WordKept(prev: char, quoted: bool, s: string)
    requires Attaches(prev)
    ensures Word(Rewrite(prev, quoted, s)) == Word(s)
    decreases s
  {
    if s != "" {
      assert Rewrite(prev, quoted, s) == [s[0]] + Rewrite(s[0], Toggle(quoted, s[0]), s[1..]);
      if IsWordChar(s[0]) {
        WordKept(s[0], quoted, s[1..]);
      }
    }
  }

  // Attached text is copied.
  lemma {:induction false} AttachedCopied(prev: char, w: string, t: string)
    requires Attaches(prev) && w != "" && forall c :: c in w ==> Attaches(c)
    ensures Rewrite(prev, false, w + t) == w + Rewrite(w[|w| - 1], false, t)
    decreases w
  {
    assert w[0] in w;
    assert (w + t)[1..] == w[1..] + t;
    if |w| == 1 {
      assert w[1..] + t == t;
    } else {
      AttachedCopied(w[0], w[1..], t);
      assert [w[0]] + (w[1..] + Rewrite(w[|w| - 1], false, t)) == w + Rewrite(w[|w| - 1], false, t);
    }
  }

  // The inserted qualifier is not itself a bare reference.
  lemma NeedleIsNotBare(prev: char, quoted: bool, t: string)
    ensures !Bare(prev, quoted, NEEDLE + t)
  {
    assert NEEDLE + t == "pg_catalog" + ("." + t);
    WordOf("pg_catalog", "." + t);
    CatalogIsNotListed();
  }

  lemma NeedleTail(t: string)
    ensures Rewrite('p', false, "g_catalog." + t) == "g_catalog." + Rewrite('.', false, t)
  {
    AttachedCopied('p', "g_catalog.", t);
  }

  lemma NeedleSplits(t: string)
    ensures NEEDLE + t == ['p'] + ("g_catalog." + t)
  {
  }

  lemma NeedleCopied(prev: char, t: string)
    ensures Rewrite(prev, false, NEEDLE + t) == NEEDLE + Rewrite('.', false, t)
  {
    NeedleIsNotBare(prev, false, t);
    NeedleTail(t);
    NeedleSplits(t);
    FirstCopied(prev, 'p', "g_catalog." + t);
    NeedleSplits(Rewrite('.', false, t));
  }

  lemma FirstCopied(prev: char, c: char, t: string)
    requires !Bare(prev, false, [c] + t) && c != '\''
    ensures Rewrite(prev, false, [c] + t) == [c] + Rewrite(c, false, t)
  {
    assert ([c] + t)[1..] == t;
  }

  // What follows a character that starts no bare reference starts none after rewriting.
  lemma StillNotBare(prev: char, quoted: bool, s: string)
    requires s != "" && !Bare(prev, quoted, s)
    ensures !Bare(prev, quoted, [s[0]] + Rewrite(s[0], Toggle(quoted, s[0]), s[1..]))
  {
    var t := [s[0]] + Rewrite(s[0], Toggle(quoted, s[0]), s[1..]);
    if IsWordStart(s[0]) {
      WordKept(s[0], Toggle(quoted, s[0]), s[1..]);
      assert t[1..] == Rewrite(s[0], Toggle(quoted, s[0]), s[1..]);
      assert Word(t) == Word(s);
    }
  }

  lemma {:induction false} RewriteTwice(prev: char, quoted: bool, s: string)
    ensures Rewrite(prev, quoted, Rewrite(prev, quoted, s)) == Rewrite(prev, quoted, s)
    decreases s
  {
    if s != "" {
      var (c, open) := (s[0], Toggle(quoted, s[0]));
      var t := Rewrite(c, open, s[1..]);
      RewriteTwice(c, open, s[1..]);
      assert ([c] + t)[1..] == t;
      if Bare(prev, quoted, s) {
        NeedleCopied(prev, [c] + t);
        assert NEEDLE + [c] + t == NEEDLE + ([c] + t);
      } else {
        StillNotBare(prev, quoted, s);
      }
    }
  }

  lemma QualifyTwice(s: string)
    ensures Qualified(Qualified(s)) == Qualified(s)
  {
    QualifiedIsRewrite(s);
    QualifiedIsRewrite(Qualified(s));
    RewriteTwice(' ', false, s);
  }

  // ---- literals ----

  // The contents of the single-quoted literals, in order; the last may be open.
  function Literals(quoted: bool, s: string): (ls: seq<string>)
    ensures quoted ==> ls != []
    decreases s
  {
    if s == "" then (if quoted then [""] else [])
    else if !quoted then Literals(s[0] == '\'', s[1..])
    else if s[0] == '\'' then [""] + Literals(false, s[1..])
    else
      var ls := Literals(true, s[1..]);
      [[s[0]] + ls[0]] + ls[1..]
  }

  lemma {:induction false} UnquotedHasNoLiterals(w: string, t: string)
    requires '\'' !in w
    ensures Literals(false, w + t) == Literals(false, t)
    decreases w
  {
    if w == "" {
      assert w + t == t;
    } else {
      assert (w + t)[1..] == w[1..] + t;
      UnquotedHasNoLiterals(w[1..], t);
    }
  }

  lemma {:induction false} RewriteKeepsLiterals(prev: char, quoted: bool, s: string)
    ensures Literals(quoted, Rewrite(prev, quoted, s)) == Literals(quoted, s)
    decreases s
  {
    if s != "" {
      var t := Rewrite(s[0], Toggle(quoted, s[0]), s[1..]);
      RewriteKeepsLiterals(s[0], Toggle(quoted, s[0]), s[1..]);
      assert ([s[0]] + t)[1..] == t;
      if Bare(prev, quoted, s) {
        UnquotedHasNoLiterals(NEEDLE, [s[0]] + t);
        assert NEEDLE + [s[0]] + t == NEEDLE + ([s[0]] + t);
      }
    }
  }

  // Every string literal comes through unchanged.
  lemma LiteralsUnchanged(s: string)
    ensures Literals(false, Qualified(s)) == Literals(false, s)
  {
    QualifiedIsRewrite(s);
    RewriteKeepsLiterals(' ', false, s);
  }
}
