// Splitting a simple-query message into statements at its top-level semicolons.
module Statements {
  import Text

  // ---- quote parity ----

  datatype Mode = Plain | InSingle | InDouble

  // Each quote character toggles its own kind unless the other kind is open.
  function Next(m: Mode, c: char): Mode {
    if c == '\'' && !m.InDouble? then (if m.InSingle? then Plain else InSingle)
    else if c == '"' && !m.InSingle? then (if m.InDouble? then Plain else InDouble)
    else m
  }

  function After(m: Mode, s: string): Mode
    decreases s
  {
    if s == "" then m else After(Next(m, s[0]), s[1..])
  }

  predicate TopLevel(s: string, i: nat)
    requires i < |s|
  {
    s[i] == ';' && After(Plain, s[..i]) == Plain
  }

  // The text between consecutive top-level semicolons.
  function Pieces(m: Mode, s: string): (ps: seq<string>)
    ensures ps != []
    decreases s
  {
    if s == "" then [""]
    else if s[0] == ';' && m.Plain? then [""] + Pieces(m, s[1..])
    else Prepend([s[0]], Pieces(Next(m, s[0]), s[1..]))
  }

  function Prepend(text: string, ps: seq<string>): (r: seq<string>)
    requires ps != []
    ensures |r| == |ps|
  {
    [text + ps[0]] + ps[1..]
  }

  lemma PrependNothing(ps: seq<string>)
    requires ps != []
    ensures Prepend("", ps) == ps
  {
    assert "" + ps[0] == ps[0];
  }

  lemma PrependToOne(text: string)
    ensures Prepend(text, [""]) == [text]
  {
    assert text + "" == text;
  }

  function Keep(piece: string): seq<string> {
    if Text.Trim(piece) == "" then [] else [Text.Trim(piece)]
  }

  function KeepAll(ps: seq<string>): seq<string> {
    if ps == [] then [] else Keep(ps[0]) + KeepAll(ps[1..])
  }

  function Statements(s: string): seq<string> { KeepAll(Pieces(Plain, s)) }

  // ---- the loop ----

  function ModeOf(inSingle: bool, inDouble: bool): Mode
    requires !(inSingle && inDouble)
  {
    if inSingle then InSingle else if inDouble then InDouble else Plain
  }

  // What is left to return once `current` is read and the text from i on is not.
  function Left(current: string, m: Mode, sql: string, i: nat): seq<string>
    requires i <= |sql|
  {
    KeepAll(Prepend(current, Pieces(m, sql[i..])))
  }

  lemma LeftStart(sql: string)
    ensures Left("", Plain, sql, 0) == Statements(sql)
  {
    assert sql[0..] == sql;
    PrependNothing(Pieces(Plain, sql));
  }

  lemma LeftCut(current: string, sql: string, i: nat)
    requires i < |sql| && sql[i] == ';'
    ensures Left(current, Plain, sql, i) == Keep(current) + Left("", Plain, sql, i + 1)
  {
    var ps := Pieces(Plain, sql[i + 1..]);
    assert sql[i..][1..] == sql[i + 1..];
    assert current + "" == current;
    assert Prepend(current, [""] + ps) == [current] + ps;
    assert ([current] + ps)[1..] == ps;
    PrependNothing(ps);
  }

  lemma LeftPush(current: string, m: Mode, sql: string, i: nat)
    requires i < |sql| && !(sql[i] == ';' && m.Plain?)
    ensures Left(current, m, sql, i) == Left(current + [sql[i]], Next(m, sql[i]), sql, i + 1)
  {
    var ps := Pieces(Next(m, sql[i]), sql[i + 1..]);
    assert sql[i..][1..] == sql[i + 1..];
    assert current + ([sql[i]] + ps[0]) == current + [sql[i]] + ps[0];
    assert Prepend(current, Prepend([sql[i]], ps)) == Prepend(current + [sql[i]], ps);
  }

  // Two adjacent quotes inside a literal: the first closes it, the second opens it again.
  lemma LeftPushPair(current: string, sql: string, i: nat)
    requires i + 1 < |sql| && sql[i] == '\'' && sql[i + 1] == '\''
    ensures Left(current, InSingle, sql, i) == Left(current + [sql[i]] + [sql[i + 1]], InSingle, sql, i + 2)
  {
    LeftPush(current, InSingle, sql, i);
    LeftPush(current + [sql[i]], Plain, sql, i + 1);
  }

  lemma LeftEnd(current: string, m: Mode, sql: string)
    ensures Left(current, m, sql, |sql|) == Keep(current)
  {
    assert sql[|sql|..] == "";
    PrependToOne(current);
    assert KeepAll([current]) == Keep(current) + KeepAll([]);
  }

  method PushKept(out: seq<string>, current: string) returns (longer: seq<string>)
    ensures longer == out + Keep(current)
  {
    longer := out;
    if Text.Trim(current) != "" {
      longer := longer + [Text.Trim(current)];
    }
  }

  method Split(sql: string) returns (out: seq<string>)
    ensures out == Statements(sql)
  {
    out := [];
    var current := "";
    var inSingle, inDouble := false, false;
    var i := 0;
    LeftStart(sql);
    while i < |sql|
      invariant i <= |sql| && !(inSingle && inDouble)
      invariant out + Left(current, ModeOf(inSingle, inDouble), sql, i) == Statements(sql)
    {
      var ch := sql[i];
      if ch == '\'' && !inDouble {
        if inSingle && i + 1 < |sql| && sql[i + 1] == '\'' {
          LeftPushPair(current, sql, i);
          current := current + [ch] + [sql[i + 1]];
          i := i + 2;
          continue;
        }
        LeftPush(current, ModeOf(inSingle, inDouble), sql, i);
        inSingle := !inSingle;
        current := current + [ch];
      } else if ch == '"' && !inSingle {
        LeftPush(current, ModeOf(inSingle, inDouble), sql, i);
        inDouble := !inDouble;
        current := current + [ch];
      } else if ch == ';' && !inSingle && !inDouble {
        LeftCut(current, sql, i);
        out := PushKept(out, current);
        current := "";
      } else {
        LeftPush(current, ModeOf(inSingle, inDouble), sql, i);
        current := current + [ch];
      }
      i := i + 1;
    }
    LeftEnd(current, ModeOf(inSingle, inDouble), sql);
    out := PushKept(out, current);
  }

  // ---- nothing is lost, and the cuts are exactly the top-level semicolons ----

  function Join(ps: seq<string>): string {
    if ps == [] then "" else if |ps| == 1 then ps[0] else ps[0] + ";" + Join(ps[1..])
  }

  lemma JoinPrepend(text: string, ps: seq<string>)
    requires ps != []
    ensures Join(Prepend(text, ps)) == text + Join(ps)
  {
    assert Prepend(text, ps)[1..] == ps[1..];
  }

  lemma {:induction false} JoinRestores(m: Mode, s: string)
    ensures Join(Pieces(m, s)) == s
    decreases s
  {
    if s != "" {
      if s[0] == ';' && m.Plain? {
        JoinRestores(m, s[1..]);
        assert ([""] + Pieces(m, s[1..]))[1..] == Pieces(m, s[1..]);
      } else {
        JoinRestores(Next(m, s[0]), s[1..]);
        JoinPrepend([s[0]], Pieces(Next(m, s[0]), s[1..]));
      }
    }
  }

  // Where piece k ends in the text the pieces were cut from.
  function EndOf(ps: seq<string>, k: nat): nat
    requires k < |ps|
  {
    if k == 0 then |ps[0]| else |ps[0]| + 1 + EndOf(ps[1..], k - 1)
  }

  ghost predicate IsEnd(ps: seq<string>, i: nat) {
    exists k :: 0 <= k < |ps| - 1 && EndOf(ps, k) == i
  }

  lemma EndOfPrepend(c: char, ps: seq<string>, k: nat)
    requires k < |ps|
    ensures EndOf(Prepend([c], ps), k) == EndOf(ps, k) + 1
  {
    assert Prepend([c], ps)[1..] == ps[1..];
  }

  lemma IsEndPrepend(c: char, ps: seq<string>, i: nat)
    requires ps != []
    ensures IsEnd(Prepend([c], ps), i) <==> i > 0 && IsEnd(ps, i - 1)
  {
    var qs := Prepend([c], ps);
    forall k | 0 <= k < |ps| - 1 ensures EndOf(qs, k) == EndOf(ps, k) + 1 {
      EndOfPrepend(c, ps, k);
    }
    if i > 0 && IsEnd(ps, i - 1) {
      var k :| 0 <= k < |ps| - 1 && EndOf(ps, k) == i - 1;
      assert EndOf(qs, k) == i;
    }
  }

  lemma IsEndCons(ps: seq<string>, i: nat)
    requires ps != []
    ensures IsEnd([""] + ps, i) <==> i == 0 || IsEnd(ps, i - 1)
  {
    var qs := [""] + ps;
    assert qs[1..] == ps;
    if i == 0 {
      assert EndOf(qs, 0) == 0;
    } else if IsEnd(ps, i - 1) {
      var k :| 0 <= k < |ps| - 1 && EndOf(ps, k) == i - 1;
      assert EndOf(qs, k + 1) == i;
    }
    if IsEnd(qs, i) && i > 0 {
      var k :| 0 <= k < |qs| - 1 && EndOf(qs, k) == i;
      assert k > 0 && EndOf(ps, k - 1) == i - 1;
    }
  }

  lemma {:induction false} CutsFromMode(m: Mode, s: string, i: nat)
    requires i < |s|
    ensures IsEnd(Pieces(m, s), i) <==> s[i] == ';' && After(m, s[..i]) == Plain
    decreases s
  {
    if s[0] == ';' && m.Plain? {
      IsEndCons(Pieces(m, s[1..]), i);
      if i > 0 {
        CutsFromMode(m, s[1..], i - 1);
        assert s[..i][1..] == s[1..][..i - 1];
      }
    } else {
      IsEndPrepend(s[0], Pieces(Next(m, s[0]), s[1..]), i);
      if i > 0 {
        CutsFromMode(Next(m, s[0]), s[1..], i - 1);
        assert s[..i][1..] == s[1..][..i - 1];
      }
    }
  }

  // The pieces, joined by semicolons, are the message, and a piece ends exactly
  // at each semicolon outside quotes.
  lemma CutsAreTopLevelSemicolons(s: string)
    ensures Join(Pieces(Plain, s)) == s
    ensures forall i :: 0 <= i < |s| ==> (IsEnd(Pieces(Plain, s), i) <==> TopLevel(s, i))
  {
    JoinRestores(Plain, s);
    forall i | 0 <= i < |s| ensures IsEnd(Pieces(Plain, s), i) <==> TopLevel(s, i) {
      CutsFromMode(Plain, s, i);
    }
  }

  // ---- splitting what was split ----

  ghost predicate Uncut(s: string) { Pieces(Plain, s) == [s] }

  ghost predicate Closed(s: string) { Uncut(s) && After(Plain, s) == Plain }

  // Statements that can be joined and split again: only the last may leave a quote open.
  ghost predicate Separable(ps: seq<string>) {
    && (forall k :: 0 <= k < |ps| ==> Uncut(ps[k]))
    && (forall k :: 0 <= k < |ps| - 1 ==> Closed(ps[k]))
  }

  lemma {:induction false} AfterAppend(m: Mode, s: string, t: string)
    ensures After(m, s + t) == After(After(m, s), t)
    decreases s
  {
    if s == "" {
      assert s + t == t;
    } else {
      assert (s + t)[1..] == s[1..] + t;
      AfterAppend(Next(m, s[0]), s[1..], t);
    }
  }

  // Text without a cut is carried over to the next piece.
  lemma {:induction false} PiecesAppend(m: Mode, s: string, t: string)
    requires Pieces(m, s) == [s]
    ensures Pieces(m, s + t) == Prepend(s, Pieces(After(m, s), t))
    decreases s
  {
    if s == "" {
      assert s + t == t;
      PrependNothing(Pieces(m, t));
    } else {
      UncutTail(m, s);
      PiecesAppend(Next(m, s[0]), s[1..], t);
      assert (s + t)[1..] == s[1..] + t && s == [s[0]] + s[1..];
      var ps := Pieces(After(m, s), t);
      assert [s[0]] + (s[1..] + ps[0]) == s + ps[0];
      assert Prepend([s[0]], Prepend(s[1..], ps)) == Prepend(s, ps);
    }
  }

  lemma UncutTail(m: Mode, s: string)
    requires s != "" && Pieces(m, s) == [s]
    ensures !(s[0] == ';' && m.Plain?) && Pieces(Next(m, s[0]), s[1..]) == [s[1..]]
  {
    var ps := Pieces(Next(m, s[0]), s[1..]);
    if !(s[0] == ';' && m.Plain?) {
      assert |ps| == 1 && Prepend([s[0]], ps)[0] == [s[0]] + ps[0];
      assert ([s[0]] + ps[0])[1..] == ps[0];
    }
  }

  lemma {:induction false} PiecesOfJoin(ps: seq<string>)
    requires ps != [] && Separable(ps)
    ensures Pieces(Plain, Join(ps)) == ps
  {
    if |ps| > 1 {
      var rest := Join(ps[1..]);
      PiecesOfJoin(ps[1..]);
      PiecesAppend(Plain, ps[0], ";" + rest);
      assert ps[0] + ";" + rest == ps[0] + (";" + rest);
      assert (";" + rest)[1..] == rest;
      assert ps[0] + "" == ps[0];
      assert Prepend(ps[0], [""] + ps[1..]) == ps;
    }
  }

  // A piece holds no further cut, and all but the last close their quotes.
  lemma {:induction false} PiecesAreSeparable(m: Mode, s: string)
    ensures var ps := Pieces(m, s);
      && Pieces(m, ps[0]) == [ps[0]] && (|ps| > 1 ==> After(m, ps[0]) == Plain)
      && Separable(ps[1..])
    decreases s
  {
    if s != "" {
      if s[0] == ';' && m.Plain? {
        PiecesAreSeparable(m, s[1..]);
        FirstIsSeparable(Pieces(m, s[1..]));
        assert ([""] + Pieces(m, s[1..]))[1..] == Pieces(m, s[1..]);
      } else {
        PiecesAreSeparable(Next(m, s[0]), s[1..]);
        var ps := Pieces(Next(m, s[0]), s[1..]);
        PushUncut(m, s[0], ps[0]);
        assert Prepend([s[0]], ps)[1..] == ps[1..];
      }
    }
  }

  lemma FirstIsSeparable(ps: seq<string>)
    requires ps != [] && Uncut(ps[0]) && (|ps| > 1 ==> After(Plain, ps[0]) == Plain)
    requires Separable(ps[1..])
    ensures Separable(ps)
  {
    forall k | 0 <= k < |ps| ensures Uncut(ps[k]) && (k < |ps| - 1 ==> Closed(ps[k])) {
      if k > 0 {
        assert ps[k] == ps[1..][k - 1];
      }
    }
  }

  lemma PushUncut(m: Mode, c: char, piece: string)
    requires !(c == ';' && m.Plain?) && Pieces(Next(m, c), piece) == [piece]
    ensures Pieces(m, [c] + piece) == [[c] + piece]
    ensures After(m, [c] + piece) == After(Next(m, c), piece)
  {
    assert ([c] + piece)[1..] == piece;
    assert Prepend([c], [piece]) == [[c] + piece];
  }

  // ---- trimming ----

  lemma {:induction false} BlankIsPlain(m: Mode, s: string)
    requires Text.Blank(s)
    ensures After(m, s) == m && Pieces(m, s) == [s]
    decreases s
  {
    if s != "" {
      assert s[0] in s;
      assert Text.Blank(s[1..]);
      BlankIsPlain(m, s[1..]);
      assert [s[0]] + s[1..] == s;
    }
  }

  // Dropping blank text at both ends changes neither the quotes nor the cuts.
  lemma TrimKeepsMode(s: string)
    requires Uncut(s)
    ensures Uncut(Text.Trim(s)) && After(Plain, Text.Trim(s)) == After(Plain, s)
  {
    var before, after := Text.TrimSplits(s);
    var t := Text.Trim(s);
    BlankIsPlain(Plain, before);
    BlankIsPlain(After(Plain, t), after);
    AfterAppend(Plain, before + t, after);
    AfterAppend(Plain, before, t);
    assert before + t + after == before + (t + after);
    DropBlank(before, t + after);
    UncutPrefix(Plain, t, after);
  }

  lemma DropBlank(before: string, s: string)
    requires Text.Blank(before) && Uncut(before + s)
    ensures Uncut(s)
  {
    BlankIsPlain(Plain, before);
    PiecesAppend(Plain, before, s);
    var ps := Pieces(Plain, s);
    assert Prepend(before, ps)[0] == before + ps[0];
    assert |ps| == 1 && before + ps[0] == before + s;
    assert ps[0] == (before + ps[0])[|before|..] == s;
  }

  lemma {:induction false} UncutPrefix(m: Mode, s: string, t: string)
    requires Pieces(m, s + t) == [s + t]
    ensures Pieces(m, s) == [s]
    decreases s
  {
    if s != "" {
      UncutTail(m, s + t);
      assert (s + t)[1..] == s[1..] + t;
      UncutPrefix(Next(m, s[0]), s[1..], t);
      assert [s[0]] + s[1..] == s;
    }
  }

  lemma TrimIsIdempotent(s: string)
    ensures Text.Trim(Text.Trim(s)) == Text.Trim(s)
  {
    var before, after := Text.TrimSplits(s);
    Text.TrimOfTrimmed(Text.Trim(s));
  }

  lemma {:induction false} KeepAgain(ps: seq<string>)
    ensures KeepAll(KeepAll(ps)) == KeepAll(ps)
  {
    if ps != [] {
      KeepAgain(ps[1..]);
      TrimIsIdempotent(ps[0]);
      var (t, rest) := (Text.Trim(ps[0]), KeepAll(ps[1..]));
      if t != "" {
        assert ([t] + rest)[1..] == rest;
        assert KeepAll([t] + rest) == Keep(t) + KeepAll(rest);
      } else {
        assert KeepAll(ps) == rest;
      }
    }
  }

  lemma SeparableTail(ps: seq<string>)
    requires ps != [] && Separable(ps)
    ensures Separable(ps[1..])
  {
    assert forall k :: 0 <= k < |ps| - 1 ==> ps[1..][k] == ps[k + 1];
  }

  lemma {:induction false} KeptAreSeparable(ps: seq<string>)
    requires Separable(ps)
    ensures Separable(KeepAll(ps))
  {
    if ps != [] {
      SeparableTail(ps);
      KeptAreSeparable(ps[1..]);
      TrimKeepsMode(ps[0]);
      var (t, rest) := (Text.Trim(ps[0]), KeepAll(ps[1..]));
      if t != "" {
        assert ([t] + rest)[1..] == rest;
        FirstIsSeparable([t] + rest);
      } else {
        assert KeepAll(ps) == rest;
      }
    }
  }

  // Joining the statements of a message with semicolons and splitting again
  // gives the same statements.
  lemma SplitOfJoin(s: string)
    ensures Statements(Join(Statements(s))) == Statements(s)
  {
    var ps := Pieces(Plain, s);
    PiecesAreSeparable(Plain, s);
    FirstIsSeparable(ps);
    KeptAreSeparable(ps);
    KeepAgain(ps);
    if Statements(s) != [] {
      PiecesOfJoin(Statements(s));
    } else {
      assert Join(Statements(s)) == "";
      assert KeepAll([""]) == Keep("") + KeepAll([]);
    }
  }
}
