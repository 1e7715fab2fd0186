// The base64 text binary values render as, against a decoder written from
// section 4 of RFC 4648.
module Base64 {
  import opened Wrappers
  import B = BsonModel

  const UPPER: string := "ABCDEFGHIJKLMNOPQRSTUVWXYZ"
  const LOWER: string := "abcdefghijklmnopqrstuvwxyz"
  const OTHER: string := "0123456789+/"
  const ALPHABET: string := UPPER + LOWER + OTHER

  // The character of a sextet, by the ranges of table 1 of RFC 4648.
  function Sextet(i: int): char
    requires 0 <= i < 64
  {
    if i < 26 then ('A' as int + i) as char
    else if i < 52 then ('a' as int + i - 26) as char
    else if i < 62 then ('0' as int + i - 52) as char
    else if i == 62 then '+' else '/'
  }

  lemma UpperIs(i: int)
    requires 0 <= i < 26
    ensures |UPPER| == 26 && UPPER[i] == Sextet(i)
  {
  }

  lemma LowerIs(i: int)
    requires 0 <= i < 26
    ensures |LOWER| == 26 && LOWER[i] == Sextet(i + 26)
  {
  }

  lemma OtherIs(i: int)
    requires 0 <= i < 12
    ensures |OTHER| == 12 && OTHER[i] == Sextet(i + 52)
  {
  }

  lemma AlphabetIs(i: int)
    requires 0 <= i < 64
    ensures |ALPHABET| == 64 && ALPHABET[i] == Sextet(i)
  {
    if i < 26 {
      UpperIs(i);
    } else if i < 52 {
      LowerIs(i - 26);
    } else {
      OtherIs(i - 52);
    }
  }

  method LookUp(i: int) returns (c: char)
    requires 0 <= i < 64
    ensures c == Sextet(i)
  {
    AlphabetIs(i);
    c := ALPHABET[i];
  }

  // The bytes of a chunk, zero-filled to three.
  function Padded(chunk: seq<B.byte>): (int, int, int)
    requires 1 <= |chunk| <= 3
  {
    (chunk[0], if |chunk| > 1 then chunk[1] else 0, if |chunk| > 2 then chunk[2] else 0)
  }

  function Group(b0: int, b1: int, b2: int): int { b0 * 0x1_0000 + b1 * 0x100 + b2 }

  // Four sextets of a 24-bit group, the last ones replaced by padding.
  function Quantum(s0: int, s1: int, s2: int, s3: int, len: nat): (q: string)
    requires 0 <= s0 < 64 && 0 <= s1 < 64 && 0 <= s2 < 64 && 0 <= s3 < 64
    ensures |q| == 4
  {
    [Sextet(s0), Sextet(s1), if len > 1 then Sextet(s2) else '=', if len > 2 then Sextet(s3) else '=']
  }

  function EncodeChunk(chunk: seq<B.byte>): (q: string)
    requires 1 <= |chunk| <= 3
    ensures |q| == 4
  {
    var (b0, b1, b2) := Padded(chunk);
    var n := Group(b0, b1, b2);
    Quantum(n / 0x4_0000 % 64, n / 0x1000 % 64, n / 0x40 % 64, n % 64, |chunk|)
  }

  function ChunkLength(n: nat): nat { if n < 3 then n else 3 }

  function Encode(input: seq<B.byte>): string {
    if input == [] then ""
    else EncodeChunk(input[..ChunkLength(|input|)]) + Encode(input[ChunkLength(|input|)..])
  }

  // The loop over chunks of three.
  method EncodeBytes(input: seq<B.byte>) returns (out: string)
    ensures out == Encode(input)
  {
    out := "";
    var i := 0;
    assert input[0..] == input;
    while i < |input|
      invariant 0 <= i <= |input|
      invariant out + Encode(input[i..]) == Encode(input)
    {
      var len := ChunkLength(|input| - i);
      var q := EncodeOne(input[i..i + len]);
      ChunkMoves(out, input, i, len);
      out := out + q;
      i := i + len;
    }
    assert input[|input|..] == [];
  }

  method EncodeOne(chunk: seq<B.byte>) returns (q: string)
    requires 1 <= |chunk| <= 3
    ensures q == EncodeChunk(chunk)
  {
    var b1 := if |chunk| > 1 then chunk[1] else 0;
    var b2 := if |chunk| > 2 then chunk[2] else 0;
    q := EncodeGroup(chunk[0], b1, b2, |chunk|);
  }

  lemma ChunkMoves(out: string, input: seq<B.byte>, i: nat, len: nat)
    requires i < |input| && len == ChunkLength(|input| - i)
    ensures out + EncodeChunk(input[i..i + len]) + Encode(input[i + len..]) == out + Encode(input[i..])
  {
    EncodeFrom(input, i, len);
  }

  lemma EncodeFrom(input: seq<B.byte>, i: nat, len: nat)
    requires i < |input| && len == ChunkLength(|input| - i)
    ensures Encode(input[i..]) == EncodeChunk(input[i..i + len]) + Encode(input[i + len..])
  {
    assert input[i..][..len] == input[i..i + len] && input[i..][len..] == input[i + len..];
  }

  method EncodeGroup(b0: B.byte, b1: B.byte, b2: B.byte, len: nat) returns (q: string)
    ensures var n := Group(b0, b1, b2); q == Quantum(n / 0x4_0000 % 64, n / 0x1000 % 64, n / 0x40 % 64, n % 64, len)
  {
    var n := Group(b0, b1, b2);
    var c0 := LookUp(n / 0x4_0000 % 64);
    var c1 := LookUp(n / 0x1000 % 64);
    var c2, c3 := '=', '=';
    if len > 1 {
      c2 := LookUp(n / 0x40 % 64);
    }
    if len > 2 {
      c3 := LookUp(n % 64);
    }
    q := [c0, c1, c2, c3];
  }

  // ---- the reference decoder ----

  function SextetValue(c: char): Option<int> {
    if 'A' <= c <= 'Z' then Some(c as int - 'A' as int)
    else if 'a' <= c <= 'z' then Some(c as int - 'a' as int + 26)
    else if '0' <= c <= '9' then Some(c as int - '0' as int + 52)
    else if c == '+' then Some(62)
    else if c == '/' then Some(63)
    else None
  }

  // One quantum of four characters; padding stands for one or two missing bytes.
  function DecodeQuantum(q: string, last: bool): Option<seq<int>>
    requires |q| == 4
  {
    var a :- SextetValue(q[0]);
    var b :- SextetValue(q[1]);
    if q[2] == '=' && q[3] == '=' && last then
      Some([a * 4 + b / 16])
    else
      var c :- SextetValue(q[2]);
      if q[3] == '=' && last then
        Some([a * 4 + b / 16, b % 16 * 16 + c / 4])
      else
        var d :- SextetValue(q[3]);
        Some([a * 4 + b / 16, b % 16 * 16 + c / 4, c % 4 * 64 + d])
  }

  function Decode(s: string): Option<seq<int>> {
    if s == "" then Some([])
    else if |s| < 4 then None
    else
      var head :- DecodeQuantum(s[..4], |s| == 4);
      var tail :- Decode(s[4..]);
      Some(head + tail)
  }

  lemma SextetInverse(i: int)
    requires 0 <= i < 64
    ensures SextetValue(Sextet(i)) == Some(i) && Sextet(i) != '='
  {
  }

  // Where the sextets of a group cut its three bytes.
  lemma FirstCuts(b0: int, b1: int, b2: int)
    requires 0 <= b0 < 256 && 0 <= b1 < 256 && 0 <= b2 < 256
    ensures Group(b0, b1, b2) / 0x4_0000 == b0 / 4
    ensures Group(b0, b1, b2) / 0x1000 == b0 * 16 + b1 / 16
  {
  }

  lemma LastCuts(b0: int, b1: int, b2: int)
    requires 0 <= b0 < 256 && 0 <= b1 < 256 && 0 <= b2 < 256
    ensures Group(b0, b1, b2) / 0x40 == b0 * 0x400 + b1 * 4 + b2 / 64
    ensures Group(b0, b1, b2) % 64 == b2 % 64
  {
  }

  lemma LowSextet(q: int, s: int)
    requires 0 <= s < 64
    ensures (64 * q + s) % 64 == s
  {
  }

  lemma Remainders(b0: int, b1: int, b2: int)
    requires 0 <= b0 < 256 && 0 <= b1 < 256 && 0 <= b2 < 256
    ensures b0 / 4 % 64 == b0 / 4
    ensures (b0 * 16 + b1 / 16) % 64 == b0 % 4 * 16 + b1 / 16
    ensures (b0 * 0x400 + b1 * 4 + b2 / 64) % 64 == b1 % 16 * 4 + b2 / 64
  {
    LowSextet(b0 / 4, b0 % 4 * 16 + b1 / 16);
    LowSextet(b0 * 16 + b1 / 16, b1 % 16 * 4 + b2 / 64);
  }

  lemma ChunkIsQuantum(chunk: seq<B.byte>)
    requires 1 <= |chunk| <= 3
    ensures var (b0, b1, b2) := Padded(chunk);
      EncodeChunk(chunk) == Quantum(b0 / 4, b0 % 4 * 16 + b1 / 16, b1 % 16 * 4 + b2 / 64, b2 % 64, |chunk|)
  {
    var (b0, b1, b2) := Padded(chunk);
    FirstCuts(b0, b1, b2);
    LastCuts(b0, b1, b2);
    Remainders(b0, b1, b2);
  }

  // The first len of the three bytes four sextets spell.
  function Bytes(s0: int, s1: int, s2: int, s3: int, len: nat): seq<int> {
    if len == 1 then [s0 * 4 + s1 / 16]
    else if len == 2 then [s0 * 4 + s1 / 16, s1 % 16 * 16 + s2 / 4]
    else [s0 * 4 + s1 / 16, s1 % 16 * 16 + s2 / 4, s2 % 4 * 64 + s3]
  }

  lemma QuantumDecodes(s0: int, s1: int, s2: int, s3: int, len: nat, last: bool)
    requires 0 <= s0 < 64 && 0 <= s1 < 64 && 0 <= s2 < 64 && 0 <= s3 < 64
    requires 1 <= len <= 3 && (len < 3 ==> last)
    ensures DecodeQuantum(Quantum(s0, s1, s2, s3, len), last) == Some(Bytes(s0, s1, s2, s3, len))
  {
    SextetInverse(s0);
    SextetInverse(s1);
    SextetInverse(s2);
    SextetInverse(s3);
  }

  lemma BytesOfSextets(b0: int, b1: int, b2: int)
    requires 0 <= b0 < 256 && 0 <= b1 < 256 && 0 <= b2 < 256
    ensures var (s0, s1, s2, s3) := (b0 / 4, b0 % 4 * 16 + b1 / 16, b1 % 16 * 4 + b2 / 64, b2 % 64);
      s0 * 4 + s1 / 16 == b0 && s1 % 16 * 16 + s2 / 4 == b1 && s2 % 4 * 64 + s3 == b2
  {
  }

  lemma ChunkBytes(chunk: seq<B.byte>)
    requires 1 <= |chunk| <= 3
    ensures var (b0, b1, b2) := Padded(chunk);
      Bytes(b0 / 4, b0 % 4 * 16 + b1 / 16, b1 % 16 * 4 + b2 / 64, b2 % 64, |chunk|) == chunk
  {
    var (b0, b1, b2) := Padded(chunk);
    BytesOfSextets(b0, b1, b2);
  }

  lemma ChunkInverse(chunk: seq<B.byte>, last: bool)
    requires 1 <= |chunk| <= 3 && (|chunk| < 3 ==> last)
    ensures DecodeQuantum(EncodeChunk(chunk), last) == Some(chunk)
  {
    var (b0, b1, b2) := Padded(chunk);
    ChunkIsQuantum(chunk);
    ChunkBytes(chunk);
    QuantumDecodes(b0 / 4, b0 % 4 * 16 + b1 / 16, b1 % 16 * 4 + b2 / 64, b2 % 64, |chunk|, last);
  }

  lemma DecodeStep(q: string, rest: string, head: seq<int>, tail: seq<int>)
    requires |q| == 4 && DecodeQuantum(q, rest == "") == Some(head) && Decode(rest) == Some(tail)
    ensures Decode(q + rest) == Some(head + tail)
  {
    assert (q + rest)[..4] == q && (q + rest)[4..] == rest;
  }

  lemma EncodeStep(input: seq<B.byte>)
    requires input != []
    ensures var len := ChunkLength(|input|);
      && Encode(input) == EncodeChunk(input[..len]) + Encode(input[len..])
      && input == input[..len] + input[len..]
  {
  }

  lemma {:induction false} EmptyEncodes(input: seq<B.byte>)
    ensures Encode(input) == "" <==> input == []
  {
    if input != [] {
      EncodeStep(input);
    }
  }

  // Decoding inverts encoding.
  lemma {:induction false} DecodeInvertsEncode(input: seq<B.byte>)
    ensures Decode(Encode(input)) == Some(input)
  {
    if input != [] {
      var len := ChunkLength(|input|);
      DecodeInvertsEncode(input[len..]);
      ChunkInverse(input[..len], input[len..] == []);
      EmptyEncodes(input[len..]);
      EncodeStep(input);
      DecodeStep(EncodeChunk(input[..len]), Encode(input[len..]), input[..len], input[len..]);
    }
  }

  lemma Quanta(n: nat)
    requires n > 0
    ensures (n + 2) / 3 == 1 + (n - ChunkLength(n) + 2) / 3
  {
  }

  // Four characters stand for every three bytes begun.
  lemma {:induction false} EncodedLength(input: seq<B.byte>)
    ensures |Encode(input)| == 4 * ((|input| + 2) / 3)
  {
    if input != [] {
      var len := ChunkLength(|input|);
      EncodeStep(input);
      EncodedLength(input[len..]);
      Quanta(|input|);
      assert |input[len..]| == |input| - len;
    }
  }

  // How many characters of the last quantum are padding.
  function PadCount(n: nat): nat { if n % 3 == 0 then 0 else 3 - n % 3 }

  lemma QuantumPadding(s0: int, s1: int, s2: int, s3: int, len: nat, i: nat)
    requires 0 <= s0 < 64 && 0 <= s1 < 64 && 0 <= s2 < 64 && 0 <= s3 < 64
    requires 1 <= len <= 3 && i < 4
    ensures Quantum(s0, s1, s2, s3, len)[i] == '=' <==> i > len
  {
    SextetInverse(s0);
    SextetInverse(s1);
    SextetInverse(s2);
    SextetInverse(s3);
  }

  lemma ChunkPadding(chunk: seq<B.byte>, i: nat)
    requires 1 <= |chunk| <= 3 && i < 4
    ensures EncodeChunk(chunk)[i] == '=' <==> i > |chunk|
  {
    var (b0, b1, b2) := Padded(chunk);
    var n := Group(b0, b1, b2);
    QuantumPadding(n / 0x4_0000 % 64, n / 0x1000 % 64, n / 0x40 % 64, n % 64, |chunk|, i);
  }

  lemma PadArithmetic(n: nat)
    ensures n > 3 ==> 4 * ((n + 2) / 3) == 4 + 4 * ((n - 3 + 2) / 3) && PadCount(n) == PadCount(n - 3)
    ensures 1 <= n <= 3 ==> 4 * ((n + 2) / 3) == 4 && PadCount(n) == 3 - n
    ensures n > 0 ==> PadCount(n) < 4 * ((n + 2) / 3)
  {
  }

  // Padding fills up the last quantum where the last group is short, and stands
  // nowhere else.
  lemma {:induction false} PaddingIsLast(input: seq<B.byte>, i: nat)
    requires i < |Encode(input)|
    ensures Encode(input)[i] == '=' <==> i >= |Encode(input)| - PadCount(|input|)
  {
    EmptyEncodes(input);
    var len := ChunkLength(|input|);
    var rest := input[len..];
    EncodeStep(input);
    EncodedLength(input);
    EncodedLength(rest);
    PadArithmetic(|input|);
    if i >= 4 {
      PaddingIsLast(rest, i - 4);
    } else {
      ChunkPadding(input[..len], i);
      PadArithmetic(|rest|);
    }
  }
}
