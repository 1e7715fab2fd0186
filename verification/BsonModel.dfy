// The documents MongoDB stores, and the byte-wise order of text both sides of the gateway use.
module BsonModel {
  import opened Wrappers

  type byte = x: int | 0 <= x < 256
  type i32 = x: int | -0x8000_0000 <= x < 0x8000_0000
  type i64 = x: int | -0x8000_0000_0000_0000 <= x < 0x8000_0000_0000_0000
  type u32 = x: int | 0 <= x < 0x1_0000_0000

  const I32_MIN: int := -0x8000_0000
  const I32_MAX: int := 0x7fff_ffff
  const I64_MIN: int := -0x8000_0000_0000_0000
  const I64_MAX: int := 0x7fff_ffff_ffff_ffff

  predicate FitsI32(v: int) { I32_MIN <= v <= I32_MAX }

  predicate FitsI64(v: int) { I64_MIN <= v <= I64_MAX }

  predicate IsLowerHex(c: char) { '0' <= c <= '9' || 'a' <= c <= 'f' }

  predicate IsOidText(s: string) { |s| == 24 && forall c :: c in s ==> IsLowerHex(c) }

  // An ObjectId is kept as its canonical rendering: 24 lower-case hex digits,
  // whose text order is the order of the twelve bytes.
  type Oid = s: string | IsOidText(s) witness seq(24, _ => '0')

  // `Double` holds the finite doubles; `Decimal128` keeps its display text;
  // `Exotic` stands for regexes, code, DBPointer and the min and max keys.
  datatype Bson =
    | Null
    | Undefined
    | Boolean(b: bool)
    | Int32(i: i32)
    | Int64(l: i64)
    | Double(d: real)
    | Decimal128(display: string)
    | String(s: string)
    | Symbol(s: string)
    | ObjectId(oid: Oid)
    | DateTime(ms: i64)
    | Timestamp(time: u32, increment: u32)
    | Binary(subtype: byte, bytes: seq<byte>)
    | Document(fields: map<string, Bson>)
    | Array(items: seq<Bson>)
    | Exotic(kind: nat)

  type Doc = map<string, Bson>

  // Missing, null and undefined values are what SQL sees as NULL.
  predicate NullLike(v: Option<Bson>) {
    v.None? || v.value.Null? || v.value.Undefined?
  }

  function Get(d: Doc, key: string): Option<Bson> {
    if key in d then Some(d[key]) else None
  }

  // Lexicographic order on scalar values, which is the order of the UTF-8 bytes.
  predicate TextLess(a: string, b: string) {
    if b == "" then false
    else if a == "" then true
    else a[0] < b[0] || (a[0] == b[0] && TextLess(a[1..], b[1..]))
  }

  lemma {:induction false} TextLessIrreflexive(a: string)
    ensures !TextLess(a, a)
  {
    if a != "" {
      TextLessIrreflexive(a[1..]);
    }
  }

  lemma {:induction false} TextLessTotal(a: string, b: string)
    ensures TextLess(a, b) || a == b || TextLess(b, a)
  {
    if a != "" && b != "" && a[0] == b[0] {
      TextLessTotal(a[1..], b[1..]);
      assert a == [a[0]] + a[1..] && b == [b[0]] + b[1..];
    }
  }

  lemma {:induction false} TextLessTransitive(a: string, b: string, c: string)
    requires TextLess(a, b) && TextLess(b, c)
    ensures TextLess(a, c)
  {
    if a != "" && a[0] == b[0] == c[0] {
      TextLessTransitive(a[1..], b[1..], c[1..]);
    }
  }

  lemma TextLessAsymmetric(a: string, b: string)
    requires TextLess(a, b)
    ensures !TextLess(b, a)
  {
    if TextLess(b, a) {
      TextLessTransitive(a, b, a);
      TextLessIrreflexive(a);
    }
  }
}
