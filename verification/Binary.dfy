/** Byte strings and the textual and binary encodings the ledger hashes: little-endian integers,
    length-prefixed strings, hexadecimal and decimal text.

    A Rust `String` is represented by its UTF-8 bytes, so `as_bytes` is the identity and string
    comparison is comparison of bytes.  */
module Binary {
  const U64_SIZE: nat := 0x1_0000_0000_0000_0000
  const U64_MAX: nat := U64_SIZE - 1
  const U32_SIZE: nat := 0x1_0000_0000

  type byte = b: int | 0 <= b < 256
  type u64 = n: int | 0 <= n < U64_SIZE
  type u32 = n: int | 0 <= n < U32_SIZE

  type Bytes = seq<byte>
  /** The bytes of a string; no string reaches 2^64 bytes. */
  type Text = t: Bytes | |t| < U64_SIZE
  /** What SHA-256 returns. */
  type Digest = d: Bytes | |d| == 32 witness seq(32, _ => 0)

  datatype Option<+T> = None | Some(value: T)

  const BAR: byte := 124
  const COLON: byte := 58
  const COMMA: byte := 44
  const PLUS: byte := 43
  const MINUS: byte := 45
  const NEWLINE: byte := 10

  /** ASCII bytes of a literal. */
  function Ascii(s: string): (r: Bytes)
    ensures |r| == |s|
  {
    seq(|s|, i requires 0 <= i < |s| => s[i] as int % 256)
  }

  // ---------------------------------------------------------------- splitting concatenations

  lemma Associate<T>(a: seq<T>, b: seq<T>, c: seq<T>)
    ensures a + b + c == a + (b + c)
  {
  }

  lemma SplitEqual<T>(x1: seq<T>, r1: seq<T>, x2: seq<T>, r2: seq<T>)
    requires x1 + r1 == x2 + r2
    requires |x1| == |x2|
    ensures x1 == x2 && r1 == r2
  {
    assert x1 == (x1 + r1)[..|x1|] && x2 == (x2 + r2)[..|x2|];
    assert r1 == (x1 + r1)[|x1|..] && r2 == (x2 + r2)[|x2|..];
  }

  /** The same, anchored at the right end. */
  lemma SplitEqualRight<T>(r1: seq<T>, x1: seq<T>, r2: seq<T>, x2: seq<T>)
    requires r1 + x1 == r2 + x2
    requires |x1| == |x2|
    ensures x1 == x2 && r1 == r2
  {
    assert |r1| == |r1 + x1| - |x1| == |r2 + x2| - |x2| == |r2|;
    SplitEqual(r1, x1, r2, x2);
  }

  lemma FirstAt<T>(x: seq<T>, r: seq<T>, c: T)
    requires c !in x
    ensures var w := x + [c] + r; w[|x|] == c && forall k :: 0 <= k < |x| ==> w[k] != c
  {
  }

  lemma LastAt<T>(r: seq<T>, x: seq<T>, c: T)
    requires c !in x
    ensures var w := r + [c] + x; w[|r|] == c && forall k :: |r| < k < |w| ==> w[k] != c
  {
  }

  /** A part that does not contain `c` followed by `c` is determined by the concatenation. */
  lemma DelimitedEqual<T>(x1: seq<T>, r1: seq<T>, x2: seq<T>, r2: seq<T>, c: T)
    requires x1 + [c] + r1 == x2 + [c] + r2
    requires c !in x1 && c !in x2
    ensures x1 == x2 && r1 == r2
  {
    FirstAt(x1, r1, c);
    FirstAt(x2, r2, c);
    SplitEqual(x1 + [c], r1, x2 + [c], r2);
    SplitEqual(x1, [c], x2, [c]);
  }

  /** The mirror image: `c` followed by a part that does not contain `c`. */
  lemma DelimitedEqualRight<T>(r1: seq<T>, x1: seq<T>, r2: seq<T>, x2: seq<T>, c: T)
    requires r1 + [c] + x1 == r2 + [c] + x2
    requires c !in x1 && c !in x2
    ensures x1 == x2 && r1 == r2
  {
    LastAt(r1, x1, c);
    LastAt(r2, x2, c);
    SplitEqual(r1 + [c], x1, r2 + [c], x2);
    SplitEqual(r1, [c], r2, [c]);
  }

  // ---------------------------------------------------------------- little-endian integers

  function Pow256(k: nat): (p: nat)
    ensures p > 0
  {
    if k == 0 then 1 else 256 * Pow256(k - 1)
  }

  /** The low `k` bytes of `n`, least significant first. */
  function LittleEndian(n: nat, k: nat): (r: Bytes)
    ensures |r| == k
  {
    if k == 0 then [] else [n % 256] + LittleEndian(n / 256, k - 1)
  }

  lemma {:induction false} LittleEndianInjective(a: nat, b: nat, k: nat)
    requires a < Pow256(k) && b < Pow256(k)
    requires LittleEndian(a, k) == LittleEndian(b, k)
    ensures a == b
  {
    if k > 0 {
      SplitEqual([a % 256], LittleEndian(a / 256, k - 1), [b % 256], LittleEndian(b / 256, k - 1));
      assert [a % 256][0] == [b % 256][0];
      LittleEndianInjective(a / 256, b / 256, k - 1);
    }
  }

  /** The number a byte string spells, least significant byte first. */
  function FromLittleEndian(b: Bytes): nat {
    if |b| == 0 then 0 else b[0] + 256 * FromLittleEndian(b[1..])
  }

  /** Reading back what was written. */
  lemma {:induction false} LittleEndianValue(n: nat, k: nat)
    requires n < Pow256(k)
    ensures FromLittleEndian(LittleEndian(n, k)) == n
  {
    if k > 0 {
      assert LittleEndian(n, k)[1..] == LittleEndian(n / 256, k - 1);
      LittleEndianValue(n / 256, k - 1);
    }
  }

  lemma Pow256Values()
    ensures Pow256(4) == U32_SIZE && Pow256(8) == U64_SIZE
  {
    assert Pow256(2) == 0x1_0000;
    assert Pow256(4) == 0x1_0000_0000;
    assert Pow256(6) == 0x1_0000_0000_0000;
    assert Pow256(8) == 0x1_0000_0000_0000_0000;
  }

  /** `u64::to_le_bytes`. */
  function LE8(n: nat): (r: Bytes)
    ensures |r| == 8
  {
    LittleEndian(n, 8)
  }

  /** `u32::to_le_bytes`. */
  function LE4(n: nat): (r: Bytes)
    ensures |r| == 4
  {
    LittleEndian(n, 4)
  }

  lemma LE8Split(a: u64, r1: Bytes, b: u64, r2: Bytes)
    requires LE8(a) + r1 == LE8(b) + r2
    ensures a == b && r1 == r2
  {
    SplitEqual(LE8(a), r1, LE8(b), r2);
    Pow256Values();
    LittleEndianInjective(a, b, 8);
  }

  lemma LE4Split(a: u32, r1: Bytes, b: u32, r2: Bytes)
    requires LE4(a) + r1 == LE4(b) + r2
    ensures a == b && r1 == r2
  {
    SplitEqual(LE4(a), r1, LE4(b), r2);
    Pow256Values();
    LittleEndianInjective(a, b, 4);
  }

  // ---------------------------------------------------------------- saturating arithmetic

  function SaturatingAdd(a: u64, b: u64): u64 {
    if a + b > U64_MAX then U64_MAX else a + b
  }

  function SaturatingSub(a: u64, b: u64): u64 {
    if a >= b then a - b else 0
  }

  // ---------------------------------------------------------------- length prefixes and options

  /** `encode_string`: eight length bytes, then the text. */
  function EncodeText(s: Bytes): (r: Bytes)
    ensures |r| == 8 + |s|
  {
    LE8(|s|) + s
  }

  lemma EncodeTextSplit(a: Text, r1: Bytes, b: Text, r2: Bytes)
    requires EncodeText(a) + r1 == EncodeText(b) + r2
    ensures a == b && r1 == r2
  {
    Associate(LE8(|a|), a, r1);
    Associate(LE8(|b|), b, r2);
    LE8Split(|a|, a + r1, |b|, b + r2);
    SplitEqual(a, r1, b, r2);
  }

  /** `encode_option_bucket`: a presence byte, then the number. */
  function EncodeOptionU64(v: Option<u64>): Bytes {
    match v
    case Some(n) => [1] + LE8(n)
    case None => [0]
  }

  lemma EncodeOptionU64Split(a: Option<u64>, r1: Bytes, b: Option<u64>, r2: Bytes)
    requires EncodeOptionU64(a) + r1 == EncodeOptionU64(b) + r2
    ensures a == b && r1 == r2
  {
    assert (EncodeOptionU64(a) + r1)[0] == (EncodeOptionU64(b) + r2)[0];
    if a.Some? {
      Associate([1], LE8(a.value), r1);
      Associate([1], LE8(b.value), r2);
      SplitEqual([1], LE8(a.value) + r1, [1], LE8(b.value) + r2);
      LE8Split(a.value, r1, b.value, r2);
    } else {
      SplitEqual([0], r1, [0], r2);
    }
  }

  /** `encode_option_string_fn`: a presence byte, then the length-prefixed text. */
  function EncodeOptionText(v: Option<Text>): Bytes {
    match v
    case Some(s) => [1] + EncodeText(s)
    case None => [0]
  }

  lemma EncodeOptionTextSplit(a: Option<Text>, r1: Bytes, b: Option<Text>, r2: Bytes)
    requires EncodeOptionText(a) + r1 == EncodeOptionText(b) + r2
    ensures a == b && r1 == r2
  {
    assert (EncodeOptionText(a) + r1)[0] == (EncodeOptionText(b) + r2)[0];
    if a.Some? {
      Associate([1], EncodeText(a.value), r1);
      Associate([1], EncodeText(b.value), r2);
      SplitEqual([1], EncodeText(a.value) + r1, [1], EncodeText(b.value) + r2);
      EncodeTextSplit(a.value, r1, b.value, r2);
    } else {
      SplitEqual([0], r1, [0], r2);
    }
  }

  // ---------------------------------------------------------------- hexadecimal text

  function HexDigit(n: nat): (c: byte)
    requires n < 16
  {
    if n < 10 then 48 + n else 87 + n
  }

  /** `hex::encode`: two lower-case digits a byte. */
  function Hex(b: Bytes): (r: Bytes)
    ensures |r| == 2 * |b|
    ensures BAR !in r
  {
    if |b| == 0 then [] else [HexDigit(b[0] / 16), HexDigit(b[0] % 16)] + Hex(b[1..])
  }

  lemma {:induction false} HexInjective(a: Bytes, b: Bytes)
    requires Hex(a) == Hex(b)
    ensures a == b
  {
    assert |a| == |b|;
    if |a| > 0 {
      var pa, pb := [HexDigit(a[0] / 16), HexDigit(a[0] % 16)], [HexDigit(b[0] / 16), HexDigit(b[0] % 16)];
      SplitEqual(pa, Hex(a[1..]), pb, Hex(b[1..]));
      assert pa[0] == pb[0] && pa[1] == pb[1];
      assert a[0] == b[0];
      HexInjective(a[1..], b[1..]);
      assert a == [a[0]] + a[1..] && b == [b[0]] + b[1..];
    }
  }

  /** Each byte becomes its high and its low digit, in lower case. */
  lemma {:induction false} HexDigits(b: Bytes, i: nat)
    requires i < |b|
    ensures Hex(b)[2 * i] == "0123456789abcdef"[b[i] / 16] as int && Hex(b)[2 * i + 1] == "0123456789abcdef"[b[i] % 16] as int
  {
    if i > 0 {
      HexDigits(b[1..], i - 1);
    }
  }

  // ---------------------------------------------------------------- decimal text

  predicate IsDigit(c: byte) {
    48 <= c <= 57
  }

  predicate AllDigits(s: Bytes) {
    forall i :: 0 <= i < |s| ==> IsDigit(s[i])
  }

  /** `format!("{}", n)`. */
  function Decimal(n: nat): (r: Bytes)
    ensures 0 < |r|
    ensures AllDigits(r)
    ensures BAR !in r && COLON !in r
  {
    if n < 10 then [48 + n] else Decimal(n / 10) + [48 + n % 10]
  }

  /** The number a string of digits denotes. */
  function DigitsValue(s: Bytes): nat
    requires AllDigits(s)
  {
    if |s| == 0 then 0 else 10 * DigitsValue(s[..|s| - 1]) + (s[|s| - 1] - 48)
  }

  lemma {:induction false} DecimalValue(n: nat)
    ensures DigitsValue(Decimal(n)) == n
  {
    if n >= 10 {
      var d := Decimal(n);
      assert d[..|d| - 1] == Decimal(n / 10);
      DecimalValue(n / 10);
    }
  }

  lemma {:induction false} DecimalInjective(a: nat, b: nat)
    requires Decimal(a) == Decimal(b)
    ensures a == b
  {
    DecimalValue(a);
    DecimalValue(b);
  }

  /** The same for a signed number. */
  function SignedDecimal(n: int): (r: Bytes)
    ensures BAR !in r && NEWLINE !in r
  {
    if n < 0 then [MINUS] + Decimal(-n) else Decimal(n)
  }

  lemma SignedDecimalInjective(a: int, b: int)
    requires SignedDecimal(a) == SignedDecimal(b)
    ensures a == b
  {
    assert IsDigit(Decimal(if a < 0 then -a else a)[0]) && IsDigit(Decimal(if b < 0 then -b else b)[0]);
    assert SignedDecimal(a)[0] == SignedDecimal(b)[0];
    if a < 0 {
      SplitEqual([MINUS], Decimal(-a), [MINUS], Decimal(-b));
      DecimalInjective(-a, -b);
    } else {
      DecimalInjective(a, b);
    }
  }

  /** Rust's `str::parse` for an unsigned type with `limit` values: an optional plus sign, then at
      least one digit and nothing else, and no overflow. */
  function ParseUnsigned(s: Bytes, limit: nat): (r: Option<nat>)
    ensures r.Some? ==> r.value < limit
  {
    var digits := if |s| > 1 && s[0] == PLUS then s[1..] else s;
    if |digits| > 0 && AllDigits(digits) && DigitsValue(digits) < limit then
      Some(DigitsValue(digits))
    else
      None
  }

  function ParseU64(s: Bytes): (r: Option<u64>) {
    match ParseUnsigned(s, U64_SIZE)
    case Some(n) => Some(n)
    case None => None
  }

  /** Parsing undoes printing, below the type's limit. */
  lemma {:induction false} ParseDecimal(n: nat, limit: nat)
    requires n < limit
    ensures ParseUnsigned(Decimal(n), limit) == Some(n)
  {
    var d := Decimal(n);
    assert IsDigit(d[0]);
    DecimalValue(n);
  }

  /** A plus sign in front is accepted too, and nothing that is not a digit is. */
  lemma {:induction false} ParsePlus(n: nat, limit: nat)
    requires n < limit
    ensures ParseUnsigned([PLUS] + Decimal(n), limit) == Some(n)
  {
    assert ([PLUS] + Decimal(n))[1..] == Decimal(n);
    DecimalValue(n);
  }

  lemma ParseRejects(s: Bytes, limit: nat, i: nat)
    requires i < |s| && !IsDigit(s[i]) && (i == 0 ==> s[0] != PLUS || |s| == 1)
    ensures ParseUnsigned(s, limit) == None
  {
    if |s| > 1 && s[0] == PLUS {
      assert s[1..][i - 1] == s[i];
    }
  }

  /** `str::split_once`: the parts around the first `c`. */
  function SplitOnce(s: Bytes, c: byte): (r: Option<(Bytes, Bytes)>)
    ensures r.None? <==> c !in s
    ensures r.Some? ==> s == r.value.0 + [c] + r.value.1 && c !in r.value.0
  {
    if |s| == 0 then None
    else if s[0] == c then
      assert s == [] + [c] + s[1..];
      Some(([], s[1..]))
    else
      match SplitOnce(s[1..], c)
      case None => None
      case Some((l, r)) =>
        assert s == [s[0]] + s[1..];
        Some(([s[0]] + l, r))
  }
}
