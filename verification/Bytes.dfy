/**
 Bytes, decimal text and byte searches shared by the parser, the serializer and the stores.
 */
module Bytes {
  type byte = x: int | 0 <= x < 256
  type bytes = seq<byte>

  /** The field delimiter, written \x01 on the wire. */
  const SOH: byte := 1
  const EQ: byte := 61       // '='
  const EIGHT: byte := 56    // '8'
  const MINUS: byte := 45    // '-'
  const NEWLINE: byte := 10  // '\n'
  const BAR: byte := 124     // '|'
  const TILDE: byte := 126   // '~'
  const PERCENT: byte := 37  // '%'

  /** Limits of the integer types the source reads numbers into. */
  const TWO32: nat := 0x1_0000_0000
  const TWO63: nat := 0x8000_0000_0000_0000
  const TWO64: nat := 0x1_0000_0000_0000_0000
  const SIZE_MAX: nat := 0xFFFF_FFFF_FFFF_FFFF

  datatype Option<+T> = None | Some(value: T)

  datatype ErrorCode = ParseError | InvalidField | BadLength | BadChecksum | DuplicateField | SessionError | StoreError

  function Min(a: nat, b: nat): nat {
    if a <= b then a else b
  }

  function Max(a: nat, b: nat): nat {
    if a >= b then a else b
  }

  /** The greater of two integers, as positions or times. */
  function LaterOf(a: int, b: int): int {
    if a >= b then a else b
  }

  predicate Increasing(ns: seq<nat>) {
    forall i, j :: 0 <= i < j < |ns| ==> ns[i] < ns[j]
  }

  lemma Associates<T>(a: seq<T>, b: seq<T>, c: seq<T>)
    ensures a + b + c == a + (b + c)
  {
  }

  lemma NothingBefore<T>(s: seq<T>)
    ensures [] + s == s
  {
  }

  lemma DropOfSlice<T>(s: seq<T>, i: nat, j: nat, k: nat)
    requires i + k <= j <= |s|
    ensures s[i..j][k..] == s[i + k..j]
  {
  }

  lemma TakeOfDrop<T>(s: seq<T>, k: nat, n: nat)
    requires k <= n <= |s|
    ensures s[k..][..n - k] == s[..n][k..]
  {
  }

  lemma DropDrop<T>(s: seq<T>, i: nat, j: nat)
    requires i + j <= |s|
    ensures s[i..][j..] == s[i + j..]
  {
  }

  lemma TailOfConcat<T>(a: seq<T>, b: seq<T>)
    requires a != []
    ensures (a + b)[0] == a[0] && (a + b)[1..] == a[1..] + b
  {
  }

  // ---------------------------------------------------------------------
  // Searching
  // ---------------------------------------------------------------------

  /** Index of the first byte at or after `from` that equals `a` or `b`; the length if there is none. */
  function FindEither(s: bytes, from: nat, a: byte, b: byte): (r: nat)
    requires from <= |s|
    ensures from <= r <= |s|
    ensures r < |s| ==> s[r] == a || s[r] == b
    ensures forall i :: from <= i < r ==> s[i] != a && s[i] != b
    decreases |s| - from
  {
    if from == |s| || s[from] == a || s[from] == b then from else FindEither(s, from + 1, a, b)
  }

  lemma {:induction false} FindEitherIs(s: bytes, from: nat, a: byte, b: byte, k: nat)
    requires from <= k < |s| && (s[k] == a || s[k] == b)
    requires forall i :: from <= i < k ==> s[i] != a && s[i] != b
    ensures FindEither(s, from, a, b) == k
  {
  }

  /** A hit is found at the same place whatever bytes follow. */
  lemma {:induction false} FindEitherExtend(s: bytes, t: bytes, from: nat, a: byte, b: byte)
    requires from <= |s| && FindEither(s, from, a, b) < |s|
    requires s <= t
    ensures FindEither(t, from, a, b) == FindEither(s, from, a, b)
  {
    var r := FindEither(s, from, a, b);
    assert t[r] == s[r];
    assert forall i :: from <= i < r ==> t[i] == s[i];
  }

  // ---------------------------------------------------------------------
  // Decimal text
  // ---------------------------------------------------------------------

  predicate IsDigit(c: byte) {
    48 <= c <= 57
  }

  predicate AllDigits(s: bytes) {
    forall i :: 0 <= i < |s| ==> IsDigit(s[i])
  }

  /** Decimal text without leading zeros (std::to_chars, std::to_string). */
  function Dec(n: nat): (s: bytes)
    ensures |s| > 0
  {
    if n < 10 then [48 + n] else Dec(n / 10) + [48 + n % 10]
  }

  /** Decimal text of a signed number. */
  function DecInt(n: int): bytes {
    if n < 0 then [MINUS] + Dec(-n) else Dec(n)
  }

  /** The 64-bit two's-complement reading of an unsigned number (static_cast<std::int64_t>). */
  function ToInt64(n: nat): int {
    if n % TWO64 < TWO63 then n % TWO64 else n % TWO64 - TWO64
  }

  /** The value of a string of digits. */
  function Val(s: bytes): nat
    requires AllDigits(s)
  {
    if s == [] then 0 else Val(s[..|s| - 1]) * 10 + (s[|s| - 1] - 48)
  }

  lemma {:induction false} DecDigits(n: nat)
    ensures AllDigits(Dec(n)) && Val(Dec(n)) == n
  {
    if n >= 10 {
      DecDigits(n / 10);
      var s := Dec(n);
      assert s[..|s| - 1] == Dec(n / 10);
      assert s[|s| - 1] == 48 + n % 10;
    }
  }

  function Pow10(k: nat): nat {
    if k == 0 then 1 else 10 * Pow10(k - 1)
  }

  lemma {:induction false} DecLength(n: nat, k: nat)
    requires 1 <= k && n < Pow10(k)
    ensures |Dec(n)| <= k
  {
    if n >= 10 {
      assert Pow10(1) == 10;
      assert n / 10 < Pow10(k - 1);
      DecLength(n / 10, k - 1);
    }
  }

  /** A 64-bit number has at most 20 digits. */
  lemma {:induction false} Dec64Length(n: nat)
    requires n < TWO64
    ensures |Dec(n)| <= 20
  {
    assert Pow10(2) == 100 && Pow10(4) == 10_000 && Pow10(6) == 1_000_000 && Pow10(8) == 100_000_000;
    assert Pow10(10) == 10_000_000_000 && Pow10(12) == 1_000_000_000_000 && Pow10(14) == 100_000_000_000_000;
    assert Pow10(16) == 10_000_000_000_000_000 && Pow10(18) == 1_000_000_000_000_000_000;
    assert Pow10(20) == 100_000_000_000_000_000_000;
    DecLength(n, 20);
  }

  /**
   std::from_chars into an unsigned type, demanded to use the whole text:
   only digits, at least one, and no overflow of `max`.
   */
  function ParseUint(s: bytes, max: nat): Option<nat> {
    if s != [] && AllDigits(s) && Val(s) <= max then Some(Val(s)) else None
  }

  lemma {:induction false} ParseDec(n: nat, max: nat)
    requires n <= max
    ensures ParseUint(Dec(n), max) == Some(n)
  {
    DecDigits(n);
  }

  /** Length of the longest prefix of digits. */
  function DigitRun(s: bytes): (n: nat)
    ensures n <= |s| && AllDigits(s[..n])
    ensures n < |s| ==> !IsDigit(s[n])
  {
    if s == [] || !IsDigit(s[0]) then 0
    else
      var n := 1 + DigitRun(s[1..]);
      assert forall i :: 1 <= i < n ==> s[i] == s[1..][i - 1];
      n
  }

  lemma {:induction false} DigitRunAll(s: bytes, t: bytes)
    requires AllDigits(s) && (t != [] ==> !IsDigit(t[0]))
    ensures DigitRun(s + t) == |s| && (s + t)[..|s|] == s
  {
    assert (s + t)[..|s|] == s;
  }

  /**
   std::from_chars into std::int64_t as Message::get_int uses it: an optional minus sign and the
   longest run of digits; trailing text is ignored, no digits or an out-of-range value is an error.
   */
  function ParseInt64(s: bytes): Option<int> {
    if s != [] && s[0] == MINUS then
      var n := DigitRun(s[1..]);
      if n == 0 || Val(s[1..][..n]) > TWO63 then None else Some(0 - (Val(s[1..][..n]) as int))
    else
      var n := DigitRun(s);
      if n == 0 || Val(s[..n]) >= TWO63 then None else Some(Val(s[..n]))
  }

  lemma {:induction false} ParseInt64Dec(n: nat)
    requires n < TWO63
    ensures ParseInt64(Dec(n)) == Some(n)
  {
    DecDigits(n);
    assert IsDigit(Dec(n)[0]);
    DigitRunAll(Dec(n), []);
    assert Dec(n) + [] == Dec(n);
  }
}
