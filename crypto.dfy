/**
 * `Crypto.GenerateRandomString`: draw `(length + 1) / 2` random bytes,
 * hex-encode them (two upper-case digits per byte) and drop the last digit
 * when `length` is odd. The random generator is replaced by the bytes it
 * returns, passed in as `random`.
 */
module Crypto {
  import opened Wrappers
  import opened Int32

  newtype byte = x: int | 0 <= x < 256

  /** The exception `RandomNumberGenerator.GetBytes` throws for a negative count. */
  datatype CryptoError = ArgumentOutOfRange

  /** The length used when the caller gives none. */
  const DefaultLength: int32 := 64

  predicate IsUpperHexDigit(ch: char) {
    '0' <= ch <= '9' || 'A' <= ch <= 'F'
  }

  /** The digit for a nibble: `0`-`9`, then `A`-`F`. */
  function HexDigit(n: int): (ch: char)
    requires 0 <= n < 16
    ensures IsUpperHexDigit(ch)
  {
    if n < 10 then ('0' as int + n) as char else ('A' as int + n - 10) as char
  }

  function HexValue(ch: char): (n: int)
    requires IsUpperHexDigit(ch)
    ensures 0 <= n < 16 && HexDigit(n) == ch
  {
    if ch <= '9' then ch as int - '0' as int else ch as int - 'A' as int + 10
  }

  /** `Convert.ToHexString`: each byte as two upper-case hex digits. */
  function ToHexString(bytes: seq<byte>): (s: string)
    ensures |s| == 2 * |bytes|
    ensures forall i :: 0 <= i < |s| ==> IsUpperHexDigit(s[i])
  {
    if bytes == [] then []
    else [HexDigit(bytes[0] as int / 16), HexDigit(bytes[0] as int % 16)] + ToHexString(bytes[1..])
  }

  /** Reads a string of hex-digit pairs back into bytes. */
  function FromHexString(s: string): Option<seq<byte>>
    decreases |s|
  {
    if s == [] then Some([])
    else if |s| >= 2 && IsUpperHexDigit(s[0]) && IsUpperHexDigit(s[1]) then
      match FromHexString(s[2..])
      case None => None
      case Some(rest) => Some([(HexValue(s[0]) * 16 + HexValue(s[1])) as byte] + rest)
    else None
  }

  /** Digit pair `i` encodes byte `i`, high nibble first. */
  lemma {:induction false} ToHexStringAt(bytes: seq<byte>, i: nat)
    requires i < |bytes|
    ensures ToHexString(bytes)[2 * i] == HexDigit(bytes[i] as int / 16)
    ensures ToHexString(bytes)[2 * i + 1] == HexDigit(bytes[i] as int % 16)
  {
    if i > 0 {
      ToHexStringAt(bytes[1..], i - 1);
    }
  }

  /** Hex encoding loses nothing. */
  lemma {:induction false} HexRoundTrip(bytes: seq<byte>)
    ensures FromHexString(ToHexString(bytes)) == Some(bytes)
  {
    if bytes != [] {
      var s := ToHexString(bytes);
      assert s[2..] == ToHexString(bytes[1..]);
      HexRoundTrip(bytes[1..]);
      var b := bytes[0] as int;
      assert HexValue(s[0]) == b / 16 && HexValue(s[1]) == b % 16;
      assert (b / 16) * 16 + b % 16 == b;
      assert [bytes[0]] + bytes[1..] == bytes;
    }
  }

  /** `(length + 1) / 2` in C#'s 32-bit arithmetic: the sum wraps, the quotient truncates. */
  function RandomByteCount(length: int32): (count: int)
    ensures length as int < MaxInt32 && length as int + 1 >= 0 ==> 0 <= length as int + 1 - 2 * count < 2
    ensures length as int + 1 < 0 ==> -2 < length as int + 1 - 2 * count <= 0
    ensures length as int == MaxInt32 ==> count == MinInt32 / 2
  {
    DivTrunc(Wrap(length as int + 1) as int, 2)
  }

  /** `GenerateRandomString(length)` given the bytes the generator returns for the count asked. */
  function GenerateRandomString(length: int32, random: seq<byte>): (r: Result<string, CryptoError>)
    requires RandomByteCount(length) >= 0 ==> |random| == RandomByteCount(length)
    ensures r.Success? ==> forall i :: 0 <= i < |r.value| ==> IsUpperHexDigit(r.value[i])
  {
    if RandomByteCount(length) < 0 then Failure(ArgumentOutOfRange)
    else
      var hex := ToHexString(random);
      if RemTrunc(length as int, 2) == 1 then Success(hex[..|hex| - 1]) else Success(hex)
  }

  /** Any length from 0 below `int.MaxValue` yields exactly that many characters, from `(length + 1) / 2` bytes. */
  lemma GeneratedLength(length: int32, random: seq<byte>)
    requires 0 <= length as int < MaxInt32
    requires |random| == (length as int + 1) / 2
    ensures RandomByteCount(length) == |random|
    ensures GenerateRandomString(length, random).Success?
    ensures |GenerateRandomString(length, random).value| == length as int
  {
  }

  /** Even lengths give the whole encoding; odd lengths give it without its last digit. */
  lemma GeneratedContents(length: int32, random: seq<byte>)
    requires 0 <= length as int < MaxInt32
    requires |random| == (length as int + 1) / 2
    ensures length as int % 2 == 0 ==> GenerateRandomString(length, random) == Success(ToHexString(random))
    ensures length as int % 2 == 1 ==>
      GenerateRandomString(length, random) == Success(ToHexString(random)[..2 * |random| - 1])
  {
  }

  /** Lengths -1 and -2 ask for no bytes and give the empty string. */
  lemma SmallNegativeLengthIsEmpty(length: int32)
    requires -2 <= length as int < 0
    ensures GenerateRandomString(length, []) == Success([])
  {
  }

  /** The call throws exactly for lengths below -2 and for `int.MaxValue`, where `length + 1` wraps. */
  lemma GenerateRandomStringThrows(length: int32, random: seq<byte>)
    requires RandomByteCount(length) >= 0 ==> |random| == RandomByteCount(length)
    ensures GenerateRandomString(length, random).Failure? <==> length as int < -2 || length as int == MaxInt32
  {
  }

  /** The default draws 32 bytes and yields 64 digits. */
  lemma DefaultLengthUses32Bytes(random: seq<byte>)
    requires |random| == 32
    ensures RandomByteCount(DefaultLength) == 32
    ensures GenerateRandomString(DefaultLength, random) == Success(ToHexString(random))
    ensures |ToHexString(random)| == 64
  {
  }
}
