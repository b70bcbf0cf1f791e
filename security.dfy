/** SecurityUtil: lowercase hex rendering of a password digest, and the string
    comparison that looks at every character whatever it finds. */
module Security {

  /** A Java byte. */
  newtype int8 = x: int | -128 <= x < 128

  /** 0xff & b: the byte read as unsigned. */
  function Unsigned(b: int8): (u: nat)
    ensures u < 256
    ensures u % 256 == (b as int) % 256
  {
    if b < 0 then b as int + 256 else b as int
  }

  /** The lowercase hex digit of a value below 16, as Integer.toHexString writes it. */
  function HexDigit(d: nat): (c: char)
    requires d < 16
    ensures IsHexDigit(c)
  {
    if d < 10 then ('0' as int + d) as char else ('a' as int + d - 10) as char
  }

  /** Integer.toHexString for a value below 256: lowercase, no leading zeros. */
  function ToHexString(n: nat): (hex: string)
    requires n < 256
    ensures |hex| == 1 <==> n < 16
    ensures |hex| == 1 || |hex| == 2
  {
    if n < 16 then [HexDigit(n)] else [HexDigit(n / 16), HexDigit(n % 16)]
  }

  /** The two characters that stand for one byte: its unsigned value in hex,
      zero-padded to width 2. */
  function HexPair(b: int8): string
  {
    [HexDigit(Unsigned(b) / 16), HexDigit(Unsigned(b) % 16)]
  }

  /** The hex rendering of a byte array, two characters per byte. */
  function HexEncode(bytes: seq<int8>): seq<char>
  {
    if bytes == [] then [] else HexEncode(bytes[..|bytes| - 1]) + HexPair(bytes[|bytes| - 1])
  }

  /** Padding toHexString's output to width 2 gives the byte's pair (lines 24-25). */
  lemma PaddedHexIsPair(b: int8)
    ensures (if |ToHexString(Unsigned(b))| == 1 then "0" else "") + ToHexString(Unsigned(b)) == HexPair(b)
  {
  }

  /** bytesToHex (lines 21-29). */
  method BytesToHex(hash: seq<int8>) returns (hexString: string)
    ensures hexString == HexEncode(hash)
  {
    hexString := "";
    for i := 0 to |hash|
      invariant hexString == HexEncode(hash[..i])
    {
      var b := hash[i];
      var hex := ToHexString(Unsigned(b));
      var padding := if |hex| == 1 then "0" else "";
      PaddedHexIsPair(b);
      assert hash[..i + 1][..i] == hash[..i];
      hexString := hexString + padding + hex;
    }
    assert hash[..|hash|] == hash;
  }

  predicate IsHexDigit(c: char)
  {
    '0' <= c <= '9' || 'a' <= c <= 'f'
  }

  function HexValue(c: char): (d: nat)
    requires IsHexDigit(c)
    ensures d < 16 && HexDigit(d) == c
  {
    if '0' <= c <= '9' then c as int - '0' as int else c as int - 'a' as int + 10
  }

  /** The byte two hex digits stand for, two's complement as Java stores it. */
  function PairByte(high: char, low: char): int8
    requires IsHexDigit(high) && IsHexDigit(low)
  {
    var u := HexValue(high) * 16 + HexValue(low);
    (if u >= 128 then u - 256 else u) as int8
  }

  /** Reads pairs of hex digits back as bytes, two's complement as Java stores them. */
  function HexDecode(hex: string): seq<int8>
    requires |hex| % 2 == 0
    requires forall i :: 0 <= i < |hex| ==> IsHexDigit(hex[i])
  {
    if hex == [] then []
    else
      var n := |hex|;
      HexDecode(hex[..n - 2]) + [PairByte(hex[n - 2], hex[n - 1])]
  }

  /** Two characters per byte, all of them lowercase hex digits. */
  lemma {:induction false} HexEncodeShape(bytes: seq<int8>)
    ensures |HexEncode(bytes)| == 2 * |bytes|
    ensures forall i :: 0 <= i < |HexEncode(bytes)| ==> IsHexDigit(HexEncode(bytes)[i])
  {
    if bytes != [] {
      HexEncodeShape(bytes[..|bytes| - 1]);
    }
  }

  lemma PairValue(b: int8)
    ensures PairByte(HexPair(b)[0], HexPair(b)[1]) == b
  {
    var u := Unsigned(b);
    assert HexValue(HexDigit(u / 16)) == u / 16;
    assert HexValue(HexDigit(u % 16)) == u % 16;
  }

  /** Decoding a valid prefix followed by one byte's pair decodes the prefix and
      then that byte. */
  lemma HexDecodeAppendPair(hex: string, b: int8)
    requires |hex| % 2 == 0
    requires forall i :: 0 <= i < |hex| ==> IsHexDigit(hex[i])
    ensures forall i :: 0 <= i < |hex + HexPair(b)| ==> IsHexDigit((hex + HexPair(b))[i])
    ensures HexDecode(hex + HexPair(b)) == HexDecode(hex) + [b]
  {
    var whole := hex + HexPair(b);
    assert whole[..|whole| - 2] == hex;
    assert whole[|whole| - 2] == HexPair(b)[0] && whole[|whole| - 1] == HexPair(b)[1];
    PairValue(b);
  }

  /** Decoding the pairs recovers the bytes. */
  lemma {:induction false} HexDecodeInvertsHexEncode(bytes: seq<int8>)
    ensures |HexEncode(bytes)| % 2 == 0
    ensures forall i :: 0 <= i < |HexEncode(bytes)| ==> IsHexDigit(HexEncode(bytes)[i])
    ensures HexDecode(HexEncode(bytes)) == bytes
  {
    HexEncodeShape(bytes);
    if bytes != [] {
      var init := bytes[..|bytes| - 1];
      HexDecodeInvertsHexEncode(init);
      assert HexEncode(bytes) == HexEncode(init) + HexPair(bytes[|bytes| - 1]);
      HexDecodeAppendPair(HexEncode(init), bytes[|bytes| - 1]);
      assert bytes == init + [bytes[|bytes| - 1]];
    }
  }

  /** Different digests never render to the same hex string. */
  lemma HexEncodeInjective(a: seq<int8>, b: seq<int8>)
    ensures HexEncode(a) == HexEncode(b) ==> a == b
  {
    HexDecodeInvertsHexEncode(a);
    HexDecodeInvertsHexEncode(b);
  }

  /** Bitwise exclusive or of two non-negative ints, bit by bit from the lowest. */
  function Xor(x: nat, y: nat): nat
  {
    if x == 0 && y == 0 then 0 else 2 * Xor(x / 2, y / 2) + (x % 2 + y % 2) % 2
  }

  /** Bitwise inclusive or of two non-negative ints. */
  function Or(x: nat, y: nat): nat
  {
    if x == 0 && y == 0 then 0 else 2 * Or(x / 2, y / 2) + (if x % 2 == 1 || y % 2 == 1 then 1 else 0)
  }

  /** x ^ y is 0 exactly when x and y are the same. */
  lemma {:induction false} XorZero(x: nat, y: nat)
    ensures Xor(x, y) == 0 <==> x == y
  {
    if !(x == 0 && y == 0) {
      XorZero(x / 2, y / 2);
    }
  }

  /** x | y is 0 exactly when both are 0. */
  lemma {:induction false} OrZero(x: nat, y: nat)
    ensures Or(x, y) == 0 <==> x == 0 && y == 0
  {
    if !(x == 0 && y == 0) {
      OrZero(x / 2, y / 2);
    }
  }

  /** slowEquals (lines 32-38): the lengths and every character position up to the
      shorter length are folded into one difference word, which is 0 exactly when
      the strings are equal. Lengths and chars are non-negative, so the 32-bit
      operations agree with Xor and Or on them. */
  method SlowEquals(a: string, b: string) returns (equal: bool)
    ensures equal <==> a == b
  {
    XorZero(|a|, |b|);
    var diff: nat := Xor(|a|, |b|);
    var i := 0;
    while i < |a| && i < |b|
      invariant 0 <= i <= |a| && i <= |b|
      invariant diff == 0 <==> |a| == |b| && forall k :: 0 <= k < i ==> a[k] == b[k]
    {
      var charDiff := Xor(a[i] as int, b[i] as int);
      XorZero(a[i] as int, b[i] as int);
      OrZero(diff, charDiff);
      diff := Or(diff, charDiff);
      i := i + 1;
    }
    equal := diff == 0;
    if equal {
      assert a == b by {
        assert |a| == |b| && i == |a|;
      }
    }
  }

  /** hashPassword (lines 9-18): the hex rendering of the SHA-256 digest of the
      password's bytes. The digest is a parameter of the model. */
  method HashPassword(password: string, sha256: string -> seq<int8>) returns (hash: string)
    ensures hash == HexEncode(sha256(password))
    ensures |hash| == 2 * |sha256(password)|
    ensures forall i :: 0 <= i < |hash| ==> IsHexDigit(hash[i])
  {
    hash := BytesToHex(sha256(password));
    HexEncodeShape(sha256(password));
  }
}
