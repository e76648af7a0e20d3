/**
  The two bcryptjs calls the authentication controller makes: `hash` (to
  provision a PIN) and `compare` (to check one at login).

  bcrypt keys its cipher with the UTF-8 bytes of the PIN and reads at most
  the first 72 of them. The digest is modelled as a deterministic encoding
  of exactly those key bytes. So two PINs match each other's digest when,
  and only when, their first 72 UTF-8 bytes agree (`MatchesIffSameKey`).
 */
module Bcrypt {

  /** bcrypt ignores every key byte after the 72nd. */
  const MaxKeyBytes: nat := 72

  /** Prefix of every digest (bcrypt's version and cost field). */
  const Tag: string := "$2a$10$"

  type Byte = b: int | 0 <= b < 256

  /** The UTF-8 encoding of one character (a Unicode scalar value). */
  function EncodeChar(c: char): (bytes: seq<Byte>)
    ensures 1 <= |bytes| <= 4
  {
    var n := c as int;
    if n < 0x80 then [n]
    else if n < 0x800 then [0xC0 + n / 64, 0x80 + n % 64]
    else if n < 0x1_0000 then [0xE0 + n / 4096, 0x80 + (n / 64) % 64, 0x80 + n % 64]
    else [0xF0 + n / 262144, 0x80 + (n / 4096) % 64, 0x80 + (n / 64) % 64, 0x80 + n % 64]
  }

  /** The length of an encoded character, read from its first byte. */
  function EncodedLength(lead: Byte): nat
  {
    if lead < 0x80 then 1 else if lead < 0xE0 then 2 else if lead < 0xF0 then 3 else 4
  }

  /** The character an encoding stands for, as a code point. */
  function DecodeChar(bytes: seq<Byte>): int
    requires 1 <= |bytes| <= 4
  {
    var b := seq(|bytes|, i requires 0 <= i < |bytes| => bytes[i] as int);
    match |bytes|
    case 1 => b[0]
    case 2 => (b[0] - 0xC0) * 64 + (b[1] - 0x80)
    case 3 => (b[0] - 0xE0) * 4096 + (b[1] - 0x80) * 64 + (b[2] - 0x80)
    case 4 => (b[0] - 0xF0) * 262144 + (b[1] - 0x80) * 4096 + (b[2] - 0x80) * 64 + (b[3] - 0x80)
  }

  lemma EncodeCharDecodes(c: char)
    ensures EncodedLength(EncodeChar(c)[0]) == |EncodeChar(c)|
    ensures DecodeChar(EncodeChar(c)) == c as int
  {
    var n := c as int;
    assert n == (n / 64) * 64 + n % 64;
    assert n / 64 == (n / 4096) * 64 + (n / 64) % 64;
    assert n / 4096 == (n / 262144) * 64 + (n / 4096) % 64;
  }

  /** The UTF-8 encoding of a string. */
  function Utf8(s: string): (bytes: seq<Byte>)
    decreases |s|
  {
    if s == [] then [] else EncodeChar(s[0]) + Utf8(s[1..])
  }

  lemma {:induction false} Utf8Length(s: string)
    ensures |s| <= |Utf8(s)| <= 4 * |s|
    decreases |s|
  {
    if s != [] {
      Utf8Length(s[1..]);
    }
  }

  lemma {:induction false} Utf8Append(s: string, t: string)
    ensures Utf8(s + t) == Utf8(s) + Utf8(t)
    decreases |s|
  {
    if s == [] {
      assert s + t == t;
    } else {
      assert (s + t)[0] == s[0];
      assert (s + t)[1..] == s[1..] + t;
      Utf8Append(s[1..], t);
    }
  }

  /** Different strings have different encodings. */
  lemma {:induction false} Utf8Injective(s: string, t: string)
    requires Utf8(s) == Utf8(t)
    ensures s == t
    decreases |s|
  {
    if s != [] && t != [] {
      var a, b := EncodeChar(s[0]), EncodeChar(t[0]);
      EncodeCharDecodes(s[0]);
      EncodeCharDecodes(t[0]);
      assert a[0] == Utf8(s)[0] == Utf8(t)[0] == b[0];
      assert |a| == |b|;
      assert a == Utf8(s)[..|a|] == Utf8(t)[..|b|] == b;
      assert s[0] == t[0];
      assert Utf8(s)[|a|..] == Utf8(s[1..]);
      assert Utf8(t)[|b|..] == Utf8(t[1..]);
      Utf8Injective(s[1..], t[1..]);
    }
  }

  /** The bytes of `pin` that bcrypt actually uses. */
  function Key(pin: string): (k: seq<Byte>)
    ensures |k| <= MaxKeyBytes
    ensures |Utf8(pin)| <= MaxKeyBytes ==> k == Utf8(pin)
    ensures |Utf8(pin)| > MaxKeyBytes ==> |k| == MaxKeyBytes
    ensures k <= Utf8(pin)
  {
    var bytes := Utf8(pin);
    if |bytes| <= MaxKeyBytes then bytes else bytes[..MaxKeyBytes]
  }

  function ByteChars(k: seq<Byte>): (s: string)
    ensures |s| == |k|
    ensures forall i :: 0 <= i < |k| ==> s[i] as int == k[i]
  {
    if k == [] then [] else [k[0] as char] + ByteChars(k[1..])
  }

  /** The stored digest of `pin`. */
  function Hash(pin: string): (h: string)
    ensures h != ""
  {
    Tag + ByteChars(Key(pin))
  }

  /** `bcrypt.compare(pin, hashed)`. */
  predicate Matches(pin: string, hashed: string)
  {
    hashed == Hash(pin)
  }

  /** A PIN is accepted against its own digest. */
  lemma HashMatches(pin: string)
    ensures Matches(pin, Hash(pin))
  {
  }

  /** A PIN is accepted against another PIN's digest exactly when their first 72 bytes agree. */
  lemma MatchesIffSameKey(pin: string, other: string)
    ensures Matches(other, Hash(pin)) <==> Key(other) == Key(pin)
  {
    if Matches(other, Hash(pin)) {
      var k, l := Key(pin), Key(other);
      assert ByteChars(k) == Hash(pin)[|Tag|..] == Hash(other)[|Tag|..] == ByteChars(l);
      assert forall i :: 0 <= i < |k| ==> k[i] == ByteChars(k)[i] as int == l[i];
    }
  }

  /** Of two different PINs that fit in 72 bytes, neither matches the other's digest. */
  lemma HashRejectsOther(pin: string, other: string)
    requires other != pin
    requires |Utf8(pin)| <= MaxKeyBytes && |Utf8(other)| <= MaxKeyBytes
    ensures !Matches(other, Hash(pin))
  {
    MatchesIffSameKey(pin, other);
    if Key(other) == Key(pin) {
      Utf8Injective(other, pin);
    }
  }

  /** A PIN of at most 18 characters always fits in bcrypt's 72 key bytes. */
  lemma ShortPinFits(pin: string)
    requires |pin| <= MaxKeyBytes / 4
    ensures |Utf8(pin)| <= MaxKeyBytes
  {
    Utf8Length(pin);
  }

  /**
    Past 72 bytes nothing counts: two PINs that share a prefix of 72 or more
    bytes match each other's digest whatever follows.
   */
  lemma LongPinsCollide(prefix: string, tail: string, otherTail: string)
    requires |Utf8(prefix)| >= MaxKeyBytes
    ensures Matches(prefix + otherTail, Hash(prefix + tail))
  {
    Utf8Append(prefix, tail);
    Utf8Append(prefix, otherTail);
    assert Key(prefix + tail) == Utf8(prefix)[..MaxKeyBytes];
    assert Key(prefix + otherTail) == Utf8(prefix)[..MaxKeyBytes];
    MatchesIffSameKey(prefix + tail, prefix + otherTail);
  }
}
