/**
 Password hashing and checking (lib/auth.ts). `hashPassword` renders the
 SHA-256 digest of the UTF-8 encoded password as lowercase base16, section 8
 of RFC 4648, one byte at a time through `toString(16)` and `padStart(2, "0")`.
 The digest itself (`crypto.subtle.digest` over `TextEncoder` output) is a
 parameter of the model.
 */
module Auth {
  import opened Common

  newtype byte = x: int | 0 <= x < 256

  /** SHA-256 of the UTF-8 encoding of a password; SHA-256 yields 32 bytes. */
  type Digester = string -> seq<byte>

  const DIGEST_LENGTH: nat := 32

  /** A lowercase hexadecimal digit, as `toString(16)` writes them. */
  predicate IsHexDigit(c: char)
  {
    '0' <= c <= '9' || 'a' <= c <= 'f'
  }

  /** The digit `toString(16)` writes for a value below 16. */
  function HexDigit(d: nat): (c: char)
    requires d < 16
    ensures IsHexDigit(c)
  {
    if d < 10 then ('0' as int + d) as char else ('a' as int + d - 10) as char
  }

  /** The value of a lowercase hexadecimal digit. */
  function HexValue(c: char): (r: Option<nat>)
    ensures r.Some? <==> IsHexDigit(c)
    ensures r.Some? ==> r.value < 16 && HexDigit(r.value) == c
  {
    if '0' <= c <= '9' then Some(c as int - '0' as int)
    else if 'a' <= c <= 'f' then Some(c as int - 'a' as int + 10)
    else None
  }

  lemma HexValueOfDigit(d: nat)
    requires d < 16
    ensures HexValue(HexDigit(d)) == Some(d)
  {
  }

  /** `n.toString(16)`: lowercase hexadecimal digits without leading zeros. */
  function ToHexString(n: nat): (s: string)
    decreases n
    ensures s != []
  {
    if n < 16 then [HexDigit(n)] else ToHexString(n / 16) + [HexDigit(n % 16)]
  }

  /** `s.padStart(width, fill)` for a one-character fill. */
  function PadStart(s: string, width: nat, fill: char): (r: string)
    ensures |r| == if |s| >= width then |s| else width
    ensures s <= r || r[|r| - |s|..] == s
  {
    if |s| >= width then s else seq(width - |s|, _ => fill) + s
  }

  /** `b.toString(16)` has one digit below 16 and two from 16 on. */
  lemma ByteToHexString(b: byte)
    ensures b < 16 ==> ToHexString(b as nat) == [HexDigit(b as nat)]
    ensures b >= 16 ==> ToHexString(b as nat) == [HexDigit(b as nat / 16), HexDigit(b as nat % 16)]
  {
    if b >= 16 {
      assert ToHexString(b as nat / 16) == [HexDigit(b as nat / 16)];
    }
  }

  /** `b.toString(16).padStart(2, "0")`: exactly two lowercase digits, high
      nibble first, with a leading zero below 16. */
  function ByteHex(b: byte): (s: string)
    ensures s == [HexDigit(b as nat / 16), HexDigit(b as nat % 16)]
  {
    ByteToHexString(b);
    assert HexDigit(0) == '0';
    PadStart(ToHexString(b as nat), 2, '0')
  }

  /** `bytes.map(ByteHex).join("")`. */
  function Hex(bytes: seq<byte>): (s: string)
    ensures |s| == 2 * |bytes|
  {
    if bytes == [] then [] else ByteHex(bytes[0]) + Hex(bytes[1..])
  }

  /** Byte `k` of the input is rendered at positions `2k` and `2k + 1`. */
  lemma HexAt(bytes: seq<byte>, k: nat)
    requires k < |bytes|
    ensures Hex(bytes)[2 * k] == HexDigit(bytes[k] as nat / 16)
    ensures Hex(bytes)[2 * k + 1] == HexDigit(bytes[k] as nat % 16)
  {
    HexPairAt(bytes, k);
  }

  /** The two characters at `2k` and `2k + 1` are `ByteHex` of byte `k`. */
  lemma {:induction false} HexPairAt(bytes: seq<byte>, k: nat)
    requires k < |bytes|
    ensures Hex(bytes)[2 * k] == ByteHex(bytes[k])[0]
    ensures Hex(bytes)[2 * k + 1] == ByteHex(bytes[k])[1]
  {
    var b, t := ByteHex(bytes[0]), Hex(bytes[1..]);
    assert Hex(bytes) == b + t;
    if k == 0 {
      assert (b + t)[0] == b[0] && (b + t)[1] == b[1];
    } else {
      HexPairAt(bytes[1..], k - 1);
      assert (b + t)[2 * k] == t[2 * (k - 1)] && (b + t)[2 * k + 1] == t[2 * (k - 1) + 1];
      assert bytes[1..][k - 1] == bytes[k];
    }
  }

  /** Every character of a rendering is a lowercase hexadecimal digit. */
  lemma HexIsLowercaseBase16(bytes: seq<byte>)
    ensures forall k :: 0 <= k < |Hex(bytes)| ==> IsHexDigit(Hex(bytes)[k])
  {
    var s := Hex(bytes);
    forall k | 0 <= k < |s| ensures IsHexDigit(s[k]) {
      HexAt(bytes, k / 2);
      assert k == 2 * (k / 2) || k == 2 * (k / 2) + 1;
    }
  }

  function ByteOf(hi: nat, lo: nat): (b: byte)
    requires hi < 16 && lo < 16
    ensures b as nat / 16 == hi && b as nat % 16 == lo
  {
    (16 * hi + lo) as byte
  }

  /** Decoding of lowercase base16: the partner of `Hex`. */
  function Unhex(s: string): (r: Option<seq<byte>>)
    decreases |s|
    ensures r.Some? ==> |s| == 2 * |r.value|
  {
    if s == [] then Some([])
    else if |s| == 1 || HexValue(s[0]).None? || HexValue(s[1]).None? then None
    else match Unhex(s[2..])
      case None => None
      case Some(rest) => Some([ByteOf(HexValue(s[0]).value, HexValue(s[1]).value)] + rest)
  }

  /** Decoding a rendering gives back the bytes. */
  lemma {:induction false} UnhexHex(bytes: seq<byte>)
    ensures Unhex(Hex(bytes)) == Some(bytes)
  {
    if bytes != [] {
      var b := bytes[0] as nat;
      var s := Hex(bytes);
      assert s == ByteHex(bytes[0]) + Hex(bytes[1..]);
      assert s[0] == HexDigit(b / 16) && s[1] == HexDigit(b % 16);
      HexValueOfDigit(b / 16);
      HexValueOfDigit(b % 16);
      assert s[2..] == Hex(bytes[1..]);
      UnhexHex(bytes[1..]);
      assert ByteOf(b / 16, b % 16) == bytes[0];
      assert [bytes[0]] + bytes[1..] == bytes;
    }
  }

  /** A string that decodes is the rendering of what it decodes to: only
      lowercase base16 is accepted. */
  lemma {:induction false} HexUnhex(s: string)
    decreases |s|
    requires Unhex(s).Some?
    ensures Hex(Unhex(s).value) == s
  {
    if s != [] {
      HexUnhex(s[2..]);
      var hi := HexValue(s[0]).value;
      var lo := HexValue(s[1]).value;
      var bytes := Unhex(s).value;
      assert bytes[0] == ByteOf(hi, lo);
      assert bytes[1..] == Unhex(s[2..]).value;
      assert ByteHex(bytes[0]) == [HexDigit(hi), HexDigit(lo)] == [s[0], s[1]];
      assert Hex(bytes) == ByteHex(bytes[0]) + Hex(bytes[1..]);
      assert s == [s[0], s[1]] + s[2..];
    }
  }

  /** Distinct digests give distinct strings. */
  lemma HexInjective(a: seq<byte>, b: seq<byte>)
    requires Hex(a) == Hex(b)
    ensures a == b
  {
    UnhexHex(a);
    UnhexHex(b);
  }

  /** `hashPassword`: the base16 rendering of the password's digest. */
  function HashPassword(digest: Digester, password: string): (hash: string)
    ensures |hash| == 2 * |digest(password)|
    ensures Unhex(hash) == Some(digest(password))
  {
    UnhexHex(digest(password));
    Hex(digest(password))
  }

  /** With a SHA-256 digest the stored hash is 64 characters long. */
  lemma HashLength(digest: Digester, password: string)
    requires |digest(password)| == DIGEST_LENGTH
    ensures |HashPassword(digest, password)| == 64
  {
  }

  /** `verifyPassword`: the password's hash equals the stored hash. */
  function VerifyPassword(digest: Digester, password: string, hashedPassword: string): (ok: bool)
    ensures ok ==> Unhex(hashedPassword) == Some(digest(password))
  {
    HashPassword(digest, password) == hashedPassword
  }

  /** A stored hash is accepted exactly when it is the lowercase rendering of
      the password's digest; in particular every password verifies against
      its own hash, and two passwords with different digests never share
      one. */
  lemma VerifyPasswordIff(digest: Digester, password: string, hashedPassword: string)
    ensures VerifyPassword(digest, password, hashedPassword) <==> Unhex(hashedPassword) == Some(digest(password))
    ensures VerifyPassword(digest, password, HashPassword(digest, password))
  {
    if Unhex(hashedPassword) == Some(digest(password)) {
      HexUnhex(hashedPassword);
    }
  }

  /** `checkAdminPassword`: strict equality with `ADMIN_PASSWORD`, which may
      be unset, in which case no string matches. */
  function CheckAdminPassword(adminPassword: Option<string>, password: string): (ok: bool)
    ensures ok <==> adminPassword.Some? && adminPassword.value == password
  {
    match adminPassword
    case None => false
    case Some(expected) => password == expected
  }
}
