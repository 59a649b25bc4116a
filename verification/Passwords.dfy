/** Stored passwords (server/storage/storage.go): written as scheme$iterations$salt$digest, read back and checked. */
module Passwords {
  import opened Decimals
  import opened GoStrings
  import opened Octets
  import opened Pbkdf2

  const SCHEME := "pbkdf2_sha256"
  const ITERATIONS := 260000

  // ----- Hexadecimal -----

  function HexDigit(d: nat): char
    requires d < 16
  {
    if d < 10 then ('0' as int + d) as char else ('a' as int + d - 10) as char
  }

  function HexValue(c: char): (v: Option<nat>)
    ensures v.Some? ==> v.value < 16
  {
    if '0' <= c <= '9' then Some(c as int - '0' as int)
    else if 'a' <= c <= 'f' then Some(c as int - 'a' as int + 10)
    else if 'A' <= c <= 'F' then Some(c as int - 'A' as int + 10)
    else None
  }

  function HexEncode(b: Bytes): string {
    if b == [] then [] else [HexDigit(b[0] as int / 16), HexDigit(b[0] as int % 16)] + HexEncode(b[1..])
  }

  /** `hex.DecodeString`: an odd length or a character that is no hex digit is an error. */
  function HexDecode(s: string): (r: Option<Bytes>)
  {
    if s == [] then Some([])
    else if |s| == 1 then None
    else
      match (HexValue(s[0]), HexValue(s[1]), HexDecode(s[2..]))
      case (Some(hi), Some(lo), Some(rest)) => Some([(16 * hi + lo) as Byte] + rest)
      case _ => None
  }

  lemma {:induction false} HexRoundTrip(b: Bytes)
    ensures HexDecode(HexEncode(b)) == Some(b)
  {
    if b == [] {
    } else {
      HexRoundTrip(b[1..]);
      var s := HexEncode(b);
      assert s[2..] == HexEncode(b[1..]);
      HexDigitValue(b[0] as int / 16);
      HexDigitValue(b[0] as int % 16);
      assert [b[0]] + b[1..] == b;
    }
  }

  lemma HexDigitValue(d: nat)
    requires d < 16
    ensures HexValue(HexDigit(d)) == Some(d)
  {
  }

  lemma {:induction false} HexHasNoDollar(b: Bytes)
    ensures '$' !in HexEncode(b)
  {
    if b == [] {
    } else {
      HexHasNoDollar(b[1..]);
    }
  }

  /** Hexadecimal text is written in small letters, two for each octet. */
  lemma {:induction false} HexIsSmall(b: Bytes)
    ensures |HexEncode(b)| == 2 * |b| && forall c :: c in HexEncode(b) ==> '0' <= c <= '9' || 'a' <= c <= 'f'
  {
    if b == [] {
      assert HexEncode(b) == [];
    } else {
      HexIsSmall(b[1..]);
    }
  }

  // ----- The stored form -----

  ghost function Key(prf: PrfFunction, password: Bytes, salt: Bytes, iterations: int, keyLen: nat): Bytes
    requires IsPrf(prf)
  {
    DerivedKey(prf, password, salt, Iterations(iterations), keyLen)
  }

  function Stored(iterations: int, salt: Bytes, digest: Bytes): string {
    SCHEME + ['$'] + (Itoa(iterations) + ['$'] + (HexEncode(salt) + ['$'] + HexEncode(digest)))
  }

  ghost function Hashed(prf: PrfFunction, password: Bytes, salt: Bytes): string
    requires IsPrf(prf)
  {
    Stored(ITERATIONS, salt, Key(prf, password, salt, ITERATIONS, 32))
  }

  /** Whether a password passes: against a stored hash, or literally against anything else. */
  ghost predicate Verifies(prf: PrfFunction, password: Bytes, stored: string)
    requires IsPrf(prf)
  {
    var parts := Split(stored, '$');
    if |parts| != 4 || parts[0] != SCHEME then Ascii(stored) == password
    else
      var (iterations, ok) := Atoi(parts[1]);
      var salt, expected := HexDecode(parts[2]), HexDecode(parts[3]);
      ok && salt.Some? && expected.Some? && Key(prf, password, salt.value, iterations, |expected.value|) == expected.value
  }

  method HashPassword(prf: PrfFunction, password: Bytes, salt: Bytes) returns (stored: string)
    requires IsPrf(prf)
    ensures stored == Hashed(prf, password, salt)
  {
    var digest := Derive(prf, password, salt, ITERATIONS, 32);
    stored := Stored(ITERATIONS, salt, digest);
  }

  method VerifyPassword(prf: PrfFunction, password: Bytes, stored: string) returns (ok: bool)
    requires IsPrf(prf)
    ensures ok <==> Verifies(prf, password, stored)
  {
    var parts := Split(stored, '$');
    if |parts| != 4 || parts[0] != SCHEME {
      return Ascii(stored) == password;
    }
    var atoi := Atoi(parts[1]);
    if !atoi.1 {
      return false;
    }
    var salt := HexDecode(parts[2]);
    if salt.None? {
      return false;
    }
    var expected := HexDecode(parts[3]);
    if expected.None? {
      return false;
    }
    var digest := Derive(prf, password, salt.value, atoi.0, |expected.value|);
    return digest == expected.value;
  }

  // ----- Reading back what was written -----

  lemma StoredParts(iterations: nat, salt: Bytes, digest: Bytes)
    ensures Split(Stored(iterations, salt, digest), '$') == [SCHEME, Itoa(iterations), HexEncode(salt), HexEncode(digest)]
  {
    hide Digits, HexEncode;
    HexHasNoDollar(salt);
    HexHasNoDollar(digest);
    assert '$' !in SCHEME;
    assert '$' !in Itoa(iterations);
    var last := HexEncode(salt) + ['$'] + HexEncode(digest);
    SplitAtFirst(SCHEME, '$', Itoa(iterations) + ['$'] + last);
    SplitAtFirst(Itoa(iterations), '$', last);
    SplitAtFirst(HexEncode(salt), '$', HexEncode(digest));
    SplitNone(HexEncode(digest), '$');
  }

  /** Against a stored digest of any count, salt and length, a password passes exactly when it derives that digest. */
  lemma VerifiesStoredIff(prf: PrfFunction, password: Bytes, iterations: nat, salt: Bytes, digest: Bytes)
    requires IsPrf(prf) && 1 <= iterations <= MAX_INT64
    ensures Verifies(prf, password, Stored(iterations, salt, digest)) <==>
            DerivedKey(prf, password, salt, iterations, |digest|) == digest
  {
    hide Split, HexDecode, HexEncode, Atoi, Itoa, DerivedKey;
    StoredParts(iterations, salt, digest);
    AtoiOfItoa(iterations);
    HexRoundTrip(salt);
    HexRoundTrip(digest);
  }

  /** A password passes against a stored hash exactly when it derives the same key. */
  lemma VerifiesHashedIff(prf: PrfFunction, password: Bytes, other: Bytes, salt: Bytes)
    requires IsPrf(prf)
    ensures Verifies(prf, other, Hashed(prf, password, salt)) <==>
            DerivedKey(prf, other, salt, 260_000, 32) == DerivedKey(prf, password, salt, 260_000, 32)
  {
    hide Verifies, Stored, DerivedKey;
    VerifiesStoredIff(prf, other, ITERATIONS, salt, DerivedKey(prf, password, salt, ITERATIONS, 32));
  }

  /** The password is the stored text, octet by octet. */
  predicate SameOctets(password: Bytes, stored: string) {
    |stored| == |password| && forall i :: 0 <= i < |stored| ==> stored[i] as int % 0x100 == password[i] as int
  }

  lemma AsciiIsSameOctets(password: Bytes, stored: string)
    ensures Ascii(stored) == password <==> SameOctets(password, stored)
  {
    hide Ascii;
    if SameOctets(password, stored) {
      forall i | 0 <= i < |stored| ensures Ascii(stored)[i] == password[i] {
        assert Ascii(stored)[i] as int == password[i] as int;
      }
    }
  }

  /** Against a text that is not four parts led by the scheme, a password passes exactly when it is that text. */
  lemma PlainTextVerifiesIff(prf: PrfFunction, password: Bytes, stored: string)
    requires IsPrf(prf) && !(|Split(stored, '$')| == 4 && Split(stored, '$')[0] == "pbkdf2_sha256")
    ensures Verifies(prf, password, stored) <==> SameOctets(password, stored)
  {
    AsciiIsSameOctets(password, stored);
  }

  /** A text without a dollar sign is such a text. */
  lemma UndividedVerifiesIff(prf: PrfFunction, password: Bytes, stored: string)
    requires IsPrf(prf) && '$' !in stored
    ensures Verifies(prf, password, stored) <==> SameOctets(password, stored)
  {
    hide Verifies;
    SplitNone(stored, '$');
    PlainTextVerifiesIff(prf, password, stored);
  }

  /** Four parts led by the scheme that were not printed from a number and two octet strings let nobody in. */
  lemma MalformedHashNeverVerifies(prf: PrfFunction, password: Bytes, stored: string)
    requires IsPrf(prf) && |Split(stored, '$')| == 4 && Split(stored, '$')[0] == "pbkdf2_sha256"
    requires var parts := Split(stored, '$');
      || !Atoi(parts[1]).1
      || !IsHex(parts[2])
      || !IsHex(parts[3])
    ensures !Verifies(prf, password, stored)
  {
    HexDecodesIff(Split(stored, '$')[2]);
    HexDecodesIff(Split(stored, '$')[3]);
  }

  /** An even number of hexadecimal digits. */
  predicate IsHex(s: string) {
    |s| % 2 == 0 && forall i :: 0 <= i < |s| ==> '0' <= s[i] <= '9' || 'a' <= s[i] <= 'f' || 'A' <= s[i] <= 'F'
  }

  lemma {:induction false} HexDecodesIff(s: string)
    ensures HexDecode(s).Some? <==> IsHex(s)
  {
    if |s| < 2 {
    } else {
      HexDecodesIff(s[2..]);
      assert forall i :: 2 <= i < |s| ==> s[i] == s[2..][i - 2];
    }
  }

  /** Every password passes against its own hash, whatever the salt. */
  lemma OwnHashVerifies(prf: PrfFunction, password: Bytes, salt: Bytes)
    requires IsPrf(prf)
    ensures Verifies(prf, password, Hashed(prf, password, salt))
  {
    VerifiesHashedIff(prf, password, password, salt);
  }

  // ----- Logging in -----

  predicate HasScheme(stored: string) {
    SCHEME + "$" <= stored
  }

  class Accounts {
    var passwords: map<string, string>

    /** A password stored in clear text is replaced by its hash when it is first used. */
    method ValidateAccount(prf: PrfFunction, nuid: string, password: Bytes, salt: Bytes) returns (ok: bool)
      requires IsPrf(prf)
      modifies this
      ensures ok <==> nuid in old(passwords) && Verifies(prf, password, old(passwords)[nuid])
      ensures passwords == if ok && !HasScheme(old(passwords)[nuid])
                           then old(passwords)[nuid := Hashed(prf, password, salt)] else old(passwords)
      ensures ok ==> nuid in passwords && Verifies(prf, password, passwords[nuid]) && HasScheme(passwords[nuid])
      ensures nuid in old(passwords) && '$' !in old(passwords)[nuid] ==> (ok <==> SameOctets(password, old(passwords)[nuid]))
    {
      hide Verifies;
      if nuid !in passwords {
        return false;
      }
      if '$' !in passwords[nuid] {
        UndividedVerifiesIff(prf, password, passwords[nuid]);
      }
      ok := VerifyPassword(prf, password, passwords[nuid]);
      if ok && !(SCHEME + "$" <= passwords[nuid]) {
        var stored := HashPassword(prf, password, salt);
        passwords := passwords[nuid := stored];
        OwnHashVerifies(prf, password, salt);
        assert SCHEME + "$" == SCHEME + ['$'];
      }
    }
  }
}
