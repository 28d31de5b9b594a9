/** An idealised model of the salted one-way password hash (bcrypt with
    cost 10, `$2a$` digests) and of its comparison. A digest is a symbolic
    term that remembers what was hashed and with which salt. As in bcrypt,
    what is hashed is the password's key: its UTF-8 encoding followed by a
    zero byte, read cyclically for 72 bytes. So comparison succeeds exactly
    for the candidates with the same key as the hashed plaintext; apart from
    that the digest is the collision-free ideal the real hash approximates.
    The salt (random in bcrypt) is a parameter. */
module PasswordHash {

  /** The value of a user's `password` field: plaintext as assigned, or a
      digest as written by the pre-save hook. */
  datatype Password = Clear(text: string) | Digest(of: Password, salt: nat)

  /** JavaScript falsiness of the field: the empty string. */
  predicate IsEmpty(p: Password) {
    p == Clear("")
  }

  /** How many bytes a UTF-8 sequence has, read from its first byte. */
  function LeadLength(b: int): nat {
    if b < 0x80 then 1 else if b < 0xE0 then 2 else if b < 0xF0 then 3 else 4
  }

  /** The UTF-8 encoding of one character, as byte values. */
  function EncodeChar(c: char): (bytes: seq<int>)
    ensures 1 <= |bytes| <= 4 && |bytes| == LeadLength(bytes[0])
    ensures forall i :: 0 <= i < |bytes| ==> 0 <= bytes[i] < 256
  {
    var n := c as int;
    var q1, r0 := n / 64, n % 64;
    var q2, r1 := q1 / 64, q1 % 64;
    var q3, r2 := q2 / 64, q2 % 64;
    if n < 0x80 then [n]
    else if n < 0x800 then [0xC0 + q1, 0x80 + r0]
    else if n < 0x10000 then [0xE0 + q2, 0x80 + r1, 0x80 + r0]
    else [0xF0 + q3, 0x80 + r2, 0x80 + r1, 0x80 + r0]
  }

  /** Only the NUL character encodes to a zero byte. */
  lemma EncodeCharZero(c: char)
    ensures 0 in EncodeChar(c) <==> c == '\0'
  {
  }

  /** Different characters have different encodings. */
  lemma EncodeCharInjective(a: char, b: char)
    requires EncodeChar(a) == EncodeChar(b)
    ensures a == b
  {
  }

  /** The UTF-8 encoding of a string: one to four bytes per character. */
  function Utf8(s: string): (bytes: seq<int>)
    ensures |s| <= |bytes| <= 4 * |s|
    ensures forall i :: 0 <= i < |bytes| ==> 0 <= bytes[i] < 256
  {
    if s == [] then [] else EncodeChar(s[0]) + Utf8(s[1..])
  }

  /** The encoding holds a zero byte exactly when the string holds NUL. */
  lemma {:induction false} Utf8ZeroIffNul(s: string)
    ensures 0 in Utf8(s) <==> '\0' in s
  {
    if s != [] {
      EncodeCharZero(s[0]);
      Utf8ZeroIffNul(s[1..]);
      assert s == [s[0]] + s[1..];
    }
  }

  lemma {:induction false} Utf8Concat(s: string, t: string)
    ensures Utf8(s + t) == Utf8(s) + Utf8(t)
  {
    if s != [] {
      assert (s + t)[0] == s[0] && (s + t)[1..] == s[1..] + t;
      calc {
        Utf8(s + t);
        EncodeChar(s[0]) + Utf8(s[1..] + t);
        { Utf8Concat(s[1..], t); }
        EncodeChar(s[0]) + (Utf8(s[1..]) + Utf8(t));
        (EncodeChar(s[0]) + Utf8(s[1..])) + Utf8(t);
      }
    } else {
      assert s + t == t;
    }
  }

  /** The encoding is injective: a string can be read back from its bytes. */
  lemma {:induction false} Utf8Injective(a: string, b: string)
    requires Utf8(a) == Utf8(b)
    ensures a == b
  {
    if a != [] && b != [] {
      var ea, eb := EncodeChar(a[0]), EncodeChar(b[0]);
      assert Utf8(a) == ea + Utf8(a[1..]) && Utf8(b) == eb + Utf8(b[1..]);
      assert ea[0] == Utf8(a)[0] == eb[0];
      assert ea == Utf8(a)[..|ea|] == eb;
      EncodeCharInjective(a[0], b[0]);
      assert Utf8(a[1..]) == Utf8(a)[|ea|..] == Utf8(b[1..]);
      Utf8Injective(a[1..], b[1..]);
      assert a == [a[0]] + a[1..] && b == [b[0]] + b[1..];
    }
  }

  /** bcrypt's key schedule reads this many key bytes. */
  const MaxKeyBytes := 72

  /** The bytes of `s` that bcrypt hashes: the UTF-8 encoding with a
      terminating zero byte, repeated cyclically, of which the first 72 are
      read. A password of 72 bytes or more is cut after 72 bytes; a shorter
      one is followed by its zero byte. */
  function BcryptKey(s: string): (key: seq<int>)
    ensures |key| == MaxKeyBytes
    ensures |Utf8(s)| >= MaxKeyBytes ==> key == Utf8(s)[..MaxKeyBytes]
    ensures |Utf8(s)| < MaxKeyBytes ==> key[..|Utf8(s)| + 1] == Utf8(s) + [0]
  {
    var bytes := Utf8(s) + [0];
    var key := seq(MaxKeyBytes, i requires 0 <= i < MaxKeyBytes => bytes[i % |bytes|]);
    assert forall i :: 0 <= i < MaxKeyBytes && i < |bytes| ==> key[i] == bytes[i] by {
      forall i | 0 <= i < MaxKeyBytes && i < |bytes| ensures key[i] == bytes[i] {
        ModSmall(i, |bytes|);
      }
    }
    key
  }

  lemma ModSmall(i: int, n: int)
    requires 0 <= i < n
    ensures i % n == i
  {
  }

  /** `bcrypt.hash(value, genSalt(10))` */
  function Hash(p: Password, salt: nat): Password
  {
    Digest(p, salt)
  }

  /** `bcrypt.compare(candidate, stored)`: true when `stored` is a digest of
      a plaintext with the same key as `candidate`. A stored value that is
      not a digest of a plaintext never matches. */
  predicate Compare(candidate: string, stored: Password) {
    stored.Digest? && stored.of.Clear? && BcryptKey(stored.of.text) == BcryptKey(candidate)
  }

  /** A password matches its own digest, whatever the salt, and another
      plaintext matches it exactly when the two share their key. */
  lemma CompareHash(p: string, q: string, salt: nat)
    ensures Compare(p, Hash(Clear(p), salt))
    ensures Compare(q, Hash(Clear(p), salt)) <==> BcryptKey(q) == BcryptKey(p)
  {
  }

  /** Byte `i` of the key is the next byte of the cycle. */
  lemma KeyCycle(s: string, i: int)
    requires 0 <= i < MaxKeyBytes
    ensures BcryptKey(s)[i] == (Utf8(s) + [0])[i % (|Utf8(s)| + 1)]
  {
  }

  /** The key starts with the encoding, followed by the zero byte when the
      encoding is shorter than 72 bytes. */
  lemma KeyAt(s: string, i: int)
    requires 0 <= i < MaxKeyBytes
    ensures i < |Utf8(s)| ==> BcryptKey(s)[i] == Utf8(s)[i]
    ensures i == |Utf8(s)| ==> BcryptKey(s)[i] == 0
  {
    var u, key := Utf8(s), BcryptKey(s);
    if |u| < MaxKeyBytes && i <= |u| {
      assert key[i] == key[..|u| + 1][i] == (u + [0])[i];
    }
  }

  /** Up to 72 bytes the key of a NUL-free password ends its encoding with
      the first zero byte, so equal keys mean equal passwords. */
  lemma ShortKeyInjective(p: string, q: string)
    requires |Utf8(p)| <= MaxKeyBytes && |Utf8(q)| <= MaxKeyBytes
    requires '\0' !in p && '\0' !in q
    requires BcryptKey(p) == BcryptKey(q)
    ensures p == q
  {
    var u, v := Utf8(p), Utf8(q);
    Utf8ZeroIffNul(p);
    Utf8ZeroIffNul(q);
    if |u| < |v| {
      KeyAt(p, |u|);
      KeyAt(q, |u|);
    } else if |v| < |u| {
      KeyAt(p, |v|);
      KeyAt(q, |v|);
    } else {
      forall i | 0 <= i < |u|
        ensures u[i] == v[i]
      {
        KeyAt(p, i);
        KeyAt(q, i);
      }
      assert u == v;
      Utf8Injective(p, q);
    }
  }

  /** Between NUL-free passwords of at most 72 bytes nothing is lost: only
      the hashed plaintext matches the digest. */
  lemma ShortPasswordsDistinguished(p: string, q: string, salt: nat)
    requires |Utf8(p)| <= MaxKeyBytes && |Utf8(q)| <= MaxKeyBytes && q != p
    requires '\0' !in p && '\0' !in q
    ensures !Compare(q, Hash(Clear(p), salt))
  {
    if Compare(q, Hash(Clear(p), salt)) {
      ShortKeyInjective(p, q);
    }
  }

  /** The digest of a NUL-free password of at most 72 bytes refuses every
      other such password. */
  lemma ShortDigestRefusesOthers(p: string, salt: nat)
    ensures |Utf8(p)| <= MaxKeyBytes && '\0' !in p ==>
      forall q :: |Utf8(q)| <= MaxKeyBytes && '\0' !in q && q != p ==> !Compare(q, Hash(Clear(p), salt))
  {
    forall q | |Utf8(p)| <= MaxKeyBytes && '\0' !in p && |Utf8(q)| <= MaxKeyBytes && '\0' !in q && q != p
      ensures !Compare(q, Hash(Clear(p), salt))
    {
      ShortPasswordsDistinguished(p, q, salt);
    }
  }

  /** The cycle of "a" and of "a", NUL, "a" agree at every position. */
  lemma CyclesAgree(i: nat)
    ensures [97, 0, 97, 0][i % 4] == [97, 0][i % 2]
  {
    var q, r := i / 4, i % 4;
    assert i == 2 * (2 * q) + r;
    assert i % 2 == r % 2;
    assert r == 0 || r == 1 || r == 2 || r == 3;
  }

  lemma ExampleEncodings()
    ensures Utf8("a") == [97] && Utf8("a\0a") == [97, 0, 97]
  {
    assert "a"[1..] == "";
    assert "a\0a"[1..] == "\0a" && "\0a"[1..] == "a";
  }

  lemma ExampleKeysAt(i: int)
    requires 0 <= i < MaxKeyBytes
    ensures BcryptKey("a")[i] == BcryptKey("a\0a")[i]
  {
    ExampleEncodings();
    KeyCycle("a", i);
    KeyCycle("a\0a", i);
    assert [97] + [0] == [97, 0] && [97, 0, 97] + [0] == [97, 0, 97, 0];
    CyclesAgree(i);
  }

  /** A NUL inside a short password can repeat the key of another: "a" is
      read as the cycle a, 0, a, 0, ..., and so is "a", NUL, "a". */
  lemma EmbeddedNulCollides(salt: nat)
    ensures "a\0a" != "a" && Compare("a\0a", Hash(Clear("a"), salt))
  {
    forall i | 0 <= i < MaxKeyBytes
      ensures BcryptKey("a")[i] == BcryptKey("a\0a")[i]
    {
      ExampleKeysAt(i);
    }
    assert BcryptKey("a") == BcryptKey("a\0a");
  }

  /** Everything after the first 72 bytes is ignored: two passwords that
      share a prefix of at least 72 bytes match each other's digests. */
  lemma LongPasswordsCollide(prefix: string, x: string, y: string, salt: nat)
    requires |Utf8(prefix)| >= MaxKeyBytes
    ensures Compare(prefix + x, Hash(Clear(prefix + y), salt))
  {
    Utf8Concat(prefix, x);
    Utf8Concat(prefix, y);
    assert Utf8(prefix + x)[..MaxKeyBytes] == Utf8(prefix)[..MaxKeyBytes] == Utf8(prefix + y)[..MaxKeyBytes];
  }

  /** A digest is never empty and never equals the plaintext it hides; two
      different salts give two different digests. */
  lemma HashShape(p: Password, salt1: nat, salt2: nat)
    ensures !IsEmpty(Hash(p, salt1))
    ensures Hash(p, salt1) != p
    ensures salt1 != salt2 ==> Hash(p, salt1) != Hash(p, salt2)
  {
    assert p < Hash(p, salt1);
  }
}
