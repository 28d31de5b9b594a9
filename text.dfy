/** String operations the core relies on, as JavaScript and Mongoose perform
    them: trimming, lower-casing, prefix tests, splitting on a separator,
    decimal rendering of numbers and its inverse, and the binary string
    order MongoDB sorts by. */
module Text {
  import opened Common

  // ---------------------------------------------------------------------
  // Trimming (String.prototype.trim, used by the schemas' `trim: true`)
  // ---------------------------------------------------------------------

  /** The white-space and line-terminator characters `trim` removes. */
  predicate IsSpace(c: char) {
    || c == ' ' || c == '\t' || c == '\n' || c == '\r' || c == '\U{B}' || c == '\U{C}'
    || c == '\U{A0}' || c == '\U{1680}' || ('\U{2000}' <= c <= '\U{200A}')
    || c == '\U{2028}' || c == '\U{2029}' || c == '\U{202F}' || c == '\U{205F}'
    || c == '\U{3000}' || c == '\U{FEFF}'
  }

  /** `s` without its leading white space: a suffix of `s` whose dropped
      prefix is all white space. */
  function TrimStart(s: string): (r: string)
    ensures |r| <= |s| && r == s[|s| - |r|..]
    ensures r == [] || !IsSpace(r[0])
    ensures forall i :: 0 <= i < |s| - |r| ==> IsSpace(s[i])
  {
    if s != [] && IsSpace(s[0]) then TrimStart(s[1..]) else s
  }

  /** `s` without its trailing white space: a prefix of `s` whose dropped
      suffix is all white space. */
  function TrimEnd(s: string): (r: string)
    ensures |r| <= |s| && r == s[..|r|]
    ensures r == [] || !IsSpace(r[|r| - 1])
    ensures forall i :: |r| <= i < |s| ==> IsSpace(s[i])
  {
    if s != [] && IsSpace(s[|s| - 1]) then TrimEnd(s[..|s| - 1]) else s
  }

  function Trim(s: string): (r: string)
    ensures |r| <= |s|
    ensures r == [] || (!IsSpace(r[0]) && !IsSpace(r[|r| - 1]))
  {
    TrimEnd(TrimStart(s))
  }

  /** Trimming removes exactly the outer white space: the result is a
      contiguous slice of `s` and everything outside it is white space. */
  lemma TrimIsSlice(s: string) returns (k: nat)
    ensures k + |Trim(s)| <= |s| && Trim(s) == s[k..k + |Trim(s)|]
    ensures forall i :: 0 <= i < k ==> IsSpace(s[i])
    ensures forall i :: k + |Trim(s)| <= i < |s| ==> IsSpace(s[i])
  {
    var t := TrimStart(s);
    k := |s| - |t|;
    var r := TrimEnd(t);
    assert r == t[..|r|];
    assert t == s[k..];
    assert forall i :: k + |r| <= i < |s| ==> s[i] == t[i - k];
  }

  /** A string trims to nothing exactly when it is all white space. */
  lemma TrimEmptyIffBlank(s: string)
    ensures Trim(s) == [] <==> forall i :: 0 <= i < |s| ==> IsSpace(s[i])
  {
    var k := TrimIsSlice(s);
    if Trim(s) == [] {
      assert forall i :: 0 <= i < |s| ==> IsSpace(s[i]) by {
        forall i | 0 <= i < |s| ensures IsSpace(s[i]) {
          if i >= k {
            assert k + |Trim(s)| <= i;
          }
        }
      }
    } else {
      assert !IsSpace(s[k]);
    }
  }

  /** Trimming twice is trimming once. */
  lemma TrimIdempotent(s: string)
    ensures Trim(Trim(s)) == Trim(s)
  {
    var t := Trim(s);
    assert TrimStart(t) == t;
    assert TrimEnd(t) == t;
  }

  // ---------------------------------------------------------------------
  // Lower-casing (String.prototype.toLowerCase, the schemas' `lowercase`)
  // ---------------------------------------------------------------------

  function LowerChar(c: char): (d: char)
  {
    if 'A' <= c <= 'Z' then (c as int + 32) as char else c
  }

  /** `s` with every upper-case ASCII letter replaced by its lower-case
      form, every other character kept in place. */
  function Lower(s: string): (r: string)
    ensures |r| == |s|
    ensures forall i :: 0 <= i < |s| ==> r[i] == LowerChar(s[i])
  {
    seq(|s|, i requires 0 <= i < |s| => LowerChar(s[i]))
  }

  /** Lower-casing leaves no upper-case ASCII letter and leaves white space
      alone, so it is idempotent and commutes with trimming. */
  lemma LowerCharFacts(c: char)
    ensures !('A' <= LowerChar(c) <= 'Z')
    ensures LowerChar(LowerChar(c)) == LowerChar(c)
    ensures IsSpace(LowerChar(c)) == IsSpace(c)
  {
  }

  lemma LowerIdempotent(s: string)
    ensures Lower(Lower(s)) == Lower(s)
  {
    forall i | 0 <= i < |s| ensures Lower(Lower(s))[i] == Lower(s)[i] {
      LowerCharFacts(s[i]);
    }
  }

  // ---------------------------------------------------------------------
  // Prefixes and splitting
  // ---------------------------------------------------------------------

  /** String.prototype.startsWith */
  predicate StartsWith(s: string, prefix: string) {
    |prefix| <= |s| && s[..|prefix|] == prefix
  }

  /** String.prototype.split with a one-character separator: the maximal
      separator-free pieces, empty ones included; the empty string splits
      into one empty piece. */
  function Split(s: string, sep: char): (parts: seq<string>)
    ensures |parts| >= 1
    ensures forall i :: 0 <= i < |parts| ==> sep !in parts[i]
  {
    if s == [] then [[]]
    else
      var rest := Split(s[1..], sep);
      if s[0] == sep then [[]] + rest else [[s[0]] + rest[0]] + rest[1..]
  }

  /** Array.prototype.join with a one-character separator. */
  function Join(parts: seq<string>, sep: char): string
  {
    if |parts| == 0 then []
    else if |parts| == 1 then parts[0]
    else parts[0] + [sep] + Join(parts[1..], sep)
  }

  /** A character other than the separator occurs in a join only if it
      occurs in one of the parts. */
  lemma {:induction false} JoinAvoids(parts: seq<string>, sep: char, c: char)
    requires c != sep
    requires forall i :: 0 <= i < |parts| ==> c !in parts[i]
    ensures c !in Join(parts, sep)
  {
    if |parts| > 1 {
      JoinAvoids(parts[1..], sep, c);
    }
  }

  lemma {:induction false} SplitFree(a: string, sep: char)
    requires sep !in a
    ensures Split(a, sep) == [a]
  {
    if a != [] {
      SplitFree(a[1..], sep);
      assert [a[0]] + a[1..] == a;
    }
  }

  lemma {:induction false} SplitAtSeparator(a: string, sep: char, rest: string)
    requires sep !in a
    ensures Split(a + [sep] + rest, sep) == [a] + Split(rest, sep)
  {
    if a == [] {
      assert a + [sep] + rest == [sep] + rest;
      assert ([sep] + rest)[1..] == rest;
    } else {
      SplitAtSeparator(a[1..], sep, rest);
      assert (a + [sep] + rest)[1..] == a[1..] + [sep] + rest;
      assert [a[0]] + a[1..] == a;
    }
  }

  /** Joining separator-free pieces and splitting again gives the pieces
      back. */
  lemma {:induction false} SplitJoin(parts: seq<string>, sep: char)
    requires |parts| >= 1
    requires forall i :: 0 <= i < |parts| ==> sep !in parts[i]
    ensures Split(Join(parts, sep), sep) == parts
  {
    if |parts| == 1 {
      SplitFree(parts[0], sep);
    } else {
      SplitJoin(parts[1..], sep);
      SplitAtSeparator(parts[0], sep, Join(parts[1..], sep));
      assert [parts[0]] + parts[1..] == parts;
    }
  }

  // ---------------------------------------------------------------------
  // Decimal numerals (template literals `${n}` and Number parsing)
  // ---------------------------------------------------------------------

  predicate IsDigit(c: char) {
    '0' <= c <= '9'
  }

  predicate AllDigits(s: string) {
    forall i :: 0 <= i < |s| ==> IsDigit(s[i])
  }

  function DigitChar(d: nat): (c: char)
    requires d < 10
    ensures IsDigit(c) && c as int - '0' as int == d
  {
    ('0' as int + d) as char
  }

  function DigitValue(c: char): (d: nat)
    requires IsDigit(c)
    ensures d < 10 && DigitChar(d) == c
  {
    c as int - '0' as int
  }

  /** The shortest decimal numeral of `n` (no sign, no leading zero). */
  function NatToDecimal(n: nat): (r: string)
    ensures |r| >= 1 && AllDigits(r)
    ensures r[0] == '0' ==> n == 0
  {
    if n < 10 then [DigitChar(n)] else NatToDecimal(n / 10) + [DigitChar(n % 10)]
  }

  /** The string JavaScript gives an integer: a minus sign for negatives. */
  function IntToDecimal(i: int): (r: string)
    ensures |r| >= 1
  {
    if i < 0 then "-" + NatToDecimal(-i) else NatToDecimal(i)
  }

  function DigitsValue(s: string): nat
    requires AllDigits(s)
  {
    if s == [] then 0 else DigitsValue(s[..|s| - 1]) * 10 + DigitValue(s[|s| - 1])
  }

  /** A non-empty run of decimal digits read as a number. */
  function ParseNat(s: string): Option<nat>
  {
    if s != [] && AllDigits(s) then Some(DigitsValue(s)) else None
  }

  /** A numeral with an optional leading sign. */
  function ParseInt(s: string): Option<int>
  {
    if s != [] && (s[0] == '-' || s[0] == '+') then
      match ParseNat(s[1..])
      case Some(n) =>
        var v: int := if s[0] == '-' then -(n as int) else n;
        Some(v)
      case None => None
    else
      match ParseNat(s)
      case Some(n) => Some(n as int)
      case None => None
  }

  /** Reading back a rendered natural number gives the number. */
  lemma {:induction false} ParseNatToDecimal(n: nat)
    ensures ParseNat(NatToDecimal(n)) == Some(n)
  {
    var r := NatToDecimal(n);
    if n >= 10 {
      ParseNatToDecimal(n / 10);
      var q := NatToDecimal(n / 10);
      assert r == q + [DigitChar(n % 10)];
      assert r[..|r| - 1] == q;
    } else {
      assert r[..|r| - 1] == [];
      assert DigitsValue(r) == DigitsValue(r[..|r| - 1]) * 10 + DigitValue(r[0]);
    }
  }

  /** Reading back a rendered integer gives the integer. */
  lemma ParseIntToDecimal(i: int)
    ensures ParseInt(IntToDecimal(i)) == Some(i)
  {
    if i < 0 {
      ParseNatToDecimal(-i);
      assert IntToDecimal(i)[1..] == NatToDecimal(-i);
    } else {
      ParseNatToDecimal(i);
    }
  }

  /** The leading digit of `n`. */
  function LeadingDigit(n: nat): (d: nat)
    ensures d < 10
  {
    if n < 10 then n else LeadingDigit(n / 10)
  }

  lemma {:induction false} NatToDecimalLeading(n: nat)
    ensures NatToDecimal(n)[0] == DigitChar(LeadingDigit(n))
  {
    if n >= 10 {
      NatToDecimalLeading(n / 10);
    }
  }

  function Pow10(k: nat): (p: nat)
    ensures p >= 1
  {
    if k == 0 then 1 else 10 * Pow10(k - 1)
  }

  /** Dividing by ten scales a half-open range by ten. */
  lemma DivTenRange(n: nat, m: int, M: int)
    ensures (m <= n / 10 < M) <==> (10 * m <= n < 10 * M)
  {
    var q, r := n / 10, n % 10;
    assert n == 10 * q + r && 0 <= r < 10;
  }

  lemma ScaledBounds(d: nat, k: nat)
    ensures Pow10(k + 1) == 10 * Pow10(k)
    ensures d * Pow10(k + 1) == 10 * (d * Pow10(k))
    ensures (d + 1) * Pow10(k + 1) == 10 * ((d + 1) * Pow10(k))
  {
  }

  lemma LargeScale(d: nat, k: nat)
    requires d >= 1 && k >= 1
    ensures d * Pow10(k) >= 10
  {
    var p := Pow10(k - 1);
    assert Pow10(k) == 10 * p;
    assert d * Pow10(k) >= Pow10(k);
  }

  /** The leading digit of `n` is `d` exactly when `n` lies in
      `[d * 10^k, (d + 1) * 10^k)` for some `k`. */
  lemma {:induction false} LeadingDigitRange(n: nat, d: nat)
    requires 1 <= d < 10
    ensures LeadingDigit(n) == d <==> exists k: nat :: d * Pow10(k) <= n < (d + 1) * Pow10(k)
  {
    if n < 10 {
      if LeadingDigit(n) == d {
        assert d * Pow10(0) <= n < (d + 1) * Pow10(0);
      }
      forall k: nat | d * Pow10(k) <= n < (d + 1) * Pow10(k) ensures n == d {
        if k > 0 {
          LargeScale(d, k);
        }
      }
    } else {
      LeadingDigitRange(n / 10, d);
      if LeadingDigit(n) == d {
        var k: nat :| d * Pow10(k) <= n / 10 < (d + 1) * Pow10(k);
        ScaledBounds(d, k);
        DivTenRange(n, d * Pow10(k), (d + 1) * Pow10(k));
        assert d * Pow10(k + 1) <= n < (d + 1) * Pow10(k + 1);
      }
      forall k: nat | d * Pow10(k) <= n < (d + 1) * Pow10(k) ensures LeadingDigit(n) == d {
        if k == 0 {
          assert false;
        } else {
          ScaledBounds(d, k - 1);
          DivTenRange(n, d * Pow10(k - 1), (d + 1) * Pow10(k - 1));
          assert d * Pow10(k - 1) <= n / 10 < (d + 1) * Pow10(k - 1);
        }
      }
    }
  }

  // ---------------------------------------------------------------------
  // Binary string order (MongoDB's default string sort)
  // ---------------------------------------------------------------------

  /** `a` sorts no later than `b`: lexicographic by code point, a proper
      prefix first. */
  predicate LexLe(a: string, b: string) {
    a == [] || (b != [] && (a[0] < b[0] || (a[0] == b[0] && LexLe(a[1..], b[1..]))))
  }

  lemma {:induction false} LexLeTotal(a: string, b: string)
    ensures LexLe(a, b) || LexLe(b, a)
  {
    if a != [] && b != [] && a[0] == b[0] {
      LexLeTotal(a[1..], b[1..]);
    }
  }

  lemma {:induction false} LexLeAntisymmetric(a: string, b: string)
    requires LexLe(a, b) && LexLe(b, a)
    ensures a == b
  {
    if a != [] && b != [] {
      LexLeAntisymmetric(a[1..], b[1..]);
      assert a == [a[0]] + a[1..];
      assert b == [b[0]] + b[1..];
    }
  }

  lemma {:induction false} LexLeTransitive(a: string, b: string, c: string)
    requires LexLe(a, b) && LexLe(b, c)
    ensures LexLe(a, c)
  {
    if a != [] && b != [] && c != [] && a[0] == b[0] && b[0] == c[0] {
      LexLeTransitive(a[1..], b[1..], c[1..]);
    }
  }
}
