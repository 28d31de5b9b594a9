/** The two orders the offer queries ask MongoDB for, and a sorting
    function that realises them: the result is ordered by the key and is a
    permutation of the input. */
module OfferOrdering {
  import opened Text
  import opened OfferModel

  /** `{ issuer: 1, cardName: 1 }` and `{ minCreditScore: -1, cardName: 1 }`. */
  datatype SortKey = IssuerThenCardName | MinScoreDescThenCardName

  /** `a` may be placed before `b` under `key`. */
  predicate Precedes(key: SortKey, a: Offer, b: Offer) {
    match key
    case IssuerThenCardName =>
      LexLe(a.issuer, b.issuer) && (a.issuer == b.issuer ==> LexLe(a.cardName, b.cardName))
    case MinScoreDescThenCardName =>
      a.minCreditScore > b.minCreditScore
      || (a.minCreditScore == b.minCreditScore && LexLe(a.cardName, b.cardName))
  }

  predicate SortedBy(key: SortKey, s: seq<Offer>) {
    forall i, j :: 0 <= i < j < |s| ==> Precedes(key, s[i], s[j])
  }

  lemma PrecedesTotal(key: SortKey, a: Offer, b: Offer)
    ensures Precedes(key, a, b) || Precedes(key, b, a)
  {
    LexLeTotal(a.issuer, b.issuer);
    LexLeTotal(a.cardName, b.cardName);
    if LexLe(a.issuer, b.issuer) && LexLe(b.issuer, a.issuer) {
      LexLeAntisymmetric(a.issuer, b.issuer);
    }
  }

  lemma PrecedesTransitive(key: SortKey, a: Offer, b: Offer, c: Offer)
    requires Precedes(key, a, b) && Precedes(key, b, c)
    ensures Precedes(key, a, c)
  {
    match key
    case IssuerThenCardName =>
      LexLeTransitive(a.issuer, b.issuer, c.issuer);
      if a.issuer == c.issuer {
        LexLeAntisymmetric(a.issuer, b.issuer);
        LexLeTransitive(a.cardName, b.cardName, c.cardName);
      }
    case MinScoreDescThenCardName =>
      if a.minCreditScore == b.minCreditScore == c.minCreditScore {
        LexLeTransitive(a.cardName, b.cardName, c.cardName);
      }
  }

  /** Putting `x` in front of a sorted sequence whose head it precedes keeps
      it sorted. */
  lemma SortedCons(key: SortKey, x: Offer, s: seq<Offer>)
    requires SortedBy(key, s)
    requires s != [] ==> Precedes(key, x, s[0])
    ensures SortedBy(key, [x] + s)
  {
    var r := [x] + s;
    forall i, j | 0 <= i < j < |r| ensures Precedes(key, r[i], r[j]) {
      if i == 0 && j > 1 {
        PrecedesTransitive(key, x, s[0], r[j]);
      }
    }
  }

  /** `h` (the head of a sorted sequence whose tail, plus `x`, is `t`)
      precedes everything in `t` when `x` does not precede `h`. */
  lemma SortedAfterHead(key: SortKey, x: Offer, s: seq<Offer>, t: seq<Offer>)
    requires SortedBy(key, s) && s != []
    requires !Precedes(key, x, s[0])
    requires SortedBy(key, t)
    requires multiset(t) == multiset(s[1..]) + multiset{x}
    ensures SortedBy(key, [s[0]] + t)
  {
    PrecedesTotal(key, x, s[0]);
    forall j | 0 <= j < |t| ensures Precedes(key, s[0], t[j]) {
      assert t[j] in multiset(t);
      if t[j] != x {
        assert t[j] in multiset(s[1..]);
        var i :| 0 <= i < |s[1..]| && s[1..][i] == t[j];
        assert s[i + 1] == t[j];
      }
    }
  }

  /** Insertion of `x` into a sorted sequence. */
  function InsertSorted(key: SortKey, x: Offer, s: seq<Offer>): (r: seq<Offer>)
    requires SortedBy(key, s)
    ensures SortedBy(key, r)
    ensures multiset(r) == multiset(s) + multiset{x}
  {
    if s == [] then [x]
    else if Precedes(key, x, s[0]) then
      SortedCons(key, x, s);
      [x] + s
    else
      var t := InsertSorted(key, x, s[1..]);
      SortedAfterHead(key, x, s, t);
      assert s == [s[0]] + s[1..];
      [s[0]] + t
  }

  /** The offers ordered by `key`: sorted, and a permutation of the input. */
  function SortOffers(key: SortKey, s: seq<Offer>): (r: seq<Offer>)
    ensures SortedBy(key, r)
    ensures multiset(r) == multiset(s)
  {
    if s == [] then []
    else
      assert s == [s[0]] + s[1..];
      InsertSorted(key, s[0], SortOffers(key, s[1..]))
  }
}
