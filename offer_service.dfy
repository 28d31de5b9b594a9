/** The offer service (src/services/offer.service.ts): the whole catalog in
    issuer/name order, and the offers a credit score qualifies for, best
    first. Both are read-only queries over the catalog; a failing store
    query becomes a 500 AppError. */
module OfferService {
  import opened Common
  import opened Text
  import opened AppErrors
  import opened OfferModel
  import opened OfferOrdering

  /** The score at or above which recommendations are given. */
  const MinAcceptedScore := 300

  /** The query filter: the score meets the minimum, and either the maximum
      path does not exist or it holds a number the score does not exceed
      (both bounds inclusive). A stored `null` satisfies neither `$exists:
      false` nor `$gte`. */
  predicate Eligible(o: Offer, score: int) {
    o.minCreditScore <= score && (o.maxCreditScore.Unset? || (o.maxCreditScore.AtMost? && o.maxCreditScore.limit >= score))
  }

  /** The offers of `catalog` that `score` is eligible for, each as many
      times as it occurs in the catalog, and nothing else. */
  function FilterEligible(catalog: seq<Offer>, score: int): (r: seq<Offer>)
    ensures forall o :: multiset(r)[o] == if Eligible(o, score) then multiset(catalog)[o] else 0
    ensures forall i :: 0 <= i < |r| ==> Eligible(r[i], score)
  {
    if catalog == [] then []
    else
      assert catalog == [catalog[0]] + catalog[1..];
      (if Eligible(catalog[0], score) then [catalog[0]] else []) + FilterEligible(catalog[1..], score)
  }

  /** `findAllOffers`: the whole catalog ordered by issuer, then card name. */
  function FindAllOffers(catalog: seq<Offer>, fault: Option<Fault>): (r: Result<seq<Offer>, AppError>)
    ensures fault.Some? ==> r == Err(NewAppError("Failed to fetch credit card offers.", 500))
    ensures fault.None? ==> r.Ok? && SortedBy(IssuerThenCardName, r.value) && multiset(r.value) == multiset(catalog)
  {
    if fault.Some? then Err(NewAppError("Failed to fetch credit card offers.", 500))
    else Ok(SortOffers(IssuerThenCardName, catalog))
  }

  /** `findRecommendedOffers`: a score below 300 is rejected before the
      catalog is read; otherwise the eligible offers, highest minimum score
      first and ties by card name, are exactly the eligible catalog
      entries. */
  function FindRecommendedOffers(catalog: seq<Offer>, score: int, fault: Option<Fault>): (r: Result<seq<Offer>, AppError>)
    ensures score < MinAcceptedScore ==>
      r == Err(NewAppError("Invalid credit score provided for recommendations.", 400))
    ensures score >= MinAcceptedScore && fault.Some? ==>
      r == Err(NewAppError("Failed to fetch recommended credit card offers.", 500))
    ensures score >= MinAcceptedScore && fault.None? ==>
      && r.Ok?
      && SortedBy(MinScoreDescThenCardName, r.value)
      && forall o :: multiset(r.value)[o] == if Eligible(o, score) then multiset(catalog)[o] else 0
  {
    if score < MinAcceptedScore then
      Err(NewAppError("Invalid credit score provided for recommendations.", 400))
    else if fault.Some? then
      Err(NewAppError("Failed to fetch recommended credit card offers.", 500))
    else
      Ok(SortOffers(MinScoreDescThenCardName, FilterEligible(catalog, score)))
  }

  /** Membership in the recommendation: an offer is listed exactly when it
      is in the catalog and the score is within its bounds. */
  lemma RecommendedMembership(catalog: seq<Offer>, score: int, o: Offer)
    requires score >= MinAcceptedScore
    ensures var r := FindRecommendedOffers(catalog, score, None);
      o in r.value <==> o in catalog && Eligible(o, score)
  {
    var r := FindRecommendedOffers(catalog, score, None);
    assert o in r.value <==> multiset(r.value)[o] > 0;
    assert o in catalog <==> multiset(catalog)[o] > 0;
  }

  /** Scores above 850 are not rejected: every offer without a maximum
      whose minimum the score meets is recommended. */
  lemma HighScoresAccepted(catalog: seq<Offer>, score: int, o: Offer)
    requires score > 850
    requires o in catalog && o.maxCreditScore.Unset? && o.minCreditScore <= score
    ensures FindRecommendedOffers(catalog, score, None).Ok?
    ensures o in FindRecommendedOffers(catalog, score, None).value
  {
    RecommendedMembership(catalog, score, o);
  }

  /** An offer whose maximum is stored as `null` is never recommended,
      whatever the score, although an absent maximum means no bound. */
  lemma NullMaximumNeverRecommended(catalog: seq<Offer>, score: int, o: Offer)
    requires o.maxCreditScore.Null?
    ensures FindRecommendedOffers(catalog, score, None).Ok? ==> o !in FindRecommendedOffers(catalog, score, None).value
  {
    if score >= MinAcceptedScore {
      RecommendedMembership(catalog, score, o);
    }
  }

  function SampleOffer(name: string, min: int, max: MaxScore): Offer {
    Offer(name, "Bank", min, max, DefaultAnnualFee, None, None, None, None, None, None)
  }

  /** The filtering step of the worked example below. */
  lemma FilterExample(a: Offer, b: Offer, c: Offer, d: Offer)
    requires a == SampleOffer("A", 600, Unset) && b == SampleOffer("B", 700, AtMost(750))
    requires c == SampleOffer("C", 300, AtMost(599)) && d == SampleOffer("D", 300, Null)
    ensures FilterEligible([a, b, c, d], 650) == [a]
  {
    assert [d][1..] == [];
    assert [c, d][1..] == [d];
    assert FilterEligible([c, d], 650) == [];
    assert [b, c, d][1..] == [c, d];
    assert [a, b, c, d][1..] == [b, c, d];
  }

  /** A worked example: of [600..unbounded], [700..750], [300..599] and
      [300..null], a score of 650 qualifies for the first only (the second
      fails the minimum, the third the maximum, the fourth has a `null`
      maximum). */
  lemma RecommendationExample()
    ensures var a, b, c, d := SampleOffer("A", 600, Unset), SampleOffer("B", 700, AtMost(750)),
                              SampleOffer("C", 300, AtMost(599)), SampleOffer("D", 300, Null);
      FindRecommendedOffers([a, b, c, d], 650, None) == Ok([a])
  {
    var a, b, c, d := SampleOffer("A", 600, Unset), SampleOffer("B", 700, AtMost(750)),
                      SampleOffer("C", 300, AtMost(599)), SampleOffer("D", 300, Null);
    FilterExample(a, b, c, d);
  }
}
