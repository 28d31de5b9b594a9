/** The offer handlers (src/controllers/offer.controller.ts), the routed
    version of the offer queries: the same eligibility rule and orders as the
    service, a 401 guard on the attached user, and no lower bound on the
    score. Both handlers only read the catalog. */
module OfferController {
  import opened Common
  import opened OfferModel
  import opened OfferOrdering
  import opened OfferService
  import opened UserModel
  import opened Http


  /** `GET /api/offers` */
  function GetAllOffers(catalog: seq<Offer>, fault: Option<Fault>): (r: Response)
    ensures fault.Some? ==> r == ServerError("Server error fetching offers.", UnknownError, fault.value)
    ensures fault.None? ==>
      && r.statusCode == 200 && r.body.Offers?
      && SortedBy(IssuerThenCardName, r.body.offers)
      && multiset(r.body.offers) == multiset(catalog)
  {
    if fault.Some? then ServerError("Server error fetching offers.", UnknownError, fault.value)
    else Response(200, Offers(SortOffers(IssuerThenCardName, catalog)))
  }

  /** `GET /api/offers/recommended` for the user the middleware attached. */
  function GetRecommendedOffers(user: Option<PublicUser>, catalog: seq<Offer>, fault: Option<Fault>): (r: Response)
    ensures user.None? ==> r == Response(401, Message("Not authorized."))
    ensures user.Some? && fault.Some? ==>
      r == ServerError("Server error fetching recommended offers.", UnknownError, fault.value)
    ensures user.Some? && fault.None? ==>
      && r.statusCode == 200 && r.body.Offers?
      && SortedBy(MinScoreDescThenCardName, r.body.offers)
      && forall o :: multiset(r.body.offers)[o] ==
           if Eligible(o, user.value.creditScore) then multiset(catalog)[o] else 0
  {
    if user.None? then Response(401, Message("Not authorized."))
    else if fault.Some? then ServerError("Server error fetching recommended offers.", UnknownError, fault.value)
    else Response(200, Offers(SortOffers(MinScoreDescThenCardName, FilterEligible(catalog, user.value.creditScore))))
  }

  /** The routed catalog and the service's catalog are the same list. */
  lemma AllOffersAgree(catalog: seq<Offer>)
    ensures GetAllOffers(catalog, None).body.offers == FindAllOffers(catalog, None).value
  {
  }

  /** For a score the service accepts, the routed handler and the service
      recommend the same list. */
  lemma RecommendationsAgree(user: PublicUser, catalog: seq<Offer>)
    requires user.creditScore >= MinAcceptedScore
    ensures FindRecommendedOffers(catalog, user.creditScore, None).Ok?
    ensures GetRecommendedOffers(Some(user), catalog, None).body.offers
         == FindRecommendedOffers(catalog, user.creditScore, None).value
  {
  }

  /** Where the two differ: a score below 300 is a 400 in the service but
      an ordinary 200 in the handler, which lists every offer whose bounds
      contain the score. */
  lemma LowScoreDiffers(user: PublicUser, catalog: seq<Offer>, o: Offer)
    requires user.creditScore < MinAcceptedScore
    ensures FindRecommendedOffers(catalog, user.creditScore, None).Err?
    ensures FindRecommendedOffers(catalog, user.creditScore, None).error.statusCode == 400
    ensures GetRecommendedOffers(Some(user), catalog, None).statusCode == 200
    ensures o in GetRecommendedOffers(Some(user), catalog, None).body.offers
        <==> o in catalog && Eligible(o, user.creditScore)
  {
    var r := GetRecommendedOffers(Some(user), catalog, None).body.offers;
    assert o in r <==> multiset(r)[o] > 0;
    assert o in catalog <==> multiset(catalog)[o] > 0;
  }
}
