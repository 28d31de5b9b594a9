/** The offer seeding script (src/scripts/seedOffers.ts) without its
    connection handling and console output: the catalog is emptied, the
    seed data is inserted in one batch, and the inserted offers are counted
    by score range. */
module SeedOffers {
  import opened Common
  import opened OfferModel

  /** The four ranges of the report, by minimum credit score. */
  predicate InExcellent(o: Offer) { o.minCreditScore >= 740 }
  predicate InGood(o: Offer) { o.minCreditScore >= 670 && o.minCreditScore < 740 }
  predicate InFair(o: Offer) { o.minCreditScore >= 580 && o.minCreditScore < 670 }
  predicate InPoor(o: Offer) { o.minCreditScore < 580 }

  /** Every offer lies in exactly one range. */
  lemma RangesPartition(o: Offer)
    ensures InExcellent(o) || InGood(o) || InFair(o) || InPoor(o)
    ensures !(InExcellent(o) && InGood(o)) && !(InExcellent(o) && InFair(o)) && !(InExcellent(o) && InPoor(o))
    ensures !(InGood(o) && InFair(o)) && !(InGood(o) && InPoor(o)) && !(InFair(o) && InPoor(o))
  {
  }

  function CountExcellent(offers: seq<Offer>): nat {
    if offers == [] then 0 else (if InExcellent(offers[0]) then 1 else 0) + CountExcellent(offers[1..])
  }

  function CountGood(offers: seq<Offer>): nat {
    if offers == [] then 0 else (if InGood(offers[0]) then 1 else 0) + CountGood(offers[1..])
  }

  function CountFair(offers: seq<Offer>): nat {
    if offers == [] then 0 else (if InFair(offers[0]) then 1 else 0) + CountFair(offers[1..])
  }

  function CountPoor(offers: seq<Offer>): nat {
    if offers == [] then 0 else (if InPoor(offers[0]) then 1 else 0) + CountPoor(offers[1..])
  }

  /** `offersByRange` */
  datatype RangeCounts = RangeCounts(excellent: nat, good: nat, fair: nat, poor: nat)

  function OffersByRange(offers: seq<Offer>): RangeCounts {
    RangeCounts(CountExcellent(offers), CountGood(offers), CountFair(offers), CountPoor(offers))
  }

  /** The four counts add up to the number of offers. */
  lemma {:induction false} RangeCountsCoverAll(offers: seq<Offer>)
    ensures var c := OffersByRange(offers); c.excellent + c.good + c.fair + c.poor == |offers|
  {
    if offers != [] {
      RangesPartition(offers[0]);
      RangeCountsCoverAll(offers[1..]);
    }
  }

  /** Every input of `data` creates the offer at the same place of `offers`. */
  predicate CreatesEach(data: seq<OfferInput>, offers: seq<Offer>) {
    |offers| == |data| && forall i :: 0 <= i < |data| ==> CreateOffer(data[i]) == Ok(offers[i])
  }

  /** Creating a first input in front of a batch. */
  lemma CreatesEachCons(d: OfferInput, data: seq<OfferInput>, o: Offer, offers: seq<Offer>)
    requires CreateOffer(d) == Ok(o) && CreatesEach(data, offers)
    ensures CreatesEach([d] + data, [o] + offers)
  {
    forall i | 0 <= i < |data| + 1
      ensures CreateOffer(([d] + data)[i]) == Ok(([o] + offers)[i])
    {
      ConsAt(d, data, o, offers, i);
    }
  }

  /** Indexing two sequences that each gained a first element. */
  lemma ConsAt<A, B>(x: A, xs: seq<A>, y: B, ys: seq<B>, i: int)
    requires 0 <= i <= |xs| == |ys|
    ensures i == 0 ==> ([x] + xs)[i] == x && ([y] + ys)[i] == y
    ensures i > 0 ==> ([x] + xs)[i] == xs[i - 1] && ([y] + ys)[i] == ys[i - 1]
  {
  }

  /** Validating the whole batch: every input becomes the offer its
      creation gives, or the first invalid input's error is reported. */
  function CreateAll(data: seq<OfferInput>): (r: Result<seq<Offer>, string>)
    ensures r.Ok? ==> CreatesEach(data, r.value)
    ensures r.Err? ==> exists i :: 0 <= i < |data| && CreateOffer(data[i]) == Err(r.error)
  {
    if data == [] then Ok([])
    else
      var first := CreateOffer(data[0]);
      var rest := CreateAll(data[1..]);
      if first.Err? then Err(first.error)
      else if rest.Err? then
        assert forall i :: 1 <= i < |data| ==> data[i] == data[1..][i - 1];
        Err(rest.error)
      else
        CreatesEachCons(data[0], data[1..], first.value, rest.value);
        assert [data[0]] + data[1..] == data;
        Ok([first.value] + rest.value)
  }

  /** The batch is accepted exactly when every record is valid. */
  lemma CreateAllAcceptsValid(data: seq<OfferInput>)
    ensures CreateAll(data).Ok? <==> forall i :: 0 <= i < |data| ==> CreateOffer(data[i]).Ok?
  {
    if CreateAll(data).Err? {
      var i :| 0 <= i < |data| && CreateOffer(data[i]) == Err(CreateAll(data).error);
    }
  }

  /** The offer collection. */
  class OfferCatalog {
    var offers: seq<Offer>

    constructor (initial: seq<Offer>)
      ensures offers == initial
    {
      offers := initial;
    }

    /** `deleteMany({})` then `insertMany(data)`. A failing delete (the
        fault) changes nothing; an invalid seed record leaves the catalog
        empty, because the batch is validated before anything is inserted.
        On success the catalog is exactly the seed data and the counts are
        those of the inserted offers. */
    method Seed(data: seq<OfferInput>, fault: Option<Fault>) returns (r: Result<RangeCounts, string>)
      modifies this
      ensures fault.Some? ==> offers == old(offers) && r.Err?
      ensures fault.None? && CreateAll(data).Err? ==> offers == [] && r == Err(CreateAll(data).error)
      ensures fault.None? && CreateAll(data).Ok? ==>
        && offers == CreateAll(data).value
        && |offers| == |data|
        && r == Ok(OffersByRange(offers))
        && r.value.excellent + r.value.good + r.value.fair + r.value.poor == |data|
    {
      if fault.Some? {
        return Err(if fault.value.IsErrorInstance() then fault.value.message else "");
      }
      offers := [];
      var created := CreateAll(data);
      if created.Err? {
        return Err(created.error);
      }
      offers := created.value;
      RangeCountsCoverAll(offers);
      r := Ok(OffersByRange(offers));
    }
  }
}
