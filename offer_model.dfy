/** The credit-card offer schema (src/models/CreditCardOffer.model.ts):
    which fields are required, which are optional, their defaults and the
    trimming setters, as the creation of an offer document applies them. */
module OfferModel {
  import opened Common
  import opened Text

  /** The three states of the optional `maxCreditScore` path: absent from
      the document, stored as `null`, or a number. */
  datatype MaxScore = Unset | Null | AtMost(limit: int)

  /** A stored offer. `annualFee` is always present because the schema
      defaults it. */
  datatype Offer = Offer(
    cardName: string,
    issuer: string,
    minCreditScore: int,
    maxCreditScore: MaxScore,
    annualFee: int,
    apr: Option<real>,
    rewards: Option<string>,
    cardType: Option<string>,
    details: Option<string>,
    imageUrl: Option<string>,
    applyUrl: Option<string>)

  /** The fields supplied when an offer is created (any may be missing). */
  datatype OfferInput = OfferInput(
    cardName: Option<string>,
    issuer: Option<string>,
    minCreditScore: Option<int>,
    maxCreditScore: MaxScore,
    annualFee: Option<int>,
    apr: Option<real>,
    rewards: Option<string>,
    cardType: Option<string>,
    details: Option<string>,
    imageUrl: Option<string>,
    applyUrl: Option<string>)

  const DefaultAnnualFee := 0

  /** A required string path passes validation when, after trimming, it is
      present and not empty. */
  predicate RequiredText(x: Option<string>) {
    x.Some? && Trim(x.value) != ""
  }

  /** The required paths that fail validation, in schema order. */
  function MissingPaths(input: OfferInput): (paths: seq<string>)
    ensures paths == [] <==> RequiredText(input.cardName) && RequiredText(input.issuer) && input.minCreditScore.Some?
  {
    (if RequiredText(input.cardName) then [] else ["cardName"])
    + (if RequiredText(input.issuer) then [] else ["issuer"])
    + (if input.minCreditScore.Some? then [] else ["minCreditScore"])
  }

  /** `o` is the document the schema builds from `input`: the name and
      issuer trimmed, the annual fee defaulting to 0, and every other field
      kept as given. */
  predicate BuiltFrom(input: OfferInput, o: Offer)
    requires MissingPaths(input) == []
  {
    && o.cardName == Trim(input.cardName.value)
    && o.issuer == Trim(input.issuer.value)
    && o.minCreditScore == input.minCreditScore.value
    && o.maxCreditScore == input.maxCreditScore
    && o.annualFee == input.annualFee.GetOr(DefaultAnnualFee)
    && o.apr == input.apr
    && o.rewards == input.rewards
    && o.cardType == input.cardType
    && o.details == input.details
    && o.imageUrl == input.imageUrl
    && o.applyUrl == input.applyUrl
  }

  /** Creating (and validating) an offer document: a missing required field
      is a validation error naming the failed paths; otherwise the document
      is built from the input. */
  function CreateOffer(input: OfferInput): (r: Result<Offer, string>)
    ensures r.Ok? <==> MissingPaths(input) == []
    ensures r.Err? ==> r.error == ValidationFailedMessage("CreditCardOffer", MissingPaths(input))
    ensures r.Ok? ==> BuiltFrom(input, r.value)
  {
    if MissingPaths(input) != [] then
      Err(ValidationFailedMessage("CreditCardOffer", MissingPaths(input)))
    else
      Ok(Offer(Trim(input.cardName.value), Trim(input.issuer.value), input.minCreditScore.value,
               input.maxCreditScore, input.annualFee.GetOr(DefaultAnnualFee), input.apr, input.rewards,
               input.cardType, input.details, input.imageUrl, input.applyUrl))
  }

  /** Every created offer has a non-empty, already-trimmed name and issuer. */
  lemma CreatedOfferIsTrimmed(input: OfferInput)
    requires CreateOffer(input).Ok?
    ensures var o := CreateOffer(input).value;
      && o.cardName != "" && Trim(o.cardName) == o.cardName
      && o.issuer != "" && Trim(o.issuer) == o.issuer
  {
    TrimIdempotent(input.cardName.value);
    TrimIdempotent(input.issuer.value);
  }

  /** A name made only of white space is rejected, as is a missing one. */
  lemma BlankNameRejected(input: OfferInput)
    requires input.cardName.Some?
    requires forall i :: 0 <= i < |input.cardName.value| ==> IsSpace(input.cardName.value[i])
    ensures CreateOffer(input).Err?
    ensures MissingPaths(input)[0] == "cardName"
  {
    TrimEmptyIffBlank(input.cardName.value);
  }
}
