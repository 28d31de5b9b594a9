/** What an Express handler sends: a status code and a JSON body. Only the
    body shapes the handlers of this application use are modelled. */
module Http {
  import opened Common
  import opened OfferModel
  import opened UserModel

  datatype Body =
    | Offers(offers: seq<Offer>)
    | Message(message: string)
    | MessageWithError(message: string, error: string)
    | Auth(token: string, user: UserView)
    | Profile(profile: PublicUser)
    | ScoreUpdated(message: string, updated: Option<PublicUser>)

  datatype Response = Response(statusCode: int, body: Body)

  /** The text the handlers send when the thrown value is not an `Error`. */
  const UnknownError := "An unknown server error occurred."

  /** The `catch` block every controller ends with: for an `Error` instance
      a 500 with `what` and the error's message, for any other thrown value
      a 500 with `unknown`. */
  function ServerError(what: string, unknown: string, f: Fault): (r: Response)
    ensures r.statusCode == 500
    ensures f.IsErrorInstance() ==> r.body == MessageWithError(what, f.message)
    ensures !f.IsErrorInstance() ==> r.body == Message(unknown)
  {
    if f.IsErrorInstance() then Response(500, MessageWithError(what, f.message))
    else Response(500, Message(unknown))
  }
}
