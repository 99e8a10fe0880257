/**
 What the route handlers receive and answer. A JSON response is a status and
 a body; request body fields are the values `request.json()` produced,
 reduced to the distinctions the handlers make.
 */
module Http {
  import opened Common
  import DbUtils

  /** A field that the handler passes to `new ObjectId(...)`: falsy (absent,
      `null`, `""`), a truthy value the constructor rejects, or a valid id. */
  datatype IdArg = NoId | BadId | IdOf(id: Id)

  /** A field whose JavaScript type the handler tests with `typeof`. */
  datatype FlagArg = FlagAbsent | FlagBool(b: bool) | FlagOther

  predicate IdPresent(arg: IdArg) { !arg.NoId? }

  /** The user object the authentication handlers return. */
  datatype UserView = UserView(id: Id, email: string, name: string, isPremium: bool)

  /** The activation request as the admin listing returns it. */
  datatype SerializedRequest = SerializedRequest(
    id: string, userId: string, userEmail: string, userName: string,
    linkId: string, pdfId: string, pdfTitle: string,
    status: DbUtils.Status, createdAt: Timestamp, processedAt: Option<Timestamp>)

  datatype Body =
    | ErrorBody(error: string)                          // { error }
    | SuccessBody                                       // { success: true }
    | PaymentLinkBody(paymentLink: string)              // { paymentLink }
    | UserBody(user: UserView)                          // { success: true, user }
    | RequestsBody(requests: seq<SerializedRequest>)    // { requests }

  /** `NextResponse.json(body, { status })`; the default status is 200. */
  datatype Response = Response(status: nat, body: Body)

  function Ok(body: Body): Response { Response(200, body) }
  function Error(status: nat, message: string): Response { Response(status, ErrorBody(message)) }
}
