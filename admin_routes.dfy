/**
 The administrator's handlers under `/api/admin`: the payment-link pool
 (add, delete), the activation workflow (approve, reject, list) and the free
 flag of a PDF. None of them checks an administrator session.
 */
module AdminRoutes {
  import opened Common
  import opened Http
  import JsText
  import DbUtils

  const ADD_LINK_FAILED := "Failed to add payment link"
  const PAYMENT_LINK_REQUIRED := "Payment link required"
  const INVALID_RAZORPAY_LINK := "Invalid Razorpay link"

  /** The format check of add-payment-link: the URL mentions "razorpay" or
      "rzp.io" anywhere. */
  predicate LooksLikeRazorpay(url: string)
  {
    JsText.Includes(url, "razorpay") || JsText.Includes(url, "rzp.io")
  }

  /** The format check is a substring test and nothing more: any text around
      an accepted link is accepted too. */
  lemma ExtendedLinkIsAccepted(pre: string, url: string, post: string)
    requires LooksLikeRazorpay(url)
    ensures LooksLikeRazorpay(pre + url + post)
  {
    if JsText.Includes(url, "razorpay") {
      JsText.ExtendedStringIncludes(pre, url, post, "razorpay");
    } else {
      JsText.ExtendedStringIncludes(pre, url, post, "rzp.io");
    }
  }

  /** `POST /api/admin/add-payment-link`. `body` is `None` when
      `request.json()` throws or yields `null`; `razorpayLink` is `None`
      when absent. */
  method AddPaymentLink(store: DbUtils.Store, body: Option<Option<string>>, newId: Id, now: Timestamp)
    returns (resp: Response)
    requires store.Valid()
    modifies store
    ensures store.Valid()
    ensures store.users == old(store.users) && store.pdfs == old(store.pdfs)
    ensures store.requests == old(store.requests)
    ensures body.None? ==> resp == Error(500, ADD_LINK_FAILED) && store.links == old(store.links)
    ensures body.Some? && !Present(body.value) ==>
      resp == Error(400, PAYMENT_LINK_REQUIRED) && store.links == old(store.links)
    ensures body.Some? && Present(body.value) && !LooksLikeRazorpay(body.value.value) ==>
      resp == Error(400, INVALID_RAZORPAY_LINK) && store.links == old(store.links)
    ensures body.Some? && Present(body.value) && LooksLikeRazorpay(body.value.value) ==>
      if forall l :: l in old(store.links) ==> l.id != newId then
        resp == Ok(SuccessBody) &&
        store.links == old(store.links) + [DbUtils.PaymentLink(newId, body.value.value, false, None, None, now)]
      else
        resp == Error(500, ADD_LINK_FAILED) && store.links == old(store.links)
  {
    if body.None? {
      return Error(500, ADD_LINK_FAILED);
    }
    var razorpayLink := body.value;
    if !Present(razorpayLink) {
      return Error(400, PAYMENT_LINK_REQUIRED);
    }
    if !LooksLikeRazorpay(razorpayLink.value) {
      return Error(400, INVALID_RAZORPAY_LINK);
    }
    var inserted := store.CreatePaymentLink(newId, razorpayLink.value, now);
    if !inserted {
      return Error(500, ADD_LINK_FAILED);
    }
    resp := Ok(SuccessBody);
  }

  const DELETE_LINK_FAILED := "Failed to delete payment link"
  const LINK_ID_REQUIRED := "Link ID required"

  /** `POST /api/admin/delete-payment-link`: removes the link with that id,
      used or not. */
  method DeletePaymentLink(store: DbUtils.Store, body: Option<IdArg>) returns (resp: Response)
    requires store.Valid()
    modifies store
    ensures store.Valid()
    ensures store.users == old(store.users) && store.pdfs == old(store.pdfs)
    ensures store.requests == old(store.requests)
    ensures body.None? ==> resp == Error(500, DELETE_LINK_FAILED) && store.links == old(store.links)
    ensures body == Some(NoId) ==> resp == Error(400, LINK_ID_REQUIRED) && store.links == old(store.links)
    ensures body == Some(BadId) ==> resp == Error(500, DELETE_LINK_FAILED) && store.links == old(store.links)
    ensures body.Some? && body.value.IdOf? ==>
      resp == Ok(SuccessBody) &&
      forall l :: l in store.links <==> l in old(store.links) && l.id != body.value.id
  {
    if body.None? {
      return Error(500, DELETE_LINK_FAILED);
    }
    var id := body.value;
    if id.NoId? {
      return Error(400, LINK_ID_REQUIRED);
    }
    if id.BadId? {
      return Error(500, DELETE_LINK_FAILED);
    }
    store.DeletePaymentLink(id.id);
    resp := Ok(SuccessBody);
  }

  /** The approve-activation body; a `pdfId` it may carry is never read. */
  datatype ApproveBody = ApproveBody(requestId: IdArg, userId: IdArg, pdfId: IdArg)

  const APPROVE_FAILED := "Failed to approve activation"
  const IDS_REQUIRED := "Request ID and User ID required"

  /** `POST /api/admin/approve-activation`: makes the user premium and marks
      the request approved, whatever its status was. */
  method ApproveActivation(store: DbUtils.Store, body: Option<ApproveBody>, now: Timestamp) returns (resp: Response)
    requires store.Valid()
    modifies store
    ensures store.Valid()
    ensures store.pdfs == old(store.pdfs) && store.links == old(store.links)
    ensures body.None? ==> resp == Error(500, APPROVE_FAILED) && Unchanged(store, old(store.users), old(store.requests))
    ensures body.Some? && !(IdPresent(body.value.requestId) && IdPresent(body.value.userId)) ==>
      resp == Error(400, IDS_REQUIRED) && Unchanged(store, old(store.users), old(store.requests))
    ensures body.Some? && IdPresent(body.value.requestId) && IdPresent(body.value.userId) &&
            (body.value.requestId.BadId? || body.value.userId.BadId?) ==>
      resp == Error(500, APPROVE_FAILED) && Unchanged(store, old(store.users), old(store.requests))
    ensures body.Some? && body.value.requestId.IdOf? && body.value.userId.IdOf? ==>
      resp == Ok(SuccessBody) &&
      DbUtils.ApprovalApplied(old(store.users), store.users, old(store.requests), store.requests,
                              body.value.requestId.id, body.value.userId.id, now)
  {
    if body.None? {
      return Error(500, APPROVE_FAILED);
    }
    var b := body.value;
    if !IdPresent(b.requestId) || !IdPresent(b.userId) {
      return Error(400, IDS_REQUIRED);
    }
    if b.requestId.BadId? || b.userId.BadId? {
      return Error(500, APPROVE_FAILED);
    }
    store.ApproveActivationRequest(b.requestId.id, b.userId.id, now);
    resp := Ok(SuccessBody);
  }

  /** The users and requests of the store are the given ones. */
  ghost predicate Unchanged(store: DbUtils.Store, users: seq<DbUtils.User>, requests: seq<DbUtils.ActivationRequest>)
    reads store
  {
    store.users == users && store.requests == requests
  }

  /** The approval's outcome is fixed by the request id, the user id and
      the time: a `pdfId` in the body, which `DbUtils.ApprovalApplied` does
      not mention, cannot change it. */
  lemma ApprovalOutcomeIsDetermined(requestId: Id, userId: Id, now: Timestamp,
                                    users: seq<DbUtils.User>, requests: seq<DbUtils.ActivationRequest>,
                                    u1: seq<DbUtils.User>, r1: seq<DbUtils.ActivationRequest>,
                                    u2: seq<DbUtils.User>, r2: seq<DbUtils.ActivationRequest>)
    requires DbUtils.ApprovalApplied(users, u1, requests, r1, requestId, userId, now)
    requires DbUtils.ApprovalApplied(users, u2, requests, r2, requestId, userId, now)
    ensures u1 == u2 && r1 == r2
  {
    assert forall i :: 0 <= i < |u1| ==> u1[i] == u2[i];
    assert forall i :: 0 <= i < |r1| ==> r1[i] == r2[i];
  }

  /** An approval grants no PDF: every user's purchased list is what it was. */
  lemma ApprovalGrantsNoPdf(users: seq<DbUtils.User>, users': seq<DbUtils.User>,
                            requests: seq<DbUtils.ActivationRequest>,
                            requests': seq<DbUtils.ActivationRequest>,
                            requestId: Id, userId: Id, now: Timestamp)
    requires DbUtils.ApprovalApplied(users, users', requests, requests', requestId, userId, now)
    ensures forall i :: 0 <= i < |users'| ==> users'[i].purchasedPdfs == users[i].purchasedPdfs
  {
    forall i | 0 <= i < |users'| ensures users'[i].purchasedPdfs == users[i].purchasedPdfs {
      assert users'[i] == users[i] || users'[i] == users[i].(isPremium := true);
    }
  }

  const REJECT_FAILED := "Failed to reject activation"
  const REQUEST_ID_REQUIRED := "Request ID required"

  /** `POST /api/admin/reject-activation`: marks the request rejected,
      whatever its status was, an approved one included. */
  method RejectActivation(store: DbUtils.Store, body: Option<IdArg>, now: Timestamp) returns (resp: Response)
    requires store.Valid()
    modifies store
    ensures store.Valid()
    ensures store.users == old(store.users) && store.pdfs == old(store.pdfs) && store.links == old(store.links)
    ensures body.None? ==> resp == Error(500, REJECT_FAILED) && store.requests == old(store.requests)
    ensures body == Some(NoId) ==> resp == Error(400, REQUEST_ID_REQUIRED) && store.requests == old(store.requests)
    ensures body == Some(BadId) ==> resp == Error(500, REJECT_FAILED) && store.requests == old(store.requests)
    ensures body.Some? && body.value.IdOf? ==>
      resp == Ok(SuccessBody) &&
      |store.requests| == |old(store.requests)| &&
      forall i :: 0 <= i < |store.requests| ==>
        store.requests[i] == if old(store.requests)[i].id == body.value.id
                             then old(store.requests)[i].(status := DbUtils.Rejected, processedAt := Some(now))
                             else old(store.requests)[i]
  {
    if body.None? {
      return Error(500, REJECT_FAILED);
    }
    var requestId := body.value;
    if requestId.NoId? {
      return Error(400, REQUEST_ID_REQUIRED);
    }
    if requestId.BadId? {
      return Error(500, REJECT_FAILED);
    }
    store.RejectActivationRequest(requestId.id, now);
    resp := Ok(SuccessBody);
  }

  /** The toggle-free body. */
  datatype ToggleBody = ToggleBody(id: IdArg, isFree: FlagArg)

  const TOGGLE_FAILED := "Failed to update PDF"
  const INVALID_REQUEST := "Invalid request"

  /** `POST /api/admin/toggle-free`: sets the free flag of the PDF with that
      id; `isFree` must be a boolean. */
  method ToggleFree(store: DbUtils.Store, body: Option<ToggleBody>) returns (resp: Response)
    requires store.Valid()
    modifies store
    ensures store.Valid()
    ensures store.users == old(store.users) && store.links == old(store.links)
    ensures store.requests == old(store.requests)
    ensures body.None? ==> resp == Error(500, TOGGLE_FAILED) && store.pdfs == old(store.pdfs)
    ensures body.Some? && (body.value.id.NoId? || !body.value.isFree.FlagBool?) ==>
      resp == Error(400, INVALID_REQUEST) && store.pdfs == old(store.pdfs)
    ensures body.Some? && body.value.id.BadId? && body.value.isFree.FlagBool? ==>
      resp == Error(500, TOGGLE_FAILED) && store.pdfs == old(store.pdfs)
    ensures body.Some? && body.value.id.IdOf? && body.value.isFree.FlagBool? ==>
      resp == Ok(SuccessBody) &&
      |store.pdfs| == |old(store.pdfs)| &&
      forall i :: 0 <= i < |store.pdfs| ==>
        store.pdfs[i] == if old(store.pdfs)[i].id == body.value.id.id
                         then old(store.pdfs)[i].(isFree := body.value.isFree.b)
                         else old(store.pdfs)[i]
  {
    if body.None? {
      return Error(500, TOGGLE_FAILED);
    }
    var b := body.value;
    if b.id.NoId? || !b.isFree.FlagBool? {
      return Error(400, INVALID_REQUEST);
    }
    if b.id.BadId? {
      return Error(500, TOGGLE_FAILED);
    }
    store.UpdatePdfFreeStatus(b.id.id, b.isFree.b);
    resp := Ok(SuccessBody);
  }

  /** `value || ""` for an optional text field. */
  function OrEmpty(field: Option<string>): (text: string)
    ensures field.Some? ==> text == field.value
    ensures field.None? ==> text == ""
  {
    if field.Some? then field.value else ""
  }

  /** One element of the activation-requests listing: the ids as text, the
      optional text fields defaulted to "", the status and times copied. */
  function SerializeRequest(r: DbUtils.ActivationRequest): (s: SerializedRequest)
    ensures s.id == r.id && s.userId == r.userId && s.linkId == r.linkId
    ensures s.userEmail == OrEmpty(r.userEmail) && s.userName == OrEmpty(r.userName)
    ensures s.pdfId == OrEmpty(r.pdfId) && s.pdfTitle == OrEmpty(r.pdfTitle)
    ensures s.status == r.status && s.createdAt == r.createdAt && s.processedAt == r.processedAt
  {
    SerializedRequest(r.id, r.userId, OrEmpty(r.userEmail), OrEmpty(r.userName), r.linkId,
                      OrEmpty(r.pdfId), OrEmpty(r.pdfTitle), r.status, r.createdAt, r.processedAt)
  }

  /** `requests.map(...)`: one serialized element per request, in order. */
  function SerializeRequests(requests: seq<DbUtils.ActivationRequest>): (out: seq<SerializedRequest>)
    ensures |out| == |requests|
    ensures forall i :: 0 <= i < |requests| ==> out[i] == SerializeRequest(requests[i])
  {
    if requests == [] then [] else [SerializeRequest(requests[0])] + SerializeRequests(requests[1..])
  }

  /** `GET /api/admin/activation-requests`: every stored request, serialized,
      in the order the store returns them. */
  method ListActivationRequests(store: DbUtils.Store) returns (resp: Response)
    ensures resp.status == 200 && resp.body.RequestsBody?
    ensures |resp.body.requests| == |store.requests|
    ensures forall i :: 0 <= i < |store.requests| ==>
      resp.body.requests[i].id == store.requests[i].id &&
      resp.body.requests[i].status == store.requests[i].status &&
      resp.body.requests[i].pdfId == OrEmpty(store.requests[i].pdfId)
    ensures resp == Ok(RequestsBody(SerializeRequests(store.requests)))
  {
    var all := store.GetAllActivationRequests();
    resp := Ok(RequestsBody(SerializeRequests(all)));
  }

  /** A request stored by request-activation is listed with an empty pdfId
      and pdfTitle: the admin cannot tell which PDF it was for. */
  lemma StoredRequestsListWithoutPdf(id: Id, userId: Id, email: string, name: string, linkId: Id, now: Timestamp)
    ensures var s := SerializeRequest(DbUtils.ActivationRequest(id, userId, Some(email), Some(name), linkId,
                                                                None, None, DbUtils.Pending, now, None));
            s.pdfId == "" && s.pdfTitle == "" && s.userEmail == email && s.userName == name
  {
  }
}
