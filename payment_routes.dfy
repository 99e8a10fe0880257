/**
 The two payment handlers a signed-in reader calls: `POST /api/payment/get-link`
 hands out an unused payment link, `POST /api/payment/request-activation`
 records that the reader has paid through the link assigned to them. Each is
 an early-return validation chain followed by at most one store mutation.
 */
module PaymentRoutes {
  import opened Common
  import opened Http
  import DbUtils

  /** The fields of the get-link body; an absent or non-string field is `None`. */
  datatype GetLinkBody = GetLinkBody(userEmail: Option<string>, pdfId: Option<string>, pdfTitle: Option<string>)

  const GET_LINK_FAILED := "Failed to get payment link"
  const USER_EMAIL_REQUIRED := "User email required"
  const PDF_INFO_REQUIRED := "PDF information required"
  const NO_LINKS_AVAILABLE := "No payment links available at the moment. Please contact admin."

  /** The links before and after differ exactly in link `k`, which was
      unused and is now used by `email` at time `now`. */
  ghost predicate AllocatesAt(before: seq<DbUtils.PaymentLink>, after: seq<DbUtils.PaymentLink>,
                              k: int, email: string, now: Timestamp)
  {
    && |after| == |before|
    && 0 <= k < |before|
    && !before[k].isUsed
    && after[k] == before[k].(isUsed := true, usedBy := Some(email), usedAt := Some(now))
    && forall j :: 0 <= j < |before| && j != k ==> after[j] == before[j]
  }

  /** The body passes the two field checks of get-link. */
  predicate GetLinkFieldsPresent(body: GetLinkBody)
  {
    Present(body.userEmail) && Present(body.pdfId) && Present(body.pdfTitle)
  }

  /** `POST /api/payment/get-link`. `body` is `None` when `request.json()`
      throws or yields `null`. On success exactly one link changes, from
      unused to used by the caller's email, and its URL is returned. */
  method GetLink(store: DbUtils.Store, body: Option<GetLinkBody>, now: Timestamp) returns (resp: Response)
    requires store.Valid()
    modifies store
    ensures store.Valid()
    ensures store.users == old(store.users) && store.pdfs == old(store.pdfs)
    ensures store.requests == old(store.requests)
    ensures body.None? ==> resp == Error(500, GET_LINK_FAILED) && store.links == old(store.links)
    ensures body.Some? && !Present(body.value.userEmail) ==>
      resp == Error(400, USER_EMAIL_REQUIRED) && store.links == old(store.links)
    ensures body.Some? && Present(body.value.userEmail) && !(Present(body.value.pdfId) && Present(body.value.pdfTitle)) ==>
      resp == Error(400, PDF_INFO_REQUIRED) && store.links == old(store.links)
    ensures body.Some? && GetLinkFieldsPresent(body.value) && (forall l :: l in old(store.links) ==> l.isUsed) ==>
      resp == Error(404, NO_LINKS_AVAILABLE) && store.links == old(store.links)
    ensures body.Some? && GetLinkFieldsPresent(body.value) && (exists l :: l in old(store.links) && !l.isUsed) ==>
      exists k :: AllocatesAt(old(store.links), store.links, k, body.value.userEmail.value, now)
               && resp == Ok(PaymentLinkBody(old(store.links)[k].razorpayLink))
  {
    if body.None? {
      return Error(500, GET_LINK_FAILED);
    }
    var b := body.value;
    if !Present(b.userEmail) {
      return Error(400, USER_EMAIL_REQUIRED);
    }
    if !Present(b.pdfId) || !Present(b.pdfTitle) {
      return Error(400, PDF_INFO_REQUIRED);
    }
    var link := store.GetAvailablePaymentLink();
    if link.None? {
      return Error(404, NO_LINKS_AVAILABLE);
    }
    ghost var before := store.links;
    ghost var k :| 0 <= k < |before| && before[k] == link.value;
    store.AssignPaymentLink(link.value.id, b.userEmail.value, now);
    assert AllocatesAt(before, store.links, k, b.userEmail.value, now);
    resp := Ok(PaymentLinkBody(link.value.razorpayLink));
  }

  /** The user `getAuthUser` resolves from the session cookie. */
  datatype AuthUser = AuthUser(id: Id, email: string, name: string, isPremium: bool)

  /** The request-activation body: only `pdfId` is read. */
  datatype ActivationBody = ActivationBody(pdfId: IdArg)

  const NOT_AUTHENTICATED := "Not authenticated"
  const ACTIVATION_FAILED := "Failed to create activation request"
  const PDF_ID_REQUIRED := "PDF ID required"
  const NO_LINK_FOUND := "No payment link found. Please get a payment link first."
  const PDF_NOT_FOUND := "PDF not found"

  /** No link records `email` as its user. */
  ghost predicate NoLinkFor(links: seq<DbUtils.PaymentLink>, email: string)
  {
    forall l :: l in links ==> l.usedBy != Some(email)
  }

  /** No PDF has that id. */
  ghost predicate NoPdfWith(pdfs: seq<DbUtils.Pdf>, id: Id)
  {
    forall p :: p in pdfs ==> p.id != id
  }

  /** The request the handler stores for `user` and the link it found: pending,
      with no PDF reference although the handler knows the PDF. */
  function NewRequest(id: Id, user: AuthUser, linkId: Id, now: Timestamp): (r: DbUtils.ActivationRequest)
    ensures r.status == DbUtils.Pending && r.pdfId.None? && r.pdfTitle.None? && r.processedAt.None?
    ensures r.userId == user.id && r.userEmail == Some(user.email) && r.userName == Some(user.name)
    ensures r.id == id && r.linkId == linkId
  {
    DbUtils.ActivationRequest(id, user.id, Some(user.email), Some(user.name), linkId, None, None, DbUtils.Pending, now, None)
  }

  /** `POST /api/payment/request-activation`. `user` is what `getAuthUser`
      returned, `body` is `None` when `request.json()` throws or yields
      `null`, `newId` is the id the insert assigns. The checks run in order:
      session, body, pdfId, assigned link, the id's syntax, the PDF. */
  method RequestActivation(store: DbUtils.Store, user: Option<AuthUser>, body: Option<ActivationBody>,
                           newId: Id, now: Timestamp) returns (resp: Response)
    requires store.Valid()
    modifies store
    ensures store.Valid()
    ensures store.users == old(store.users) && store.pdfs == old(store.pdfs) && store.links == old(store.links)
    ensures user.None? ==> resp == Error(401, NOT_AUTHENTICATED) && store.requests == old(store.requests)
    ensures user.Some? && body.None? ==>
      resp == Error(500, ACTIVATION_FAILED) && store.requests == old(store.requests)
    ensures user.Some? && body.Some? && body.value.pdfId.NoId? ==>
      resp == Error(400, PDF_ID_REQUIRED) && store.requests == old(store.requests)
    ensures user.Some? && body.Some? && IdPresent(body.value.pdfId) && NoLinkFor(old(store.links), user.value.email) ==>
      resp == Error(404, NO_LINK_FOUND) && store.requests == old(store.requests)
    ensures user.Some? && body.Some? && body.value.pdfId.BadId? && !NoLinkFor(old(store.links), user.value.email) ==>
      resp == Error(500, ACTIVATION_FAILED) && store.requests == old(store.requests)
    ensures user.Some? && body.Some? && body.value.pdfId.IdOf? && !NoLinkFor(old(store.links), user.value.email) ==>
      if NoPdfWith(old(store.pdfs), body.value.pdfId.id) then
        resp == Error(404, PDF_NOT_FOUND) && store.requests == old(store.requests)
      else if exists r :: r in old(store.requests) && r.id == newId then
        resp == Error(500, ACTIVATION_FAILED) && store.requests == old(store.requests)
      else
        resp == Ok(SuccessBody) &&
        exists l :: l in old(store.links) && l.usedBy == Some(user.value.email) &&
          store.requests == old(store.requests) + [NewRequest(newId, user.value, l.id, now)]
  {
    if user.None? {
      return Error(401, NOT_AUTHENTICATED);
    }
    if body.None? {
      return Error(500, ACTIVATION_FAILED);
    }
    var u, pdfId := user.value, body.value.pdfId;
    if pdfId.NoId? {
      return Error(400, PDF_ID_REQUIRED);
    }
    var link := store.GetAssignedPaymentLink(u.email);
    if link.None? {
      return Error(404, NO_LINK_FOUND);
    }
    if pdfId.BadId? {
      // `new ObjectId(pdfId)` throws.
      return Error(500, ACTIVATION_FAILED);
    }
    var pdf := store.GetPdf(pdfId.id);
    if pdf.None? {
      return Error(404, PDF_NOT_FOUND);
    }
    var inserted := store.CreateActivationRequest(newId, u.id, u.email, u.name, link.value.id, now);
    if !inserted {
      return Error(500, ACTIVATION_FAILED);
    }
    assert store.requests == old(store.requests) + [NewRequest(newId, u, link.value.id, now)];
    resp := Ok(SuccessBody);
  }

  /** A reader who got a link through get-link passes the link check of
      request-activation: the assigned link is found by their email. */
  lemma GetLinkEnablesActivation(before: seq<DbUtils.PaymentLink>, after: seq<DbUtils.PaymentLink>,
                                 k: int, email: string, now: Timestamp)
    requires AllocatesAt(before, after, k, email, now)
    ensures !NoLinkFor(after, email)
  {
    assert after[k] in after && after[k].usedBy == Some(email);
  }
}
