/**
 The persistence helpers of the application: four collections (users, pdfs,
 payment_links, activation_requests) held by one `Store`, with one method per
 helper. Every helper performs a single MongoDB operation; the operations'
 semantics come from module `Collection`. New `_id` values and the current
 time are supplied by the caller, since the driver and the clock are outside
 the model.
 */
module DbUtils {
  import opened Common
  import opened Collection

  datatype Status = Pending | Approved | Rejected

  /** A user document. `purchasedPdfs` is the field the purchased-PDFs route
      reads; a document without it reads as the empty list. */
  datatype User = User(
    id: Id, email: string, password: string, name: string,
    isPremium: bool, purchasedPdfs: seq<Id>, createdAt: Timestamp)

  datatype Pdf = Pdf(
    id: Id, title: string, branch: string, semester: int, subject: string,
    cloudinaryUrl: string, cloudinaryPublicId: string, isFree: bool, uploadedAt: Timestamp)

  datatype PaymentLink = PaymentLink(
    id: Id, razorpayLink: string, isUsed: bool,
    usedBy: Option<string>, usedAt: Option<Timestamp>, createdAt: Timestamp)

  /** An activation request document. The display fields are optional because
      the collection also holds documents written by other versions of the
      application; `pdfId` and `pdfTitle` are never written by this helper set. */
  datatype ActivationRequest = ActivationRequest(
    id: Id, userId: Id, userEmail: Option<string>, userName: Option<string>,
    linkId: Id, pdfId: Option<Id>, pdfTitle: Option<string>,
    status: Status, createdAt: Timestamp, processedAt: Option<Timestamp>)

  // Keys of the four collections.
  function UserKey(u: User): Id { u.id }
  function PdfKey(p: Pdf): Id { p.id }
  function LinkKey(l: PaymentLink): Id { l.id }
  function RequestKey(r: ActivationRequest): Id { r.id }

  // Filters used by the helpers besides `{ _id: id }`.
  function WithEmail(email: string): User -> bool { (u: User) => u.email == email }
  function Unused(): PaymentLink -> bool { (l: PaymentLink) => !l.isUsed }
  function UsedBy(email: string): PaymentLink -> bool { (l: PaymentLink) => l.usedBy == Some(email) }

  // The `$set` updates of the helpers.
  function SetFree(isFree: bool): Pdf -> Pdf { (p: Pdf) => p.(isFree := isFree) }
  function MarkUsed(email: string, now: Timestamp): PaymentLink -> PaymentLink
  {
    (l: PaymentLink) => l.(isUsed := true, usedBy := Some(email), usedAt := Some(now))
  }
  function SetPremium(): User -> User { (u: User) => u.(isPremium := true) }
  function SetStatus(status: Status, now: Timestamp): ActivationRequest -> ActivationRequest
  {
    (r: ActivationRequest) => r.(status := status, processedAt := Some(now))
  }

  /** The ids of the links marked used. */
  function UsedIds(links: seq<PaymentLink>): set<Id>
  {
    set l | l in links && l.isUsed :: l.id
  }

  /** `assignPaymentLink` never takes a link back: every id that was used is
      still used afterwards, and every unused link afterwards was already
      there, unchanged. */
  lemma AssignNeverFreesLinks(links: seq<PaymentLink>, linkId: Id, email: string, now: Timestamp)
    ensures UsedIds(links) <= UsedIds(UpdateOne(links, HasKey(LinkKey, linkId), MarkUsed(email, now)))
    ensures forall l :: l in UpdateOne(links, HasKey(LinkKey, linkId), MarkUsed(email, now)) && !l.isUsed ==> l in links
  {
    var after := UpdateOne(links, HasKey(LinkKey, linkId), MarkUsed(email, now));
    forall id | id in UsedIds(links) ensures id in UsedIds(after) {
      var i :| 0 <= i < |links| && links[i].isUsed && links[i].id == id;
      assert after[i].id == id && after[i].isUsed;
    }
    forall l | l in after && !l.isUsed ensures l in links {
      var i :| 0 <= i < |after| && after[i] == l;
      assert after[i] == links[i];
    }
  }

  /** After `assignPaymentLink(id, email)` on a link that exists,
      `getAssignedPaymentLink(email)` finds a link. */
  lemma AssignedLinkIsFound(links: seq<PaymentLink>, linkId: Id, email: string, now: Timestamp)
    requires exists l :: l in links && l.id == linkId
    ensures FindOne(UpdateOne(links, HasKey(LinkKey, linkId), MarkUsed(email, now)), UsedBy(email)).Some?
  {
    var after := UpdateOne(links, HasKey(LinkKey, linkId), MarkUsed(email, now));
    var k := FirstMatch(links, HasKey(LinkKey, linkId)).value;
    assert UsedBy(email)(after[k]);
    assert after[k] in after;
  }

  /** The effect of `approveActivationRequest`: the user with `userId` is
      premium, the request with `requestId` is approved at `now`, and every
      other user and request is as it was, whatever the request's status. */
  ghost predicate ApprovalApplied(users: seq<User>, users': seq<User>,
                                  requests: seq<ActivationRequest>, requests': seq<ActivationRequest>,
                                  requestId: Id, userId: Id, now: Timestamp)
  {
    && |users'| == |users| && |requests'| == |requests|
    && (forall i :: 0 <= i < |users| ==>
          users'[i] == if users[i].id == userId then users[i].(isPremium := true) else users[i])
    && (forall i :: 0 <= i < |requests| ==>
          requests'[i] == if requests[i].id == requestId
                          then requests[i].(status := Approved, processedAt := Some(now))
                          else requests[i])
  }

  class Store {
    var users: seq<User>
    var pdfs: seq<Pdf>
    var links: seq<PaymentLink>
    var requests: seq<ActivationRequest>

    /** Every collection keeps its `_id` values unique. */
    ghost predicate Valid()
      reads this
    {
      && UniqueKeys(users, UserKey)
      && UniqueKeys(pdfs, PdfKey)
      && UniqueKeys(links, LinkKey)
      && UniqueKeys(requests, RequestKey)
    }

    constructor ()
      ensures Valid()
      ensures users == [] && pdfs == [] && links == [] && requests == []
    {
      users, pdfs, links, requests := [], [], [], [];
    }

    /** `getUserByEmail` (lib/db-utils.ts): some user with that email, or
        none exactly when there is no such user. */
    method GetUserByEmail(email: string) returns (user: Option<User>)
      ensures user.Some? ==> user.value in users && user.value.email == email
      ensures user.None? <==> forall u :: u in users ==> u.email != email
    {
      user := FindOne(users, WithEmail(email));
    }

    /** `createUser`: inserts the user with no purchased PDFs; the insert
        fails, changing nothing, when the id is already taken. */
    method CreateUser(id: Id, email: string, password: string, name: string, isPremium: bool, now: Timestamp)
      returns (inserted: bool)
      requires Valid()
      modifies this
      ensures Valid()
      ensures inserted <==> forall u :: u in old(users) ==> u.id != id
      ensures users == if inserted then old(users) + [User(id, email, password, name, isPremium, [], now)]
                       else old(users)
      ensures pdfs == old(pdfs) && links == old(links) && requests == old(requests)
    {
      inserted := FindOne(users, HasKey(UserKey, id)).None?;
      if inserted {
        var user := User(id, email, password, name, isPremium, [], now);
        AppendKeepsKeys(users, UserKey, user);
        users := users + [user];
      }
    }

    /** `findOne({ _id })` on pdfs, as the request-activation route does it. */
    method GetPdf(id: Id) returns (pdf: Option<Pdf>)
      requires Valid()
      ensures pdf.Some? ==> pdf.value in pdfs && pdf.value.id == id
      ensures pdf.None? <==> forall p :: p in pdfs ==> p.id != id
    {
      pdf := FindOne(pdfs, HasKey(PdfKey, id));
    }

    /** `createPDF`: inserts the PDF metadata; fails on a taken id. */
    method CreatePdf(pdf: Pdf) returns (inserted: bool)
      requires Valid()
      modifies this
      ensures Valid()
      ensures inserted <==> forall p :: p in old(pdfs) ==> p.id != pdf.id
      ensures pdfs == if inserted then old(pdfs) + [pdf] else old(pdfs)
      ensures users == old(users) && links == old(links) && requests == old(requests)
    {
      inserted := FindOne(pdfs, HasKey(PdfKey, pdf.id)).None?;
      if inserted {
        AppendKeepsKeys(pdfs, PdfKey, pdf);
        pdfs := pdfs + [pdf];
      }
    }

    /** `updatePDFFreeStatus`: the PDF with that id gets the given free flag
        and nothing else changes. */
    method UpdatePdfFreeStatus(id: Id, isFree: bool)
      requires Valid()
      modifies this
      ensures Valid()
      ensures |pdfs| == |old(pdfs)|
      ensures forall i :: 0 <= i < |pdfs| ==>
        pdfs[i] == if old(pdfs)[i].id == id then old(pdfs)[i].(isFree := isFree) else old(pdfs)[i]
      ensures users == old(users) && links == old(links) && requests == old(requests)
    {
      UpdateOneByKey(pdfs, PdfKey, id, SetFree(isFree));
      UpdateOneKeepsKeys(pdfs, PdfKey, HasKey(PdfKey, id), SetFree(isFree));
      pdfs := UpdateOne(pdfs, HasKey(PdfKey, id), SetFree(isFree));
    }

    /** `createPaymentLink`: appends one unused link; fails on a taken id. */
    method CreatePaymentLink(id: Id, razorpayLink: string, now: Timestamp) returns (inserted: bool)
      requires Valid()
      modifies this
      ensures Valid()
      ensures inserted <==> forall l :: l in old(links) ==> l.id != id
      ensures links == if inserted then old(links) + [PaymentLink(id, razorpayLink, false, None, None, now)]
                       else old(links)
      ensures users == old(users) && pdfs == old(pdfs) && requests == old(requests)
    {
      inserted := FindOne(links, HasKey(LinkKey, id)).None?;
      if inserted {
        var link := PaymentLink(id, razorpayLink, false, None, None, now);
        AppendKeepsKeys(links, LinkKey, link);
        links := links + [link];
      }
    }

    /** `getAvailablePaymentLink`: some unused link, or none exactly when
        every link is used. */
    method GetAvailablePaymentLink() returns (link: Option<PaymentLink>)
      ensures link.Some? ==> link.value in links && !link.value.isUsed
      ensures link.None? <==> forall l :: l in links ==> l.isUsed
    {
      link := FindOne(links, Unused());
    }

    /** `assignPaymentLink`: the link with that id becomes used by `userEmail`
        (whatever its previous state); every other link is unchanged. */
    method AssignPaymentLink(linkId: Id, userEmail: string, now: Timestamp)
      requires Valid()
      modifies this
      ensures Valid()
      ensures |links| == |old(links)|
      ensures forall i :: 0 <= i < |links| ==>
        links[i] == if old(links)[i].id == linkId
                    then old(links)[i].(isUsed := true, usedBy := Some(userEmail), usedAt := Some(now))
                    else old(links)[i]
      ensures links == UpdateOne(old(links), HasKey(LinkKey, linkId), MarkUsed(userEmail, now))
      ensures users == old(users) && pdfs == old(pdfs) && requests == old(requests)
    {
      UpdateOneByKey(links, LinkKey, linkId, MarkUsed(userEmail, now));
      UpdateOneKeepsKeys(links, LinkKey, HasKey(LinkKey, linkId), MarkUsed(userEmail, now));
      links := UpdateOne(links, HasKey(LinkKey, linkId), MarkUsed(userEmail, now));
    }

    /** `getAssignedPaymentLink`: some link used by that email, or none
        exactly when no link records that email. */
    method GetAssignedPaymentLink(userEmail: string) returns (link: Option<PaymentLink>)
      ensures link.Some? ==> link.value in links && link.value.usedBy == Some(userEmail)
      ensures link.None? <==> forall l :: l in links ==> l.usedBy != Some(userEmail)
    {
      link := FindOne(links, UsedBy(userEmail));
    }

    /** `deletePaymentLink`: removes the link with that id, used or not;
        the other links keep their order. */
    method DeletePaymentLink(id: Id)
      requires Valid()
      modifies this
      ensures Valid()
      ensures links == DeleteOne(old(links), HasKey(LinkKey, id))
      ensures forall l :: l in links <==> l in old(links) && l.id != id
      ensures users == old(users) && pdfs == old(pdfs) && requests == old(requests)
    {
      DeleteOneKeepsKeys(links, LinkKey, HasKey(LinkKey, id));
      DeleteOneByKey(links, LinkKey, id);
      links := DeleteOne(links, HasKey(LinkKey, id));
    }

    /** `getAllActivationRequests`: every request (the newest-first sort is
        not modelled). */
    method GetAllActivationRequests() returns (all: seq<ActivationRequest>)
      ensures all == requests
    {
      all := requests;
    }

    /** `createActivationRequest`: inserts one pending request carrying the
        user's id, email and name and the link id, and no PDF reference;
        fails on a taken id. */
    method CreateActivationRequest(id: Id, userId: Id, userEmail: string, userName: string, linkId: Id, now: Timestamp)
      returns (inserted: bool)
      requires Valid()
      modifies this
      ensures Valid()
      ensures inserted <==> forall r :: r in old(requests) ==> r.id != id
      ensures requests == if inserted
        then old(requests) + [ActivationRequest(id, userId, Some(userEmail), Some(userName), linkId, None, None, Pending, now, None)]
        else old(requests)
      ensures users == old(users) && pdfs == old(pdfs) && links == old(links)
    {
      inserted := FindOne(requests, HasKey(RequestKey, id)).None?;
      if inserted {
        var request := ActivationRequest(id, userId, Some(userEmail), Some(userName), linkId, None, None, Pending, now, None);
        AppendKeepsKeys(requests, RequestKey, request);
        requests := requests + [request];
      }
    }

    /** `approveActivationRequest`: sets the global premium flag of the user
        with that id, then marks the request approved, whatever its previous
        status. No PDF is granted: `purchasedPdfs` is untouched. */
    method ApproveActivationRequest(requestId: Id, userId: Id, now: Timestamp)
      requires Valid()
      modifies this
      ensures Valid()
      ensures ApprovalApplied(old(users), users, old(requests), requests, requestId, userId, now)
      ensures pdfs == old(pdfs) && links == old(links)
    {
      UpdateOneByKey(users, UserKey, userId, SetPremium());
      UpdateOneKeepsKeys(users, UserKey, HasKey(UserKey, userId), SetPremium());
      users := UpdateOne(users, HasKey(UserKey, userId), SetPremium());
      UpdateOneByKey(requests, RequestKey, requestId, SetStatus(Approved, now));
      UpdateOneKeepsKeys(requests, RequestKey, HasKey(RequestKey, requestId), SetStatus(Approved, now));
      requests := UpdateOne(requests, HasKey(RequestKey, requestId), SetStatus(Approved, now));
    }

    /** `rejectActivationRequest`: marks the request rejected, whatever its
        previous status; users are untouched. */
    method RejectActivationRequest(requestId: Id, now: Timestamp)
      requires Valid()
      modifies this
      ensures Valid()
      ensures |requests| == |old(requests)|
      ensures forall i :: 0 <= i < |requests| ==>
        requests[i] == if old(requests)[i].id == requestId
                       then old(requests)[i].(status := Rejected, processedAt := Some(now))
                       else old(requests)[i]
      ensures users == old(users) && pdfs == old(pdfs) && links == old(links)
    {
      UpdateOneByKey(requests, RequestKey, requestId, SetStatus(Rejected, now));
      UpdateOneKeepsKeys(requests, RequestKey, HasKey(RequestKey, requestId), SetStatus(Rejected, now));
      requests := UpdateOne(requests, HasKey(RequestKey, requestId), SetStatus(Rejected, now));
    }
  }
}
