/**
 The access rule of the PDF grid (components/pdf-grid.tsx): who may open or
 download a PDF, which badge it shows, and what a click on View or Download
 does to the component's state.
 */
module PdfGrid {
  import opened Common
  import DbUtils
  import AdminRoutes

  /** A PDF as the grid receives it from `/api/pdfs`. */
  datatype GridPdf = GridPdf(id: string, title: string, cloudinaryUrl: string, isFree: bool)

  /** The signed-in reader as the page passes it in. */
  datatype GridUser = GridUser(isPremium: bool, email: string)

  /** `hasAccessToPDF`: a free PDF is open to everyone; otherwise a reader
      must be signed in and have the PDF's id among the purchased ones. The
      reader's premium flag plays no part. */
  function HasAccess(pdf: GridPdf, user: Option<GridUser>, purchased: seq<string>): (ok: bool)
    ensures pdf.isFree ==> ok
    ensures !pdf.isFree && user.None? ==> !ok
    ensures !pdf.isFree && user.Some? ==> (ok <==> pdf.id in purchased)
  {
    if pdf.isFree then true
    else if user.None? then false
    else pdf.id in purchased
  }

  /** Access only grows with the purchased list. */
  lemma AccessMonotone(pdf: GridPdf, user: Option<GridUser>, purchased: seq<string>, more: seq<string>)
    requires forall id :: id in purchased ==> id in more
    requires HasAccess(pdf, user, purchased)
    ensures HasAccess(pdf, user, more)
  {
  }

  /** Being premium changes no access decision. */
  lemma AccessIgnoresPremium(pdf: GridPdf, email: string, purchased: seq<string>)
    ensures HasAccess(pdf, Some(GridUser(true, email)), purchased) == HasAccess(pdf, Some(GridUser(false, email)), purchased)
  {
  }

  /** An approval leaves every user's access to every PDF as it was: it sets
      the premium flag, which the rule ignores, and no purchased list. */
  lemma ApprovalLeavesAccessUnchanged(users: seq<DbUtils.User>, users': seq<DbUtils.User>,
                                      requests: seq<DbUtils.ActivationRequest>,
                                      requests': seq<DbUtils.ActivationRequest>,
                                      requestId: Id, userId: Id, now: Timestamp, i: nat, pdf: GridPdf)
    requires DbUtils.ApprovalApplied(users, users', requests, requests', requestId, userId, now)
    requires i < |users|
    ensures HasAccess(pdf, Some(GridUser(users'[i].isPremium, users'[i].email)), users'[i].purchasedPdfs)
         == HasAccess(pdf, Some(GridUser(users[i].isPremium, users[i].email)), users[i].purchasedPdfs)
  {
    AdminRoutes.ApprovalGrantsNoPdf(users, users', requests, requests', requestId, userId, now);
    assert users'[i].email == users[i].email;
  }

  datatype Badge = Free | Owned | Paid

  /** The badge of a card: "Free", else "Owned" with access, else "Paid". */
  function BadgeOf(pdf: GridPdf, user: Option<GridUser>, purchased: seq<string>): (b: Badge)
    ensures b == Free <==> pdf.isFree
    ensures b == Owned <==> !pdf.isFree && HasAccess(pdf, user, purchased)
    ensures b == Paid <==> !HasAccess(pdf, user, purchased)
  {
    if pdf.isFree then Free else if HasAccess(pdf, user, purchased) then Owned else Paid
  }

  /** The three-way choice `handleView` and `handleDownload` share. */
  datatype Decision = Open | AskLogin | AskPayment

  function Decide(pdf: GridPdf, user: Option<GridUser>, purchased: seq<string>): (d: Decision)
    ensures d == Open <==> HasAccess(pdf, user, purchased)
    ensures d == AskLogin <==> !HasAccess(pdf, user, purchased) && user.None?
    ensures d == AskPayment <==> !HasAccess(pdf, user, purchased) && user.Some?
  {
    if HasAccess(pdf, user, purchased) then Open
    else if user.None? then AskLogin
    else AskPayment
  }

  /** A started download: the URL fetched and the file name offered. */
  datatype Download = Download(url: string, fileName: string)

  /** The state of one grid. */
  class Grid {
    const user: Option<GridUser>
    var purchasedPdfs: seq<string>
    var showAuthModal: bool
    var showPaymentModal: bool
    var selectedPdf: Option<GridPdf>
    var viewingPdf: Option<string>
    var downloads: seq<Download>

    /** The initial `useState` values. */
    constructor (user: Option<GridUser>)
      ensures this.user == user && purchasedPdfs == []
      ensures !showAuthModal && !showPaymentModal && selectedPdf.None? && viewingPdf.None? && downloads == []
    {
      this.user := user;
      purchasedPdfs, downloads := [], [];
      showAuthModal, showPaymentModal := false, false;
      selectedPdf, viewingPdf := None, None;
    }

    /** The answer of `/api/user/purchased-pdfs` arrives: `response` is `None`
        when the fetch or the JSON parse throws, leaving the list as it was;
        a missing `purchasedPDFs` field reads as the empty list. */
    method ReceivePurchased(response: Option<Option<seq<string>>>)
      modifies this
      ensures response.None? ==> purchasedPdfs == old(purchasedPdfs)
      ensures response.Some? ==> purchasedPdfs == if response.value.Some? then response.value.value else []
      ensures showAuthModal == old(showAuthModal) && showPaymentModal == old(showPaymentModal)
      ensures selectedPdf == old(selectedPdf) && viewingPdf == old(viewingPdf) && downloads == old(downloads)
    {
      if response.Some? {
        purchasedPdfs := if response.value.Some? then response.value.value else [];
      }
    }

    /** `handleView`: with access the viewer opens on the PDF's URL; without,
        an anonymous reader gets the sign-in dialog and a signed-in one the
        payment dialog for this PDF. */
    method HandleView(pdf: GridPdf)
      modifies this
      ensures purchasedPdfs == old(purchasedPdfs) && downloads == old(downloads)
      ensures Decide(pdf, user, purchasedPdfs) == Open ==>
        viewingPdf == Some(pdf.cloudinaryUrl) &&
        showAuthModal == old(showAuthModal) && showPaymentModal == old(showPaymentModal) && selectedPdf == old(selectedPdf)
      ensures Decide(pdf, user, purchasedPdfs) == AskLogin ==>
        showAuthModal && viewingPdf == old(viewingPdf) &&
        showPaymentModal == old(showPaymentModal) && selectedPdf == old(selectedPdf)
      ensures Decide(pdf, user, purchasedPdfs) == AskPayment ==>
        showPaymentModal && selectedPdf == Some(pdf) &&
        viewingPdf == old(viewingPdf) && showAuthModal == old(showAuthModal)
    {
      if HasAccess(pdf, user, purchasedPdfs) {
        viewingPdf := Some(pdf.cloudinaryUrl);
        return;
      }
      if user.None? {
        showAuthModal := true;
        return;
      }
      selectedPdf := Some(pdf);
      showPaymentModal := true;
    }

    /** `handleDownload`: the same decision as `handleView`, except that with
        access a download of the PDF's URL named after its title starts. */
    method HandleDownload(pdf: GridPdf)
      modifies this
      ensures purchasedPdfs == old(purchasedPdfs) && viewingPdf == old(viewingPdf)
      ensures Decide(pdf, user, purchasedPdfs) == Open ==>
        downloads == old(downloads) + [Download(pdf.cloudinaryUrl, pdf.title + ".pdf")] &&
        showAuthModal == old(showAuthModal) && showPaymentModal == old(showPaymentModal) && selectedPdf == old(selectedPdf)
      ensures Decide(pdf, user, purchasedPdfs) != Open ==> downloads == old(downloads)
      ensures Decide(pdf, user, purchasedPdfs) == AskLogin ==>
        showAuthModal && showPaymentModal == old(showPaymentModal) && selectedPdf == old(selectedPdf)
      ensures Decide(pdf, user, purchasedPdfs) == AskPayment ==>
        showPaymentModal && selectedPdf == Some(pdf) && showAuthModal == old(showAuthModal)
    {
      if HasAccess(pdf, user, purchasedPdfs) {
        downloads := downloads + [Download(pdf.cloudinaryUrl, pdf.title + ".pdf")];
        return;
      }
      if user.None? {
        showAuthModal := true;
        return;
      }
      selectedPdf := Some(pdf);
      showPaymentModal := true;
    }
  }
}
