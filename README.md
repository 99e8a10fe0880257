# exam-preparation-next: payment links, activation requests and access

This Dafny project models the server core of a site that distributes PDF
notes for the Faculty of Engineering and Technology.

- **Access.** Free PDFs are open to everyone. For a paid PDF the site hands
  the reader, named by email, a one-time Razorpay payment link. The reader then files
  an activation request, and an administrator approves or rejects it. An
  approval unlocks no PDF. It sets the reader's `isPremium` flag, but the
  grid decides access from the reader's `purchasedPDFs`, which no route
  writes (see below).
- **The store.** The four MongoDB collections (users, pdfs, payment_links,
  activation_requests) are `seq` fields of one `DbUtils.Store` object. Each
  modelled helper of `lib/db-utils.ts` is a method of the store. The writers
  reassign those fields, and the readers leave them unchanged.
- **Collection operations.** `findOne`, `updateOne` and `deleteOne` act on the
  first matching document (module `Collection`). A duplicate `_id` makes an
  insert fail. `Store.Valid()` keeps every `_id` unique.
- **Route handlers.** Each handler is an early-return validation chain. It
  answers a `Response` (status and JSON body) and performs at most one store
  mutation. Every contract states the answer and the new store for each
  branch, in the handler's own order of checks.
- **Request bodies.** A body that `request.json()` cannot produce is `None`.
  A text field is an `Option<string>`: a field that is absent, null or empty
  counts as missing. A field handed to `new ObjectId(...)` is an `IdArg`: no
  id, an id the constructor rejects (the handler's catch answers 500), or a
  valid id.
- **Pure helpers.** These are modelled as functions with their properties
  proved:
  - the lowercase base16 rendering of the password digest (section 8 of
    RFC 4648), with the digest itself a parameter;
  - `slugify` and the upload's public id;
  - the serialization of activation requests;
  - the syllabus lookups;
  - the PDF grid's access rule and its View/Download decision.

Several things the code does are at odds with the code around it. The
model does what the code does:

- The grid reads access from the reader's `purchasedPDFs`
  (components/pdf-grid.tsx:68-72). No handler writes that list. Approving an
  activation request sets the user's global `isPremium` flag instead
  (lib/db-utils.ts:172), and the grid ignores that flag. So an approval
  changes no one's access (`PdfGrid.ApprovalLeavesAccessUnchanged`).
- Request-activation passes the PDF's id and title to
  `createActivationRequest` (app/api/payment/request-activation/route.ts:39).
  That helper does not store them (lib/db-utils.ts:142-152), so the admin
  listing shows every request with empty `pdfId`/`pdfTitle`. The
  administrator dashboard refuses to approve a request whose `pdfId` is
  empty (components/admin-dashboard.tsx:234, 721). Requests filed through
  this route therefore cannot be approved from the dashboard.
- Approve and reject do not check the request's current status. No route
  refuses to process a request that was already approved or rejected, so
  either one overwrites the earlier decision. Only the administrator
  dashboard guards this: it shows the Approve and Reject buttons for
  pending requests alone (components/admin-dashboard.tsx:714).
- The approve handler reads no `pdfId`.
- Request-activation does not check whether the reader already has access
  or is already premium.

## Model

| member | source | states |
|---|---|---|
| `Collection.FindOne` | lib/db-utils.ts:60-63 | `findOne` returns a matching document from the collection, and none exactly when no document matches |
| `Collection.UpdateOne` | lib/db-utils.ts:125-130 | `updateOne` replaces the first matching document by its update, keeps the length, and leaves the collection unchanged when nothing matches |
| `Collection.DeleteOne` | lib/db-utils.ts:137-140 | `deleteOne` removes the first matching document and keeps the order of the others; with no match nothing changes |
| `Collection.UpdateOneByKey` | lib/db-utils.ts:101-104 | with unique `_id`s, an update by `_id` changes exactly the document with that id and no other |
| `Collection.DeleteOneByKey` | lib/db-utils.ts:137-140 | with unique `_id`s, a document survives a delete by `_id` exactly when its id differs |
| `Collection.UpdateOneKeepsKeys` | lib/db-utils.ts:101-104 | an update that keeps ids keeps them unique |
| `Collection.DeleteOneKeepsKeys` | lib/db-utils.ts:137-140 | a deletion keeps ids unique and only removes documents |
| `Collection.AppendKeepsKeys` | lib/db-utils.ts:65-71 | inserting a document with a new id keeps ids unique |
| `DbUtils.Store.constructor` | lib/db-utils.ts:55-58 | the four collections start empty and valid |
| `DbUtils.Store.GetUserByEmail` | lib/db-utils.ts:60-63 | returns a user with that email, or none exactly when no user has it |
| `DbUtils.Store.CreateUser` | lib/db-utils.ts:65-71 | inserts the user with the given fields and no purchased PDFs, iff the id is new; the other collections are untouched |
| `DbUtils.Store.GetPdf` | app/api/payment/request-activation/route.ts:27-29 | returns the PDF with that id, or none exactly when there is none |
| `DbUtils.Store.CreatePdf` | lib/db-utils.ts:88-94 | appends the PDF iff its id is new; nothing else changes |
| `DbUtils.Store.UpdatePdfFreeStatus` | lib/db-utils.ts:101-104 | the PDF with that id gets the flag, every other PDF and collection is unchanged |
| `DbUtils.Store.CreatePaymentLink` | lib/db-utils.ts:106-113 | appends one link with that URL, unused, with no user and no use time, iff the id is new; existing links are unchanged |
| `DbUtils.Store.GetAvailablePaymentLink` | lib/db-utils.ts:120-123 | returns an unused link, and none exactly when every link is used |
| `DbUtils.Store.AssignPaymentLink` | lib/db-utils.ts:125-130 | the link with that id becomes used by the email at that time, whatever its state; every other link is unchanged |
| `DbUtils.Store.GetAssignedPaymentLink` | lib/db-utils.ts:132-135 | returns a link whose user is that email, and none exactly when no link records it |
| `DbUtils.Store.DeletePaymentLink` | lib/db-utils.ts:137-140 | removes the link with that id, used or not; the remaining links are exactly the others, in order |
| `DbUtils.Store.GetAllActivationRequests` | lib/db-utils.ts:163-166 | returns every stored request |
| `DbUtils.Store.CreateActivationRequest` | lib/db-utils.ts:142-152 | inserts one pending request with the user's id, email, name and the link id, no PDF id or title and no processed time, iff the id is new |
| `DbUtils.Store.ApproveActivationRequest` | lib/db-utils.ts:168-178 | that user becomes premium and that request approved with the processed time, whatever its status; purchased lists, PDFs and links are unchanged |
| `DbUtils.Store.RejectActivationRequest` | lib/db-utils.ts:180-185 | that request becomes rejected with the processed time, whatever its status; users are untouched |
| `DbUtils.AssignNeverFreesLinks` | lib/db-utils.ts:106-130 | assigning never makes a used link unused, and creates no unused link |
| `DbUtils.AssignedLinkIsFound` | lib/db-utils.ts:125-135 | after assigning an existing link to an email, looking up the link of that email finds one |
| `PaymentRoutes.GetLink` | app/api/payment/get-link/route.ts:5-34 | body failure 500, no email 400, no PDF id or title 400, no unused link 404 with the contact-admin message, each with the store unchanged; otherwise exactly one link goes from unused to used by the email, and its URL is returned |
| `PaymentRoutes.NewRequest` | app/api/payment/request-activation/route.ts:35-39 | the stored request is pending and carries the caller's id, email and name and the link id, but no PDF |
| `PaymentRoutes.RequestActivation` | app/api/payment/request-activation/route.ts:6-46 | checks in order: session 401, body 500, PDF id 400, assigned link 404, malformed id 500, unknown PDF 404, taken id 500, with no request created on failure; on success exactly one pending request for the caller and a link assigned to them is appended |
| `PaymentRoutes.GetLinkEnablesActivation` | app/api/payment/request-activation/route.ts:21-25 | after get-link hands out a link to an email, request-activation's assigned-link check passes for that email |
| `AdminRoutes.ExtendedLinkIsAccepted` | app/api/admin/add-payment-link/route.ts:13 | the format check is a substring test: text around an accepted link is accepted too |
| `AdminRoutes.AddPaymentLink` | app/api/admin/add-payment-link/route.ts:4-24 | no link 400, a link with neither "razorpay" nor "rzp.io" 400, each with nothing inserted; otherwise exactly one unused link with that URL is added |
| `AdminRoutes.DeletePaymentLink` | app/api/admin/delete-payment-link/route.ts:5-20 | no id 400 and a malformed id 500, both with the pool unchanged; otherwise only the link with that id is gone, used or not; users and requests are untouched |
| `AdminRoutes.ApproveActivation` | app/api/admin/approve-activation/route.ts:5-20 | a missing request id or user id gives 400 with nothing changed; otherwise the user is premium and the request approved; the body's `pdfId` is not read |
| `AdminRoutes.ApprovalOutcomeIsDetermined` | app/api/admin/approve-activation/route.ts:7-13 | an approval's effect depends only on the request id, the user id and the time |
| `AdminRoutes.ApprovalGrantsNoPdf` | lib/db-utils.ts:168-178 | no user's purchased list changes on approval |
| `AdminRoutes.RejectActivation` | app/api/admin/reject-activation/route.ts:5-20 | a missing id gives 400; otherwise the request is rejected, an approved one too; users are untouched |
| `AdminRoutes.ToggleFree` | app/api/admin/toggle-free/route.ts:5-20 | a missing id or a non-boolean `isFree` gives 400; otherwise only that PDF's free flag changes, to the given value |
| `AdminRoutes.OrEmpty` | app/api/admin/activation-requests/route.ts:11-15 | a missing text field reads as "" and a present one is kept |
| `AdminRoutes.SerializeRequest` | app/api/admin/activation-requests/route.ts:8-19 | ids are copied as text, missing email, name, PDF id and title become "", status and times are copied |
| `AdminRoutes.SerializeRequests` | app/api/admin/activation-requests/route.ts:8-19 | one serialized element per request, same length and order |
| `AdminRoutes.ListActivationRequests` | app/api/admin/activation-requests/route.ts:4-21 | answers 200 with every stored request serialized in order; a request without PDF id lists with pdfId "" |
| `AdminRoutes.StoredRequestsListWithoutPdf` | lib/db-utils.ts:142-152 | a request as request-activation stores it lists with empty pdfId and pdfTitle |
| `AuthRoutes.Signup` | app/api/auth/signup/route.ts:5-49 | checks in order: fields 400, password shorter than 6 UTF-16 units 400, taken email 400, with no user inserted; otherwise one non-premium user with the hashed password is added and echoed; email uniqueness is preserved |
| `AuthRoutes.AppendKeepsEmailsUnique` | app/api/auth/signup/route.ts:19-31 | adding a user with an untaken email keeps emails unique |
| `AuthRoutes.View` | app/api/auth/login/route.ts:29-36 | the answered user object carries the stored id, email, name and premium flag |
| `AuthRoutes.Login` | app/api/auth/login/route.ts:5-42 | read-only; missing field 400; unknown email and wrong password give the same 401; 200 only with a stored user of that email whose hash matches, answering that user; with unique emails a matching password always succeeds |
| `AuthRoutes.SameEmailSameUser` | app/api/auth/login/route.ts:15 | with unique emails an email names one user |
| `AuthRoutes.SignupThenLogin` | app/api/auth/signup/route.ts:25-44 | a successful signup followed by a login with the same credentials succeeds with the same user object |
| `Auth.HexValue` | lib/auth.ts:9 | a character is a lowercase hex digit exactly when it decodes, and decoding inverts the digit table |
| `Auth.ByteHex` | lib/auth.ts:9 | `toString(16).padStart(2, "0")` gives exactly two lowercase digits, high nibble first |
| `Auth.Hex` | lib/auth.ts:9 | the rendering is twice as long as the digest |
| `Auth.HexAt` | lib/auth.ts:9 | byte k is rendered at positions 2k and 2k+1 |
| `Auth.HexIsLowercaseBase16` | lib/auth.ts:9 | every character of the rendering is a lowercase hex digit |
| `Auth.Unhex` | lib/auth.ts:9 | decoding of lowercase base16, halving the length |
| `Auth.UnhexHex` | lib/auth.ts:9 | decoding the rendering gives back the digest |
| `Auth.HexUnhex` | lib/auth.ts:9 | a string that decodes is the rendering of what it decodes to |
| `Auth.HexInjective` | lib/auth.ts:9 | distinct digests give distinct strings |
| `Auth.HashPassword` | lib/auth.ts:4-10 | the hash is the base16 rendering of the digest: twice its length, and it decodes to the digest |
| `Auth.HashLength` | lib/auth.ts:7-9 | with a 32-byte SHA-256 digest the hash has 64 characters |
| `Auth.VerifyPassword` | lib/auth.ts:12-15 | an accepted stored hash decodes to the password's digest |
| `Auth.VerifyPasswordIff` | lib/auth.ts:12-15 | a hash is accepted exactly when it is the rendering of the password's digest; a password always verifies against its own hash |
| `Auth.CheckAdminPassword` | lib/auth.ts:57-59 | true exactly when the admin password is configured and equal to the given one |
| `JsText.IncludesIffOccurs` | app/api/admin/add-payment-link/route.ts:13 | `includes` holds exactly when the text occurs at some position |
| `JsText.ExtendedStringIncludes` | app/api/admin/add-payment-link/route.ts:13 | a contained text stays contained when text is added on either side |
| `JsText.Utf16Length` | app/api/auth/signup/route.ts:14 | `length` is between the number of characters and twice it, and zero only for "" |
| `JsText.Utf16LengthOfBmpText` | app/api/auth/signup/route.ts:14 | inside the Basic Multilingual Plane `length` counts characters |
| `JsText.NumberText` | app/api/admin/upload/route.ts:36 | an integer renders as decimal digits, with a leading '-' only for negatives |
| `JsText.NatTextRoundTrip` | app/api/admin/upload/route.ts:36 | reading the decimal digits back gives the number |
| `JsText.NumberTextInjective` | app/api/admin/upload/route.ts:36 | distinct integers render differently |
| `AdminUpload.AsciiLower` | app/api/admin/upload/route.ts:13 | ASCII capitals become lowercase, every other character is kept |
| `AdminUpload.CollapseRuns` | app/api/admin/upload/route.ts:14 | the result has only a-z, 0-9 and single dashes; it is empty exactly when the input is, and keeps a leading slug character |
| `AdminUpload.CollapseRunsPieces` | app/api/admin/upload/route.ts:14 | a character of a-z0-9 is kept, and a whole run of other characters becomes one '-' |
| `AdminUpload.CollapseRunsSplit` | app/api/admin/upload/route.ts:14 | cutting the input anywhere except inside a run of other characters cuts the output at the same place; with the pieces this fixes the output for every input |
| `AdminUpload.CollapseRunsKeepsSlugChars` | app/api/admin/upload/route.ts:14 | the characters of a-z0-9 survive in order, and only dashes are added |
| `AdminUpload.TrimLeadingDashes` | app/api/admin/upload/route.ts:15 | the result is a suffix of the input, everything dropped is '-', and it does not start with '-' |
| `AdminUpload.TrimTrailingDashes` | app/api/admin/upload/route.ts:15 | the result is a prefix of the input, everything dropped is '-', and it does not end with '-' |
| `AdminUpload.TrimLeadingKeepsSlugChars` | app/api/admin/upload/route.ts:15 | trimming the leading dashes drops no letter or digit |
| `AdminUpload.TrimTrailingKeepsSlugChars` | app/api/admin/upload/route.ts:15 | trimming the trailing dashes drops no letter or digit |
| `AdminUpload.Slugify` | app/api/admin/upload/route.ts:11-16 | the slug has only a-z, 0-9 and '-', no two dashes in a row and no dash at either end |
| `AdminUpload.SlugifyFixesSlugs` | app/api/admin/upload/route.ts:11-16 | a slug is its own slug |
| `AdminUpload.SlugifyIdempotent` | app/api/admin/upload/route.ts:11-16 | slugifying twice is slugifying once |
| `AdminUpload.SlugifyKeepsSlugChars` | app/api/admin/upload/route.ts:11-16 | the slug holds exactly the letters and digits of the lowercased value, in order |
| `AdminUpload.ParseIsFree` | app/api/admin/upload/route.ts:26 | free exactly when the form field is the string "true" |
| `AdminUpload.PublicId` | app/api/admin/upload/route.ts:32-36 | the public id is built from the branch slug, the semester, the subject slug and the time, and stays in the slug alphabet |
| `AdminUpload.PublicIdDistinguishesTimes` | app/api/admin/upload/route.ts:36 | the same branch, semester and subject at different times give different ids |
| `AdminUpload.Upload` | app/api/admin/upload/route.ts:18-76 | form failure 500; a missing file, title, branch or subject, or a semester of 0 or NaN, 400 before any upload; otherwise the PDF with the blob's URL and id and the parsed flag is appended when the upload and insert succeed, else 500 |
| `PdfGrid.HasAccess` | components/pdf-grid.tsx:68-72 | a free PDF is open to all; a paid one is closed without a user, else open exactly when its id is purchased |
| `PdfGrid.AccessMonotone` | components/pdf-grid.tsx:71 | access only grows with the purchased list |
| `PdfGrid.AccessIgnoresPremium` | components/pdf-grid.tsx:68-72 | the premium flag changes no access decision |
| `PdfGrid.ApprovalLeavesAccessUnchanged` | components/pdf-grid.tsx:68-72 | after an approval every user has exactly the access they had before |
| `PdfGrid.BadgeOf` | components/pdf-grid.tsx:183-195 | "Free" exactly for free PDFs, "Owned" for paid ones with access, "Paid" exactly without access |
| `PdfGrid.Decide` | components/pdf-grid.tsx:74-102 | open with access; otherwise sign in without a user and pay with one |
| `PdfGrid.Grid.constructor` | components/pdf-grid.tsx:28-34 | no dialog, selection, viewer, download or purchased PDF at the start |
| `PdfGrid.Grid.ReceivePurchased` | components/pdf-grid.tsx:43-51 | the purchased list becomes the answer's list, or [] when the field is missing; a failed fetch keeps it |
| `PdfGrid.Grid.HandleView` | components/pdf-grid.tsx:74-87 | with access the viewer shows the PDF's URL; else the sign-in dialog opens without a user, or the PDF is selected and the payment dialog opens |
| `PdfGrid.Grid.HandleDownload` | components/pdf-grid.tsx:89-111 | the same decision as View; with access a download of the URL named title + ".pdf" starts |
| `Branches.GetBranches` | lib/branches-data.ts:180-182 | the branch codes in table order |
| `Branches.GetSemesters` | lib/branches-data.ts:184-186 | exactly the odd semesters 1 to 7, in ascending order and without repeats |
| `Branches.Titles` | lib/branches-data.ts:192 | the titles of a list, in order |
| `Branches.SubjectsLookup` | lib/branches-data.ts:188-203 | the keyed list when `<branch>_S<semester>` exists; else the first-year list for a semester up to 2, or none; else the placeholder |
| `Branches.GetSubjects` | lib/branches-data.ts:188-203 | the result is empty exactly when no list applies |
| `Branches.SyllabusListsNonEmpty` | lib/branches-data.ts:9-175 | every syllabus list has a subject |
| `Branches.BranchKeys` | lib/branches-data.ts:9-175 | each branch has no own first-semester list and its own lists for semesters 3, 5 and 7 |
| `Branches.OfferedChoicesHaveSubjects` | lib/branches-data.ts:177-203 | every offered branch and semester gets subjects and never the placeholder: semester 1 reads the first-year list, the others their own list |
| `Branches.GetBranchName` | lib/branches-data.ts:205-207 | an unknown code is shown as itself |
| `Branches.ListedBranchName` | lib/branches-data.ts:205-207 | each listed code is shown with its own row's name |

## Left out

- Sessions and cookies (`setAuthCookie`, `removeAuthCookie`, `getAuthUser`): request-activation takes the signed-in user as an optional input, and signup and login set no cookie.
- The SHA-256 digest and the UTF-8 encoding before it: `Auth.Digester` is a parameter, and `Auth.HashLength` assumes its 32-byte length.
- The blob host: the upload takes the host's answer as a function parameter. The deletion of blobs is not modelled.
- The clock and the id generator: timestamps and new `_id`s are parameters.
- MongoDB infrastructure errors. Only the duplicate-id failure of an insert is modelled. An update or delete whose call throws is not.
- Concurrency. Calls are sequential. Get-link reads an unused link and then updates it in a separate call, so simultaneous callers could receive the same link. The model claims nothing about interleavings.
- The newest-first `sort` of the listings. Listing order is the collection's order.
- Non-string JSON values in text fields, such as a number passed as an email. In add-payment-link a `razorpayLink` of `0` or `false` is falsy and gets the 400 for a missing link. A non-zero number, `true` or a plain object has no `includes` and throws, giving 500. An array passes the `!razorpayLink` test even when empty, and its `includes` tests its elements. So `["razorpay"]` is inserted with 200, and an array holding neither marker gets 400. None of this is modelled.
- `toLowerCase` beyond ASCII letters. `slugify` then turns any non-ASCII character into a dash, so a non-ASCII capital can differ.
- `Number()` parsing of the semester. The form's semester is either NaN or an integer. Fractions and exponent forms are not modelled.
- ISO rendering of dates in the listing. Times are copied as values.
- The helpers no modelled handler calls: `updateUserPremium`, `getPDFs`, `getAllPDFs`, `deletePDF`, `getPendingActivationRequests`, `getAllPaymentLinks`.
- The thin read routes (`/api/pdfs`, `/api/admin/pdfs`, `/api/admin/payment-links`, `/api/user/purchased-pdfs`) and the admin login route.
- The administrator dashboard's own refusal to approve a request without a PDF id. This is a browser-side check, not a server rule.
- The payment dialog calls get-link without a PDF id or title, and request-activation without a body. The handlers as modelled answer 400 and 500 to those calls.
- The route handlers check no administrator session, and the model adds none.
- `AdminRoutes.DeletePaymentLink`: states the surviving links as a set. The order of the remaining links is stated by `DbUtils.Store.DeletePaymentLink`.
- `PdfGrid.Grid.HandleDownload`: records the download it starts. The fetch of the blob and the browser's file save are not modelled.
