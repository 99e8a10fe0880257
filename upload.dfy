/**
 The admin upload handler (app/api/admin/upload/route.ts): `slugify`, the
 required-field check, the `isFree` flag and the blob public id, then the
 upload to the blob host and the insertion of the PDF metadata.
 */
module AdminUpload {
  import opened Common
  import opened Http
  import JsText
  import DbUtils

  predicate IsSlugChar(c: char)
  {
    'a' <= c <= 'z' || '0' <= c <= '9'
  }

  /** Every character is a slug character or '-'. */
  predicate SlugAlphabet(t: string)
  {
    forall k :: 0 <= k < |t| ==> IsSlugChar(t[k]) || t[k] == '-'
  }

  predicate NoDoubleDash(t: string)
  {
    forall k :: 0 <= k < |t| - 1 ==> !(t[k] == '-' && t[k + 1] == '-')
  }

  /** What `slugify` promises: slug characters and single dashes, with no
      dash at either end. */
  predicate IsSlug(t: string)
  {
    && SlugAlphabet(t)
    && NoDoubleDash(t)
    && (t != [] ==> t[0] != '-' && t[|t| - 1] != '-')
  }

  /** `toLowerCase()` on ASCII letters; every other character is kept. */
  function AsciiLower(s: string): (r: string)
    ensures |r| == |s|
    ensures forall k :: 0 <= k < |s| ==>
      r[k] == if 'A' <= s[k] <= 'Z' then (s[k] as int + 32) as char else s[k]
  {
    if s == [] then []
    else [if 'A' <= s[0] <= 'Z' then (s[0] as int + 32) as char else s[0]] + AsciiLower(s[1..])
  }

  /** Drops the leading run of characters outside `[a-z0-9]`. */
  function SkipRun(s: string): (r: string)
    ensures |r| <= |s|
    ensures r != [] ==> IsSlugChar(r[0])
    ensures s == [] || IsSlugChar(s[0]) ==> r == s
  {
    if s != [] && !IsSlugChar(s[0]) then SkipRun(s[1..]) else s
  }

  /** `.replace(/[^a-z0-9]+/g, "-")`: every maximal run of characters
      outside `[a-z0-9]` becomes one '-'. */
  function CollapseRuns(s: string): (r: string)
    decreases |s|
    ensures SlugAlphabet(r) && NoDoubleDash(r)
    ensures r == [] <==> s == []
    ensures s != [] && IsSlugChar(s[0]) ==> r[0] == s[0]
  {
    if s == [] then []
    else if IsSlugChar(s[0]) then [s[0]] + CollapseRuns(s[1..])
    else "-" + CollapseRuns(SkipRun(s[1..]))
  }

  /** The `^-+` alternative of `.replace(/^-+|-+$/g, "")`. */
  function TrimLeadingDashes(s: string): (r: string)
    ensures |r| <= |s| && r == s[|s| - |r|..]
    ensures forall k :: 0 <= k < |s| - |r| ==> s[k] == '-'
    ensures r != [] ==> r[0] != '-'
  {
    if s != [] && s[0] == '-' then TrimLeadingDashes(s[1..]) else s
  }

  /** The `-+$` alternative of `.replace(/^-+|-+$/g, "")`. */
  function TrimTrailingDashes(s: string): (r: string)
    ensures |r| <= |s| && r == s[..|r|]
    ensures forall k :: |r| <= k < |s| ==> s[k] == '-'
    ensures r != [] ==> r[|r| - 1] != '-'
  {
    if s != [] && s[|s| - 1] == '-' then TrimTrailingDashes(s[..|s| - 1]) else s
  }

  /** `slugify`. */
  function Slugify(value: string): (slug: string)
    ensures IsSlug(slug)
  {
    var collapsed := CollapseRuns(AsciiLower(value));
    TrimmedIsSlug(collapsed);
    TrimTrailingDashes(TrimLeadingDashes(collapsed))
  }

  /** Dash-separated slug text with its end dashes trimmed is a slug. */
  lemma TrimmedIsSlug(t: string)
    requires SlugAlphabet(t) && NoDoubleDash(t)
    ensures IsSlug(TrimTrailingDashes(TrimLeadingDashes(t)))
  {
    var front := TrimLeadingDashes(t);
    SuffixKeepsSlugShape(t, |t| - |front|);
    var slug := TrimTrailingDashes(front);
    PrefixKeepsSlugShape(front, |slug|);
    if slug != [] {
      assert slug[0] == front[0];
    }
  }

  lemma SuffixKeepsSlugShape(t: string, n: nat)
    requires n <= |t|
    requires SlugAlphabet(t) && NoDoubleDash(t)
    ensures SlugAlphabet(t[n..]) && NoDoubleDash(t[n..])
  {
    var u := t[n..];
    assert forall k :: 0 <= k < |u| ==> u[k] == t[n + k];
  }

  lemma PrefixKeepsSlugShape(t: string, n: nat)
    requires n <= |t|
    requires SlugAlphabet(t) && NoDoubleDash(t)
    ensures SlugAlphabet(t[..n]) && NoDoubleDash(t[..n])
  {
    var u := t[..n];
    assert forall k :: 0 <= k < |u| ==> u[k] == t[k];
  }

  /** A slice of dash-separated slug text is dash-separated slug text. */
  lemma SliceKeepsSlugShape(t: string, i: nat, j: nat)
    requires i <= j <= |t|
    requires SlugAlphabet(t) && NoDoubleDash(t)
    ensures SlugAlphabet(t[i..j]) && NoDoubleDash(t[i..j])
  {
    var u := t[i..j];
    assert forall k :: 0 <= k < |u| ==> u[k] == t[i + k];
  }

  /** Text made of slug characters and single dashes goes through
      `CollapseRuns` unchanged. */
  lemma {:induction false} CollapseRunsFixes(t: string)
    decreases |t|
    requires SlugAlphabet(t) && NoDoubleDash(t)
    ensures CollapseRuns(t) == t
  {
    if t != [] {
      SliceKeepsSlugShape(t, 1, |t|);
      CollapseRunsFixes(t[1..]);
      if !IsSlugChar(t[0]) {
        assert t[1..] == [] || IsSlugChar(t[1]);
        assert SkipRun(t[1..]) == t[1..];
      }
    }
  }

  /** A slug is its own slug. */
  lemma SlugifyFixesSlugs(t: string)
    requires IsSlug(t)
    ensures Slugify(t) == t
  {
    assert AsciiLower(t) == t;
    CollapseRunsFixes(t);
  }

  /** `slugify` is idempotent. */
  lemma SlugifyIdempotent(value: string)
    ensures Slugify(Slugify(value)) == Slugify(value)
  {
    SlugifyFixesSlugs(Slugify(value));
  }

  /** The characters of `s` in `[a-z0-9]`, in order. */
  function SlugChars(s: string): (r: string)
    ensures |r| <= |s|
    ensures forall k :: 0 <= k < |r| ==> IsSlugChar(r[k])
  {
    if s == [] then [] else (if IsSlugChar(s[0]) then [s[0]] else []) + SlugChars(s[1..])
  }

  lemma {:induction false} SlugCharsAppend(a: string, b: string)
    decreases |a|
    ensures SlugChars(a + b) == SlugChars(a) + SlugChars(b)
  {
    if a == [] {
      assert a + b == b;
    } else {
      assert (a + b)[0] == a[0] && (a + b)[1..] == a[1..] + b;
      SlugCharsAppend(a[1..], b);
    }
  }

  lemma {:induction false} SlugCharsOfDashes(d: string)
    decreases |d|
    requires forall k :: 0 <= k < |d| ==> d[k] == '-'
    ensures SlugChars(d) == []
  {
    if d != [] {
      SlugCharsOfDashes(d[1..]);
    }
  }

  /** `s` holds a character of `[a-z0-9]`. */
  predicate HasSlugChar(s: string)
    decreases |s|
  {
    s != [] && (IsSlugChar(s[0]) || HasSlugChar(s[1..]))
  }

  /** A run of characters outside `[a-z0-9]`, as `[^a-z0-9]+` matches it. */
  predicate IsRun(t: string)
  {
    t != [] && forall k :: 0 <= k < |t| ==> !IsSlugChar(t[k])
  }

  lemma {:induction false} NoSlugCharIsRun(s: string)
    decreases |s|
    requires !HasSlugChar(s)
    ensures forall k :: 0 <= k < |s| ==> !IsSlugChar(s[k])
  {
    if s != [] {
      NoSlugCharIsRun(s[1..]);
      assert forall k :: 1 <= k < |s| ==> s[k] == s[1..][k - 1];
    }
  }

  lemma {:induction false} RunHasNoSlugChar(s: string)
    decreases |s|
    requires forall k :: 0 <= k < |s| ==> !IsSlugChar(s[k])
    ensures !HasSlugChar(s)
  {
    if s != [] {
      RunHasNoSlugChar(s[1..]);
    }
  }

  /** Skipping a run that ends inside `s` does not reach what follows `s`,
      and stops before the last character of `s` at the latest. */
  lemma {:induction false} SkipRunAppend(s: string, b: string)
    decreases |s|
    requires HasSlugChar(s)
    ensures SkipRun(s + b) == SkipRun(s) + b
    ensures SkipRun(s) != [] && SkipRun(s)[|SkipRun(s)| - 1] == s[|s| - 1]
  {
    assert (s + b)[0] == s[0] && (s + b)[1..] == s[1..] + b;
    if !IsSlugChar(s[0]) {
      SkipRunAppend(s[1..], b);
    }
  }

  /** A prefix without slug characters is skipped entirely. */
  lemma {:induction false} SkipRunPastRun(s: string, b: string)
    decreases |s|
    requires !HasSlugChar(s)
    ensures SkipRun(s + b) == SkipRun(b)
  {
    if s == [] {
      assert s + b == b;
    } else {
      assert (s + b)[0] == s[0] && (s + b)[1..] == s[1..] + b;
      SkipRunPastRun(s[1..], b);
    }
  }

  lemma {:induction false} SkipRunKeepsSlugChars(s: string)
    decreases |s|
    ensures SlugChars(SkipRun(s)) == SlugChars(s)
  {
    if s != [] && !IsSlugChar(s[0]) {
      SkipRunKeepsSlugChars(s[1..]);
    }
  }

  /** The replacement keeps every character of `[a-z0-9]`, in order, and
      adds only dashes. */
  lemma {:induction false} CollapseRunsKeepsSlugChars(s: string)
    decreases |s|
    ensures SlugChars(CollapseRuns(s)) == SlugChars(s)
  {
    if s != [] {
      var t := s[1..];
      if IsSlugChar(s[0]) {
        var x := CollapseRuns(t);
        assert ([s[0]] + x)[0] == s[0] && ([s[0]] + x)[1..] == x;
        CollapseRunsKeepsSlugChars(t);
      } else {
        var x := CollapseRuns(SkipRun(t));
        assert ("-" + x)[0] == '-' && ("-" + x)[1..] == x;
        CollapseRunsKeepsSlugChars(SkipRun(t));
        SkipRunKeepsSlugChars(t);
      }
    }
  }

  /** The two pieces of `.replace(/[^a-z0-9]+/g, "-")`: a character of
      `[a-z0-9]` stays, and a whole run outside it becomes one '-'. */
  lemma CollapseRunsPieces(c: char, t: string)
    ensures IsSlugChar(c) ==> CollapseRuns([c]) == [c]
    ensures IsRun(t) ==> CollapseRuns(t) == "-"
  {
    if IsRun(t) {
      assert forall k :: 0 <= k < |t[1..]| ==> t[1..][k] == t[k + 1];
      RunHasNoSlugChar(t[1..]);
      SkipRunPastRun(t[1..], []);
      assert t[1..] + [] == t[1..];
    }
  }

  lemma HeadOfAppend(a: string, b: string)
    requires a != []
    ensures (a + b)[0] == a[0] && (a + b)[1..] == a[1..] + b
  {
  }

  /** The replacement works run by run: cutting the input anywhere except
      inside a run outside `[a-z0-9]` cuts the output at the same place.
      With `CollapseRunsPieces` this determines `CollapseRuns` on every
      input, because every string is a concatenation of single slug
      characters and maximal runs. */
  lemma {:induction false} CollapseRunsSplit(a: string, b: string)
    decreases |a|
    requires a == [] || b == [] || IsSlugChar(a[|a| - 1]) || IsSlugChar(b[0])
    ensures CollapseRuns(a + b) == CollapseRuns(a) + CollapseRuns(b)
  {
    if a == [] {
      assert a + b == b;
    } else if b == [] {
      assert a + b == a;
    } else if IsSlugChar(a[0]) {
      var t := a[1..];
      if t != [] {
        assert t[|t| - 1] == a[|a| - 1];
      }
      CollapseRunsSplit(t, b);
      SplitAfterSlugChar(a, b);
    } else if HasSlugChar(a[1..]) {
      var t := a[1..];
      SkipRunAppend(t, b);
      assert t[|t| - 1] == a[|a| - 1];
      CollapseRunsSplit(SkipRun(t), b);
      SplitInsideRun(a, b);
    } else {
      SplitAfterRun(a, b);
    }
  }

  /** `CollapseRunsSplit` when `a` starts with a slug character. */
  lemma SplitAfterSlugChar(a: string, b: string)
    requires a != [] && IsSlugChar(a[0])
    requires CollapseRuns(a[1..] + b) == CollapseRuns(a[1..]) + CollapseRuns(b)
    ensures CollapseRuns(a + b) == CollapseRuns(a) + CollapseRuns(b)
  {
    HeadOfAppend(a, b);
    var x, y, z := CollapseRuns(a[1..]), CollapseRuns(b), [a[0]];
    assert z + (x + y) == (z + x) + y;
  }

  /** `CollapseRunsSplit` when `a` starts with a run that ends inside `a`. */
  lemma SplitInsideRun(a: string, b: string)
    requires a != [] && !IsSlugChar(a[0]) && HasSlugChar(a[1..])
    requires SkipRun(a[1..] + b) == SkipRun(a[1..]) + b
    requires CollapseRuns(SkipRun(a[1..]) + b) == CollapseRuns(SkipRun(a[1..])) + CollapseRuns(b)
    ensures CollapseRuns(a + b) == CollapseRuns(a) + CollapseRuns(b)
  {
    HeadOfAppend(a, b);
    var x, y, z := CollapseRuns(SkipRun(a[1..])), CollapseRuns(b), "-";
    assert z + (x + y) == (z + x) + y;
  }

  /** `CollapseRunsSplit` when `a` is one whole run: it becomes '-', and
      `b`, which then starts with a slug character, follows unchanged. */
  lemma SplitAfterRun(a: string, b: string)
    requires a != [] && b != [] && !IsSlugChar(a[0]) && !HasSlugChar(a[1..])
    requires IsSlugChar(a[|a| - 1]) || IsSlugChar(b[0])
    ensures CollapseRuns(a + b) == CollapseRuns(a) + CollapseRuns(b)
  {
    var t := a[1..];
    HeadOfAppend(a, b);
    NoSlugCharIsRun(t);
    if t != [] {
      assert a[|a| - 1] == t[|t| - 1];
    }
    assert IsSlugChar(b[0]);
    SkipRunPastRun(t, b);
    SkipRunPastRun(t, []);
    assert t + [] == t;
    assert CollapseRuns(a) == "-";
  }

  /** Trimming the leading dashes drops no character of `[a-z0-9]`. */
  lemma TrimLeadingKeepsSlugChars(t: string)
    ensures SlugChars(TrimLeadingDashes(t)) == SlugChars(t)
  {
    var front := TrimLeadingDashes(t);
    var n := |t| - |front|;
    assert t == t[..n] + front;
    SlugCharsAppend(t[..n], front);
    SlugCharsOfDashes(t[..n]);
  }

  /** Trimming the trailing dashes drops no character of `[a-z0-9]`. */
  lemma TrimTrailingKeepsSlugChars(t: string)
    ensures SlugChars(TrimTrailingDashes(t)) == SlugChars(t)
  {
    var slug := TrimTrailingDashes(t);
    assert t == slug + t[|slug|..];
    SlugCharsAppend(slug, t[|slug|..]);
    SlugCharsOfDashes(t[|slug|..]);
  }

  /** `slugify` keeps every letter and digit of the lowercased value, in
      order; all it adds are single dashes between them. */
  lemma SlugifyKeepsSlugChars(value: string)
    ensures SlugChars(Slugify(value)) == SlugChars(AsciiLower(value))
  {
    var collapsed := CollapseRuns(AsciiLower(value));
    CollapseRunsKeepsSlugChars(AsciiLower(value));
    TrimLeadingKeepsSlugChars(collapsed);
    TrimTrailingKeepsSlugChars(TrimLeadingDashes(collapsed));
  }

  /** The number `Number(formData.get("semester"))` produced. */
  datatype NumberValue = NaN | Num(n: int)

  /** The multipart form as the handler reads it; `file` says whether a file
      part is present, an absent text field is `None`. */
  datatype UploadForm = UploadForm(
    file: bool, title: Option<string>, branch: Option<string>,
    semester: NumberValue, subject: Option<string>, isFree: Option<string>)

  /** What the blob host answers to a successful upload. */
  datatype UploadedBlob = UploadedBlob(secureUrl: string, publicId: string)

  /** `!semester` is false for NaN and 0. */
  predicate NumberTruthy(v: NumberValue)
  {
    v.Num? && v.n != 0
  }

  /** The guard `!file || !title || !branch || !semester || !subject`, negated. */
  predicate RequiredFieldsPresent(form: UploadForm)
  {
    form.file && Present(form.title) && Present(form.branch) && NumberTruthy(form.semester) && Present(form.subject)
  }

  /** `formData.get("isFree") === "true"`. */
  function ParseIsFree(field: Option<string>): (isFree: bool)
    ensures isFree <==> field == Some("true")
  {
    match field
    case Some(text) => text == "true"
    case None => false
  }

  /** `${safeBranch}-${semester}-${safeSubject}-${Date.now()}`. The title's
      slug is computed by the handler and never used. */
  function PublicId(branch: string, semester: int, subject: string, nowMillis: int): (publicId: string)
    ensures SlugAlphabet(publicId)
  {
    var parts := [Slugify(branch), JsText.NumberText(semester), Slugify(subject), JsText.NumberText(nowMillis)];
    var publicId := parts[0] + "-" + parts[1] + "-" + parts[2] + "-" + parts[3];
    JoinedSlugAlphabet(parts[0], parts[1]);
    JoinedSlugAlphabet(parts[0] + "-" + parts[1], parts[2]);
    JoinedSlugAlphabet(parts[0] + "-" + parts[1] + "-" + parts[2], parts[3]);
    publicId
  }

  /** Joining two texts of the slug alphabet with a dash stays in it. */
  lemma JoinedSlugAlphabet(a: string, b: string)
    requires SlugAlphabet(a) && SlugAlphabet(b)
    ensures SlugAlphabet(a + "-" + b)
  {
    var t := a + "-" + b;
    forall k | 0 <= k < |t| ensures IsSlugChar(t[k]) || t[k] == '-' {
      if k > |a| {
        assert t[k] == b[k - |a| - 1];
      }
    }
  }

  /** The upload time is the last component of the public id: two uploads
      of the same branch, semester and subject at different milliseconds get
      different ids. */
  lemma PublicIdDistinguishesTimes(branch: string, semester: int, subject: string, t1: int, t2: int)
    requires t1 != t2
    ensures PublicId(branch, semester, subject, t1) != PublicId(branch, semester, subject, t2)
  {
    var prefix := Slugify(branch) + "-" + JsText.NumberText(semester) + "-" + Slugify(subject) + "-";
    var a, b := PublicId(branch, semester, subject, t1), PublicId(branch, semester, subject, t2);
    assert a == prefix + JsText.NumberText(t1) && b == prefix + JsText.NumberText(t2);
    if a == b {
      assert a[|prefix|..] == JsText.NumberText(t1);
      assert b[|prefix|..] == JsText.NumberText(t2);
      JsText.NumberTextInjective(t1, t2);
    }
  }

  const UPLOAD_FAILED := "Failed to upload PDF"
  const MISSING_FIELDS := "Missing required fields"

  /** `POST /api/admin/upload`. `form` is `None` when `request.formData()`
      throws; `host` stands for the blob host, answering `None` when the
      upload fails; `nowMillis` is `Date.now()`. */
  method Upload(store: DbUtils.Store, form: Option<UploadForm>, nowMillis: int,
                host: string -> Option<UploadedBlob>, newId: Id, now: Timestamp)
    returns (resp: Response)
    requires store.Valid()
    modifies store
    ensures store.Valid()
    ensures store.users == old(store.users) && store.links == old(store.links)
    ensures store.requests == old(store.requests)
    ensures form.None? ==> resp == Error(500, UPLOAD_FAILED) && store.pdfs == old(store.pdfs)
    ensures form.Some? && !RequiredFieldsPresent(form.value) ==>
      resp == Error(400, MISSING_FIELDS) && store.pdfs == old(store.pdfs)
    ensures form.Some? && RequiredFieldsPresent(form.value) ==>
      var f := form.value;
      var blob := host(PublicId(f.branch.value, f.semester.n, f.subject.value, nowMillis));
      var pdf := DbUtils.Pdf(newId, f.title.value, f.branch.value, f.semester.n, f.subject.value,
                             if blob.Some? then blob.value.secureUrl else "",
                             if blob.Some? then blob.value.publicId else "",
                             ParseIsFree(f.isFree), now);
      if blob.Some? && forall p :: p in old(store.pdfs) ==> p.id != newId then
        resp == Ok(SuccessBody) && store.pdfs == old(store.pdfs) + [pdf]
      else
        resp == Error(500, UPLOAD_FAILED) && store.pdfs == old(store.pdfs)
  {
    if form.None? {
      return Error(500, UPLOAD_FAILED);
    }
    var f := form.value;
    var isFree := ParseIsFree(f.isFree);
    if !RequiredFieldsPresent(f) {
      return Error(400, MISSING_FIELDS);
    }
    var publicId := PublicId(f.branch.value, f.semester.n, f.subject.value, nowMillis);
    var blob := host(publicId);
    if blob.None? {
      return Error(500, UPLOAD_FAILED);
    }
    var inserted := store.CreatePdf(DbUtils.Pdf(newId, f.title.value, f.branch.value, f.semester.n, f.subject.value,
                                                blob.value.secureUrl, blob.value.publicId, isFree, now));
    if !inserted {
      return Error(500, UPLOAD_FAILED);
    }
    resp := Ok(SuccessBody);
  }
}
