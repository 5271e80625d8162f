/** The upload acceptor of the posts, CTFs and classes routes: multer's
    file filter and size limit, the generated file name, the reference path
    stored in the document, and the precedence between an uploaded file and
    a reference given in the request body. */
module Uploads {
  import opened Wrappers
  import opened Text

  /** The three upload configurations. */
  datatype Category = PostImage | CtfPreview | ClassContent

  /** What multer knows of the request's file: the client's file name, the
      client's declared MIME type and the byte count. */
  datatype UploadedFile = UploadedFile(originalName: string, mimetype: string, size: nat)

  /** The multipart side of one request: the file (if any) and the values
      `Date.now()` and `Math.round(Math.random() * 1E9)` take when multer
      names it. */
  datatype Attachment = Attachment(file: Option<UploadedFile>, time: nat, random: nat)

  /** The alternatives of each route's `allowedTypes` regular expression. */
  function AllowedWords(c: Category): seq<string> {
    match c
    case PostImage => ["jpeg", "jpg", "png", "gif", "webp"]
    case CtfPreview => ["jpeg", "jpg", "png", "gif", "webp", "mp4", "mov", "avi"]
    case ClassContent => ["pptx", "ppt", "pdf"]
  }

  /** The classes route tests the extension only. */
  predicate ChecksMime(c: Category) {
    c != ClassContent
  }

  /** `limits.fileSize`, in bytes. */
  function SizeLimit(c: Category): nat {
    match c
    case PostImage => 5 * 1024 * 1024
    case CtfPreview => 10 * 1024 * 1024
    case ClassContent => 20 * 1024 * 1024
  }

  /** The first part of a generated file name. */
  function NamePrefix(c: Category): string {
    match c
    case PostImage => "post"
    case CtfPreview => "ctf"
    case ClassContent => "class"
  }

  /** The form field `upload.single(...)` reads the file from. */
  function FieldName(c: Category): string {
    match c
    case PostImage => "image"
    case CtfPreview => "preview"
    case ClassContent => "contentFile"
  }

  /** The `fileFilter` callback: the lower-cased extension, and for images
      and videos also the MIME type as sent, must each match the allow-list
      somewhere (the expression has no anchors). */
  predicate PassesFilter(c: Category, f: UploadedFile) {
    && MatchesAny(Lower(ExtName(f.originalName)), AllowedWords(c))
    && (ChecksMime(c) ==> MatchesAny(f.mimetype, AllowedWords(c)))
  }

  /** multer keeps a file that passes the filter and is no larger than the
      limit. */
  predicate Admitted(c: Category, f: UploadedFile) {
    PassesFilter(c, f) && f.size <= SizeLimit(c)
  }

  /** `head-time-random` followed by `ext`. */
  function DashJoin(head: string, time: string, random: string, ext: string): (name: string)
    requires '/' !in head && '/' !in time && '/' !in random && '/' !in ext
    ensures StartsWith(name, head + "-")
    ensures EndsWith(name, ext)
    ensures '/' !in name
  {
    var name := (head + "-") + (time + "-" + random + ext);
    assert name[..|head + "-"|] == head + "-";
    assert name[|name| - |ext|..] == ext;
    name
  }

  /** The name the disk storage gives the file:
      `<prefix>-<time>-<random><original extension>`; it has no `/`. */
  function StoredName(c: Category, f: UploadedFile, time: nat, random: nat): (name: string)
    ensures StartsWith(name, NamePrefix(c) + "-")
    ensures EndsWith(name, ExtName(f.originalName))
    ensures '/' !in name
  {
    assert '/' !in NamePrefix(c);
    DashJoin(NamePrefix(c), NatToDecimal(time), NatToDecimal(random), ExtName(f.originalName))
  }

  const UploadsDir: string := "/uploads/"

  /** `dir + name`, where the only slashes are those of `dir`. */
  function InDirectory(dir: string, name: string, head: string, ext: string): (r: string)
    requires '/' !in name && StartsWith(name, head) && EndsWith(name, ext)
    ensures StartsWith(r, dir + head)
    ensures EndsWith(r, ext)
    ensures forall i :: 0 <= i < |r| && r[i] == '/' ==> i < |dir| && dir[i] == '/'
  {
    var r := dir + name;
    assert forall i :: |dir| <= i < |r| ==> r[i] == name[i - |dir|];
    assert r[..|dir + head|] == dir + name[..|head|];
    assert r[|r| - |ext|..] == name[|name| - |ext|..];
    r
  }

  /** The uploads directory has its slashes at positions 0 and 8 only. */
  lemma UploadsDirSlashes()
    ensures |UploadsDir| == 9
    ensures forall i :: 0 <= i < |UploadsDir| && UploadsDir[i] == '/' ==> i == 0 || i == 8
  {
    assert UploadsDir == ['/', 'u', 'p', 'l', 'o', 'a', 'd', 's', '/'];
  }

  /** The reference path the route stores: the generated name directly
      inside the uploads directory. */
  function ReferencePath(c: Category, f: UploadedFile, time: nat, random: nat): (r: string)
    ensures StartsWith(r, UploadsDir + (NamePrefix(c) + "-"))
    ensures EndsWith(r, ExtName(f.originalName))
    ensures forall i :: 0 <= i < |r| && r[i] == '/' ==> i == 0 || i == 8
  {
    UploadsDirSlashes();
    var name := StoredName(c, f, time, random);
    InDirectory(UploadsDir, name, NamePrefix(c) + "-", ExtName(f.originalName))
  }

  /** What multer leaves for the handler. */
  datatype Received =
    | NoFile                // the request had no file
    | Stored(path: string)  // the file was kept; `path` is its reference path
    | Rejected              // the filter or the size limit refused it

  /** Runs the upload step of a route. */
  function Receive(c: Category, a: Attachment): (r: Received)
    ensures a.file.None? <==> r.NoFile?
    ensures r.Rejected? <==> a.file.Some? && !Admitted(c, a.file.value)
    ensures r.Stored? ==> r.path == ReferencePath(c, a.file.value, a.time, a.random)
  {
    match a.file
    case None => NoFile
    case Some(f) => if Admitted(c, f) then Stored(ReferencePath(c, f, a.time, a.random)) else Rejected
  }

  /** A kept file is referenced from inside the uploads directory. */
  lemma StoredUnderUploads(c: Category, a: Attachment)
    ensures Receive(c, a).Stored? ==> StartsWith(Receive(c, a).path, UploadsDir)
  {
    if Receive(c, a).Stored? {
      var r, p := Receive(c, a).path, UploadsDir + (NamePrefix(c) + "-");
      assert r[..|UploadsDir|] == p[..|UploadsDir|];
    }
  }

  /** The reference stored on create:
      `req.file ? '/uploads/<name>' : req.body.<field> || ''`. */
  function CreateReference(r: Received, given: Option<string>): (ref: string)
    requires !r.Rejected?
    ensures r.Stored? ==> ref == r.path
    ensures r.NoFile? && given.Some? && given.value != "" ==> ref == given.value
    ensures r.NoFile? && (given.None? || given.value == "") ==> ref == ""
  {
    match r
    case Stored(path) => path
    case NoFile => if given.Some? && given.value != "" then given.value else ""
  }

  /** The reference after an update: an uploaded file wins, then a
      non-empty body value; otherwise the stored reference stays. */
  function UpdateReference(current: string, r: Received, given: Option<string>): (ref: string)
    requires !r.Rejected?
    ensures r.Stored? ==> ref == r.path
    ensures r.NoFile? && given.Some? && given.value != "" ==> ref == given.value
    ensures r.NoFile? && (given.None? || given.value == "") ==> ref == current
  {
    match r
    case Stored(path) => path
    case NoFile => if given.Some? && given.value != "" then given.value else current
  }

  /** Creating a reference is updating the empty reference. */
  lemma CreateIsUpdateOfEmpty(r: Received, given: Option<string>)
    requires !r.Rejected?
    ensures CreateReference(r, given) == UpdateReference("", r, given)
  {
  }

  /** Updating with nothing supplied twice, or supplying the stored value,
      keeps the reference. */
  lemma UpdateReferenceKeeps(current: string, given: Option<string>)
    requires given.None? || given.value == "" || given.value == current
    ensures UpdateReference(current, NoFile, given) == current
  {
  }

  /** Without a mime check the verdict does not depend on the declared type. */
  lemma ClassFilterIgnoresMime(f: UploadedFile, mimetype: string)
    ensures PassesFilter(ClassContent, f) <==> PassesFilter(ClassContent, f.(mimetype := mimetype))
  {
  }

  /** Every image the posts route accepts the CTF route accepts too: its
      allow-list extends the posts list and its limit is larger. */
  lemma PostImageIsCtfPreview(f: UploadedFile)
    ensures Admitted(PostImage, f) ==> Admitted(CtfPreview, f)
  {
    if !Admitted(PostImage, f) {
      return;
    }
    var e := Lower(ExtName(f.originalName));
    var k :| 0 <= k < 5 && Contains(e, AllowedWords(PostImage)[k]);
    assert AllowedWords(CtfPreview)[k] == AllowedWords(PostImage)[k];
    var m :| 0 <= m < 5 && Contains(f.mimetype, AllowedWords(PostImage)[m]);
    assert AllowedWords(CtfPreview)[m] == AllowedWords(PostImage)[m];
  }

  /** The `pptx` alternative is subsumed by `ppt`: the classes filter
      accepts exactly the extensions containing `ppt` or `pdf`. */
  lemma {:induction false} ClassWordsReduce(s: string)
    ensures MatchesAny(s, AllowedWords(ClassContent)) <==> Contains(s, "ppt") || Contains(s, "pdf")
  {
    var words := AllowedWords(ClassContent);
    if Contains(s, "pptx") {
      var i := ContainsGivesOccurrence(s, "pptx");
      assert s[i..i + 4][..3] == s[i..i + 3];
      assert OccursAt(s, "ppt", i);
      OccurrenceIsFound(s, "ppt", i);
    }
    if Contains(s, "ppt") {
      assert Contains(s, words[1]);
    }
    if Contains(s, "pdf") {
      assert Contains(s, words[2]);
    }
  }

  /** In `a-b` with `a` all digits, the first dash is at `|a|`. */
  lemma DashAfterDigits(a: string, b: string)
    requires AllDigits(a)
    ensures (a + "-" + b)[|a|] == '-'
    ensures forall j :: 0 <= j < |a| ==> (a + "-" + b)[j] != '-'
  {
  }

  /** Two dash-separated digit strings that spell the same text are the
      same two strings. */
  lemma SplitAtDash(a: string, b: string, c: string, d: string)
    requires AllDigits(a) && AllDigits(c)
    requires a + "-" + b == c + "-" + d
    ensures a == c && b == d
  {
    var x := a + "-" + b;
    DashAfterDigits(a, b);
    DashAfterDigits(c, d);
    assert |a| == |c|;
    assert a == x[..|a|];
    assert c == (c + "-" + d)[..|c|];
    assert b == x[|a| + 1..];
    assert d == (c + "-" + d)[|c| + 1..];
  }

  /** A generated name is the prefix and dash, the two numbers joined by a
      dash, and the extension. */
  lemma StoredNameShape(c: Category, f: UploadedFile, time: nat, random: nat)
    ensures StoredName(c, f, time, random)
         == (NamePrefix(c) + "-") + (NatToDecimal(time) + "-" + NatToDecimal(random)) + ExtName(f.originalName)
  {
  }

  /** The middle of `p + mid + e` is `mid`. */
  lemma Middle(p: string, mid: string, e: string)
    ensures (p + mid + e)[|p|..|p| + |mid|] == mid
  {
  }

  /** Two uploads of the same file under different (time, random) pairs get
      different names; the source leaves their collision to chance only when
      both values repeat. */
  lemma StoredNamesDistinct(c: Category, f: UploadedFile, t1: nat, r1: nat, t2: nat, r2: nat)
    requires (t1, r1) != (t2, r2)
    ensures StoredName(c, f, t1, r1) != StoredName(c, f, t2, r2)
  {
    var p := NamePrefix(c) + "-";
    var e := ExtName(f.originalName);
    var mid1 := NatToDecimal(t1) + "-" + NatToDecimal(r1);
    var mid2 := NatToDecimal(t2) + "-" + NatToDecimal(r2);
    StoredNameShape(c, f, t1, r1);
    StoredNameShape(c, f, t2, r2);
    if StoredName(c, f, t1, r1) == StoredName(c, f, t2, r2) {
      assert |mid1| == |mid2|;
      Middle(p, mid1, e);
      Middle(p, mid2, e);
      assert mid1 == mid2;
      SplitAtDash(NatToDecimal(t1), NatToDecimal(r1), NatToDecimal(t2), NatToDecimal(r2));
      DecimalInjective(t1, t2);
      DecimalInjective(r1, r2);
    }
  }
}
