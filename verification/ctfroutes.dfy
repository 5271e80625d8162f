/** The CTFs resource: listing by creation time, fetch, create and update
    with an optional image or video upload, and delete. */
module CtfRoutes {
  import opened Wrappers
  import opened Text
  import opened Records
  import opened Schemas
  import opened Uploads
  import opened Store

  const Kind: string := "CTF"

  /** The body fields the create and update handlers read. */
  datatype CtfBody = CtfBody(
    title: Option<string>,
    author: Option<string>,
    preview: Option<string>,
    previewType: Option<string>,
    videoLink: Option<string>,
    description: Option<string>)

  /** The fields `new CTF(...)` receives. */
  function Input(body: CtfBody, preview: string): CtfInput
  {
    CtfInput(body.title, body.author, preview, body.previewType, body.videoLink, body.description)
  }

  /** `POST /`, behind `adminAuth` and the preview upload. */
  function Create(store: map<Id, Ctf>, gate: Gate, a: Attachment, body: CtfBody, id: Id, now: int): (e: Exchange<Ctf>)
    requires id !in store
    ensures gate.Block? ==> e == Exchange(store, gate.status, Refused)
    ensures gate.Pass? && Receive(CtfPreview, a).Rejected? ==> e == Exchange(store, 500, ErrorPage)
    ensures e.status == 201 <==>
      && gate.Pass? && !Receive(CtfPreview, a).Rejected?
      && Filled(body.title) && Filled(body.author)
      && (body.previewType.None? || body.previewType.value in PreviewTypes)
    ensures e.status == 201 ==>
      var c := NewCtf(id, Input(body, CreateReference(Receive(CtfPreview, a), body.preview)), now).value;
      e.store == store[id := c] && e.body == One(c) && ValidCtf(c)
    ensures e.status != 201 ==> e.store == store
  {
    match gate
    case Block(status) => Exchange(store, status, Refused)
    case Pass(_) =>
      var r := Receive(CtfPreview, a);
      if r.Rejected? then Exchange(store, 500, ErrorPage)
      else Insert(store, id, NewCtf(id, Input(body, CreateReference(r, body.preview)), now))
  }

  /** A created CTF holds the body's five text fields (the required and
      description ones trimmed, `previewType` defaulted) and the preview
      reference the upload rule picks. */
  lemma CreateCopiesFields(store: map<Id, Ctf>, gate: Gate, a: Attachment, body: CtfBody, id: Id, now: int)
    requires id !in store
    ensures var e := Create(store, gate, a, body, id, now);
      e.status == 201 ==>
      var c := e.body.item;
      && c.id == id && c.createdAt == now
      && c.title == Trim(body.title.value) && c.author == Trim(body.author.value)
      && c.previewType == body.previewType.GetOr(DefaultPreviewType)
      && c.videoLink == body.videoLink.GetOr("")
      && c.description == Trimmed(body.description)
      && (Receive(CtfPreview, a).Stored? ==> c.preview == Receive(CtfPreview, a).path)
      && (a.file.None? ==> c.preview == (if Present(body.preview) then body.preview.value else ""))
  {
  }

  /** The update document of `PUT /:id` applied to a stored CTF: the five
      text fields as sent (absent ones dropped, trimmed paths trimmed),
      `preview` only for a kept file or a non-empty body value. The enum
      validator does not run. */
  function Patch(c: Ctf, r: Received, body: CtfBody): (d: Ctf)
    requires !r.Rejected?
    ensures d.id == c.id && d.createdAt == c.createdAt
    ensures d.title == AssignTrimmed(c.title, body.title)
    ensures d.author == AssignTrimmed(c.author, body.author)
    ensures d.previewType == Assign(c.previewType, body.previewType)
    ensures d.videoLink == Assign(c.videoLink, body.videoLink)
    ensures d.description == AssignTrimmed(c.description, body.description)
    ensures d.preview == UpdateReference(c.preview, r, body.preview)
  {
    c.(
      title := AssignTrimmed(c.title, body.title),
      author := AssignTrimmed(c.author, body.author),
      previewType := Assign(c.previewType, body.previewType),
      videoLink := Assign(c.videoLink, body.videoLink),
      description := AssignTrimmed(c.description, body.description),
      preview := UpdateReference(c.preview, r, body.preview))
  }

  /** A body with nothing in it, and no file, leaves the CTF as it is. */
  lemma EmptyPatchKeeps(c: Ctf)
    ensures Patch(c, NoFile, CtfBody(None, None, None, None, None, None)) == c
  {
  }

  /** `PUT /:id`, behind `adminAuth` and the preview upload. */
  function Update(store: map<Id, Ctf>, gate: Gate, a: Attachment, p: IdParam, body: CtfBody): (e: Exchange<Ctf>)
    ensures gate.Block? ==> e == Exchange(store, gate.status, Refused)
    ensures gate.Pass? && Receive(CtfPreview, a).Rejected? ==> e == Exchange(store, 500, ErrorPage)
    ensures e.status == 200 <==>
      gate.Pass? && !Receive(CtfPreview, a).Rejected? && p.ObjectId? && p.id in store
    ensures e.status == 200 ==>
      var c := Patch(store[p.id], Receive(CtfPreview, a), body);
      e.store == store[p.id := c] && e.body == One(c)
    ensures e.status != 200 ==> e.store == store
    ensures gate.Pass? && !Receive(CtfPreview, a).Rejected? && p.ObjectId? && p.id !in store ==>
      e.status == 404 && e.body == Note(NotFound(Kind))
  {
    match gate
    case Block(status) => Exchange(store, status, Refused)
    case Pass(_) =>
      var r := Receive(CtfPreview, a);
      if r.Rejected? then Exchange(store, 500, ErrorPage)
      else Modify(store, p, Kind, c => Patch(c, r, body))
  }

  /** The enum is not checked on update: any text is stored as the
      preview type. */
  lemma UpdateStoresAnyPreviewType(store: map<Id, Ctf>, gate: Gate, p: IdParam, body: CtfBody)
    requires gate.Pass? && p.ObjectId? && p.id in store
    requires body.previewType == Some("gif")
    ensures Update(store, gate, Attachment(None, 0, 0), p, body).status == 200
    ensures Update(store, gate, Attachment(None, 0, 0), p, body).store[p.id].previewType !in PreviewTypes
  {
  }

  /** An update whose required fields are absent or filled and whose
      preview type is absent or listed keeps a valid CTF valid. */
  lemma UpdateKeepsValid(c: Ctf, r: Received, body: CtfBody)
    requires !r.Rejected?
    requires ValidCtf(c)
    requires body.title.None? || Filled(body.title)
    requires body.author.None? || Filled(body.author)
    requires body.previewType.None? || body.previewType.value in PreviewTypes
    ensures ValidCtf(Patch(c, r, body))
  {
    RequiredTrimmedIffFilled(body.title);
    RequiredTrimmedIffFilled(body.author);
  }

  /** `GET /:id`. */
  function Get(store: map<Id, Ctf>, p: IdParam): (e: Exchange<Ctf>)
    ensures e.store == store
    ensures e.status == 200 <==> p.ObjectId? && p.id in store
    ensures e.status == 200 ==> e.body == One(store[p.id])
    ensures p.ObjectId? && p.id !in store ==> e.status == 404 && e.body == Note(NotFound(Kind))
  {
    Fetch(store, p, Kind)
  }

  /** `DELETE /:id`, behind `adminAuth`. */
  function Delete(store: map<Id, Ctf>, gate: Gate, p: IdParam): (e: Exchange<Ctf>)
    ensures gate.Block? ==> e == Exchange(store, gate.status, Refused)
    ensures e.status == 200 <==> gate.Pass? && p.ObjectId? && p.id in store
    ensures e.status == 200 ==> e.store.Keys == store.Keys - {p.id} && e.body == Note(Deleted(Kind))
    ensures e.status == 200 ==> forall k :: k in e.store ==> e.store[k] == store[k]
    ensures e.status != 200 ==> e.store == store
    ensures gate.Pass? && p.ObjectId? && p.id !in store ==> e.status == 404 && e.body == Note(NotFound(Kind))
  {
    match gate
    case Block(status) => Exchange(store, status, Refused)
    case Pass(_) => Remove(store, p, Kind)
  }

  /** `GET /`: every CTF once, newest first. */
  method ListCtfs(store: map<Id, Ctf>) returns (rs: seq<Ctf>)
    requires forall k :: k in store ==> store[k].id == k
    ensures |rs| == |store|
    ensures forall i, j :: 0 <= i < j < |rs| ==> rs[i].createdAt >= rs[j].createdAt
    ensures forall i, j :: 0 <= i < j < |rs| ==> rs[i].id != rs[j].id
    ensures forall i :: 0 <= i < |rs| ==> rs[i].id in store && store[rs[i].id] == rs[i]
    ensures forall k :: k in store ==> store[k] in rs
  {
    rs := List(store, (c: Ctf) => c.id, (c: Ctf) => c.createdAt);
  }
}
