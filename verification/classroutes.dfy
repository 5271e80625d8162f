/** The classes resource: listing by class date, fetch, create and update
    with an optional slide or PDF upload and a list of content links, and
    delete. */
module ClassRoutes {
  import opened Wrappers
  import opened Text
  import opened Records
  import opened Schemas
  import opened Uploads
  import opened Store

  const Kind: string := "Class"

  /** `req.body.contentLinks` as it arrives: missing, an array (a JSON
      request), or text (a multipart form sends the list JSON-encoded). */
  datatype LinksField = NoLinks | LinkArray(links: seq<Link>) | LinkText(text: string)

  /** The body fields the create and update handlers read. `date` is the
      value after casting to a timestamp. */
  datatype ClassBody = ClassBody(
    title: Option<string>,
    description: Option<string>,
    instructor: Option<string>,
    date: Option<int>,
    time: Option<string>,
    location: Option<string>,
    capacity: Option<int>,
    contentFile: Option<string>,
    contentLinks: LinksField)

  /** JavaScript truthiness of the field: an array is always truthy, even
      an empty one; text is truthy when non-empty. */
  predicate Supplied(f: LinksField) {
    f.LinkArray? || (f.LinkText? && f.text != "")
  }

  /** `contentLinks ? (Array.isArray(contentLinks) ? contentLinks :
      JSON.parse(contentLinks)) : []`, where `decode` is `JSON.parse` and
      `None` means it threw. */
  function LinksOnCreate(f: LinksField, decode: string -> Option<seq<Link>>): (r: Option<seq<Link>>)
    ensures !Supplied(f) ==> r == Some([])
    ensures f.LinkArray? ==> r == Some(f.links)
    ensures f.LinkText? && f.text != "" ==> r == decode(f.text)
  {
    match f
    case NoLinks => Some([])
    case LinkArray(links) => Some(links)
    case LinkText(text) => if text == "" then Some([]) else decode(text)
  }

  /** What an update does to the stored list. */
  datatype LinkUpdate = Keep | Replace(links: seq<Link>) | Unparsable

  /** On update the list is written only when the field is truthy. */
  function LinksOnUpdate(f: LinksField, decode: string -> Option<seq<Link>>): (r: LinkUpdate)
    ensures r.Keep? <==> !Supplied(f)
    ensures r.Unparsable? <==> f.LinkText? && f.text != "" && decode(f.text).None?
    ensures f.LinkArray? ==> r == Replace(f.links)
    ensures r.Replace? && f.LinkText? ==> decode(f.text) == Some(r.links)
  {
    match f
    case NoLinks => Keep
    case LinkArray(links) => Replace(links)
    case LinkText(text) =>
      if text == "" then Keep
      else match decode(text)
        case None => Unparsable
        case Some(links) => Replace(links)
  }

  /** Create and update agree on every supplied field: the list an update
      writes is the list a create would store. */
  lemma LinksAgree(f: LinksField, decode: string -> Option<seq<Link>>)
    ensures LinksOnUpdate(f, decode).Replace? ==> LinksOnCreate(f, decode) == Some(LinksOnUpdate(f, decode).links)
    ensures LinksOnUpdate(f, decode).Keep? ==> LinksOnCreate(f, decode) == Some([])
    ensures LinksOnUpdate(f, decode).Unparsable? <==> LinksOnCreate(f, decode).None?
  {
  }

  /** The fields `new Class(...)` receives. */
  function Input(body: ClassBody, contentFile: string, links: seq<Link>): ClassInput
  {
    ClassInput(body.title, body.description, body.instructor, body.date, body.time,
               body.location, body.capacity, contentFile, links)
  }

  /** `POST /`, behind `adminAuth` and the content upload. A refused file
      ends the request before the handler; text that does not decode is a
      500 with nothing stored; otherwise the class is validated and saved. */
  function Create(store: map<Id, ClassItem>, gate: Gate, a: Attachment, body: ClassBody,
                  decode: string -> Option<seq<Link>>, id: Id, now: int): (e: Exchange<ClassItem>)
    requires id !in store
    ensures gate.Block? ==> e == Exchange(store, gate.status, Refused)
    ensures gate.Pass? && Receive(ClassContent, a).Rejected? ==> e == Exchange(store, 500, ErrorPage)
    ensures gate.Pass? && !Receive(ClassContent, a).Rejected? && LinksOnCreate(body.contentLinks, decode).None? ==>
      e == Failure(store)
    ensures e.status == 201 <==>
      && gate.Pass? && !Receive(ClassContent, a).Rejected?
      && LinksOnCreate(body.contentLinks, decode).Some?
      && NewClass(id, Input(body, CreateReference(Receive(ClassContent, a), body.contentFile),
                            LinksOnCreate(body.contentLinks, decode).value), now).Some?
    ensures e.status == 201 ==>
      var c := NewClass(id, Input(body, CreateReference(Receive(ClassContent, a), body.contentFile),
                                  LinksOnCreate(body.contentLinks, decode).value), now).value;
      e.store == store[id := c] && e.body == One(c) && ValidClass(c)
    ensures e.status != 201 ==> e.store == store
  {
    match gate
    case Block(status) => Exchange(store, status, Refused)
    case Pass(_) =>
      var r := Receive(ClassContent, a);
      if r.Rejected? then Exchange(store, 500, ErrorPage)
      else
        match LinksOnCreate(body.contentLinks, decode)
        case None => Failure(store)
        case Some(links) =>
          Insert(store, id, NewClass(id, Input(body, CreateReference(r, body.contentFile), links), now))
  }

  /** A created class carries the uploaded file's path, or else the body's
      non-empty `contentFile`, or else "". */
  lemma CreatedContentFile(store: map<Id, ClassItem>, gate: Gate, a: Attachment, body: ClassBody,
                           decode: string -> Option<seq<Link>>, id: Id, now: int)
    requires id !in store
    ensures var e := Create(store, gate, a, body, decode, id, now);
      e.status == 201 ==>
      var c := e.body.item;
      && (Receive(ClassContent, a).Stored? ==> c.contentFile == Receive(ClassContent, a).path)
      && (a.file.None? && Present(body.contentFile) ==> c.contentFile == body.contentFile.value)
      && (a.file.None? && !Present(body.contentFile) ==> c.contentFile == "")
  {
  }

  /** The update document of `PUT /:id` applied to a stored class: the
      seven plain fields as sent (an absent one is dropped; the trimmed
      paths are trimmed), `contentFile` only for a kept file or a non-empty
      body value, `contentLinks` only when supplied. The validators do not
      run. */
  function Patch(c: ClassItem, r: Received, body: ClassBody, links: LinkUpdate): (d: ClassItem)
    requires !r.Rejected? && !links.Unparsable?
    ensures d.id == c.id && d.createdAt == c.createdAt
    ensures d.title == AssignTrimmed(c.title, body.title)
    ensures d.description == Assign(c.description, body.description)
    ensures d.instructor == AssignTrimmed(c.instructor, body.instructor)
    ensures d.date == body.date.GetOr(c.date)
    ensures d.time == Assign(c.time, body.time)
    ensures d.location == AssignTrimmed(c.location, body.location)
    ensures d.capacity == (if body.capacity.Some? then body.capacity else c.capacity)
    ensures d.contentFile == UpdateReference(c.contentFile, r, body.contentFile)
    ensures d.contentLinks == (if links.Replace? then links.links else c.contentLinks)
  {
    c.(
      title := AssignTrimmed(c.title, body.title),
      description := Assign(c.description, body.description),
      instructor := AssignTrimmed(c.instructor, body.instructor),
      date := body.date.GetOr(c.date),
      time := Assign(c.time, body.time),
      location := AssignTrimmed(c.location, body.location),
      capacity := if body.capacity.Some? then body.capacity else c.capacity,
      contentFile := UpdateReference(c.contentFile, r, body.contentFile),
      contentLinks := if links.Replace? then links.links else c.contentLinks)
  }

  /** A body with nothing in it, and no file, leaves the class as it is. */
  lemma EmptyPatchKeeps(c: ClassItem)
    ensures Patch(c, NoFile, ClassBody(None, None, None, None, None, None, None, None, NoLinks), Keep) == c
  {
  }

  /** `PUT /:id`, behind `adminAuth` and the content upload. The links are
      decoded before the class is looked up, so undecodable text is a 500
      even for an id that does not exist. */
  function Update(store: map<Id, ClassItem>, gate: Gate, a: Attachment, p: IdParam, body: ClassBody,
                  decode: string -> Option<seq<Link>>): (e: Exchange<ClassItem>)
    ensures gate.Block? ==> e == Exchange(store, gate.status, Refused)
    ensures gate.Pass? && Receive(ClassContent, a).Rejected? ==> e == Exchange(store, 500, ErrorPage)
    ensures gate.Pass? && !Receive(ClassContent, a).Rejected? && LinksOnUpdate(body.contentLinks, decode).Unparsable? ==>
      e == Failure(store)
    ensures e.status == 200 <==>
      && gate.Pass? && !Receive(ClassContent, a).Rejected?
      && !LinksOnUpdate(body.contentLinks, decode).Unparsable?
      && p.ObjectId? && p.id in store
    ensures e.status == 200 ==>
      var c := Patch(store[p.id], Receive(ClassContent, a), body, LinksOnUpdate(body.contentLinks, decode));
      e.store == store[p.id := c] && e.body == One(c)
    ensures e.status != 200 ==> e.store == store
    ensures && gate.Pass? && !Receive(ClassContent, a).Rejected?
            && !LinksOnUpdate(body.contentLinks, decode).Unparsable?
            && p.ObjectId? && p.id !in store
        ==> e.status == 404 && e.body == Note(NotFound(Kind))
  {
    match gate
    case Block(status) => Exchange(store, status, Refused)
    case Pass(_) =>
      var r := Receive(ClassContent, a);
      if r.Rejected? then Exchange(store, 500, ErrorPage)
      else
        var links := LinksOnUpdate(body.contentLinks, decode);
        if links.Unparsable? then Failure(store)
        else Modify(store, p, Kind, c => Patch(c, r, body, links))
  }

  /** Because the validators do not run on update, an update can store a
      class that `save()` would refuse: a blank title becomes "". */
  lemma UpdateSkipsValidation(c: ClassItem)
    requires ValidClass(c)
    ensures var body := ClassBody(Some(" "), None, None, None, None, None, None, None, NoLinks);
      !ValidClass(Patch(c, NoFile, body, Keep))
  {
    var body := ClassBody(Some(" "), None, None, None, None, None, None, None, NoLinks);
    TrimEmptyIffBlank(" ");
    assert Patch(c, NoFile, body, Keep).title == "";
  }

  /** An update whose required fields are absent or filled, whose
      description and time are absent or non-empty and whose new links are
      complete keeps a valid class valid. */
  lemma UpdateKeepsValid(c: ClassItem, r: Received, body: ClassBody, links: LinkUpdate)
    requires !r.Rejected? && !links.Unparsable?
    requires ValidClass(c)
    requires body.title.None? || Filled(body.title)
    requires body.description.None? || Present(body.description)
    requires body.time.None? || Present(body.time)
    requires links.Replace? ==> CompleteLinks(links.links)
    ensures ValidClass(Patch(c, r, body, links))
  {
    RequiredTrimmedIffFilled(body.title);
  }

  /** `GET /:id`. */
  function Get(store: map<Id, ClassItem>, p: IdParam): (e: Exchange<ClassItem>)
    ensures e.store == store
    ensures e.status == 200 <==> p.ObjectId? && p.id in store
    ensures e.status == 200 ==> e.body == One(store[p.id])
    ensures p.ObjectId? && p.id !in store ==> e.status == 404 && e.body == Note(NotFound(Kind))
  {
    Fetch(store, p, Kind)
  }

  /** `DELETE /:id`, behind `adminAuth`. */
  function Delete(store: map<Id, ClassItem>, gate: Gate, p: IdParam): (e: Exchange<ClassItem>)
    ensures gate.Block? ==> e == Exchange(store, gate.status, Refused)
    ensures e.status == 200 <==> gate.Pass? && p.ObjectId? && p.id in store
    ensures e.status == 200 ==> e.store.Keys == store.Keys - {p.id} && e.body == Note(Deleted(Kind))
    ensures e.status == 200 ==> forall k :: k in e.store ==> e.store[k] == store[k]
    ensures e.status != 200 ==> e.store == store
    ensures gate.Pass? && p.ObjectId? && p.id !in store ==> e.status == 404 && e.body == Note(NotFound(Kind))
  {
    match gate
    case Block(status) => Exchange(store, status, Refused)
    case Pass(_) => Remove(store, p, Kind)
  }

  /** `GET /`: every class once, latest class date first (not creation
      time). */
  method ListClasses(store: map<Id, ClassItem>) returns (rs: seq<ClassItem>)
    requires forall k :: k in store ==> store[k].id == k
    ensures |rs| == |store|
    ensures forall i, j :: 0 <= i < j < |rs| ==> rs[i].date >= rs[j].date
    ensures forall i, j :: 0 <= i < j < |rs| ==> rs[i].id != rs[j].id
    ensures forall i :: 0 <= i < |rs| ==> rs[i].id in store && store[rs[i].id] == rs[i]
    ensures forall k :: k in store ==> store[k] in rs
  {
    rs := List(store, (c: ClassItem) => c.id, (c: ClassItem) => c.date);
  }
}
