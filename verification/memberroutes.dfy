/** The members resource: listing by creation time, fetch, create and
    update from six body fields, and delete. There is no upload. */
module MemberRoutes {
  import opened Wrappers
  import opened Text
  import opened Records
  import opened Schemas
  import opened Store

  const Kind: string := "Member"

  /** The six body fields the handlers read; any other key is ignored. */
  datatype MemberBody = MemberBody(
    name: Option<string>,
    role: Option<string>,
    image: Option<string>,
    bio: Option<string>,
    linkedin: Option<string>,
    github: Option<string>)

  function Input(body: MemberBody): MemberInput
  {
    MemberInput(body.name, body.role, body.image, body.bio, body.linkedin, body.github)
  }

  /** `POST /`, behind `adminAuth`. */
  function Create(store: map<Id, Member>, gate: Gate, body: MemberBody, id: Id, now: int): (e: Exchange<Member>)
    requires id !in store
    ensures gate.Block? ==> e == Exchange(store, gate.status, Refused)
    ensures e.status == 201 <==> gate.Pass? && Filled(body.name) && Filled(body.role)
    ensures e.status == 201 ==>
      var m := NewMember(id, Input(body), now).value;
      e.store == store[id := m] && e.body == One(m) && ValidMember(m)
    ensures e.status != 201 ==> e.store == store
  {
    match gate
    case Block(status) => Exchange(store, status, Refused)
    case Pass(_) => Insert(store, id, NewMember(id, Input(body), now))
  }

  /** A created member is made of the six fields alone. */
  lemma CreateUsesSixFields(store: map<Id, Member>, gate: Gate, body: MemberBody, id: Id, now: int)
    requires id !in store
    ensures var e := Create(store, gate, body, id, now);
      e.status == 201 ==>
        e.body.item == Member(id, Trim(body.name.value), Trim(body.role.value), body.image.GetOr(""),
                              body.bio.GetOr(""), body.linkedin.GetOr(""), body.github.GetOr(""), now)
  {
  }

  /** The update document `{ name, role, image, bio, linkedin, github }`
      applied to a stored member; absent fields are dropped. */
  function Patch(m: Member, body: MemberBody): (d: Member)
    ensures d.id == m.id && d.createdAt == m.createdAt
    ensures d.name == AssignTrimmed(m.name, body.name)
    ensures d.role == AssignTrimmed(m.role, body.role)
    ensures d.image == Assign(m.image, body.image) && d.bio == Assign(m.bio, body.bio)
    ensures d.linkedin == Assign(m.linkedin, body.linkedin) && d.github == Assign(m.github, body.github)
  {
    m.(
      name := AssignTrimmed(m.name, body.name),
      role := AssignTrimmed(m.role, body.role),
      image := Assign(m.image, body.image),
      bio := Assign(m.bio, body.bio),
      linkedin := Assign(m.linkedin, body.linkedin),
      github := Assign(m.github, body.github))
  }

  /** A body with nothing in it leaves the member as it is. */
  lemma EmptyPatchKeeps(m: Member)
    ensures Patch(m, MemberBody(None, None, None, None, None, None)) == m
  {
  }

  /** An update whose name and role are absent or filled keeps a valid
      member valid. */
  lemma UpdateKeepsValid(m: Member, body: MemberBody)
    requires ValidMember(m)
    requires body.name.None? || Filled(body.name)
    requires body.role.None? || Filled(body.role)
    ensures ValidMember(Patch(m, body))
  {
    RequiredTrimmedIffFilled(body.name);
    RequiredTrimmedIffFilled(body.role);
  }

  /** `PUT /:id`, behind `adminAuth`. */
  function Update(store: map<Id, Member>, gate: Gate, p: IdParam, body: MemberBody): (e: Exchange<Member>)
    ensures gate.Block? ==> e == Exchange(store, gate.status, Refused)
    ensures e.status == 200 <==> gate.Pass? && p.ObjectId? && p.id in store
    ensures e.status == 200 ==>
      e.store == store[p.id := Patch(store[p.id], body)] && e.body == One(Patch(store[p.id], body))
    ensures e.status != 200 ==> e.store == store
    ensures gate.Pass? && p.ObjectId? && p.id !in store ==> e.status == 404 && e.body == Note(NotFound(Kind))
  {
    match gate
    case Block(status) => Exchange(store, status, Refused)
    case Pass(_) => Modify(store, p, Kind, m => Patch(m, body))
  }

  /** `GET /:id`. */
  function Get(store: map<Id, Member>, p: IdParam): (e: Exchange<Member>)
    ensures e.store == store
    ensures e.status == 200 <==> p.ObjectId? && p.id in store
    ensures e.status == 200 ==> e.body == One(store[p.id])
    ensures p.ObjectId? && p.id !in store ==> e.status == 404 && e.body == Note(NotFound(Kind))
  {
    Fetch(store, p, Kind)
  }

  /** `DELETE /:id`, behind `adminAuth`. */
  function Delete(store: map<Id, Member>, gate: Gate, p: IdParam): (e: Exchange<Member>)
    ensures gate.Block? ==> e == Exchange(store, gate.status, Refused)
    ensures e.status == 200 <==> gate.Pass? && p.ObjectId? && p.id in store
    ensures e.status == 200 ==> e.store.Keys == store.Keys - {p.id} && e.body == Note(Deleted(Kind))
    ensures e.status == 200 ==> forall k :: k in e.store ==> e.store[k] == store[k]
    ensures e.status != 200 ==> e.store == store
    ensures gate.Pass? && p.ObjectId? && p.id !in store ==> e.status == 404 && e.body == Note(NotFound(Kind))
  {
    match gate
    case Block(status) => Exchange(store, status, Refused)
    case Pass(_) => Remove(store, p, Kind)
  }

  /** Deleting a stored member answers with the confirmation, after which
      fetching it is the not-found answer. */
  lemma DeleteThenFetch(store: map<Id, Member>, gate: Gate, p: IdParam)
    requires gate.Pass? && p.ObjectId? && p.id in store
    ensures Delete(store, gate, p).status == 200
    ensures Delete(store, gate, p).body == Note(Deleted(Kind))
    ensures Get(Delete(store, gate, p).store, p) == Exchange(Delete(store, gate, p).store, 404, Note(NotFound(Kind)))
  {
    var e := Delete(store, gate, p);
    assert p.id !in e.store.Keys;
  }

  /** `GET /`: every member once, newest first. */
  method ListMembers(store: map<Id, Member>) returns (rs: seq<Member>)
    requires forall k :: k in store ==> store[k].id == k
    ensures |rs| == |store|
    ensures forall i, j :: 0 <= i < j < |rs| ==> rs[i].createdAt >= rs[j].createdAt
    ensures forall i, j :: 0 <= i < j < |rs| ==> rs[i].id != rs[j].id
    ensures forall i :: 0 <= i < |rs| ==> rs[i].id in store && store[rs[i].id] == rs[i]
    ensures forall k :: k in store ==> store[k] in rs
  {
    rs := List(store, (m: Member) => m.id, (m: Member) => m.createdAt);
  }
}
