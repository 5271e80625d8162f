/** The repository shape shared by the posts, classes, CTFs and members
    routes: a collection is a map from id to document, and each route
    answers with a status, a JSON body and the collection as it is
    afterwards. Fetch, delete and update by id and the sorted listing are
    defined once here. */
module Store {
  import opened Wrappers
  import opened Records

  /** The JSON a route sends. */
  datatype Body<R> =
    | One(item: R)           // the document
    | Many(items: seq<R>)    // the listing
    | Note(message: string)  // `{ message }`, with `error` added on a 500
    | Refused                // the auth middleware answered; its body is not part of this model
    | ErrorPage              // Express's default error handler answered an upload error

  /** One request's effect: the collection afterwards, the status, the body. */
  datatype Exchange<R> = Exchange(store: map<Id, R>, status: int, body: Body<R>)

  /** The `:id` path parameter after Mongoose casts it to an ObjectId; a
      string that does not cast makes the query throw. */
  datatype IdParam = ObjectId(id: Id) | Malformed

  /** What the `auth` / `adminAuth` middleware decided. The middleware is
      not part of this model; when it blocks, it has answered with its own
      status and the handler does not run. */
  datatype Gate = Pass(user: Id) | Block(status: ErrorStatus)

  /** A 4xx or 5xx status. */
  type ErrorStatus = s: int | 400 <= s < 600 witness 401

  const ServerError: string := "Server error"

  function NotFound(kind: string): string {
    kind + " not found"
  }

  function Deleted(kind: string): string {
    kind + " deleted successfully"
  }

  /** The catch block of every handler. */
  function Failure<R>(store: map<Id, R>): Exchange<R> {
    Exchange(store, 500, Note(ServerError))
  }

  /** Every document is stored under its own id. */
  ghost predicate Keyed<R>(store: map<Id, R>, idOf: R -> Id) {
    forall k :: k in store ==> idOf(store[k]) == k
  }

  /** `GET /:id`: `findById`, 404 when nothing has that id. */
  function Fetch<R>(store: map<Id, R>, p: IdParam, kind: string): (e: Exchange<R>)
    ensures e.store == store
    ensures e.status == 200 <==> p.ObjectId? && p.id in store
    ensures e.status == 200 ==> e.body == One(store[p.id])
    ensures p.ObjectId? && p.id !in store ==> e.status == 404 && e.body == Note(NotFound(kind))
    ensures p.Malformed? ==> e.status == 500
  {
    match p
    case Malformed => Failure(store)
    case ObjectId(id) =>
      if id in store then Exchange(store, 200, One(store[id]))
      else Exchange(store, 404, Note(NotFound(kind)))
  }

  /** `DELETE /:id`: `findByIdAndDelete`; only the named document goes. */
  function Remove<R>(store: map<Id, R>, p: IdParam, kind: string): (e: Exchange<R>)
    ensures e.status == 200 <==> p.ObjectId? && p.id in store
    ensures e.status == 200 ==> e.store.Keys == store.Keys - {p.id}
    ensures e.status == 200 ==> forall k :: k in e.store ==> e.store[k] == store[k]
    ensures e.status == 200 ==> e.body == Note(Deleted(kind))
    ensures e.status != 200 ==> e.store == store
    ensures p.ObjectId? && p.id !in store ==> e.status == 404 && e.body == Note(NotFound(kind))
  {
    match p
    case Malformed => Failure(store)
    case ObjectId(id) =>
      if id in store then Exchange(map k | k in store && k != id :: store[k], 200, Note(Deleted(kind)))
      else Exchange(store, 404, Note(NotFound(kind)))
  }

  /** `PUT /:id`: `findByIdAndUpdate(id, update, { new: true })`, where
      `patch` applies the update document; the patched document is sent. */
  function Modify<R>(store: map<Id, R>, p: IdParam, kind: string, patch: R -> R): (e: Exchange<R>)
    ensures e.status == 200 <==> p.ObjectId? && p.id in store
    ensures e.status == 200 ==> e.store == store[p.id := patch(store[p.id])]
    ensures e.status == 200 ==> e.body == One(patch(store[p.id]))
    ensures e.status != 200 ==> e.store == store
    ensures p.ObjectId? && p.id !in store ==> e.status == 404 && e.body == Note(NotFound(kind))
  {
    match p
    case Malformed => Failure(store)
    case ObjectId(id) =>
      if id in store then
        var doc := patch(store[id]);
        Exchange(store[id := doc], 200, One(doc))
      else Exchange(store, 404, Note(NotFound(kind)))
  }

  /** `POST /`: `save()` of a validated document under a fresh id; a
      document the schema refused (`None`) is not stored and answers 500. */
  function Insert<R>(store: map<Id, R>, id: Id, doc: Option<R>): (e: Exchange<R>)
    requires id !in store
    ensures e.status == 201 <==> doc.Some?
    ensures doc.Some? ==> e.store == store[id := doc.value] && e.body == One(doc.value)
    ensures doc.None? ==> e == Failure(store)
  {
    match doc
    case None => Failure(store)
    case Some(d) => Exchange(store[id := d], 201, One(d))
  }

  /** A deleted document can no longer be fetched. */
  lemma RemoveThenFetch<R>(store: map<Id, R>, p: IdParam, kind: string)
    requires Remove(store, p, kind).status == 200
    ensures Fetch(Remove(store, p, kind).store, p, kind).status == 404
  {
  }

  /** Fetching after an update gives what the update answered. */
  lemma ModifyThenFetch<R>(store: map<Id, R>, p: IdParam, kind: string, patch: R -> R)
    requires Modify(store, p, kind, patch).status == 200
    ensures Fetch(Modify(store, p, kind, patch).store, p, kind).body == Modify(store, p, kind, patch).body
  {
  }

  /** A patch that keeps the document's id keeps every document under its
      own id. */
  lemma ModifyKeepsKeyed<R>(store: map<Id, R>, p: IdParam, kind: string, patch: R -> R, idOf: R -> Id)
    requires Keyed(store, idOf)
    requires forall r :: idOf(patch(r)) == idOf(r)
    ensures Keyed(Modify(store, p, kind, patch).store, idOf)
  {
  }

  /** Documents sorted by `key`, greatest first: `.sort({ key: -1 })`. */
  ghost predicate SortedDesc<R>(rs: seq<R>, key: R -> int) {
    forall i, j :: 0 <= i < j < |rs| ==> key(rs[i]) >= key(rs[j])
  }

  ghost predicate DistinctIds<R>(rs: seq<R>, idOf: R -> Id) {
    forall i, j :: 0 <= i < j < |rs| ==> idOf(rs[i]) != idOf(rs[j])
  }

  /** Where a document with key `x` goes in a listing sorted greatest
      first: after every greater key, before every key it reaches. */
  function InsertionPoint<R>(rs: seq<R>, x: int, key: R -> int): (p: nat)
    requires SortedDesc(rs, key)
    ensures p <= |rs|
    ensures forall i :: 0 <= i < p ==> key(rs[i]) > x
    ensures forall i :: p <= i < |rs| ==> key(rs[i]) <= x
  {
    if |rs| == 0 || key(rs[0]) <= x then 0
    else 1 + InsertionPoint(rs[1..], x, key)
  }

  /** `rs` with `doc` placed at position `p`. */
  function Splice<R>(rs: seq<R>, p: nat, doc: R): (next: seq<R>)
    requires p <= |rs|
    ensures |next| == |rs| + 1
    ensures forall i :: 0 <= i < p ==> next[i] == rs[i]
    ensures next[p] == doc
    ensures forall i :: p < i < |next| ==> next[i] == rs[i - 1]
  {
    rs[..p] + [doc] + rs[p..]
  }

  /** Placing a document at its insertion point keeps the listing sorted. */
  lemma SpliceSorted<R>(rs: seq<R>, doc: R, key: R -> int)
    requires SortedDesc(rs, key)
    ensures SortedDesc(Splice(rs, InsertionPoint(rs, key(doc), key), doc), key)
  {
    var p := InsertionPoint(rs, key(doc), key);
    var next := Splice(rs, p, doc);
    forall i, j | 0 <= i < j < |next|
      ensures key(next[i]) >= key(next[j])
    {
      if j < p {
      } else if j == p {
      } else if i < p {
        assert key(rs[i]) >= key(rs[j - 1]);
      } else if i == p {
        assert key(rs[j - 1]) <= key(doc);
      } else {
        assert key(rs[i - 1]) >= key(rs[j - 1]);
      }
    }
  }

  /** Placing a document whose id is new keeps the ids distinct. */
  lemma SpliceDistinct<R>(rs: seq<R>, p: nat, doc: R, idOf: R -> Id)
    requires p <= |rs|
    requires DistinctIds(rs, idOf)
    requires forall i :: 0 <= i < |rs| ==> idOf(rs[i]) != idOf(doc)
    ensures DistinctIds(Splice(rs, p, doc), idOf)
  {
    var next := Splice(rs, p, doc);
    forall i, j | 0 <= i < j < |next|
      ensures idOf(next[i]) != idOf(next[j])
    {
      if j < p {
      } else if j == p {
      } else if i < p {
        assert idOf(rs[i]) != idOf(rs[j - 1]);
      } else if i == p {
      } else {
        assert idOf(rs[i - 1]) != idOf(rs[j - 1]);
      }
    }
  }

  /** A listing under construction: `rs` holds, sorted and once each, the
      documents whose ids are no longer in `rest`. */
  ghost predicate Listing<R>(store: map<Id, R>, idOf: R -> Id, key: R -> int, rs: seq<R>, rest: set<Id>) {
    && rest <= store.Keys
    && SortedDesc(rs, key)
    && DistinctIds(rs, idOf)
    && (forall i :: 0 <= i < |rs| ==> idOf(rs[i]) in store && store[idOf(rs[i])] == rs[i])
    && (forall i :: 0 <= i < |rs| ==> idOf(rs[i]) !in rest)
    && (forall k :: k in store && k !in rest ==> store[k] in rs)
    && |rs| + |rest| == |store.Keys|
  }

  /** Moving one id from `rest` into the listing at its insertion point
      keeps it a listing. */
  lemma ListingStep<R>(store: map<Id, R>, idOf: R -> Id, key: R -> int, rs: seq<R>, rest: set<Id>, k: Id)
    requires Keyed(store, idOf)
    requires Listing(store, idOf, key, rs, rest) && k in rest
    ensures Listing(store, idOf, key, Splice(rs, InsertionPoint(rs, key(store[k]), key), store[k]), rest - {k})
  {
    var doc := store[k];
    var p := InsertionPoint(rs, key(doc), key);
    SpliceSorted(rs, doc, key);
    SpliceDistinct(rs, p, doc, idOf);
    var next := Splice(rs, p, doc);
    forall y | y in rs
      ensures y in next
    {
      var i :| 0 <= i < |rs| && rs[i] == y;
      if i < p { assert next[i] == y; } else { assert next[i + 1] == y; }
    }
    assert |rest - {k}| == |rest| - 1;
  }

  /** `GET /`: `find().sort({ key: -1 })`. The result lists every stored
      document exactly once, greatest key first; documents with equal keys
      come in an order the database does not fix. */
  method List<R>(store: map<Id, R>, idOf: R -> Id, key: R -> int) returns (rs: seq<R>)
    requires Keyed(store, idOf)
    ensures SortedDesc(rs, key)
    ensures |rs| == |store|
    ensures DistinctIds(rs, idOf)
    ensures forall i :: 0 <= i < |rs| ==> idOf(rs[i]) in store && store[idOf(rs[i])] == rs[i]
    ensures forall k :: k in store ==> store[k] in rs
  {
    rs := [];
    var rest := store.Keys;
    assert |store.Keys| == |store|;
    while rest != {}
      invariant Listing(store, idOf, key, rs, rest)
      decreases rest
    {
      var k :| k in rest;
      ListingStep(store, idOf, key, rs, rest, k);
      rs := Splice(rs, InsertionPoint(rs, key(store[k]), key), store[k]);
      rest := rest - {k};
    }
  }
}
