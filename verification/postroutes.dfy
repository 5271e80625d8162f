/** The posts resource: listing by creation time, fetch, create and update
    with an optional image upload, delete, and the like toggle that any
    signed-in user may call. */
module PostRoutes {
  import opened Wrappers
  import opened Records
  import opened Uploads
  import opened Store

  const Kind: string := "Post"

  /** The body fields the create and update handlers read. */
  datatype PostBody = PostBody(title: Option<string>, content: Option<string>, image: Option<string>)

  /** No id is listed twice. */
  predicate NoDuplicates(s: seq<Id>) {
    forall i, j :: 0 <= i < j < |s| ==> s[i] != s[j]
  }

  /** The like bookkeeping every post should keep: one like per listed
      user, and no user listed twice. */
  predicate LikesCounted(p: Post) {
    p.likes == |p.likedBy| && NoDuplicates(p.likedBy)
  }

  /** `likedBy.filter(id => id.toString() !== u.toString())`: every
      occurrence of `u` goes, everything else stays. */
  function RemoveAll(s: seq<Id>, u: Id): (r: seq<Id>)
    ensures u !in r
    ensures multiset(r) == multiset(s)[u := 0]
  {
    if |s| == 0 then []
    else if s[0] == u then
      assert s == [s[0]] + s[1..];
      RemoveAll(s[1..], u)
    else
      assert s == [s[0]] + s[1..];
      [s[0]] + RemoveAll(s[1..], u)
  }

  /** Filtering an id out keeps the others in their order. */
  lemma {:induction false} RemoveAllKeepsOthers(s: seq<Id>, u: Id)
    requires u !in s
    ensures RemoveAll(s, u) == s
  {
    if |s| > 0 {
      RemoveAllKeepsOthers(s[1..], u);
    }
  }

  /** Filtering never introduces a duplicate. */
  lemma {:induction false} RemoveAllNoDuplicates(s: seq<Id>, u: Id)
    requires NoDuplicates(s)
    ensures NoDuplicates(RemoveAll(s, u))
  {
    if |s| > 0 {
      var t := s[1..];
      assert NoDuplicates(t) by {
        forall i, j | 0 <= i < j < |t| ensures t[i] != t[j] {
          assert s[i + 1] != s[j + 1];
        }
      }
      RemoveAllNoDuplicates(t, u);
      if s[0] != u {
        var rest := RemoveAll(t, u);
        assert s[0] !in t by {
          forall j | 0 <= j < |t| ensures t[j] != s[0] {
            assert s[0] != s[j + 1];
          }
        }
        assert s[0] !in multiset(rest);
        var r := [s[0]] + rest;
        forall i, j | 0 <= i < j < |r| ensures r[i] != r[j] {
          if i == 0 {
            assert r[j] in rest;
          } else {
            assert r[i] == rest[i - 1] && r[j] == rest[j - 1];
          }
        }
      }
    }
  }

  /** Lines 121-129: a user who has liked the post is filtered out of
      `likedBy` and takes one like away; a user who has not is appended and
      adds one. Nothing else about the post changes. */
  function ToggleLike(p: Post, u: Id): (q: Post)
    ensures q.(likes := p.likes, likedBy := p.likedBy) == p
    ensures u in p.likedBy ==> q.likes == p.likes - 1 && u !in q.likedBy
    ensures u in p.likedBy ==> multiset(q.likedBy) == multiset(p.likedBy)[u := 0]
    ensures u !in p.likedBy ==> q.likes == p.likes + 1 && q.likedBy == p.likedBy + [u]
  {
    if u in p.likedBy then p.(likedBy := RemoveAll(p.likedBy, u), likes := p.likes - 1)
    else p.(likedBy := p.likedBy + [u], likes := p.likes + 1)
  }

  /** In a list without duplicates every listed id occurs once. */
  lemma OccursOnce(s: seq<Id>, i: nat)
    requires NoDuplicates(s) && i < |s|
    ensures multiset(s)[s[i]] == 1
  {
    var u := s[i];
    assert s == s[..i] + [u] + s[i + 1..];
    assert u !in s[..i] by {
      forall j | 0 <= j < i ensures s[..i][j] != u {
        assert s[j] != s[i];
      }
    }
    assert u !in s[i + 1..] by {
      forall j | i < j < |s| ensures s[j] != u {
        assert s[i] != s[j];
      }
    }
  }

  /** Appending a new id keeps the list free of duplicates. */
  lemma AppendNew(s: seq<Id>, u: Id)
    requires NoDuplicates(s) && u !in s
    ensures NoDuplicates(s + [u])
  {
    var t := s + [u];
    forall i, j | 0 <= i < j < |t| ensures t[i] != t[j] {
      if j == |s| {
        assert t[i] in s;
      }
    }
  }

  /** A toggle keeps one like per listed user and no user twice, so the
      count stays non-negative. */
  lemma ToggleKeepsCount(p: Post, u: Id)
    requires LikesCounted(p)
    ensures LikesCounted(ToggleLike(p, u))
    ensures ToggleLike(p, u).likes >= 0
  {
    var q := ToggleLike(p, u);
    if u in p.likedBy {
      RemoveAllNoDuplicates(p.likedBy, u);
      var i :| 0 <= i < |p.likedBy| && p.likedBy[i] == u;
      OccursOnce(p.likedBy, i);
      assert |q.likedBy| == |multiset(q.likedBy)| == |multiset(p.likedBy)| - 1;
    } else {
      AppendNew(p.likedBy, u);
    }
  }

  /** Whatever `likedBy` holds, two toggles by one user give the like count
      back. */
  lemma ToggleTwiceRestoresLikes(p: Post, u: Id)
    ensures ToggleLike(ToggleLike(p, u), u).likes == p.likes
  {
  }

  /** On a counted post, two toggles by one user give back the same post
      when the user had not liked it, and the same likers when they had
      (the user then moves to the end of `likedBy`). */
  lemma ToggleTwiceRestores(p: Post, u: Id)
    requires LikesCounted(p)
    ensures u !in p.likedBy ==> ToggleLike(ToggleLike(p, u), u) == p
    ensures u in p.likedBy ==>
      ToggleLike(ToggleLike(p, u), u) == p.(likedBy := ToggleLike(ToggleLike(p, u), u).likedBy)
    ensures multiset(ToggleLike(ToggleLike(p, u), u).likedBy) == multiset(p.likedBy)
  {
    var q := ToggleLike(p, u);
    if u !in p.likedBy {
      RemoveAllAppended(p.likedBy, u);
    } else {
      var i :| 0 <= i < |p.likedBy| && p.likedBy[i] == u;
      OccursOnce(p.likedBy, i);
      assert q.likedBy + [u] == ToggleLike(q, u).likedBy;
      assert multiset(q.likedBy + [u]) == multiset(p.likedBy);
    }
  }

  /** Filtering `u` out of a list that ends with its only `u` drops that
      last element. */
  lemma {:induction false} RemoveAllAppended(s: seq<Id>, u: Id)
    requires u !in s
    ensures RemoveAll(s + [u], u) == s
  {
    if |s| == 0 {
      assert [u][1..] == [];
    } else {
      assert (s + [u])[1..] == s[1..] + [u];
      RemoveAllAppended(s[1..], u);
    }
  }

  /** A stored id listed twice breaks the count: the toggle removes both
      and takes away one like. */
  lemma DuplicateLikerBreaksCount(p: Post, u: Id)
    requires p.likedBy == [u, u] && p.likes == 2
    ensures ToggleLike(p, u).likedBy == [] && ToggleLike(p, u).likes == 1
    ensures !LikesCounted(ToggleLike(p, u))
  {
    assert u in p.likedBy;
    var r := ToggleLike(p, u).likedBy;
    assert |r| == |multiset(r)| == 0;
  }

  /** Every post is stored under its id and keeps its like count. */
  ghost predicate Healthy(store: map<Id, Post>) {
    forall k :: k in store ==> store[k].id == k && LikesCounted(store[k])
  }

  /** `POST /:id/like`, behind `auth`: find the post, toggle the caller's
      like and `save()` it. `accepts` is the Post schema's validation,
      which is not part of this model. */
  function Like(store: map<Id, Post>, gate: Gate, p: IdParam, accepts: Post -> bool): (e: Exchange<Post>)
    ensures gate.Block? ==> e == Exchange(store, gate.status, Refused)
    ensures e.status == 200 <==>
      gate.Pass? && p.ObjectId? && p.id in store && accepts(ToggleLike(store[p.id], gate.user))
    ensures e.status == 200 ==>
      var q := ToggleLike(store[p.id], gate.user);
      e.store == store[p.id := q] && e.body == One(q)
    ensures e.status != 200 ==> e.store == store
    ensures gate.Pass? && p.ObjectId? && p.id !in store ==> e.status == 404 && e.body == Note(NotFound(Kind))
  {
    match gate
    case Block(status) => Exchange(store, status, Refused)
    case Pass(user) =>
      match p
      case Malformed => Failure(store)
      case ObjectId(id) =>
        if id !in store then Exchange(store, 404, Note(NotFound(Kind)))
        else
          var q := ToggleLike(store[id], user);
          if accepts(q) then Exchange(store[id := q], 200, One(q)) else Failure(store)
  }

  /** A like request keeps every post counted. */
  lemma LikeKeepsHealthy(store: map<Id, Post>, gate: Gate, p: IdParam, accepts: Post -> bool)
    requires Healthy(store)
    ensures Healthy(Like(store, gate, p, accepts).store)
  {
    if Like(store, gate, p, accepts).status == 200 {
      ToggleKeepsCount(store[p.id], gate.user);
    }
  }

  /** The post `new Post({ title, content, image })` builds: no likes yet. */
  function Fresh(id: Id, body: PostBody, image: string, now: int): (q: Post)
    ensures q.id == id && q.createdAt == now && q.image == image
    ensures q.title == body.title.GetOr("") && q.content == body.content.GetOr("")
    ensures q.likes == 0 && q.likedBy == [] && LikesCounted(q)
  {
    Post(id, body.title.GetOr(""), body.content.GetOr(""), image, 0, [], now)
  }

  /** `POST /`, behind `adminAuth` and the image upload. A refused file
      ends the request before the handler; otherwise the image is the
      uploaded file's path, else the body's non-empty `image`, else "". */
  function Create(store: map<Id, Post>, gate: Gate, a: Attachment, body: PostBody, id: Id, now: int,
                  accepts: Post -> bool): (e: Exchange<Post>)
    requires id !in store
    ensures gate.Block? ==> e == Exchange(store, gate.status, Refused)
    ensures gate.Pass? && Receive(PostImage, a).Rejected? ==> e == Exchange(store, 500, ErrorPage)
    ensures e.status == 201 <==>
      && gate.Pass? && !Receive(PostImage, a).Rejected?
      && accepts(Fresh(id, body, CreateReference(Receive(PostImage, a), body.image), now))
    ensures e.status == 201 ==>
      var q := Fresh(id, body, CreateReference(Receive(PostImage, a), body.image), now);
      e.store == store[id := q] && e.body == One(q)
    ensures e.status != 201 ==> e.store == store
  {
    match gate
    case Block(status) => Exchange(store, status, Refused)
    case Pass(_) =>
      var r := Receive(PostImage, a);
      if r.Rejected? then Exchange(store, 500, ErrorPage)
      else
        var q := Fresh(id, body, CreateReference(r, body.image), now);
        Insert(store, id, if accepts(q) then Some(q) else None)
  }

  /** A created post can be fetched under its new id. */
  lemma CreateThenFetch(store: map<Id, Post>, gate: Gate, a: Attachment, body: PostBody, id: Id, now: int,
                        accepts: Post -> bool)
    requires id !in store
    ensures var e := Create(store, gate, a, body, id, now, accepts);
      e.status == 201 ==> Fetch(e.store, ObjectId(id), Kind).body == e.body
  {
  }

  lemma CreateKeepsHealthy(store: map<Id, Post>, gate: Gate, a: Attachment, body: PostBody, id: Id, now: int,
                           accepts: Post -> bool)
    requires id !in store && Healthy(store)
    ensures Healthy(Create(store, gate, a, body, id, now, accepts).store)
  {
  }

  /** The update document of `PUT /:id`: `title` and `content` as sent (an
      absent one is dropped from the update), `image` only when a file was
      kept or a non-empty `image` was sent. */
  function Patch(q: Post, r: Received, body: PostBody): (q': Post)
    requires !r.Rejected?
    ensures q'.(title := q.title, content := q.content, image := q.image) == q
    ensures body.title.Some? ==> q'.title == body.title.value
    ensures body.title.None? ==> q'.title == q.title
    ensures body.content.Some? ==> q'.content == body.content.value
    ensures body.content.None? ==> q'.content == q.content
    ensures q'.image == UpdateReference(q.image, r, body.image)
  {
    q.(title := body.title.GetOr(q.title), content := body.content.GetOr(q.content),
       image := UpdateReference(q.image, r, body.image))
  }

  /** `PUT /:id`, behind `adminAuth` and the image upload. */
  function Update(store: map<Id, Post>, gate: Gate, a: Attachment, p: IdParam, body: PostBody): (e: Exchange<Post>)
    ensures gate.Block? ==> e == Exchange(store, gate.status, Refused)
    ensures gate.Pass? && Receive(PostImage, a).Rejected? ==> e == Exchange(store, 500, ErrorPage)
    ensures e.status == 200 <==>
      gate.Pass? && !Receive(PostImage, a).Rejected? && p.ObjectId? && p.id in store
    ensures e.status == 200 ==>
      var q := Patch(store[p.id], Receive(PostImage, a), body);
      e.store == store[p.id := q] && e.body == One(q)
    ensures e.status != 200 ==> e.store == store
    ensures gate.Pass? && !Receive(PostImage, a).Rejected? && p.ObjectId? && p.id !in store ==>
      e.status == 404 && e.body == Note(NotFound(Kind))
  {
    match gate
    case Block(status) => Exchange(store, status, Refused)
    case Pass(_) =>
      var r := Receive(PostImage, a);
      if r.Rejected? then Exchange(store, 500, ErrorPage)
      else Modify(store, p, Kind, q => Patch(q, r, body))
  }

  /** An update never touches the likes. */
  lemma UpdateKeepsHealthy(store: map<Id, Post>, gate: Gate, a: Attachment, p: IdParam, body: PostBody)
    requires Healthy(store)
    ensures Healthy(Update(store, gate, a, p, body).store)
  {
  }

  /** `GET /:id`. */
  function Get(store: map<Id, Post>, p: IdParam): (e: Exchange<Post>)
    ensures e.store == store
    ensures e.status == 200 <==> p.ObjectId? && p.id in store
    ensures e.status == 200 ==> e.body == One(store[p.id])
    ensures p.ObjectId? && p.id !in store ==> e.status == 404 && e.body == Note(NotFound(Kind))
  {
    Fetch(store, p, Kind)
  }

  /** `DELETE /:id`, behind `adminAuth`. */
  function Delete(store: map<Id, Post>, gate: Gate, p: IdParam): (e: Exchange<Post>)
    ensures gate.Block? ==> e == Exchange(store, gate.status, Refused)
    ensures e.status == 200 <==> gate.Pass? && p.ObjectId? && p.id in store
    ensures e.status == 200 ==> e.store.Keys == store.Keys - {p.id} && e.body == Note(Deleted(Kind))
    ensures e.status == 200 ==> forall k :: k in e.store ==> e.store[k] == store[k]
    ensures e.status != 200 ==> e.store == store
    ensures gate.Pass? && p.ObjectId? && p.id !in store ==> e.status == 404 && e.body == Note(NotFound(Kind))
  {
    match gate
    case Block(status) => Exchange(store, status, Refused)
    case Pass(_) => Remove(store, p, Kind)
  }

  lemma DeleteKeepsHealthy(store: map<Id, Post>, gate: Gate, p: IdParam)
    requires Healthy(store)
    ensures Healthy(Delete(store, gate, p).store)
  {
  }

  /** `GET /`: every post once, newest first. */
  method ListPosts(store: map<Id, Post>) returns (rs: seq<Post>)
    requires forall k :: k in store ==> store[k].id == k
    ensures |rs| == |store|
    ensures forall i, j :: 0 <= i < j < |rs| ==> rs[i].createdAt >= rs[j].createdAt
    ensures forall i, j :: 0 <= i < j < |rs| ==> rs[i].id != rs[j].id
    ensures forall i :: 0 <= i < |rs| ==> rs[i].id in store && store[rs[i].id] == rs[i]
    ensures forall k :: k in store ==> store[k] in rs
  {
    rs := List(store, (q: Post) => q.id, (q: Post) => q.createdAt);
  }
}
