/** The posts page: the like button's guard, how the list takes in the
    server's answer, and the "liked" marker. */
module PostsPage {
  import opened Wrappers
  import opened Records
  import opened Store
  import opened PostRoutes

  /** `posts.map(post => post._id === postId ? response.data : post)`, with
      `answer` the response's post. */
  function ReplaceById(posts: seq<Post>, postId: Id, answer: Post): (r: seq<Post>)
    ensures |r| == |posts|
    ensures forall i :: 0 <= i < |posts| && posts[i].id != postId ==> r[i] == posts[i]
    ensures forall i :: 0 <= i < |posts| && posts[i].id == postId ==> r[i] == answer
  {
    seq(|posts|, i requires 0 <= i < |posts| => if posts[i].id == postId then answer else posts[i])
  }

  /** With ids that are unique on the page, exactly the one matching post
      is replaced in place. */
  lemma ReplaceOne(posts: seq<Post>, k: nat, answer: Post)
    requires k < |posts|
    requires forall i :: 0 <= i < |posts| && i != k ==> posts[i].id != posts[k].id
    ensures ReplaceById(posts, posts[k].id, answer) == posts[k := answer]
  {
  }

  /** A post that is not on the page changes nothing. */
  lemma ReplaceMissing(posts: seq<Post>, postId: Id, answer: Post)
    requires forall i :: 0 <= i < |posts| ==> posts[i].id != postId
    ensures ReplaceById(posts, postId, answer) == posts
  {
  }

  /** The outcome of clicking the like button. */
  datatype Clicked = Clicked(requestSent: bool, posts: seq<Post>)

  /** `handleLike(postId)`: without a signed-in user only an alert is
      shown; otherwise the like request is sent and, when it answers
      (`response` is `Some`), its post replaces the one with that id. A
      failed request is only logged. */
  function HandleLike(user: Option<Id>, posts: seq<Post>, postId: Id, response: Option<Post>): (c: Clicked)
    ensures c.requestSent <==> user.Some?
    ensures user.None? || response.None? ==> c.posts == posts
    ensures user.Some? && response.Some? ==> c.posts == ReplaceById(posts, postId, response.value)
  {
    if user.None? then Clicked(false, posts)
    else match response
      case None => Clicked(true, posts)
      case Some(answer) => Clicked(true, ReplaceById(posts, postId, answer))
  }

  /** `user && post.likedBy?.includes(user.id)`. */
  predicate Liked(user: Option<Id>, p: Post) {
    user.Some? && user.value in p.likedBy
  }

  /** Clicking like on a post the page shows flips that post's marker and
      moves its count by one, when the server toggles the same user's like
      on the same stored post. */
  lemma LikeFlipsMarker(u: Id, posts: seq<Post>, k: nat)
    requires k < |posts|
    requires forall i :: 0 <= i < |posts| && i != k ==> posts[i].id != posts[k].id
    ensures var answer := ToggleLike(posts[k], u);
      var after := HandleLike(Some(u), posts, posts[k].id, Some(answer)).posts;
      && |after| == |posts|
      && (Liked(Some(u), after[k]) <==> !Liked(Some(u), posts[k]))
      && after[k].likes == (if Liked(Some(u), posts[k]) then posts[k].likes - 1 else posts[k].likes + 1)
      && forall i :: 0 <= i < |posts| && i != k ==> after[i] == posts[i]
  {
    ReplaceOne(posts, k, ToggleLike(posts[k], u));
  }

  /** The server's answer to a like is the post the page then shows. */
  lemma ServerAnswerShown(store: map<Id, Post>, u: Id, postId: Id, posts: seq<Post>, accepts: Post -> bool)
    requires Like(store, Pass(u), ObjectId(postId), accepts).status == 200
    ensures var reply := Like(store, Pass(u), ObjectId(postId), accepts).body.item;
      forall i :: 0 <= i < |posts| && posts[i].id == postId ==>
        HandleLike(Some(u), posts, postId, Some(reply)).posts[i] == ToggleLike(store[postId], u)
  {
  }
}
