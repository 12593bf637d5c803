/** Read access to the store's posts, and `AddPost`, the one operation that
    changes the store. */
module PostService {
  import opened Outcomes
  import opened Linq
  import opened Models

  /** `GetPostById`: the first post in the list with that id, or the `First`
      failure when there is none. */
  function GetPostById(store: DataStore, id: int): (r: Result<Post>)
    reads store, store.posts
    ensures r.Ok? <==> exists p :: p in store.posts && p.id == id
    ensures r.Ok? ==> r.value.id == id
    ensures r.Ok? ==> exists k :: 0 <= k < |store.posts| && store.posts[k] == r.value &&
                                  forall j :: 0 <= j < k ==> store.posts[j].id != id
    ensures r.Err? ==> r.error == NoMatchingElement
  {
    var ids := PostIds(store.posts);
    var k := FirstIndex(ids, id);
    if k < |store.posts| then
      assert forall j :: 0 <= j < k ==> store.posts[j].id == ids[j];
      Ok(store.posts[k])
    else
      PostIdsCover(store.posts);
      Err(NoMatchingElement)
  }

  /** `GetAllPosts`: the store's live post list, in insertion order. */
  function GetAllPosts(store: DataStore): (r: seq<Post>)
    reads store
    ensures r == store.posts
  {
    store.posts
  }

  /** Every listed post is found by its id, and with distinct ids the
      lookup returns that very post. */
  lemma ListedPostIsFound(store: DataStore, k: nat)
    requires Distinct(PostIds(store.posts))
    requires k < |GetAllPosts(store)|
    ensures GetPostById(store, GetAllPosts(store)[k].id) == Ok(GetAllPosts(store)[k])
  {
    FirstIndexOfDistinct(PostIds(store.posts), k);
  }

  /** The id `AddPost` assigns: one more than the largest id in use, or 1
      when there are no posts. It exceeds every id in use. */
  function NextId(ids: seq<int>): (r: int)
    ensures forall x :: x in ids ==> x < r
    ensures ids == [] ==> r == 1
    ensures ids != [] ==> r - 1 in ids
  {
    if ids != [] then Max(ids) + 1 else 1
  }

  /** Appending the fresh id keeps the ids pairwise distinct. */
  lemma NextIdKeepsDistinct(ids: seq<int>)
    requires Distinct(ids)
    ensures Distinct(ids + [NextId(ids)])
  {
    var s := ids + [NextId(ids)];
    forall i, j | 0 <= i < j < |s|
      ensures s[i] != s[j]
    {
      assert s[i] == ids[i] && ids[i] in ids;
    }
  }

  /** Two additions in a row get consecutive ids. */
  lemma NextIdAfterNextId(ids: seq<int>)
    ensures NextId(ids + [NextId(ids)]) == NextId(ids) + 1
  {
    var n := NextId(ids);
    var m := NextId(ids + [n]);
    assert n in ids + [n];
    assert m - 1 in ids || m - 1 == n;
  }

  /** The list `AddPost` leaves on an author: the old list (an empty one
      if it was null) with the post appended. */
  function AppendToList(list: Option<seq<Post>>, post: Post): (r: seq<Post>)
    ensures post in r && r[|r| - 1] == post
    ensures forall q :: q in r ==> q == post || (list.Some? && q in list.value)
    ensures |r| == (if list.Some? then |list.value| else 0) + 1
    ensures list.Some? ==> r[..|r| - 1] == list.value
    ensures list.None? ==> r == [post]
  {
    match list
    case Some(l) => l + [post]
    case None => [post]
  }

  /** The fresh id occurs only at the end, so a lookup by it finds the
      appended element. */
  lemma NextIdFoundLast(ids: seq<int>)
    ensures FirstIndex(ids + [NextId(ids)], NextId(ids)) == |ids|
  {
    var s := ids + [NextId(ids)];
    forall j | 0 <= j < |ids|
      ensures s[j] != NextId(ids)
    {
      assert s[j] == ids[j] && ids[j] in ids;
    }
  }

  /** After an append with the next id, looking that id up finds the
      appended post. */
  lemma FreshIdIsFound(store: DataStore, ids: seq<int>)
    requires PostIds(store.posts) == ids + [NextId(ids)]
    ensures GetPostById(store, NextId(ids)) == Ok(store.posts[|ids|])
  {
    NextIdFoundLast(ids);
  }

  /** `AddPost`, as written: assign the next id, append the post to the
      global list, then look up its author. If found, the author's list
      (created when null) gets the post and the post points back at the
      author; otherwise the call fails, and the global append stays. */
  method AddPost(store: DataStore, post: Post) returns (r: Result<Post>)
    modifies store`posts, post, store.authors
    ensures store.posts == old(store.posts) + [post]
    ensures post.id == NextId(old(PostIds(store.posts)))
    ensures post !in old(store.posts) ==> PostIds(store.posts) == old(PostIds(store.posts)) + [post.id]
    ensures var k := FirstIndex(AuthorIds(store.authors), post.authorId);
      if k < |store.authors| then
        var author := store.authors[k];
        && r == Ok(post)
        && post.author == author
        && author.posts == Some(AppendToList(old(author.posts), post))
        && forall a :: a in store.authors && a != author ==> a.posts == old(a.posts)
      else
        && r == Err(AuthorNotFound(post.authorId))
        && post.author == old(post.author)
        && forall a :: a in store.authors ==> a.posts == old(a.posts)
    ensures old(store.Valid()) && post !in old(store.posts) && post.authorId in AuthorIds(store.authors)
      ==> store.Valid()
    ensures post.authorId !in AuthorIds(store.authors) ==> !store.Valid()
  {
    post.id := NextId(PostIds(store.posts));
    store.posts := store.posts + [post];
    if post !in old(store.posts) {
      assert forall i :: 0 <= i < |old(store.posts)| ==> store.posts[i] == old(store.posts)[i];
      assert PostIds(store.posts) == old(PostIds(store.posts)) + [post.id];
    }

    var k := FirstIndex(AuthorIds(store.authors), post.authorId);
    if k < |store.authors| {
      var author := store.authors[k];
      LinkToAuthor(author, post);
      if old(store.Valid()) && post !in old(store.posts) {
        NextIdKeepsDistinct(old(PostIds(store.posts)));
        forall p | p in store.posts
          ensures p.author != null && p.author in store.authors && p.author.id == p.authorId
          ensures p.author.posts.Some? && p in p.author.posts.value
        {
          if p != post {
            assert p in old(store.posts);
          }
        }
        forall a, q | a in store.authors && a.posts.Some? && q in a.posts.value
          ensures q in store.posts && q.author == a
        {
          if q != post {
            assert q in old(a.posts.value);
          }
        }
      }
    } else {
      AuthorIdsCover(store.authors);
      assert post in store.posts;
      r := Err(AuthorNotFound(post.authorId));
      return;
    }

    r := Ok(post);
  }

  /** The found-author branch of `AddPost`: give the author an empty list
      when it has none, append the post, and point the post back at it. */
  method LinkToAuthor(author: Author, post: Post)
    modifies author`posts, post`author
    ensures author.posts == Some(AppendToList(old(author.posts), post))
    ensures post.author == author
  {
    if author.posts == None {
      author.posts := Some([]);
      assert author.posts.value + [post] == [post];
    }
    author.posts := Some(author.posts.value + [post]);
    post.author := author;
  }

  /** `AddPost` with the author checked before anything is written: an
      unknown author leaves the store and the post untouched. */
  method AddPostValidated(store: DataStore, post: Post) returns (r: Result<Post>)
    modifies store`posts, post, store.authors
    ensures var k := FirstIndex(AuthorIds(store.authors), post.authorId);
      if k < |store.authors| then
        var author := store.authors[k];
        && r == Ok(post)
        && post.id == NextId(old(PostIds(store.posts)))
        && store.posts == old(store.posts) + [post]
        && post.author == author
        && author.posts == Some(AppendToList(old(author.posts), post))
        && forall a :: a in store.authors && a != author ==> a.posts == old(a.posts)
      else
        && r == Err(AuthorNotFound(post.authorId))
        && unchanged(store, post)
        && forall a :: a in store.authors ==> a.posts == old(a.posts)
    ensures old(store.Valid()) && post !in old(store.posts) ==> store.Valid()
  {
    if post.authorId !in AuthorIds(store.authors) {
      return Err(AuthorNotFound(post.authorId));
    }
    r := AddPost(store, post);
  }
}
