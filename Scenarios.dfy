/** Scenarios proved against the seeded store: what the queries and the mutation
    return, and what the store looks like afterwards. */
module Scenarios {
  import opened Outcomes
  import opened Models
  import opened AuthorService
  import opened PostService

  /** The seeded store lists authors 1 and 2 and posts 1 and 2, and both
      posts belong to author 1. */
  method SeededCollections() returns (authorIds: seq<int>, postIds: seq<int>, postAuthorIds: seq<int>)
    ensures authorIds == [1, 2]
    ensures postIds == [1, 2]
    ensures postAuthorIds == [1, 1]
  {
    var store := new DataStore();
    authorIds := AuthorIds(GetAllAuthors(store));
    var posts := GetAllPosts(store);
    postIds := PostIds(posts);
    postAuthorIds := seq(|posts|, i requires 0 <= i < |posts| => posts[i].authorId);
  }

  /** In the seeded store, authors 1 and 2 are Jane Austen and Charles
      Dickens, and author 99 does not exist. */
  method SeededLookups() returns (first: Result<Author>, second: Result<Author>, missing: Result<Author>)
    ensures first.Ok? && first.value.id == 1 && first.value.name == Some(FirstAuthorName)
    ensures second.Ok? && second.value.id == 2 && second.value.name == Some(SecondAuthorName)
    ensures missing == Err(NoMatchingElement)
  {
    var store := new DataStore();
    first := GetAuthorById(store, 1);
    second := GetAuthorById(store, 2);
    missing := GetAuthorById(store, 99);
  }

  /** A post added for author 1 gets id 3, follows the seed posts in the
      global list and in the author's list, points back at author 1, is
      found by its id, and the store stays consistent. */
  method AddOnePost() returns (store: DataStore, r: Result<Post>)
    ensures r.Ok? && r.value.id == 3
    ensures |GetAllPosts(store)| == 3 && GetAllPosts(store)[2] == r.value
    ensures GetAuthorById(store, 1).Ok? && GetAuthorById(store, 1).value.posts == Some(GetAllPosts(store))
    ensures r.value.author == GetAuthorById(store, 1).value
    ensures GetPostById(store, 3) == r
    ensures store.Valid()
  {
    store := new DataStore();
    assert AuthorIds(store.authors) == [1, 2];
    assert PostIds(store.posts) == [1, 2];
    ghost var seeded := store.posts;
    var post := new Post(0, "T", "C", 1, null);
    assert post !in store.posts;
    r := AddPost(store, post);
    assert post.id == 3 && store.posts == seeded + [post];
    FreshIdIsFound(store, [1, 2]);
  }

  /** `AddPost` of a new post by author 1 on a store that lists authors 1
      and 2: it succeeds, and the post's fresh id is appended to the ids. */
  method AddForFirstAuthor(store: DataStore, post: Post) returns (r: Result<Post>)
    requires AuthorIds(store.authors) == [1, 2]
    requires post.authorId == 1 && post !in store.posts
    modifies store`posts, post, store.authors
    ensures r == Ok(post) && post.id == NextId(old(PostIds(store.posts)))
    ensures PostIds(store.posts) == old(PostIds(store.posts)) + [post.id]
    ensures store.posts == old(store.posts) + [post]
  {
    r := AddPost(store, post);
  }

  /** Two posts added in a row get the consecutive ids 3 and 4. */
  method AddTwoPosts() returns (first: Result<Post>, second: Result<Post>)
    ensures first.Ok? && second.Ok?
    ensures first.value.id == 3 && second.value.id == 4
  {
    var store := new DataStore();
    assert AuthorIds(store.authors) == [1, 2];
    assert PostIds(store.posts) == [1, 2];
    var post := new Post(0, "T", "C", 1, null);
    first := AddForFirstAuthor(store, post);
    assert post.id == 3;
    var another := new Post(0, "T", "C", 1, null);
    second := AddForFirstAuthor(store, another);
    assert another.id == 4 by {
      NextIdAfterNextId([1, 2]);
    }
  }

  /** A post for author 999 is rejected, yet it stays in the global list
      with id 3, linked to no author: the store is no longer consistent. */
  method AddPostUnknownAuthor() returns (store: DataStore, post: Post, r: Result<Post>)
    ensures r == Err(AuthorNotFound(999))
    ensures |GetAllPosts(store)| == 3 && GetAllPosts(store)[2] == post && post.id == 3
    ensures post.author == null
    ensures !store.Valid()
  {
    store := new DataStore();
    assert AuthorIds(store.authors) == [1, 2] && PostIds(store.posts) == [1, 2];
    post := new Post(0, "T", "C", 999, null);
    assert post !in store.posts && post.authorId !in AuthorIds(store.authors);
    r := AddPost(store, post);
  }

  /** With the author checked first, the same post is rejected and the
      store stays as seeded and consistent. */
  method AddPostValidatedUnknownAuthor() returns (store: DataStore, post: Post, r: Result<Post>)
    ensures r == Err(AuthorNotFound(999))
    ensures |GetAllPosts(store)| == 2 && post !in GetAllPosts(store)
    ensures PostIds(GetAllPosts(store)) == [1, 2]
    ensures store.Valid()
  {
    store := new DataStore();
    assert AuthorIds(store.authors) == [1, 2];
    post := new Post(0, "T", "C", 999, null);
    assert post !in store.posts && post.authorId !in AuthorIds(store.authors);
    r := AddPostValidated(store, post);
  }
}
