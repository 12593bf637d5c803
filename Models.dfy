/** The entities of the store and the store itself: `Author`, `Post` and the
    static `DataStore` with its seeded `Authors` and `Posts` lists. */
module Models {
  import opened Outcomes
  import opened Linq

  /** A blog post. Nothing in the core writes `Title`, `Content` or
      `AuthorId` after the post is built, so they are constants here;
      `AddPost` writes `Id` and `Author`. */
  class Post {
    var id: int
    const title: string
    const content: string
    const authorId: int
    var author: Author?  // back-reference to the owning author

    constructor (id: int, title: string, content: string, authorId: int, author: Author?)
      ensures this.id == id && this.title == title && this.content == content
      ensures this.authorId == authorId && this.author == author
    {
      this.id := id;
      this.title := title;
      this.content := content;
      this.authorId := authorId;
      this.author := author;
    }
  }

  /** An author. `Id` and `Name` are never written after construction;
      `Posts` is a list the services append to, and `None` stands for a
      null list. */
  class Author {
    const id: int
    const name: Option<string>
    var posts: Option<seq<Post>>

    /** `Posts` starts as an empty list. */
    constructor (id: int, name: Option<string>)
      ensures this.id == id && this.name == name && posts == Some([])
    {
      this.id := id;
      this.name := name;
      posts := Some([]);
    }
  }

  /** The ids of `authors`, in list order. */
  function AuthorIds(authors: seq<Author>): (ids: seq<int>)
    ensures |ids| == |authors|
  {
    seq(|authors|, i requires 0 <= i < |authors| => authors[i].id)
  }

  /** The ids of `posts`, in list order, as they are in the current heap. */
  function PostIds(posts: seq<Post>): (ids: seq<int>)
    reads posts
    ensures |ids| == |posts|
  {
    seq(|posts|, i requires 0 <= i < |posts| reads posts => posts[i].id)
  }

  /** Each listed author's id occurs among the ids. */
  lemma AuthorIdsCover(authors: seq<Author>)
    ensures forall a :: a in authors ==> a.id in AuthorIds(authors)
  {
    forall a | a in authors
      ensures a.id in AuthorIds(authors)
    {
      var i :| 0 <= i < |authors| && authors[i] == a;
      assert AuthorIds(authors)[i] == a.id;
    }
  }

  /** Each listed post's id occurs among the ids. */
  lemma PostIdsCover(posts: seq<Post>)
    ensures forall p :: p in posts ==> p.id in PostIds(posts)
  {
    forall p | p in posts
      ensures p.id in PostIds(posts)
    {
      var i :| 0 <= i < |posts| && posts[i] == p;
      assert PostIds(posts)[i] == p.id;
    }
  }

  // The seed data of the store.
  const FirstAuthorName: string := "Jane Austen"
  const SecondAuthorName: string := "Charles Dickens"
  const FirstPostTitle: string := "Exploring GraphQL"
  const FirstPostContent: string := "GraphQL offers a more efficient way to design web APIs."
  const SecondPostTitle: string := "Advantages of GraphQL"
  const SecondPostContent: string :=
    "One major advantage of GraphQL is it allows clients to request exactly what they need."

  /** The process-wide store: the global `Authors` and `Posts` lists. */
  class DataStore {
    var authors: seq<Author>
    var posts: seq<Post>

    /** Every stored post points back at a stored author whose id is the
        post's `AuthorId`, and that author's list holds the post. */
    ghost predicate Linked()
      reads this, authors, posts
    {
      forall p :: p in posts ==>
        p.author != null && p.author in authors && p.author.id == p.authorId &&
        p.author.posts.Some? && p in p.author.posts.value
    }

    /** Every author's list holds only stored posts that point back at it. */
    ghost predicate Owned()
      reads this, authors, posts
    {
      forall a :: a in authors && a.posts.Some? ==>
        forall q :: q in a.posts.value ==> q in posts && q.author == a
    }

    /** The consistency the seed establishes: unique ids in both lists,
        and the two directions of the author/post relationship agree. */
    ghost predicate Valid()
      reads this, authors, posts
    {
      Distinct(AuthorIds(authors)) && Distinct(PostIds(posts)) && Linked() && Owned()
    }

    /** The field initialisers and static constructor: two authors, then two
        posts by the first author, added to its list and to the global list. */
    constructor ()
      ensures |authors| == 2
      ensures authors[0].id == 1 && authors[0].name == Some(FirstAuthorName)
      ensures authors[1].id == 2 && authors[1].name == Some(SecondAuthorName)
      ensures |posts| == 2 && posts[0] != posts[1]
      ensures posts[0].id == 1 && posts[0].title == FirstPostTitle && posts[0].content == FirstPostContent
      ensures posts[1].id == 2 && posts[1].title == SecondPostTitle && posts[1].content == SecondPostContent
      ensures forall p :: p in posts ==> p.authorId == 1 && p.author == authors[0]
      ensures authors[0].posts == Some(posts) && authors[1].posts == Some([])
      ensures Valid()
      ensures fresh(authors[0]) && fresh(authors[1]) && fresh(posts[0]) && fresh(posts[1])
    {
      var jane := new Author(1, Some(FirstAuthorName));
      var dickens := new Author(2, Some(SecondAuthorName));
      authors := [jane, dickens];
      posts := [];
      new;
      // Both posts carry `Author = Authors[0]`, which is `jane`.
      var post1 := new Post(1, FirstPostTitle, FirstPostContent, 1, jane);
      var post2 := new Post(2, SecondPostTitle, SecondPostContent, 1, jane);
      // `Authors[0].Posts.Add` and `Posts.Add`, once per post, on empty lists.
      jane.posts := Some([post1, post2]);
      posts := [post1, post2];
      assert AuthorIds(authors) == [1, 2];
      assert PostIds(posts) == [1, 2];
    }
  }
}
