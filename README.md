# GraphQL demo author/post store in Dafny

This project models the in-memory store behind a small GraphQL demo service.
The store has two process-wide lists, `Authors` and `Posts`. It is seeded
with two authors and two posts that both belong to the first author. Three
service operations sit on top of the store:

- author lookups: `GetAuthorById` and `GetAllAuthors`;
- post lookups: `GetPostById` and `GetAllPosts`;
- `AddPost`, the only mutation.

`AddPost` gives the post the next free id (largest id plus one, or 1). It
appends the post to the global list and then looks up the post's author.
If the author exists, the post goes into that author's list (created when
null) and points back at the author. If the author does not exist, the call
fails.

Modules:

- `Outcomes`: `Option`, and `Result` with the two failures. `NoMatchingElement`
  is LINQ `First` finding nothing. `AuthorNotFound(authorId)` is the
  exception `AddPost` throws.
- `Linq`: `First`/`FirstOrDefault` (`FirstIndex`), `Max` and `Distinct`,
  given by their meaning on the key sequence they inspect.
- `Models`: the classes `Post`, `Author` and `DataStore`. Post and author
  objects keep their identity, so a seeded post in the global list is the
  same object as in its author's list. `DataStore.Valid()` is the store's
  consistency:
  - author ids are distinct, and post ids are distinct;
  - every stored post points back at a stored author with its `AuthorId`,
    and that author's list holds it;
  - every author's list holds only stored posts that point back at it.
- `AuthorService` and `PostService`: the service operations. Lookups are
  functions that read the store. `AddPost` is a method that changes it.
- `Scenarios`: scenarios proved against the seeded store, which pin down the
  concrete values the services produce.

## Model

| member | source | states |
|---|---|---|
| Linq.FirstIndex | Services/AuthorService.cs:9 | `First`/`FirstOrDefault` stop at the lowest index holding the key; the index is within the list exactly when the key occurs, and no earlier element matches |
| Linq.Max | Services/PostService.cs:19 | `Max` of a non-empty id list is one of the ids, and no id exceeds it |
| Linq.FirstIndexOfDistinct | Services/PostService.cs:22 | with distinct keys, the lookup of the key at position k finds exactly position k |
| Models.Post.constructor | Models/DataStore.cs:19-26 | a post built with an initialiser carries exactly the given id, title, content, author id and author reference |
| Models.Author.constructor | Models/Author.cs:5-7 | an author carries its id and nullable name, and its `Posts` list starts empty |
| Models.DataStore.constructor | Models/DataStore.cs:8-44 | the seed: authors 1 "Jane Austen" and 2 "Charles Dickens"; posts 1 and 2 with their titles and contents, distinct objects, both with `AuthorId` 1 and pointing back at the first author; the first author's list holds the same post objects, in the same order, as the global list, though it is a separate list; the second author's list is empty; the seeded store satisfies `Valid()` |
| AuthorService.GetAuthorById | Services/AuthorService.cs:7-10 | succeeds exactly when some author has the id; the result has that id and is the lowest-index such author; otherwise the `First` failure |
| AuthorService.GetAllAuthors | Services/AuthorService.cs:12-15 | returns the contents of the store's author list, in insertion order; being a function that only reads, it changes nothing |
| AuthorService.ListedAuthorIsFound | Services/AuthorService.cs:7-15 | with distinct author ids, looking up the id of any listed author returns that author object |
| PostService.GetPostById | Services/PostService.cs:7-10 | succeeds exactly when some post has the id; the result has that id and is the lowest-index such post; otherwise the `First` failure |
| PostService.GetAllPosts | Services/PostService.cs:12-15 | returns the contents of the store's post list, in insertion order; being a function that only reads, it changes nothing |
| PostService.ListedPostIsFound | Services/PostService.cs:7-15 | with distinct post ids, looking up the id of any listed post returns that post object |
| PostService.NextId | Services/PostService.cs:19 | the assigned id exceeds every id in use; it is 1 for an empty list and otherwise one more than an id in use |
| PostService.NextIdKeepsDistinct | Services/PostService.cs:19-20 | appending the assigned id to pairwise distinct ids keeps them pairwise distinct |
| PostService.NextIdAfterNextId | Services/PostService.cs:19-20 | two additions in a row receive consecutive ids |
| PostService.NextIdFoundLast | Services/PostService.cs:19-20 | the assigned id occurs only at the end of the extended id list, so the first match is the appended element |
| PostService.FreshIdIsFound | Services/PostService.cs:7-20 | after the append, `GetPostById` of the assigned id returns the appended post |
| PostService.AppendToList | Services/PostService.cs:25-29 | the author's new list is its old list, kept whole and in order, with the post appended; a null list counts as empty, so the result is then just the post |
| PostService.LinkToAuthor | Services/PostService.cs:25-30 | the author's list, created when null, gets the post appended, and the post points back at the author |
| PostService.AddPost | Services/PostService.cs:17-38 | the post gets the next id and is appended to the global list, on success and on failure alike; if the first author with the post's `AuthorId` exists, the result is the same post, it is appended to that author's list and points back at it, and no other author's list changes; otherwise the result is `AuthorNotFound(AuthorId)`, the post's author reference and every author list are unchanged, and the store is no longer `Valid()`; on success a valid store stays valid |
| PostService.AddPostValidated | Services/PostService.cs:17-38 | the same success path as `AddPost`; an unknown author leaves the store, the post and every author list unchanged, so a valid store stays valid on both paths |
| Scenarios.SeededCollections | Models/DataStore.cs:8-43 | the seeded store lists author ids [1, 2], post ids [1, 2], and both posts have author id 1 |
| Scenarios.SeededLookups | Services/AuthorService.cs:7-10 | in the seeded store, ids 1 and 2 find Jane Austen and Charles Dickens, and id 99 fails |
| Scenarios.AddOnePost | Services/PostService.cs:17-38 | adding a post for author 1 to the seeded store gives it id 3, puts it last in the global list, makes author 1's list equal the global list, links it back to author 1, makes `GetPostById(3)` return it, and keeps the store valid |
| Scenarios.AddForFirstAuthor | Services/PostService.cs:17-38 | on a store listing authors 1 and 2, adding a new post for author 1 succeeds and appends its id, which is the next id |
| Scenarios.AddTwoPosts | Services/PostService.cs:19 | two posts added in a row to the seeded store get ids 3 and 4 |
| Scenarios.AddPostUnknownAuthor | Services/PostService.cs:20-34 | adding a post for author 999 to the seeded store fails with `AuthorNotFound(999)`, yet the post stays third in the global list with id 3 and no author, and the store is no longer valid |
| Scenarios.AddPostValidatedUnknownAuthor | Services/PostService.cs:20-34 | with the author checked first, the same post is rejected, the global list keeps exactly its two seed posts (ids 1 and 2), and the store stays valid |

## Left out

- Program.cs is not part of this model: the host setup, dependency injection and the GraphQL `Query`, `Mutation`, `AuthorType` and `PostType` wiring hold no store logic.
- The `Post` class is not among the modelled sources. Its fields (`Id`, `Title`, `Content`, `AuthorId`, `Author`) are taken from how the store and the services use them.
- Concurrency: requests that race on id assignment and on `List.Add` are not modelled. Every operation runs alone.
- The static fields and static constructor become one `DataStore` object built by its constructor. The runtime's lazy, once-only initialisation is not modelled.
- The seed constructor assigns both author lists and the global list in one step each. The source appends to empty lists twice, which gives the same lists.
- PostService.NextId: ids are unbounded integers, so the .NET overflow of `Max + 1` at `int.MaxValue` is not modelled.
- PostService.AddPost: the exception becomes `AuthorNotFound(AuthorId)`. The formatted message text is not modelled beyond the id it carries.
- PostService.AddPost: `Valid()` after a successful call is promised only for a post that is not already in the global list. Re-adding a stored post puts the same object in the list twice.
- AuthorService.GetAllAuthors: returns the list's contents. That callers can mutate the store through the returned `List` object is not modelled.
- PostService.GetAllPosts: returns the list's contents. That callers can mutate the store through the returned `List` object is not modelled.
- LINQ and `List<T>` internals: `First`, `FirstOrDefault`, `Any`, `Max` and `Add` are modelled only by their meaning on sequences.

## Findings

| source | as written | input that shows it | evidently intended | confidence | as-written member | corrected member |
|---|---|---|---|---|---|---|
| Services/PostService.cs:19-34 | `AddPost` assigns the id and appends the post to the global list before it looks up the author, and the not-found exception does not undo the append, leaving a stored post with no author | seeded store, a post with `AuthorId` 999 | check the author before writing anything, so a failed call leaves the store consistent | medium, not executed | Scenarios.AddPostUnknownAuthor | PostService.AddPostValidated |
