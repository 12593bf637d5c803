/** Read-only access to the store's authors. */
module AuthorService {
  import opened Outcomes
  import opened Linq
  import opened Models

  /** `GetAuthorById`: the first author in the list with that id, or the
      `First` failure when there is none. */
  function GetAuthorById(store: DataStore, id: int): (r: Result<Author>)
    reads store
    ensures r.Ok? <==> exists a :: a in store.authors && a.id == id
    ensures r.Ok? ==> r.value.id == id
    ensures r.Ok? ==> exists k :: 0 <= k < |store.authors| && store.authors[k] == r.value &&
                                  forall j :: 0 <= j < k ==> store.authors[j].id != id
    ensures r.Err? ==> r.error == NoMatchingElement
  {
    var ids := AuthorIds(store.authors);
    var k := FirstIndex(ids, id);
    if k < |store.authors| then
      assert forall j :: 0 <= j < k ==> store.authors[j].id == ids[j];
      Ok(store.authors[k])
    else
      AuthorIdsCover(store.authors);
      Err(NoMatchingElement)
  }

  /** `GetAllAuthors`: the store's live author list, in insertion order. */
  function GetAllAuthors(store: DataStore): (r: seq<Author>)
    reads store
    ensures r == store.authors
  {
    store.authors
  }

  /** Every listed author is found by its id, and with distinct ids the
      lookup returns that very author. */
  lemma ListedAuthorIsFound(store: DataStore, k: nat)
    requires Distinct(AuthorIds(store.authors))
    requires k < |GetAllAuthors(store)|
    ensures GetAuthorById(store, GetAllAuthors(store)[k].id) == Ok(GetAllAuthors(store)[k])
  {
    FirstIndexOfDistinct(AuthorIds(store.authors), k);
  }
}
