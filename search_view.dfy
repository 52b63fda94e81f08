/**
 * The `search` view: folder hits are passed through, page hits are turned
 * into their documents' tree nodes and filtered by read permission. The
 * search backend's answers and `has_perm` are parameters.
 */
module SearchView {
  import opened AdminModels

  /** A backend hit on a page, carrying the id of the document the page belongs to. */
  datatype PageHit = PageHit(pageId: Id, documentId: Id)

  /** What the view renders: readable documents, the raw folder hits, the query term. */
  datatype SearchResults<F> = SearchResults(docs: seq<Node>, folders: seq<F>, term: Option<string>)

  /** The document ids of the page hits (`p.document.basetreenode_ptr_id`). */
  function HitDocumentIds(hits: seq<PageHit>): (ids: set<Id>)
    ensures forall h :: h in hits ==> h.documentId in ids
    ensures forall id :: id in ids ==> exists h :: h in hits && h.documentId == id
  {
    set h | h in hits :: h.documentId
  }

  /**
   * search. `nodes` is the tree-node table in its query order, `canRead`
   * stands for `user.has_perm(Access.PERM_READ, node)`.
   */
  function Search<F>(caller: Caller, term: Option<string>, folderHits: seq<F>, pageHits: seq<PageHit>,
                     nodes: seq<Node>, canRead: (User, Node) -> bool): (r: Guarded<SearchResults<F>>)
    ensures r.RedirectToLogin? <==> caller.Anonymous?
    ensures r.Served? ==> r.value.folders == folderHits && r.value.term == term
    ensures r.Served? ==> forall n :: n in r.value.docs ==>
              n in nodes && canRead(caller.user, n) && exists h :: h in pageHits && h.documentId == n.id
    ensures r.Served? ==> forall n, h :: n in nodes && h in pageHits && h.documentId == n.id && canRead(caller.user, n) ==>
              n in r.value.docs
    ensures r.Served? && UniqueIds(nodes) ==> UniqueIds(r.value.docs)
  {
    match caller
    case Anonymous => RedirectToLogin
    case SignedIn(user) =>
      var ids := HitDocumentIds(pageHits);
      var qsDocs := Filter(nodes, (n: Node) => n.id in ids);
      var docs := Filter(qsDocs, (n: Node) => canRead(user, n));
      FilterKeepsUniqueIds(nodes, (n: Node) => n.id in ids);
      FilterKeepsUniqueIds(qsDocs, (n: Node) => canRead(user, n));
      Served(SearchResults(docs, folderHits, term))
  }

  /**
   * The documents found depend only on which pages were hit, not on the
   * backend's ranking or repetitions of a hit.
   */
  lemma SearchIgnoresHitOrder<F>(caller: Caller, term: Option<string>, folderHits: seq<F>,
                                 hits1: seq<PageHit>, hits2: seq<PageHit>,
                                 nodes: seq<Node>, canRead: (User, Node) -> bool)
    requires forall h :: h in hits1 <==> h in hits2
    ensures Search(caller, term, folderHits, hits1, nodes, canRead) == Search(caller, term, folderHits, hits2, nodes, canRead)
  {
    assert HitDocumentIds(hits1) == HitDocumentIds(hits2);
  }
}
