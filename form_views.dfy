/**
 * The single-record views: AdminView.get (log entry and tag detail) and
 * tag_change_view. Both resolve the id with get_object_or_404.
 */
module FormViews {
  import opened AdminModels
  import ListViews

  /** The outcome of `get_object_or_404`: the row, or the 404 signal. */
  datatype Lookup = NotFound | Found(row: Row)

  /** `get_object_or_404(model, id=id)` over a table. */
  function GetObjectOr404(rows: map<Id, Row>, id: Id): (r: Lookup)
    ensures r.Found? <==> id in rows
    ensures r.Found? ==> r.row == rows[id]
  {
    if id in rows then Found(rows[id]) else NotFound
  }

  /**
   * AdminView.get (LogFormView, TagFormView): the record the form is bound
   * to. The caller is only checked for being signed in, not for owning the row.
   */
  function AdminViewGet(caller: Caller, rows: map<Id, Row>, id: Id): (r: Guarded<Lookup>)
    ensures r.RedirectToLogin? <==> caller.Anonymous?
    ensures r.Served? ==> (r.value.Found? <==> id in rows)
    ensures r.Served? && r.value.Found? ==> r.value.row == rows[id]
  {
    match caller
    case Anonymous => RedirectToLogin
    case SignedIn(_) => Served(GetObjectOr404(rows, id))
  }

  /** Any two signed-in users get the same detail answer: there is no owner check. */
  lemma DetailHasNoOwnerCheck(rows: map<Id, Row>, id: Id, u1: User, u2: User)
    ensures AdminViewGet(SignedIn(u1), rows, id) == AdminViewGet(SignedIn(u2), rows, id)
  {
  }

  /** An id one past the largest stored id is not found. */
  lemma LookupPastLastId(rows: map<Id, Row>, last: Id)
    requires forall k :: k in rows ==> k <= last
    ensures GetObjectOr404(rows, last + 1) == NotFound
  {
  }

  /** A deleted id is not found any more, while an unselected one is found as before. */
  lemma LookupAfterDelete(rows: map<Id, Row>, ids: seq<Id>, id: Id)
    ensures id in ids ==> GetObjectOr404(ListViews.DeleteSelected(rows, ids), id) == NotFound
    ensures id !in ids ==> GetObjectOr404(ListViews.DeleteSelected(rows, ids), id) == GetObjectOr404(rows, id)
  {
  }

  /** Submitted form fields: `request.POST`. */
  type FormData = map<string, string>

  /** What tag_change_view answers once the caller is signed in. */
  datatype TagChange =
    | TagNotFound
    | SavedAndRedirected
    | FormShown(tag: Row, bound: bool)

  /**
   * tag_change_view. The form is bound only to a non-empty POST
   * (`request.POST or None`); an unbound form is never valid. A valid bound
   * form is saved and the caller redirected to the tag list; otherwise the
   * form is shown again. `isValid` stands for TagForm's validation.
   */
  function TagChangeView(caller: Caller, rows: map<Id, Row>, id: Id, post: FormData,
                         isValid: (Row, FormData) -> bool): (r: Guarded<TagChange>)
    ensures r.RedirectToLogin? <==> caller.Anonymous?
    ensures r.Served? ==> (r.value.TagNotFound? <==> id !in rows)
    ensures r.Served? ==> (r.value.SavedAndRedirected? <==> id in rows && |post| > 0 && isValid(rows[id], post))
    ensures r.Served? && r.value.FormShown? ==> r.value.tag == rows[id] && r.value.bound == (|post| > 0)
  {
    match caller
    case Anonymous => RedirectToLogin
    case SignedIn(_) =>
      match GetObjectOr404(rows, id)
      case NotFound => Served(TagNotFound)
      case Found(tag) =>
        var bound := |post| > 0;
        if bound && isValid(tag, post) then Served(SavedAndRedirected)
        else Served(FormShown(tag, bound))
  }
}
