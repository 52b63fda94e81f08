/**
 * AdminListView and its two subclasses: which rows a list shows
 * (get_queryset) and the "delete selected" bulk action of `post`.
 * A table is a map from primary key to row.
 */
module ListViews {
  import opened AdminModels

  /** The action keyword that triggers the bulk delete. */
  const DeleteSelectedAction: string := "delete_selected"

  /** `Model.objects.filter(user=owner)`. */
  function Owned(rows: map<Id, Row>, owner: UserId): (r: map<Id, Row>)
    ensures forall id :: id in r <==> id in rows && rows[id].owner == owner
    ensures forall id :: id in r ==> r[id] == rows[id]
  {
    map id | id in rows && rows[id].owner == owner :: rows[id]
  }

  /** LogsListView.get_queryset: a superuser sees every log entry, anyone else only their own. */
  function LogsQueryset(rows: map<Id, Row>, user: User): (r: map<Id, Row>)
    ensures user.isSuperuser ==> r == rows
    ensures !user.isSuperuser ==> forall id :: id in r <==> id in rows && rows[id].owner == user.id
    ensures forall id :: id in r ==> r[id] == rows[id]
  {
    if user.isSuperuser then rows else Owned(rows, user.id)
  }

  /** TagsListView.get_queryset: only the caller's own tags, superuser or not. */
  function TagsQueryset(rows: map<Id, Row>, user: User): (r: map<Id, Row>)
    ensures forall id :: id in r <==> id in rows && rows[id].owner == user.id
    ensures forall id :: id in r ==> r[id] == rows[id]
  {
    Owned(rows, user.id)
  }

  /** The superuser flag changes nothing in the tag list. */
  lemma TagsIgnoreSuperuser(rows: map<Id, Row>, id: UserId)
    ensures TagsQueryset(rows, User(id, true)) == TagsQueryset(rows, User(id, false))
  {
  }

  /** A non-superuser's log list is exactly their owned rows (`Owned`), and part of the superuser's. */
  lemma LogsListNests(rows: map<Id, Row>, id: UserId)
    ensures LogsQueryset(rows, User(id, false)) == Owned(rows, id)
    ensures LogsQueryset(rows, User(id, false)).Keys <= LogsQueryset(rows, User(id, true)).Keys
  {
  }

  /** The ids of the `_selected_action` list, duplicates collapsed as `id__in` does. */
  function Selected(ids: seq<Id>): (s: set<Id>)
    ensures forall id :: id in s <==> id in ids
  {
    set id | id in ids
  }

  /**
   * `filter(id__in=selected).delete()`: the table without the selected rows.
   * There is no owner condition.
   */
  function DeleteSelected(rows: map<Id, Row>, ids: seq<Id>): (r: map<Id, Row>)
    ensures forall id :: id in r <==> id in rows && id !in ids
    ensures forall id :: id in r ==> r[id] == rows[id]
  {
    rows - Selected(ids)
  }

  /**
   * `row_count[model_label]`: the number of rows the delete removes, which
   * are the stored ids that were selected.
   */
  function DeletedCount(rows: map<Id, Row>, ids: seq<Id>): (c: nat)
    ensures c == |rows| - |DeleteSelected(rows, ids)|
    ensures c == 0 <==> forall id :: id in ids ==> id !in rows
  {
    var gone := rows.Keys * Selected(ids);
    var kept := DeleteSelected(rows, ids).Keys;
    assert kept == rows.Keys - Selected(ids);
    assert rows.Keys == kept + gone && kept !! gone;
    NothingSelectedIsStored(rows, ids);
    |gone|
  }

  /** No stored id is selected exactly when the stored and selected ids do not meet. */
  lemma NothingSelectedIsStored(rows: map<Id, Row>, ids: seq<Id>)
    ensures |rows.Keys * Selected(ids)| == 0 <==> forall id :: id in ids ==> id !in rows
  {
    var gone := rows.Keys * Selected(ids);
    if forall id :: id in ids ==> id !in rows {
      assert gone == {};
    } else {
      var id :| id in ids && id in rows;
      assert id in gone;
    }
  }

  /** Deleting the same selection twice removes nothing more. */
  lemma DeleteSelectedIdempotent(rows: map<Id, Row>, ids: seq<Id>)
    ensures DeleteSelected(DeleteSelected(rows, ids), ids) == DeleteSelected(rows, ids)
    ensures DeletedCount(DeleteSelected(rows, ids), ids) == 0
  {
  }

  /** Listing after a delete is the same as deleting from the listing. */
  lemma OwnedAfterDelete(rows: map<Id, Row>, ids: seq<Id>, owner: UserId)
    ensures Owned(DeleteSelected(rows, ids), owner) == DeleteSelected(Owned(rows, owner), ids)
  {
  }

  /**
   * Three rows of one owner, two of them selected: one row of that owner
   * remains, the unselected one.
   */
  lemma DeleteTwoOfThree(rows: map<Id, Row>, owner: UserId, a: Id, b: Id, c: Id)
    requires a != b && b != c && a != c
    requires Owned(rows, owner).Keys == {a, b, c}
    ensures Owned(DeleteSelected(rows, [a, b]), owner).Keys == {c}
    ensures |Owned(DeleteSelected(rows, [a, b]), owner)| == 1
  {
  }

  /** Which of the model's two verbose names the message uses. */
  datatype Noun = Singular | Plural

  /** The info message "<count> <name> was/were successfully deleted." */
  datatype Info = Info(count: nat, noun: Noun)

  /** The message after a delete of `count` rows: none when nothing was deleted. */
  function DeleteMessage(count: nat): (m: Option<Info>)
    ensures m.Some? <==> count > 0
    ensures m.Some? ==> m.value.count == count
    ensures m.Some? ==> (m.value.noun == Singular <==> count == 1)
  {
    if count > 0 then Some(Info(count, if count == 1 then Singular else Plural)) else None
  }

  /**
   * What `post` answers a signed-in caller: the list page carrying the info
   * message, or a server error when the form has no `action` field (the
   * lookup `request.POST['action']` raises before anything is deleted).
   */
  datatype PostResult = Listed(info: Option<Info>) | MissingAction

  /** A LogEntry or Tag table, changed in place by the bulk action. */
  class RecordTable {
    var rows: map<Id, Row>

    constructor (rows: map<Id, Row>)
      ensures this.rows == rows
    {
      this.rows := rows;
    }

    /**
     * AdminListView.post. An anonymous caller is redirected and nothing
     * changes; so does a form without `action`, which ends in a server error.
     * For the delete action every stored row whose id is selected is removed,
     * whoever owns it, and the info message for the number removed is
     * returned; any other action changes nothing. The list page that is
     * rendered afterwards is not modelled.
     */
    method Post(caller: Caller, action: Option<string>, selected: seq<Id>) returns (r: Guarded<PostResult>)
      modifies this
      ensures caller.Anonymous? ==> r == RedirectToLogin && rows == old(rows)
      ensures caller.SignedIn? && action.None? ==> r == Served(MissingAction) && rows == old(rows)
      ensures caller.SignedIn? && action == Some(DeleteSelectedAction) ==>
        rows == DeleteSelected(old(rows), selected) &&
        r == Served(Listed(DeleteMessage(DeletedCount(old(rows), selected))))
      ensures caller.SignedIn? && action.Some? && action.value != DeleteSelectedAction ==>
        rows == old(rows) && r == Served(Listed(None))
    {
      if caller.Anonymous? {
        return RedirectToLogin;
      }
      if action.None? {
        return Served(MissingAction);
      }
      var info: Option<Info> := None;
      if action.value == DeleteSelectedAction {
        var deleted := DeletedCount(rows, selected);
        rows := DeleteSelected(rows, selected);
        info := DeleteMessage(deleted);
      }
      return Served(Listed(info));
    }
  }

  /**
   * Two different signed-in users posting the same action and selection
   * against equal tables leave equal tables and get the same answer: the
   * bulk action has no owner check.
   */
  method PostIgnoresCaller(t1: RecordTable, t2: RecordTable, u1: User, u2: User,
                           action: Option<string>, selected: seq<Id>)
    returns (r1: Guarded<PostResult>, r2: Guarded<PostResult>)
    requires t1 != t2 && t1.rows == t2.rows
    modifies t1, t2
    ensures t1.rows == t2.rows && r1 == r2
    ensures action == Some(DeleteSelectedAction) ==>
      forall id :: id in old(t1.rows) && id in selected ==> id !in t1.rows
  {
    r1 := t1.Post(SignedIn(u1), action, selected);
    r2 := t2.Post(SignedIn(u2), action, selected);
  }
}
