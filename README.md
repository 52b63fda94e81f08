# Papermerge admin views, modelled in Dafny

This project models the logic in papermerge's administrative web interface
(`papermerge/contrib/admin/views.py`). That interface lists, deletes and edits
log entries and tags, and it runs a permission-filtered search. The Django
plumbing becomes explicit inputs:

- the signed-in user becomes a `Caller` parameter (`Anonymous` or `SignedIn(user)`);
- `login_required` becomes the `Guarded<T>` answer (`RedirectToLogin` or `Served(value)`);
- a LogEntry or Tag table becomes a `map<Id, Row>`, where a `Row` holds its owner and its text;
- the document tree becomes a sequence of `Node`s in query order;
- the search backend's hits, `has_perm` and form validation become parameters.

Modules, one per component of the view file:

- `AdminModels` (admin_models.dfy): shared datatypes and `Filter`, which models a list comprehension with a condition.
- `Pagination` (pagination.dfy): the page-number window of `AdminListView.render_with_pagination`.
- `ListViews` (list_views.dfy): `get_queryset` of the log and tag lists. It also holds the bulk "delete selected" action. `RecordTable.Post` changes a table in place and returns the info message.
- `FormViews` (form_views.dfy): `get_object_or_404`, `AdminView.get` and `tag_change_view`.
- `SearchView` (search_view.dfy): the `search` view.
- `InboxView` (inbox_view.dfy): `inbox_view`.

Two places worth a reader's attention:

- The list views scope rows by owner (papermerge/contrib/admin/views.py:197-213), but the bulk delete filters only by `id__in` (papermerge/contrib/admin/views.py:154-156). There is no owner condition, so a selected row is deleted whoever owns it (`PostIgnoresCaller`).
- The comment at papermerge/contrib/admin/views.py:125-129 promises all pages for short lists and seven pages near the start. The first branch lists at most six (`SevenPagesWindow`, see Findings). The comment also puts the page `numPages - 4` among the last seven pages, but the code's test `page_number > num_pages - 4` centres the window on that page instead (`BoundaryPageIsCentred`). The model follows the code in both places.

## Model

| member | source | states |
|---|---|---|
| `AdminModels.Filter` | papermerge/contrib/admin/views.py:71-74 | A conditional list comprehension keeps exactly the elements that satisfy the condition, each as often as it occurs in the input, and is no longer than its input |
| `AdminModels.FilterAppend` | papermerge/contrib/admin/views.py:71-74 | Filtering a concatenation filters each part in place, so the comprehension keeps the input order |
| `AdminModels.FilterKeepsUniqueIds` | papermerge/contrib/admin/views.py:65-74 | Filtering a listing whose node ids are distinct gives a listing whose node ids are distinct |
| `Pagination.Range` | papermerge/contrib/admin/views.py:132-136 | Python `range(lo, hi)` has length max(0, hi - lo), its i-th element is lo + i, and it holds x exactly when lo <= x < hi |
| `Pagination.PageWindow` | papermerge/contrib/admin/views.py:131-136 | For every integer page count and page, including 0, negative and past-the-end pages: the window is consecutive, every number is in [1, numPages], it has at most 7 numbers, and at most 6 in the first branch |
| `Pagination.FirstBlockWindow` | papermerge/contrib/admin/views.py:131-132 | With at most 7 pages or page <= 4, the window is 1..min(numPages, 6) and is empty when there are no pages |
| `Pagination.LastBlockWindow` | papermerge/contrib/admin/views.py:133-134 | With more than 7 pages and page > max(4, numPages - 4), the window is the last seven pages numPages-6..numPages |
| `Pagination.CenteredWindow` | papermerge/contrib/admin/views.py:135-136 | Otherwise the window is the seven pages page-3..page+3, with the current page in the middle |
| `Pagination.BoundaryPageIsCentred` | papermerge/contrib/admin/views.py:133-136 | At page numPages - 4 (with more than 8 pages) the window is centred, numPages-7..numPages-1, and does not reach the last page |
| `Pagination.SevenPagesWindow` | papermerge/contrib/admin/views.py:131-132 | With exactly seven pages, every request gets the window [1, 2, 3, 4, 5, 6] |
| `Pagination.PageWindowContainsPage` | papermerge/contrib/admin/views.py:131-136 | Every existing current page is in its window, except page 7 of 7 |
| `Pagination.SevenPagesHideLastPage` | papermerge/contrib/admin/views.py:131-132 | Page 7 is missing from the window of page 7 of a seven-page list |
| `Pagination.PageWindowIntended` | papermerge/contrib/admin/views.py:125-136 | The window with the first branch's bound raised from 7 to 8 is consecutive and within [1, numPages], has min(numPages, 7) numbers, contains every existing current page, and lists every page when there are at most seven |
| `Pagination.IntendedAgreesAwayFromStart` | papermerge/contrib/admin/views.py:133-136 | The corrected window equals the as-written one whenever the first branch is not taken |
| `ListViews.Owned` | papermerge/contrib/admin/views.py:202 | `filter(user=owner)` keeps exactly the rows of that owner, unchanged |
| `ListViews.LogsQueryset` | papermerge/contrib/admin/views.py:197-204 | A superuser's log list is the whole table. Anyone else's holds exactly the entries they own |
| `ListViews.TagsQueryset` | papermerge/contrib/admin/views.py:212-213 | The tag list holds exactly the caller's own tags |
| `ListViews.TagsIgnoreSuperuser` | papermerge/contrib/admin/views.py:212-213 | The superuser flag does not change the tag list |
| `ListViews.LogsListNests` | papermerge/contrib/admin/views.py:197-204 | A non-superuser's log list is their owned rows and is contained in the superuser's list |
| `ListViews.Selected` | papermerge/contrib/admin/views.py:150-155 | The selection set holds exactly the ids of the submitted list, duplicates collapsed |
| `ListViews.DeleteSelected` | papermerge/contrib/admin/views.py:153-156 | After the delete, a row remains exactly when it was stored and not selected, with its contents unchanged. Ownership plays no part |
| `ListViews.DeletedCount` | papermerge/contrib/admin/views.py:154-159 | The count in the message is exactly how many rows the table lost. It is 0 exactly when no selected id is stored |
| `ListViews.NothingSelectedIsStored` | papermerge/contrib/admin/views.py:154-158 | No row is deleted exactly when none of the selected ids is stored |
| `ListViews.PostIgnoresCaller` | papermerge/contrib/admin/views.py:149-156 | Two different signed-in users posting the same action and selection against equal tables leave equal tables and get the same answer. Every stored selected row is gone after `delete_selected`, whoever owns it |
| `ListViews.DeleteSelectedIdempotent` | papermerge/contrib/admin/views.py:154-156 | Repeating the same selection deletes nothing more |
| `ListViews.OwnedAfterDelete` | papermerge/contrib/admin/views.py:154-156 | Listing an owner's rows after a delete equals deleting from that owner's listing |
| `ListViews.DeleteTwoOfThree` | papermerge/contrib/admin/test/test_views.py:97-124 | With three rows of one owner and two of them selected, exactly the unselected one remains for that owner |
| `ListViews.DeleteMessage` | papermerge/contrib/admin/views.py:158-174 | A message exists exactly when something was deleted. It carries the count and uses the singular name exactly when the count is 1 |
| `ListViews.RecordTable.Post` | papermerge/contrib/admin/views.py:149-181 | Anonymous: a redirect and an unchanged table. No `action` field: the server-error answer and an unchanged table. For `delete_selected`: the table becomes `DeleteSelected` of the old table and the message is that of the deleted count, with no owner check. Any other action: an unchanged table and no message |
| `FormViews.GetObjectOr404` | papermerge/contrib/admin/views.py:94-96 | An id is found exactly when it is stored, and then the stored row is returned |
| `FormViews.AdminViewGet` | papermerge/contrib/admin/views.py:93-96 | Anonymous callers are redirected. A signed-in caller gets the row exactly when its id is stored, without an owner check |
| `FormViews.DetailHasNoOwnerCheck` | papermerge/contrib/admin/views.py:93-96 | Any two signed-in users get the same detail answer |
| `FormViews.LookupPastLastId` | papermerge/contrib/admin/test/test_views.py:82-87 | An id one past every stored id is not found |
| `FormViews.LookupAfterDelete` | papermerge/contrib/admin/views.py:94-96 | After a bulk delete, a selected id is not found and an unselected id answers as before |
| `FormViews.TagChangeView` | papermerge/contrib/admin/views.py:232-244 | Anonymous callers are redirected. An unknown id is not found. The view saves and redirects exactly when the tag exists, the POST is non-empty and the form is valid. Otherwise it shows the form for the stored tag, bound exactly when the POST is non-empty |
| `SearchView.HitDocumentIds` | papermerge/contrib/admin/views.py:65-69 | The id set holds the document id of every page hit and nothing else |
| `SearchView.Search` | papermerge/contrib/admin/views.py:57-86 | Anonymous callers are redirected. Folder hits and the term pass through unchanged. A node is a document result exactly when it is in the node table, is the document of some page hit, and the caller can read it. With distinct node ids the results are distinct |
| `SearchView.SearchIgnoresHitOrder` | papermerge/contrib/admin/views.py:62-74 | Hit lists with the same members, in any order and with any repetition, give the same results |
| `InboxView.IsInboxOf` | papermerge/contrib/admin/views.py:39-42 | The lookup condition: a folder titled with the inbox name and owned by the user |
| `InboxView.FindInbox` | papermerge/contrib/admin/views.py:38-46 | No inbox exactly when no folder of the user has the inbox title. If one is found, every such folder has that id. `MultipleInboxes` with distinct ids means two different such folders exist |
| `InboxView.InboxRootNode` | papermerge/contrib/admin/views.py:35-54 | Anonymous callers are redirected. Otherwise the root node is absent exactly when the user has no inbox folder. A root id is the id of one of the user's inbox folders, and every such folder has it. `MultipleInboxes` with distinct ids means two different such folders exist |
| `InboxView.SingleInboxIsRoot` | papermerge/contrib/admin/views.py:38-43 | A user with exactly one inbox folder, in a table with distinct ids, gets that folder's id as the root node |

## Left out

- Rendering is not modelled: templates, the context dictionaries, `reverse` URL building and redirect targets. The `browse` view only renders a template and is left out entirely.
- Paginator internals are not modelled: the 25-per-page slicing, how `num_pages` is computed, and the clamping in `get_page`. `numPages` is an input, and the rendered page's `object_list` is not modelled.
- `int()` raising `ValueError` on a non-numeric `page` parameter is not modelled. Selected ids arrive as strings and the ORM converts them; they are integers here, so a non-numeric id is not modelled either.
- Cascade deletes are not modelled. The count from the `row_count` dictionary is the number of rows deleted from the table itself.
- The message text is not modelled: `ngettext` translation and the verbose names. Only the count and the singular/plural choice remain. The `messages` queue is modelled as the value `RecordTable.Post` returns.
- Query ordering is not modelled. Log and tag tables are unordered maps, so listings carry no order. The node table is a sequence in query order.
- ListViews.RecordTable.Post: a POST without `action` raises `MultiValueDictKeyError` at papermerge/contrib/admin/views.py:151, before anything is deleted. The model returns this as the value `MissingAction` with the table unchanged, rather than as a server error.
- ListViews.RecordTable.Post: does not model the list page rendered after the action, because that page depends on the paginator, which is left out.
- FormViews.TagChangeView: reports `SavedAndRedirected` without changing the tag table, because what `form.save()` writes depends on TagForm's fields, which are not part of this model. Validation is the `isValid` parameter.
- The search backend (`get_search_backend().search`) and `has_perm` are not modelled. They are parameters: the folder hits, the page hits and `canRead`.
- The value of `Folder.INBOX_NAME` is a parameter, because the Folder model is not part of this model. `MultipleObjectsReturned` is returned as the value `MultipleInboxes`, not raised as a server error.
- `login_required` is reduced to the redirect. The session, the login URL and its `next` parameter are not modelled.
- Concurrent requests and database transactions are not modelled.

## Findings

| source | as written | input that shows it | evidently intended | confidence | as-written member | corrected member |
|---|---|---|---|---|---|---|
| papermerge/contrib/admin/views.py:131-132 | `range(1, min(num_pages + 1, 7))` lists at most six pages, although the comment above it promises all pages for short lists and the first seven pages near the start | `num_pages = 7`, `page = 7`: the window is [1..6] and the current page 7 is not in it | `range(1, min(num_pages + 1, 8))`: all pages when there are at most seven, otherwise the first seven near the start, so every existing current page is in its window. The other two branches are unchanged | medium, not executed | `Pagination.SevenPagesHideLastPage` | `Pagination.PageWindowIntended` |

The rest of the model does not consume the window, so the correction changes nothing else. The
as-written `PageWindow` remains the model of the view.
