/**
 * inbox_view: the id of the caller's inbox folder, passed to the page as
 * `root_node_id`. `Folder.INBOX_NAME` is a parameter.
 */
module InboxView {
  import opened AdminModels

  /**
   * `Folder.objects.get(title=INBOX_NAME, user=user)`: none (DoesNotExist,
   * caught), exactly one, or several (MultipleObjectsReturned, not caught).
   */
  datatype InboxLookup = NoInbox | InboxAt(id: Id) | MultipleInboxes

  predicate IsInboxOf(n: Node, user: User, inboxName: string)
  {
    n.kind == FolderNode && n.title == inboxName && n.owner == user.id
  }

  function FindInbox(nodes: seq<Node>, user: User, inboxName: string): (r: InboxLookup)
    ensures r.NoInbox? <==> forall n :: n in nodes ==> !IsInboxOf(n, user, inboxName)
    ensures r.InboxAt? ==> exists n :: n in nodes && IsInboxOf(n, user, inboxName) && n.id == r.id
    ensures r.InboxAt? ==> forall n :: n in nodes && IsInboxOf(n, user, inboxName) ==> n.id == r.id
    ensures r.MultipleInboxes? && UniqueIds(nodes) ==>
              exists a, b :: a in nodes && b in nodes && IsInboxOf(a, user, inboxName) && IsInboxOf(b, user, inboxName) && a.id != b.id
  {
    var matches := Filter(nodes, (n: Node) => IsInboxOf(n, user, inboxName));
    FilterKeepsUniqueIds(nodes, (n: Node) => IsInboxOf(n, user, inboxName));
    if |matches| == 0 then NoInbox
    else if |matches| == 1 then (assert matches[0] in matches; InboxAt(matches[0].id))
    else (assert matches[0] in matches && matches[1] in matches; MultipleInboxes)
  }

  /** inbox_view: the root folder id handed to the page, or None without an inbox. */
  function InboxRootNode(caller: Caller, nodes: seq<Node>, inboxName: string): (r: Guarded<InboxLookup>)
    ensures r.RedirectToLogin? <==> caller.Anonymous?
    ensures r.Served? ==> (r.value.NoInbox? <==> forall n :: n in nodes ==> !IsInboxOf(n, caller.user, inboxName))
    ensures r.Served? && r.value.InboxAt? ==> exists n :: n in nodes && IsInboxOf(n, caller.user, inboxName) && n.id == r.value.id
    ensures r.Served? && r.value.InboxAt? ==> forall n :: n in nodes && IsInboxOf(n, caller.user, inboxName) ==> n.id == r.value.id
    ensures r.Served? && r.value.MultipleInboxes? && UniqueIds(nodes) ==>
              exists a, b :: a in nodes && b in nodes && IsInboxOf(a, caller.user, inboxName) && IsInboxOf(b, caller.user, inboxName) && a.id != b.id
  {
    match caller
    case Anonymous => RedirectToLogin
    case SignedIn(user) => Served(FindInbox(nodes, user, inboxName))
  }

  /**
   * A user with exactly one inbox folder (ids distinct) gets that folder's id
   * as `root_node_id`.
   */
  lemma SingleInboxIsRoot(user: User, nodes: seq<Node>, inboxName: string, inbox: Node)
    requires UniqueIds(nodes)
    requires inbox in nodes && IsInboxOf(inbox, user, inboxName)
    requires forall n :: n in nodes && IsInboxOf(n, user, inboxName) ==> n == inbox
    ensures InboxRootNode(SignedIn(user), nodes, inboxName) == Served(InboxAt(inbox.id))
  {
  }
}
