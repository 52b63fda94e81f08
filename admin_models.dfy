/** Entities shared by the admin views: callers, stored records, tree nodes. */
module AdminModels {

  datatype Option<+T> = None | Some(value: T)

  /** Database primary keys and user ids. */
  type Id = int
  type UserId = int

  /** The authenticated user behind a request. */
  datatype User = User(id: UserId, isSuperuser: bool)

  /** Who sent the request; `Anonymous` has no session. */
  datatype Caller = Anonymous | SignedIn(user: User)

  /**
   * What a view wrapped in `login_required` answers: a redirect to the login
   * page for an anonymous caller, otherwise whatever the view itself produces.
   */
  datatype Guarded<+T> = RedirectToLogin | Served(value: T)

  /** One row of the LogEntry table (text = message) or the Tag table (text = name). */
  datatype Row = Row(owner: UserId, text: string)

  /** A row of the document tree: folders and documents share one table. */
  datatype NodeKind = FolderNode | DocumentNode
  datatype Node = Node(id: Id, owner: UserId, title: string, kind: NodeKind)

  /** No two entries of a table listing share an id. */
  ghost predicate UniqueIds(nodes: seq<Node>)
  {
    forall i, j :: 0 <= i < j < |nodes| ==> nodes[i].id != nodes[j].id
  }

  /**
   * The elements of `s` that satisfy `keep`, in their original order and with
   * their multiplicity (a list comprehension with a condition).
   */
  function Filter<T(!new)>(s: seq<T>, keep: T -> bool): (r: seq<T>)
    ensures |r| <= |s|
    ensures forall x :: x in r <==> x in s && keep(x)
    ensures forall x :: multiset(r)[x] == if keep(x) then multiset(s)[x] else 0
  {
    if s == [] then []
    else
      assert s == [s[0]] + s[1..];
      if keep(s[0]) then [s[0]] + Filter(s[1..], keep)
      else Filter(s[1..], keep)
  }

  /** Filtering a concatenation filters each part in place: the input order is kept. */
  lemma {:induction false} FilterAppend<T(!new)>(a: seq<T>, b: seq<T>, keep: T -> bool)
    ensures Filter(a + b, keep) == Filter(a, keep) + Filter(b, keep)
  {
    if a == [] {
      assert a + b == b;
    } else {
      var ab := a + b;
      assert ab[0] == a[0] && ab[1..] == a[1..] + b;
      FilterAppend(a[1..], b, keep);
      if keep(a[0]) {
        calc {
          Filter(ab, keep);
          [a[0]] + Filter(a[1..] + b, keep);
          [a[0]] + (Filter(a[1..], keep) + Filter(b, keep));
          ([a[0]] + Filter(a[1..], keep)) + Filter(b, keep);
        }
      } else {
        assert Filter(ab, keep) == Filter(a[1..] + b, keep);
      }
    }
  }

  /** Filtering a table listing with distinct ids gives a listing with distinct ids. */
  lemma {:induction false} FilterKeepsUniqueIds(s: seq<Node>, keep: Node -> bool)
    ensures UniqueIds(s) ==> UniqueIds(Filter(s, keep))
  {
    if s != [] && UniqueIds(s) {
      var rest := Filter(s[1..], keep);
      assert UniqueIds(s[1..]) by {
        forall i, j | 0 <= i < j < |s[1..]| ensures s[1..][i].id != s[1..][j].id {
          assert s[1..][i] == s[i + 1] && s[1..][j] == s[j + 1];
        }
      }
      FilterKeepsUniqueIds(s[1..], keep);
      if keep(s[0]) {
        forall n | n in rest ensures n.id != s[0].id {
          assert n in s[1..];
          var k :| 0 <= k < |s[1..]| && s[1..][k] == n;
          assert n == s[k + 1];
        }
        var r := [s[0]] + rest;
        forall i, j | 0 <= i < j < |r| ensures r[i].id != r[j].id {
          if i == 0 {
            assert r[j] == rest[j - 1];
            assert r[j] in rest;
          } else {
            assert r[i] == rest[i - 1] && r[j] == rest[j - 1];
          }
        }
      }
    }
  }
}
