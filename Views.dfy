/**
 * Two backend endpoints (backend/issues/views.py): the bulk order update,
 * which writes the `order` of each listed issue in turn, and the comment
 * list, optionally narrowed to one issue and sorted by creation time.
 */
module Views {
  import opened Wrappers
  import opened Seqs
  import opened Models

  // ---------------------------------------------------- bulk_update_order

  /** One entry of the request's `issues` list; either key may be missing. */
  datatype OrderItem = OrderItem(id: Option<int>, order: Option<int>)

  /** Why the request fails: an entry lacks `id` or `order`. */
  datatype RequestError = KeyError

  const OrdersUpdated: string := "orders updated"

  predicate Complete(item: OrderItem)
  {
    item.id.Some? && item.order.Some?
  }

  /** How many entries, from the start, have both keys: the loop stops at the first that does not. */
  function CompleteRun(items: seq<OrderItem>): (n: nat)
    ensures n <= |items|
    ensures forall i :: 0 <= i < n ==> Complete(items[i])
    ensures n < |items| ==> !Complete(items[n])
  {
    if items == [] || !Complete(items[0]) then 0
    else 1 + CompleteRun(items[1..])
  }

  /** `filter(id=...).update(order=...)`: sets one issue's order; an unknown id matches no row. */
  function SetOrder(rows: map<int, IssueRow>, id: int, order: int): map<int, IssueRow>
  {
    if id in rows then rows[id := rows[id].(order := order)] else rows
  }

  /** The rows after the updates of `items`, in turn. */
  function SetOrders(rows: map<int, IssueRow>, items: seq<OrderItem>): map<int, IssueRow>
    requires forall i :: 0 <= i < |items| ==> Complete(items[i])
  {
    if items == [] then rows
    else
      var last := items[|items| - 1];
      assert Complete(last);
      SetOrder(SetOrders(rows, items[..|items| - 1]), last.id.value, last.order.value)
  }

  /** The order the last entry for `id` gives, if any entry names it. */
  function LastOrderFor(items: seq<OrderItem>, id: int): Option<int>
  {
    if items == [] then None
    else if items[|items| - 1].id == Some(id) then items[|items| - 1].order
    else LastOrderFor(items[..|items| - 1], id)
  }

  /**
   * The bulk update writes nothing but `order`: it adds and removes no
   * row, an issue some entry names ends with the order of the LAST entry
   * naming it, and every other issue is left as it was.
   */
  lemma {:induction false} SetOrdersEffect(rows: map<int, IssueRow>, items: seq<OrderItem>)
    requires forall i :: 0 <= i < |items| ==> Complete(items[i])
    ensures SetOrders(rows, items).Keys == rows.Keys
    ensures forall id :: id in rows ==>
      SetOrders(rows, items)[id] == rows[id].(order := match LastOrderFor(items, id)
                                                       case Some(o) => o
                                                       case None => rows[id].order)
  {
    if items != [] {
      var init := items[..|items| - 1];
      SetOrdersEffect(rows, init);
    }
  }

  /** Ids that match no issue are ignored: such entries change nothing. */
  lemma {:induction false} UnknownIdsIgnored(rows: map<int, IssueRow>, items: seq<OrderItem>, id: int, order: int)
    requires forall i :: 0 <= i < |items| ==> Complete(items[i])
    requires id !in rows
    ensures SetOrders(rows, items + [OrderItem(Some(id), Some(order))]) == SetOrders(rows, items)
  {
    var all := items + [OrderItem(Some(id), Some(order))];
    assert all[..|all| - 1] == items;
    SetOrdersEffect(rows, items);
  }

  /** Only `order` changes, so the unique (project, key_id) rule still holds. */
  lemma SetOrdersKeepsKeys(rows: map<int, IssueRow>, items: seq<OrderItem>)
    requires forall i :: 0 <= i < |items| ==> Complete(items[i])
    requires UniqueKeyIds(rows)
    ensures UniqueKeyIds(SetOrders(rows, items))
  {
    SetOrdersEffect(rows, items);
    var after := SetOrders(rows, items);
    forall a, b | a in after && b in after && a != b && after[a].keyId.Some? && after[a].project == after[b].project
      ensures after[a].keyId != after[b].keyId
    {
      assert after[a].keyId == rows[a].keyId && after[b].keyId == rows[b].keyId;
      assert after[a].project == rows[a].project && after[b].project == rows[b].project;
    }
  }

  /**
   * `bulk_update_order`: the entries are applied in turn; the first entry
   * without `id` or `order` raises KeyError, after the ones before it have
   * been written. A request without `issues` changes nothing and succeeds.
   */
  method BulkUpdateOrder(table: IssueTable, issues: Option<seq<OrderItem>>) returns (response: Result<string, RequestError>)
    modifies table
    ensures var items := if issues.None? then [] else issues.value;
      var n := CompleteRun(items);
      && table.rows == SetOrders(old(table.rows), items[..n])
      && (response.Ok? <==> n == |items|)
      && (response.Ok? ==> response.value == OrdersUpdated)
    ensures old(table.Valid()) ==> table.Valid()
  {
    var updates := if issues.None? then [] else issues.value;
    ghost var n := CompleteRun(updates);
    for k := 0 to |updates|
      invariant k <= n
      invariant table.rows == SetOrders(old(table.rows), updates[..k])
    {
      var item := updates[k];
      if item.id.None? || item.order.None? {
        if old(table.Valid()) {
          SetOrdersKeepsKeys(old(table.rows), updates[..k]);
        }
        return Err(KeyError);
      }
      assert updates[..k + 1][..k] == updates[..k];
      table.rows := SetOrder(table.rows, item.id.value, item.order.value);
    }
    assert updates[..|updates|] == updates;
    response := Ok(OrdersUpdated);
    if old(table.Valid()) {
      SetOrdersKeepsKeys(old(table.rows), updates);
    }
  }

  // ---------------------------------------------------- comments

  /** A comment row. `createdAt` is the creation timestamp as a number. */
  datatype Comment = Comment(id: int, issue: int, text: string, createdAt: int)

  function OnIssue(issue: int): Comment -> bool
  {
    (c: Comment) => c.issue == issue
  }

  function CreatedAt(c: Comment): int
  {
    c.createdAt
  }

  /**
   * `CommentViewSet.get_queryset`: all comments, or those of one issue
   * when the `issue` parameter is given, ordered by creation time.
   */
  function CommentQuery(comments: seq<Comment>, issue: Option<int>): seq<Comment>
  {
    var selected := if issue.Some? then Filter(comments, OnIssue(issue.value)) else comments;
    SortBy(selected, CreatedAt)
  }

  /**
   * The query returns exactly the comments of the issue (all of them
   * without the parameter), each as often as stored, in non-decreasing
   * creation time.
   */
  lemma CommentQuerySpec(comments: seq<Comment>, issue: Option<int>)
    ensures SortedBy(CommentQuery(comments, issue), CreatedAt)
    ensures issue.None? ==> multiset(CommentQuery(comments, issue)) == multiset(comments)
    ensures issue.Some? ==> multiset(CommentQuery(comments, issue)) == multiset(Filter(comments, OnIssue(issue.value)))
    ensures forall c :: c in CommentQuery(comments, issue) <==> c in comments && (issue.None? || c.issue == issue.value)
  {
    var selected := if issue.Some? then Filter(comments, OnIssue(issue.value)) else comments;
    SortBySorted(selected, CreatedAt);
    forall c
      ensures c in CommentQuery(comments, issue) <==> c in comments && (issue.None? || c.issue == issue.value)
    {
      assert c in CommentQuery(comments, issue) <==> c in multiset(selected);
      if issue.Some? {
        FilterMembers(comments, OnIssue(issue.value), c);
      }
    }
  }
}
