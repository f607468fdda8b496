/**
 * The board and the backend together: the order request a drag end sends
 * for a column (frontend/src/Board.jsx, frontend/src/api.js), once the
 * backend's bulk update (backend/issues/views.py) has applied it, numbers
 * the column's issues 0, 1, 2, ... in board order.
 */
module Sync {
  import opened Wrappers
  import Api
  import opened Models
  import opened Views

  /** The posted `{id, order}` entries as the backend reads them: both keys present. */
  function AsItems(entries: seq<Api.OrderEntry>): (items: seq<OrderItem>)
    ensures |items| == |entries|
    ensures forall i :: 0 <= i < |entries| ==> items[i] == OrderItem(Some(entries[i].id), Some(entries[i].order))
  {
    seq(|entries|, i requires 0 <= i < |entries| => OrderItem(Some(entries[i].id), Some(entries[i].order)))
  }

  /** No two issues of the list share an id. */
  predicate DistinctIds(issues: seq<Api.Issue>)
  {
    forall i, j :: 0 <= i < j < |issues| ==> issues[i].id != issues[j].id
  }

  /** With distinct ids, the last entry for an id is its only entry. */
  lemma {:induction false} LastOrderForDistinct(items: seq<OrderItem>, k: int)
    requires 0 <= k < |items| && items[k].id.Some?
    requires forall i :: 0 <= i < |items| && i != k ==> items[i].id != items[k].id
    ensures LastOrderFor(items, items[k].id.value) == items[k].order
  {
    if k < |items| - 1 {
      var init := items[..|items| - 1];
      LastOrderForDistinct(init, k);
    }
  }

  /** An id that no entry names has no last entry. */
  lemma {:induction false} LastOrderForAbsent(items: seq<OrderItem>, id: int)
    requires forall i :: 0 <= i < |items| ==> items[i].id != Some(id)
    ensures LastOrderFor(items, id) == None
  {
    if items != [] {
      LastOrderForAbsent(items[..|items| - 1], id);
    }
  }

  /**
   * Posting the order payload of a column of issues with distinct ids is
   * accepted whole, and afterwards each of the column's issues that the
   * table holds has its index in the column as its order; all other rows
   * are untouched.
   */
  lemma ColumnOrderApplied(rows: map<int, IssueRow>, column: seq<Api.Issue>)
    requires DistinctIds(column)
    ensures var items := AsItems(Api.OrderPayload(column));
      CompleteRun(items) == |items|
    ensures var items := AsItems(Api.OrderPayload(column));
      var after := SetOrders(rows, items);
      && after.Keys == rows.Keys
      && (forall i :: 0 <= i < |column| && column[i].id in rows ==> after[column[i].id] == rows[column[i].id].(order := i))
      && (forall id :: id in rows && (forall i :: 0 <= i < |column| ==> column[i].id != id) ==> after[id] == rows[id])
  {
    var items := AsItems(Api.OrderPayload(column));
    SetOrdersEffect(rows, items);
    var after := SetOrders(rows, items);
    forall i | 0 <= i < |column| && column[i].id in rows
      ensures after[column[i].id] == rows[column[i].id].(order := i)
    {
      LastOrderForDistinct(items, i);
    }
    forall id | id in rows && (forall i :: 0 <= i < |column| ==> column[i].id != id)
      ensures after[id] == rows[id]
    {
      LastOrderForAbsent(items, id);
    }
  }
}
