/**
 * The board ordering controller (frontend/src/Board.jsx): the local issue
 * list loaded from the server, the search filter, the three status
 * columns, and the drag-start / drag-over / drag-end handlers with the
 * requests they emit.
 */
module Board {
  import opened Wrappers
  import opened Seqs
  import opened Text
  import opened Api

  /** The column ids, in display order. */
  const STATUSES: seq<string> := ["TODO", "IN_PROG", "DONE"]

  /**
   * A drag-and-drop id: an issue card's numeric id or a column's string id.
   * JavaScript `===` never equates a number with a string, so the two
   * kinds never match each other.
   */
  datatype DndId = IssueRef(n: int) | ColumnRef(name: string)

  /** `issue.id === id`. */
  predicate IsIssue(id: DndId, issue: Issue)
  {
    id == IssueRef(issue.id)
  }

  /** A request the board sends when a drag ends. */
  datatype Request =
    | StatusUpdate(id: DndId, status: string)    // updateIssueStatus({id, status})
    | OrderUpdate(entries: seq<OrderEntry>)      // updateIssueOrder(columnItems)

  /** Every issue in `s` has a column status. */
  ghost predicate OnBoard(s: seq<Issue>)
  {
    forall i :: 0 <= i < |s| ==> s[i].status in STATUSES
  }

  /** `s.findIndex(i => i.id === id)`: the first matching index, or -1. */
  function FindIndex(s: seq<Issue>, id: DndId): (r: int)
    ensures -1 <= r < |s|
    ensures 0 <= r ==> IsIssue(id, s[r])
    ensures forall j :: 0 <= j < (if r < 0 then |s| else r) ==> !IsIssue(id, s[j])
  {
    if s == [] then -1
    else if IsIssue(id, s[0]) then 0
    else
      var k := FindIndex(s[1..], id);
      if k < 0 then -1 else k + 1
  }

  /** A column id never names an issue. */
  lemma ColumnIdFindsNothing(s: seq<Issue>, name: string)
    ensures FindIndex(s, ColumnRef(name)) == -1
  {
  }

  // ------------------------------------------------------------ arrayMove

  /** A negative index counts from the end of a list of length `n`. */
  function Resolve(n: int, k: int): int
  {
    if k < 0 then n + k else k
  }

  /** `s` without its element at `i`. */
  function RemoveAt<T>(s: seq<T>, i: int): seq<T>
    requires 0 <= i < |s|
  {
    s[..i] + s[i + 1..]
  }

  /**
   * `arrayMove(s, from, to)` of @dnd-kit/sortable: copy the list, take out
   * the element at `from` (-1 is the last one), and insert it so that it
   * ends up at `to`, where a negative `to` is resolved against the original
   * length (-1 is the end). The indices are those Board can pass.
   */
  function ArrayMove<T>(s: seq<T>, from: int, to: int): (r: seq<T>)
    requires |s| > 0 && -1 <= from < |s| && -1 <= to < |s|
    ensures |r| == |s|
    ensures r[Resolve(|s|, to)] == s[Resolve(|s|, from)]
    ensures RemoveAt(r, Resolve(|s|, to)) == RemoveAt(s, Resolve(|s|, from))
    ensures multiset(r) == multiset(s)
  {
    var f := Resolve(|s|, from);
    var t := Resolve(|s|, to);
    var rest := RemoveAt(s, f);
    InsertAtSpec(rest, t, s[f]);
    RemoveAtMultiset(s, f);
    rest[..t] + [s[f]] + rest[t..]
  }

  lemma InsertAtSpec<T>(rest: seq<T>, t: int, x: T)
    requires 0 <= t <= |rest|
    ensures var r := rest[..t] + [x] + rest[t..];
      && |r| == |rest| + 1 && r[t] == x && RemoveAt(r, t) == rest
      && multiset(r) == multiset(rest) + multiset{x}
  {
    var r := rest[..t] + [x] + rest[t..];
    assert r[..t] == rest[..t] && r[t + 1..] == rest[t..];
    assert rest[..t] + rest[t..] == rest;
  }

  lemma RemoveAtMultiset<T>(s: seq<T>, f: int)
    requires 0 <= f < |s|
    ensures multiset(RemoveAt(s, f)) + multiset{s[f]} == multiset(s)
  {
    assert s == s[..f] + [s[f]] + s[f + 1..];
  }

  /** Moving an element onto its own index changes nothing. */
  lemma ArrayMoveSameIndex<T>(s: seq<T>, i: int)
    requires 0 <= i < |s|
    ensures ArrayMove(s, i, i) == s
  {
    var r := ArrayMove(s, i, i);
    assert r[..i] == RemoveAt(r, i)[..i] == RemoveAt(s, i)[..i] == s[..i];
    assert r[i + 1..] == RemoveAt(r, i)[i..] == RemoveAt(s, i)[i..] == s[i + 1..];
    assert r == r[..i] + [r[i]] + r[i + 1..];
    assert s == s[..i] + [s[i]] + s[i + 1..];
  }

  // ------------------------------------------------------------ filtering

  /** Whether an issue's lower-cased title or key contains `term` (already lower-cased). */
  function Matches(term: string): Issue -> bool
  {
    (i: Issue) => Contains(Lower(i.title), term) || Contains(Lower(i.key), term)
  }

  /** `filteredIssues`: everything for an empty search, otherwise the matching issues. */
  function FilteredIssues(issues: seq<Issue>, search: string): seq<Issue>
  {
    if search == "" then issues else Filter(issues, Matches(Lower(search)))
  }

  /**
   * The filtered view is the list itself for an empty search. Otherwise it
   * is the subsequence of the issues whose lower-cased title or key
   * contains the lower-cased search term: a single issue is kept exactly
   * when it matches, filtering a concatenation filters each part in order,
   * and a matching issue is kept as often as it occurs.
   */
  lemma FilteredIssuesSpec(issues: seq<Issue>, more: seq<Issue>, search: string, x: Issue)
    ensures search == "" ==> FilteredIssues(issues, search) == issues
    ensures FilteredIssues([x], search) ==
      if search == "" || Contains(Lower(x.title), Lower(search)) || Contains(Lower(x.key), Lower(search))
      then [x] else []
    ensures FilteredIssues(issues + more, search) == FilteredIssues(issues, search) + FilteredIssues(more, search)
    ensures x in FilteredIssues(issues, search) <==>
      x in issues && (search == "" || Contains(Lower(x.title), Lower(search)) || Contains(Lower(x.key), Lower(search)))
    ensures multiset(FilteredIssues(issues, search))[x] ==
      if search == "" || Contains(Lower(x.title), Lower(search)) || Contains(Lower(x.key), Lower(search))
      then multiset(issues)[x] else 0
  {
    if search != "" {
      var p := Matches(Lower(search));
      FilterSingleton(x, p);
      FilterAppend(issues, more, p);
      FilterMembers(issues, p, x);
      FilterCount(issues, p, x);
    }
  }

  /** A search no issue matches leaves every column empty. */
  lemma NoMatchEmptiesColumns(issues: seq<Issue>, search: string, st: string)
    requires search != ""
    requires forall i :: 0 <= i < |issues| ==> !Matches(Lower(search))(issues[i])
    ensures Filter(FilteredIssues(issues, search), HasStatus(st)) == []
  {
    FilterNone(issues, Matches(Lower(search)));
  }

  /** The status a drag ends with (Board.jsx lines 113-120). */
  function FinalStatus(s: seq<Issue>, snapshot: Option<Issue>, overId: DndId): string
  {
    if overId.ColumnRef? && overId.name in STATUSES then overId.name
    else
      var oi := FindIndex(s, overId);
      if oi >= 0 then s[oi].status
      else if snapshot.Some? then snapshot.value.status
      else "TODO"
  }

  /** On a board whose issues and snapshot all have column statuses, a drag ends in a column. */
  lemma FinalStatusOnBoard(s: seq<Issue>, snapshot: Option<Issue>, overId: DndId)
    requires OnBoard(s)
    requires snapshot.Some? ==> snapshot.value.status in STATUSES
    ensures FinalStatus(s, snapshot, overId) in STATUSES
  {
  }

  /** `{ ...issue, status: st }` at index `i`. */
  function WithStatusAt(s: seq<Issue>, i: int, st: string): (r: seq<Issue>)
    requires 0 <= i < |s|
    ensures |r| == |s| && r[i].status == st
    ensures forall j :: 0 <= j < |s| && j != i ==> r[j] == s[j]
    ensures r[i] == s[i].(status := st)
  {
    s[i := s[i].(status := st)]
  }

  lemma WithStatusOnBoard(s: seq<Issue>, i: int, st: string)
    requires 0 <= i < |s| && OnBoard(s) && st in STATUSES
    ensures OnBoard(WithStatusAt(s, i, st))
  {
  }

  lemma PermutationOnBoard(s: seq<Issue>, t: seq<Issue>)
    requires OnBoard(s) && multiset(t) == multiset(s)
    ensures OnBoard(t)
  {
    forall i | 0 <= i < |t| ensures t[i].status in STATUSES {
      assert t[i] in multiset(s);
    }
  }

  /** `cols` buckets `s` by board status, in list order. */
  ghost predicate Bucketed(cols: map<string, seq<Issue>>, s: seq<Issue>)
  {
    && cols.Keys == {"TODO", "IN_PROG", "DONE"}
    && forall st :: st in cols ==> cols[st] == Filter(s, HasStatus(st))
  }

  /** Pushing the next issue onto the bucket of its status, if there is one, keeps the buckets right. */
  lemma BucketStep(cols: map<string, seq<Issue>>, s: seq<Issue>, x: Issue)
    requires Bucketed(cols, s)
    ensures Bucketed(if x.status in cols then cols[x.status := cols[x.status] + [x]] else cols, s + [x])
  {
    var next := if x.status in cols then cols[x.status := cols[x.status] + [x]] else cols;
    assert next.Keys == cols.Keys;
    forall st | st in next
      ensures next[st] == Filter(s + [x], HasStatus(st))
    {
      FilterSnoc(s, x, HasStatus(st));
    }
  }

  /**
   * The list drag end commits (Board.jsx lines 122-131): the dragged issue
   * gets status `st`, then moves to the drop target's index when the two
   * indices differ.
   */
  function DropList(s: seq<Issue>, activeId: DndId, overId: DndId, st: string): seq<Issue>
  {
    var oldIndex := FindIndex(s, activeId);
    var newIndex := FindIndex(s, overId);
    var updated := if oldIndex >= 0 then WithStatusAt(s, oldIndex, st) else s;
    if oldIndex != newIndex then ArrayMove(updated, oldIndex, newIndex) else updated
  }

  /**
   * The committed list is a permutation of the list with only the dragged
   * issue's status changed, and the dragged issue lands at the target's
   * index, or at the end of the list when the target is not an issue.
   */
  lemma DropListSpec(s: seq<Issue>, activeId: DndId, overId: DndId, st: string)
    ensures var oldIndex := FindIndex(s, activeId);
      var updated := if oldIndex >= 0 then WithStatusAt(s, oldIndex, st) else s;
      && |DropList(s, activeId, overId, st)| == |s|
      && multiset(DropList(s, activeId, overId, st)) == multiset(updated)
      && (oldIndex >= 0 ==>
            DropList(s, activeId, overId, st)[Resolve(|s|, FindIndex(s, overId))] == s[oldIndex].(status := st))
  {
  }

  /** Dropping an issue on itself commits the list unchanged. */
  lemma DropOnItself(s: seq<Issue>, activeId: DndId, snapshot: Option<Issue>)
    ensures DropList(s, activeId, activeId, FinalStatus(s, snapshot, activeId)) == s
  {
    var i := FindIndex(s, activeId);
    if i >= 0 {
      assert s[i].(status := s[i].status) == s[i];
    }
  }

  /** Drag end keeps every issue on the board when it started there. */
  lemma DropListOnBoard(s: seq<Issue>, activeId: DndId, overId: DndId, snapshot: Option<Issue>)
    requires OnBoard(s)
    requires snapshot.Some? ==> snapshot.value.status in STATUSES
    ensures OnBoard(DropList(s, activeId, overId, FinalStatus(s, snapshot, overId)))
  {
    var st := FinalStatus(s, snapshot, overId);
    FinalStatusOnBoard(s, snapshot, overId);
    var oldIndex := FindIndex(s, activeId);
    var updated := if oldIndex >= 0 then WithStatusAt(s, oldIndex, st) else s;
    if oldIndex >= 0 { WithStatusOnBoard(s, oldIndex, st); }
    DropListSpec(s, activeId, overId, st);
    PermutationOnBoard(updated, DropList(s, activeId, overId, st));
  }

  // ---------------------------------------------------------- controller

  class BoardController {
    /** The local, optimistically updated issue list. */
    var issues: seq<Issue>
    /** The snapshot of the dragged issue taken at drag start. */
    var activeDragIssue: Option<Issue>

    constructor ()
      ensures issues == [] && activeDragIssue == None
    {
      issues := [];
      activeDragIssue := None;
    }

    /**
     * The effect on a new server list (undefined until the query has
     * data): the local list becomes the server list sorted by `order`,
     * ties in server order.
     */
    method LoadServerIssues(serverIssues: Option<seq<Issue>>)
      modifies this`issues
      ensures serverIssues.None? ==> issues == old(issues)
      ensures serverIssues.Some? ==>
        && issues == SortBy(serverIssues.value, OrderOf)
        && SortedBy(issues, OrderOf)
        && multiset(issues) == multiset(serverIssues.value)
        && forall k :: Filter(issues, KeyIs(OrderOf, k)) == Filter(serverIssues.value, KeyIs(OrderOf, k))
    {
      if serverIssues.Some? {
        var sorted := SortBy(serverIssues.value, OrderOf);
        SortBySorted(serverIssues.value, OrderOf);
        SortByStable(serverIssues.value, OrderOf);
        issues := sorted;
      }
    }

    /**
     * `columns`: buckets TODO, IN_PROG and DONE, each holding the filtered
     * issues with exactly that status, in list order; issues with any other
     * status are in none.
     */
    method Columns(search: string) returns (cols: map<string, seq<Issue>>)
      ensures cols.Keys == {"TODO", "IN_PROG", "DONE"}
      ensures forall st :: st in cols ==> cols[st] == Filter(FilteredIssues(issues, search), HasStatus(st))
    {
      var filtered := FilteredIssues(issues, search);
      cols := map["TODO" := [], "IN_PROG" := [], "DONE" := []];
      for k := 0 to |filtered|
        invariant Bucketed(cols, filtered[..k])
      {
        var issue := filtered[k];
        BucketStep(cols, filtered[..k], issue);
        TakeSnoc(filtered, k);
        if issue.status in cols {
          cols := cols[issue.status := cols[issue.status] + [issue]];
        }
      }
      assert filtered[..|filtered|] == filtered;
    }

    /** Drag start: snapshot the issue with the active id, if there is one. */
    method DragStart(activeId: DndId)
      modifies this`activeDragIssue
      ensures FindIndex(issues, activeId) >= 0 ==> activeDragIssue == Some(issues[FindIndex(issues, activeId)])
      ensures FindIndex(issues, activeId) < 0 ==> activeDragIssue == old(activeDragIssue)
    {
      var idx := FindIndex(issues, activeId);
      if idx >= 0 {
        activeDragIssue := Some(issues[idx]);
      }
    }

    /**
     * Drag over: over another issue of a different status, the dragged
     * issue takes that status and moves to that issue's index; over a
     * column with a different status, it takes the column's status in
     * place. Otherwise nothing changes.
     */
    method DragOver(activeId: DndId, activeIsColumn: bool, over: Option<DndId>)
      modifies this`issues
      ensures over.None? || over.value == activeId || activeIsColumn || FindIndex(old(issues), activeId) < 0
        ==> issues == old(issues)
      ensures over.Some? && over.value != activeId && !activeIsColumn && FindIndex(old(issues), activeId) >= 0 ==>
        var s := old(issues);
        var ai := FindIndex(s, activeId);
        var oi := FindIndex(s, over.value);
        if oi >= 0 && s[oi].status != s[ai].status then
          && issues == ArrayMove(WithStatusAt(s, ai, s[oi].status), ai, oi)
          && issues[oi] == s[ai].(status := s[oi].status)
          && multiset(issues) == multiset(WithStatusAt(s, ai, s[oi].status))
        else if over.value.ColumnRef? && over.value.name in STATUSES && over.value.name != s[ai].status then
          issues == WithStatusAt(s, ai, over.value.name)
        else
          issues == s
      ensures OnBoard(old(issues)) ==> OnBoard(issues)
    {
      if over.None? { return; }
      var overId := over.value;
      if activeId == overId { return; }
      if activeIsColumn { return; }
      var ai := FindIndex(issues, activeId);
      var oi := FindIndex(issues, overId);
      if ai < 0 { return; }
      var activeIssue := issues[ai];
      ghost var s := issues;

      // Over another issue in a different column.
      if oi >= 0 && activeIssue.status != issues[oi].status {
        var newItems := WithStatusAt(issues, ai, issues[oi].status);
        if OnBoard(s) {
          WithStatusOnBoard(s, ai, s[oi].status);
        }
        issues := ArrayMove(newItems, ai, oi);
        if OnBoard(s) {
          PermutationOnBoard(newItems, issues);
        }
      }

      // Over a column with a different status.
      var isOverColumn := overId.ColumnRef? && overId.name in STATUSES;
      if isOverColumn && activeIssue.status != overId.name {
        var activeIndex := FindIndex(issues, activeId);
        var newItems := WithStatusAt(issues, activeIndex, overId.name);
        ArrayMoveSameIndex(newItems, activeIndex);
        issues := ArrayMove(newItems, activeIndex, activeIndex);
      }
    }

    /**
     * Drag end: clear the snapshot; with a drop target, give the dragged
     * issue the final status, move it to the target's index (the end of the
     * list when the target is a column), and emit a status update when the
     * status differs from the snapshot's, then the order update for every
     * issue of the final status.
     */
    method DragEnd(activeId: DndId, over: Option<DndId>) returns (requests: seq<Request>)
      modifies this
      ensures activeDragIssue == None
      ensures over.None? ==> issues == old(issues) && requests == []
      ensures over.Some? ==>
        var snapshot := old(activeDragIssue);
        var st := FinalStatus(old(issues), snapshot, over.value);
        && issues == DropList(old(issues), activeId, over.value, st)
        && requests ==
             (if snapshot.Some? && snapshot.value.status != st then [StatusUpdate(activeId, st)] else [])
             + [OrderUpdate(OrderPayload(Filter(issues, HasStatus(st))))]
    {
      var originalIssue := activeDragIssue;
      activeDragIssue := None;
      if over.None? { return []; }
      var overId := over.value;

      var newStatus := if originalIssue.Some? then originalIssue.value.status else "TODO";
      if overId.ColumnRef? && overId.name in STATUSES {
        newStatus := overId.name;
      } else {
        var oi := FindIndex(issues, overId);
        if oi >= 0 { newStatus := issues[oi].status; }
      }

      var oldIndex := FindIndex(issues, activeId);
      var newIndex := FindIndex(issues, overId);
      var newIssues := issues;
      if oldIndex != -1 {
        newIssues := WithStatusAt(newIssues, oldIndex, newStatus);
      }
      if oldIndex != newIndex {
        newIssues := ArrayMove(newIssues, oldIndex, newIndex);
      }
      issues := newIssues;

      // The status update, when the status changed, then the order update.
      var statusRequests := [];
      if originalIssue.Some? && originalIssue.value.status != newStatus {
        statusRequests := [StatusUpdate(activeId, newStatus)];
      }
      var columnItems := Filter(newIssues, HasStatus(newStatus));
      requests := statusRequests + [OrderUpdate(OrderPayload(columnItems))];
    }
  }
}
