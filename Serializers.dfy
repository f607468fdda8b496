/**
 * The `progress` field of a serialized issue
 * (backend/issues/serializers.py): how many subtasks the issue has and
 * how many of them are completed, or nothing when it has none.
 */
module Serializers {
  import opened Wrappers
  import opened Seqs

  /** A subtask row. */
  datatype Subtask = Subtask(issue: int, title: string, completed: bool)

  /** The `progress` dictionary. */
  datatype ProgressSummary = ProgressSummary(total: nat, completed: nat)

  function OfIssue(issue: int): Subtask -> bool
  {
    (t: Subtask) => t.issue == issue
  }

  function IsCompleted(): Subtask -> bool
  {
    (t: Subtask) => t.completed
  }

  /**
   * `get_progress`: the issue's subtasks are counted, then among them the
   * completed ones.
   */
  function Progress(subtasks: seq<Subtask>, issue: int): (r: Option<ProgressSummary>)
    ensures r.None? <==> forall i :: 0 <= i < |subtasks| ==> subtasks[i].issue != issue
    ensures r.Some? ==> 1 <= r.value.total && r.value.completed <= r.value.total
  {
    var mine := Filter(subtasks, OfIssue(issue));
    NoneOfIssue(subtasks, issue);
    if |mine| == 0 then
      None
    else
      Some(ProgressSummary(|mine|, |Filter(mine, IsCompleted())|))
  }

  /** An issue has no subtasks exactly when none of the rows belongs to it. */
  lemma NoneOfIssue(subtasks: seq<Subtask>, issue: int)
    ensures |Filter(subtasks, OfIssue(issue))| == 0 <==> forall i :: 0 <= i < |subtasks| ==> subtasks[i].issue != issue
  {
    if exists i :: 0 <= i < |subtasks| && subtasks[i].issue == issue {
      var i :| 0 <= i < |subtasks| && subtasks[i].issue == issue;
      FilterMembers(subtasks, OfIssue(issue), subtasks[i]);
    } else {
      FilterNone(subtasks, OfIssue(issue));
    }
  }

  /**
   * The summary counts the rows of the issue, and the rows that both belong
   * to the issue and are completed.
   */
  lemma ProgressCounts(subtasks: seq<Subtask>, issue: int)
    requires Progress(subtasks, issue).Some?
    ensures Progress(subtasks, issue).value.total == |Filter(subtasks, OfIssue(issue))|
    ensures Progress(subtasks, issue).value.completed == |Filter(subtasks, Both(OfIssue(issue), IsCompleted()))|
  {
    FilterFilter(subtasks, OfIssue(issue), IsCompleted());
  }
}
