/**
 * The project dashboard's figures (frontend/src/Dashboard.jsx): issues
 * counted per status for the pie chart, per priority for the bar chart,
 * and the Total / Completed / Pending boxes derived from them. The charts
 * themselves are not modelled.
 */
module Dashboard {
  import opened Seqs
  import opened Api

  /** One pie slice: label, count and fill colour. */
  datatype StatusSlice = StatusSlice(name: string, value: nat, color: string)

  /** One bar: label and count. */
  datatype PriorityBar = PriorityBar(name: string, count: nat)

  /** The three quick-stat boxes. */
  datatype QuickStats = QuickStats(total: nat, completed: nat, pending: nat)

  /** The number of issues with status exactly `st`. */
  function StatusCount(issues: seq<Issue>, st: string): nat
  {
    |Filter(issues, HasStatus(st))|
  }

  /** The number of issues with priority exactly `p`. */
  function PriorityCount(issues: seq<Issue>, p: string): nat
  {
    |Filter(issues, HasPriority(p))|
  }

  /** `counts` holds, for each board status, how many issues of `s` have it. */
  ghost predicate StatusTallied(counts: map<string, nat>, s: seq<Issue>)
  {
    && counts.Keys == {"TODO", "IN_PROG", "DONE"}
    && forall st :: st in counts ==> counts[st] == StatusCount(s, st)
  }

  /** `counts` holds, for each of LOW, MED and HIGH, how many issues of `s` have it. */
  ghost predicate PriorityTallied(counts: map<string, nat>, s: seq<Issue>)
  {
    && counts.Keys == {"LOW", "MED", "HIGH"}
    && forall p :: p in counts ==> counts[p] == PriorityCount(s, p)
  }

  lemma StatusTallyStep(counts: map<string, nat>, s: seq<Issue>, x: Issue)
    requires StatusTallied(counts, s)
    ensures StatusTallied(if x.status in counts then counts[x.status := counts[x.status] + 1] else counts, s + [x])
  {
    var next := if x.status in counts then counts[x.status := counts[x.status] + 1] else counts;
    assert next.Keys == counts.Keys;
    forall st | st in next
      ensures next[st] == StatusCount(s + [x], st)
    {
      FilterSnoc(s, x, HasStatus(st));
      if x.status == st {
        assert next[st] == counts[st] + 1;
      } else {
        assert next[st] == counts[st];
      }
    }
  }

  lemma PriorityTallyStep(counts: map<string, nat>, s: seq<Issue>, x: Issue)
    requires PriorityTallied(counts, s)
    ensures PriorityTallied(if x.priority in counts then counts[x.priority := counts[x.priority] + 1] else counts, s + [x])
  {
    var next := if x.priority in counts then counts[x.priority := counts[x.priority] + 1] else counts;
    assert next.Keys == counts.Keys;
    forall p | p in next
      ensures next[p] == PriorityCount(s + [x], p)
    {
      FilterSnoc(s, x, HasPriority(p));
      if x.priority == p {
        assert next[p] == counts[p] + 1;
      } else {
        assert next[p] == counts[p];
      }
    }
  }

  /**
   * `statusData`: three slices in the fixed order To Do, In Progress, Done,
   * each counting the issues with exactly that status; any other status is
   * counted nowhere.
   */
  method StatusData(issues: seq<Issue>) returns (data: seq<StatusSlice>)
    ensures data == [StatusSlice("To Do", StatusCount(issues, "TODO"), "#dfe1e6"),
                     StatusSlice("In Progress", StatusCount(issues, "IN_PROG"), "#0052cc"),
                     StatusSlice("Done", StatusCount(issues, "DONE"), "#36B37E")]
  {
    var counts: map<string, nat> := map["TODO" := 0, "IN_PROG" := 0, "DONE" := 0];
    for k := 0 to |issues|
      invariant StatusTallied(counts, issues[..k])
    {
      var i := issues[k];
      StatusTallyStep(counts, issues[..k], i);
      TakeSnoc(issues, k);
      if i.status in counts {
        counts := counts[i.status := counts[i.status] + 1];
      }
    }
    assert issues[..|issues|] == issues;
    data := [StatusSlice("To Do", counts["TODO"], "#dfe1e6"),
             StatusSlice("In Progress", counts["IN_PROG"], "#0052cc"),
             StatusSlice("Done", counts["DONE"], "#36B37E")];
  }

  /**
   * `priorityData`: three bars Low, Medium, High counting LOW, MED and HIGH;
   * any other priority (CRI among them) is counted nowhere.
   */
  method PriorityData(issues: seq<Issue>) returns (data: seq<PriorityBar>)
    ensures data == [PriorityBar("Low", PriorityCount(issues, "LOW")),
                     PriorityBar("Medium", PriorityCount(issues, "MED")),
                     PriorityBar("High", PriorityCount(issues, "HIGH"))]
  {
    var counts: map<string, nat> := map["LOW" := 0, "MED" := 0, "HIGH" := 0];
    for k := 0 to |issues|
      invariant PriorityTallied(counts, issues[..k])
    {
      var i := issues[k];
      PriorityTallyStep(counts, issues[..k], i);
      TakeSnoc(issues, k);
      if i.priority in counts {
        counts := counts[i.priority := counts[i.priority] + 1];
      }
    }
    assert issues[..|issues|] == issues;
    data := [PriorityBar("Low", counts["LOW"]),
             PriorityBar("Medium", counts["MED"]),
             PriorityBar("High", counts["HIGH"])];
  }

  /**
   * Every issue with a board status is in exactly one of the three status
   * selections, and no other issue is in any of them.
   */
  lemma {:induction false} StatusPartition(s: seq<Issue>)
    ensures multiset(Filter(s, HasStatus("TODO"))) + multiset(Filter(s, HasStatus("IN_PROG")))
          + multiset(Filter(s, HasStatus("DONE"))) == multiset(Filter(s, HasBoardStatus()))
  {
    if s != [] {
      StatusPartition(s[1..]);
    }
  }

  /**
   * No issue is counted under two statuses: the three status counts add up
   * to the number of issues with a board status, hence to at most all of
   * them.
   */
  lemma StatusCountsBound(issues: seq<Issue>)
    ensures StatusCount(issues, "TODO") + StatusCount(issues, "IN_PROG") + StatusCount(issues, "DONE")
         == |Filter(issues, HasBoardStatus())|
    ensures StatusCount(issues, "TODO") + StatusCount(issues, "IN_PROG") + StatusCount(issues, "DONE") <= |issues|
  {
    StatusPartition(issues);
    assert |multiset(Filter(issues, HasBoardStatus()))| == |Filter(issues, HasBoardStatus())|;
  }

  /** Counting over a concatenation adds the counts of the two parts. */
  lemma {:induction false} CountAppend(s: seq<Issue>, t: seq<Issue>, p: Issue -> bool)
    ensures |Filter(s + t, p)| == |Filter(s, p)| + |Filter(t, p)|
  {
    FilterAppend(s, t, p);
  }

  /** The three priority counts add up to at most the number of issues. */
  lemma {:induction false} PriorityCountsBound(issues: seq<Issue>)
    ensures PriorityCount(issues, "LOW") + PriorityCount(issues, "MED") + PriorityCount(issues, "HIGH") <= |issues|
  {
    if issues != [] {
      var x := issues[0];
      var rest := issues[1..];
      assert issues == [x] + rest;
      PriorityCountsBound(rest);
      CountAppend([x], rest, HasPriority("LOW"));
      CountAppend([x], rest, HasPriority("MED"));
      CountAppend([x], rest, HasPriority("HIGH"));
    }
  }

  /**
   * The quick-stat boxes: Total is the number of issues, Completed the Done
   * slice, Pending the To Do slice plus the In Progress slice; nothing is
   * both completed and pending.
   */
  method Stats(issues: seq<Issue>) returns (stats: QuickStats)
    ensures stats.total == |issues|
    ensures stats.completed == StatusCount(issues, "DONE")
    ensures stats.pending == StatusCount(issues, "TODO") + StatusCount(issues, "IN_PROG")
    ensures stats.completed + stats.pending <= stats.total
  {
    var statusData := StatusData(issues);
    StatusCountsBound(issues);
    stats := QuickStats(|issues|, statusData[2].value, statusData[0].value + statusData[1].value);
  }
}
