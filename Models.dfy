/**
 * The backend's issue rules (backend/issues/models.py): the defaults of a
 * new issue, the per-project `key_id` numbering done when an issue is
 * saved, the `PROJ-12` issue key, and the profile every saved user gets.
 * The issue table is a map from primary key to row; the database's
 * unique (project, key_id) constraint is checked on save.
 */
module Models {
  import opened Wrappers
  import opened Text

  /** An issue row: the columns the rules here read or write. */
  datatype IssueRow = IssueRow(
    project: int,
    title: string,
    keyId: Option<int>,
    issueType: string,
    priority: string,
    status: string,
    order: int)

  /** What the database refuses. */
  datatype DbError = IntegrityError

  /** A new issue row with every defaulted column at its default and no key number yet. */
  function NewIssueRow(project: int, title: string): (r: IssueRow)
    ensures r.project == project && r.title == title
    ensures r.keyId == None
    ensures r.issueType == "TASK" && r.priority == "MED" && r.status == "TODO" && r.order == 0
  {
    IssueRow(project, title, None, "TASK", "MED", "TODO", 0)
  }

  // ------------------------------------------------------------ key_id

  /** The key numbers already used in `project` (rows without one are skipped, as MAX skips NULL). */
  ghost function KeyIds(rows: map<int, IssueRow>, project: int): set<int>
  {
    set q | q in rows && rows[q].project == project && rows[q].keyId.Some? :: rows[q].keyId.value
  }

  /**
   * `k` is what `(max_id or 0) + 1` gives: one more than the largest key
   * number in the project, or 1 when the project has none.
   */
  ghost predicate IsAllocated(rows: map<int, IssueRow>, project: int, k: int)
  {
    var ids := KeyIds(rows, project);
    if ids == {} then k == 1
    else k - 1 in ids && forall x :: x in ids ==> x <= k - 1
  }

  /** At most one number is the allocation for a project. */
  lemma AllocationUnique(rows: map<int, IssueRow>, project: int, k1: int, k2: int)
    requires IsAllocated(rows, project, k1) && IsAllocated(rows, project, k2)
    ensures k1 == k2
  {
    var ids := KeyIds(rows, project);
    if ids != {} {
      assert k1 - 1 <= k2 - 1 && k2 - 1 <= k1 - 1;
    }
  }

  /** The allocated number is above every key number in the project, so it clashes with none. */
  lemma AllocationIsFresh(rows: map<int, IssueRow>, project: int, k: int)
    requires IsAllocated(rows, project, k)
    ensures forall q :: q in rows && rows[q].project == project && rows[q].keyId.Some? ==> rows[q].keyId.value < k
  {
    forall q | q in rows && rows[q].project == project && rows[q].keyId.Some?
      ensures rows[q].keyId.value < k
    {
      assert rows[q].keyId.value in KeyIds(rows, project);
    }
  }

  /** Writing a row of another project leaves a project's key numbers, hence its next allocation, alone. */
  lemma AllocationIsLocal(rows: map<int, IssueRow>, pk: int, r: IssueRow, project: int)
    requires r.project != project
    requires pk in rows ==> rows[pk].project != project
    ensures KeyIds(rows[pk := r], project) == KeyIds(rows, project)
  {
    var after := rows[pk := r];
    forall x | x in KeyIds(after, project)
      ensures x in KeyIds(rows, project)
    {
      var q :| q in after && after[q].project == project && after[q].keyId.Some? && after[q].keyId.value == x;
      assert q != pk;
    }
    forall x | x in KeyIds(rows, project)
      ensures x in KeyIds(after, project)
    {
      var q :| q in rows && rows[q].project == project && rows[q].keyId.Some? && rows[q].keyId.value == x;
      assert q != pk && after[q] == rows[q];
    }
  }

  /**
   * Numbers go up one at a time: once a row takes the project's allocated
   * number, the project's next allocation is the one after it.
   */
  lemma AllocationAdvances(rows: map<int, IssueRow>, pk: int, r: IssueRow, k: int)
    requires IsAllocated(rows, r.project, k)
    requires r.keyId == Some(k)
    ensures IsAllocated(rows[pk := r], r.project, k + 1)
  {
    var after := rows[pk := r];
    var ids := KeyIds(after, r.project);
    assert after[pk] == r;
    assert r.keyId.value in ids;
    AllocationIsFresh(rows, r.project, k);
    forall x | x in ids
      ensures x <= k
    {
      var q :| q in after && after[q].project == r.project && after[q].keyId.Some? && after[q].keyId.value == x;
      if q != pk {
        assert rows[q] == after[q];
      }
    }
  }

  /** A non-empty set of primary keys has one to pick. */
  lemma HasElement(s: set<int>)
    requires s != {}
    ensures exists x :: x in s
  {
    if forall x :: x !in s {
      assert false;
    }
  }

  /** What the scan of all rows leaves in `maxId` gives the allocation. */
  lemma ScanAllocates(rows: map<int, IssueRow>, project: int, maxId: Option<int>)
    requires maxId.None? ==> forall q :: q in rows && rows[q].project == project ==> rows[q].keyId.None?
    requires maxId.Some? ==>
      && (exists q :: q in rows && rows[q].project == project && rows[q].keyId == maxId)
      && (forall q :: q in rows && rows[q].project == project && rows[q].keyId.Some? ==> rows[q].keyId.value <= maxId.value)
    ensures IsAllocated(rows, project, (if maxId.None? || maxId.value == 0 then 0 else maxId.value) + 1)
  {
    var ids := KeyIds(rows, project);
    if maxId.Some? {
      var q :| q in rows && rows[q].project == project && rows[q].keyId == maxId;
      assert maxId.value in ids;
      forall x | x in ids
        ensures x <= maxId.value
      {
        var p :| p in rows && rows[p].project == project && rows[p].keyId.Some? && rows[p].keyId.value == x;
      }
    } else if ids != {} {
      assert false;
    }
  }

  /** Another row than `pk` already has `r`'s project and key number. */
  predicate Clash(rows: map<int, IssueRow>, pk: int, r: IssueRow)
  {
    r.keyId.Some? && exists q :: q in rows && q != pk && rows[q].project == r.project && rows[q].keyId == r.keyId
  }

  /** unique_together (project, key_id); rows without a key number never collide. */
  ghost predicate UniqueKeyIds(rows: map<int, IssueRow>)
  {
    forall a, b :: a in rows && b in rows && a != b && rows[a].keyId.Some? && rows[a].project == rows[b].project
      ==> rows[a].keyId != rows[b].keyId
  }

  /** The issue table. */
  class IssueTable {
    var rows: map<int, IssueRow>

    /** The database's unique (project, key_id) constraint holds. */
    ghost predicate Valid()
      reads this
    {
      UniqueKeyIds(rows)
    }

    constructor ()
      ensures rows == map[] && Valid()
    {
      rows := map[];
    }

    /**
     * The `Max('key_id')` aggregate over the project's rows, then
     * `(max_id or 0) + 1`.
     */
    method NextKeyId(project: int) returns (k: int)
      ensures IsAllocated(rows, project, k)
    {
      var maxId: Option<int> := None;
      var todo := rows.Keys;
      ghost var seen: set<int> := {};
      while todo != {}
        invariant todo + seen == rows.Keys && todo !! seen
        invariant maxId.None? ==> forall q :: q in seen && rows[q].project == project ==> rows[q].keyId.None?
        invariant maxId.Some? ==>
          && (exists q :: q in seen && rows[q].project == project && rows[q].keyId == maxId)
          && (forall q :: q in seen && rows[q].project == project && rows[q].keyId.Some? ==> rows[q].keyId.value <= maxId.value)
        decreases |todo|
      {
        HasElement(todo);
        var next :| next in todo;
        var row := rows[next];
        if row.project == project && row.keyId.Some? {
          if maxId.None? || maxId.value < row.keyId.value {
            maxId := row.keyId;
          }
        }
        todo := todo - {next};
        seen := seen + {next};
      }
      // `max_id or 0`: a missing maximum and a maximum of 0 both read as 0.
      k := (if maxId.None? || maxId.value == 0 then 0 else maxId.value) + 1;

      ScanAllocates(rows, project, maxId);
    }

    /**
     * `Issue.save`: a row without a key number gets the project's next one;
     * one that has a number keeps it. The row is then written under `pk`
     * (insert or update), unless another row of the project already has
     * that number, in which case the database refuses and nothing is
     * written.
     */
    method Save(pk: int, row: IssueRow) returns (result: Result<IssueRow, DbError>)
      modifies this
      ensures row.keyId.Some? ==> (result.Err? <==> Clash(old(rows), pk, row))
      ensures row.keyId.Some? && result.Ok? ==> result.value == row
      ensures row.keyId.None? ==>
        && result.Ok?
        && result.value == row.(keyId := result.value.keyId)
        && result.value.keyId.Some?
        && IsAllocated(old(rows), row.project, result.value.keyId.value)
      ensures result.Ok? ==> rows == old(rows)[pk := result.value]
      ensures result.Err? ==> rows == old(rows)
      ensures old(Valid()) ==> Valid()
    {
      var saved := row;
      if row.keyId.None? {
        var k := NextKeyId(row.project);
        saved := row.(keyId := Some(k));
        AllocationIsFresh(rows, row.project, k);
      }
      if Clash(rows, pk, saved) {
        return Err(IntegrityError);
      }
      rows := rows[pk := saved];
      result := Ok(saved);
    }
  }

  // ------------------------------------------------------------ key

  /** Python's f-string rendering of an optional integer. */
  function KeyIdText(keyId: Option<int>): string
  {
    match keyId
    case None => "None"
    case Some(n) => IntToString(n)
  }

  /** The `key` property: the project's key, a dash, the key number. */
  function IssueKey(projectKey: string, keyId: Option<int>): (r: string)
    ensures |r| > |projectKey| + 1 && r[..|projectKey|] == projectKey && r[|projectKey|] == '-'
  {
    projectKey + "-" + KeyIdText(keyId)
  }

  /** The index of the last '-' in `s`, or -1. */
  function LastDash(s: string): (i: int)
    ensures -1 <= i < |s|
    ensures i >= 0 ==> s[i] == '-'
    ensures forall j :: i < j < |s| ==> s[j] != '-'
  {
    if s == [] then -1
    else if s[|s| - 1] == '-' then |s| - 1
    else LastDash(s[..|s| - 1])
  }

  /** Reads a key back: the text before its last dash and the number after it. */
  function SplitKey(key: string): Option<(string, int)>
  {
    var i := LastDash(key);
    if i < 0 then None else Some((key[..i], ParseInt(key[i + 1..])))
  }

  /** A key with a non-negative number reads back as its project key and number. */
  lemma KeyRoundTrip(projectKey: string, n: int)
    requires n >= 0
    ensures SplitKey(IssueKey(projectKey, Some(n))) == Some((projectKey, n))
  {
    var key := IssueKey(projectKey, Some(n));
    var digits := ToDigits(n, 10);
    assert key == projectKey + "-" + digits;
    DecimalDigitsNoMinus(n);
    forall j | |projectKey| < j < |key|
      ensures key[j] != '-'
    {
      assert key[j] == digits[j - |projectKey| - 1];
    }
    assert LastDash(key) == |projectKey| by {
      LastDashAt(key, |projectKey|);
    }
    assert key[|projectKey| + 1..] == digits;
    IntToStringRoundTrip(n);
  }

  lemma {:induction false} LastDashAt(s: string, i: int)
    requires 0 <= i < |s| && s[i] == '-'
    requires forall j :: i < j < |s| ==> s[j] != '-'
    ensures LastDash(s) == i
    decreases |s|
  {
    if i < |s| - 1 {
      LastDashAt(s[..|s| - 1], i);
    }
  }

  /** Within a project, distinct non-negative key numbers give distinct keys. */
  lemma KeysDistinct(projectKey: string, a: int, b: int)
    requires a >= 0 && b >= 0 && a != b
    ensures IssueKey(projectKey, Some(a)) != IssueKey(projectKey, Some(b))
  {
    KeyRoundTrip(projectKey, a);
    KeyRoundTrip(projectKey, b);
  }

  // ------------------------------------------------------------ profiles

  /** The users that have a profile (one profile per user). */
  class ProfileTable {
    var owners: set<int>

    constructor ()
      ensures owners == {}
    {
      owners := {};
    }

    /**
     * The two post_save receivers of User, in registration order. On a
     * user's first save a profile is created, which the database refuses
     * if one is somehow there already; on every save the profile is saved,
     * or created when missing.
     */
    method OnUserSaved(user: int, created: bool) returns (result: Result<(), DbError>)
      modifies this
      ensures result.Err? <==> created && user in old(owners)
      ensures result.Err? ==> owners == old(owners)
      ensures result.Ok? ==> owners == old(owners) + {user}
    {
      // create_user_profile
      if created {
        if user in owners {
          return Err(IntegrityError);
        }
        owners := owners + {user};
      }
      // save_user_profile
      if user !in owners {
        owners := owners + {user};
      }
      result := Ok(());
    }
  }
}
