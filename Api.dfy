/**
 * The pure request-shaping pieces of the browser's API client
 * (frontend/src/api.js): the issue record the client receives, CSRF token
 * extraction from the cookie string, the project key sent on creation,
 * the issue-list URL, and the bodies of the issue, status, order and
 * profile update requests. The HTTP calls themselves are not modelled.
 */
module Api {
  import opened Wrappers
  import opened Seqs
  import opened Text

  /** An issue as the client holds it (the fields the client logic reads). */
  datatype Issue = Issue(id: int, key: string, title: string, status: string, priority: string, order: int)

  /** Selects the issues whose status is exactly `st`. */
  function HasStatus(st: string): Issue -> bool
  {
    (i: Issue) => i.status == st
  }

  /** Selects the issues whose priority is exactly `p`. */
  function HasPriority(p: string): Issue -> bool
  {
    (i: Issue) => i.priority == p
  }

  /** Selects the issues whose status is one of the three board statuses. */
  function HasBoardStatus(): Issue -> bool
  {
    (i: Issue) => i.status == "TODO" || i.status == "IN_PROG" || i.status == "DONE"
  }

  function OrderOf(i: Issue): int
  {
    i.order
  }

  // ---------------------------------------------------------------- JSON

  /** The JSON values that appear in request bodies; a File is an object. */
  datatype Json = JNull | JBool(b: bool) | JNum(n: int) | JStr(s: string) | JFile(name: string)

  /** JavaScript truthiness. */
  predicate Truthy(v: Json)
  {
    match v
    case JNull => false
    case JBool(b) => b
    case JNum(n) => n != 0
    case JStr(s) => s != ""
    case JFile(_) => true
  }

  /** A value as a template literal writes it. */
  function Render(v: Json): string
  {
    match v
    case JNull => "null"
    case JBool(b) => if b then "true" else "false"
    case JNum(n) => IntToString(n)
    case JStr(s) => s
    case JFile(_) => "[object File]"
  }

  // ---------------------------------------------------------------- CSRF

  const CsrfPrefix: string := "csrftoken="

  /** `csrftoken=` occurs at `i` and is followed by a character other than `;`. */
  predicate TokenStartsAt(cookie: string, i: int)
  {
    && 0 <= i
    && i + |CsrfPrefix| < |cookie|
    && cookie[i..i + |CsrfPrefix|] == CsrfPrefix
    && cookie[i + |CsrfPrefix|] != ';'
  }

  /** `"csrftoken=" + t` occurs at `i` and `t` is a maximal non-empty run without `;`. */
  predicate TokenMatchAt(cookie: string, i: int, t: string)
  {
    && t != [] && ';' !in t
    && OccursAt(CsrfPrefix + t, cookie, i)
    && (i + |CsrfPrefix| + |t| == |cookie| || cookie[i + |CsrfPrefix| + |t|] == ';')
  }

  /** The longest prefix of `s` without `;` (the greedy `[^;]+`). */
  function TokenRun(s: string): (r: string)
    ensures |r| <= |s| && r == s[..|r|]
    ensures ';' !in r
    ensures |r| == |s| || s[|r|] == ';'
  {
    if s == [] || s[0] == ';' then []
    else [s[0]] + TokenRun(s[1..])
  }

  /** The leftmost position at or after `from` where a token starts. */
  function FirstTokenStart(cookie: string, from: nat): (r: Option<nat>)
    ensures r.Some? ==> from <= r.value && TokenStartsAt(cookie, r.value)
    ensures forall j :: from <= j < (if r.Some? then r.value else |cookie|) ==> !TokenStartsAt(cookie, j)
    decreases |cookie| - from
  {
    if from >= |cookie| then None
    else if TokenStartsAt(cookie, from) then Some(from)
    else FirstTokenStart(cookie, from + 1)
  }

  /** `document.cookie.match(/csrftoken=([^;]+)/)`, then the first group or null. */
  function CsrfToken(cookie: string): (token: Option<string>)
    ensures token.None? <==> forall j :: 0 <= j < |cookie| ==> !TokenStartsAt(cookie, j)
    ensures token.Some? ==>
      exists i :: TokenMatchAt(cookie, i, token.value) && forall j :: 0 <= j < i ==> !TokenStartsAt(cookie, j)
  {
    match FirstTokenStart(cookie, 0)
    case None => None
    case Some(i) =>
      var t := TokenRun(cookie[i + |CsrfPrefix|..]);
      assert TokenMatchAt(cookie, i, t) by {
        var rest := cookie[i + |CsrfPrefix|..];
        assert rest[0] != ';';
        assert cookie[i..i + |CsrfPrefix| + |t|] == cookie[i..i + |CsrfPrefix|] + rest[..|t|];
      }
      Some(t)
  }

  /** A cookie string that starts with the token cookie yields that token. */
  lemma CsrfTokenOfCookie(t: string, rest: string)
    requires t != [] && ';' !in t
    requires rest == [] || rest[0] == ';'
    ensures CsrfToken(CsrfPrefix + t + rest) == Some(t)
  {
    var cookie := CsrfPrefix + t + rest;
    assert cookie[..|CsrfPrefix|] == CsrfPrefix;
    assert cookie[|CsrfPrefix|..] == t + rest;
    assert TokenStartsAt(cookie, 0);
    TokenRunOf(t, rest);
  }

  lemma {:induction false} TokenRunOf(t: string, rest: string)
    requires ';' !in t
    requires rest == [] || rest[0] == ';'
    ensures TokenRun(t + rest) == t
  {
    if t != [] {
      assert (t + rest)[1..] == t[1..] + rest;
      TokenRunOf(t[1..], rest);
    }
  }

  // -------------------------------------------------------- project key

  /** The key `createProject` sends: `name.substring(0, 3).toUpperCase()`. */
  function ProjectKey(name: string): (key: string)
    ensures |key| == if |name| < 3 then |name| else 3
    ensures forall i :: 0 <= i < |key| ==> key[i] == UpperChar(name[i])
  {
    Upper(name[..if |name| < 3 then |name| else 3])
  }

  // ------------------------------------------------------ issue-list URL

  /** The URL `fetchIssues` requests; `projectId` is used only when truthy. */
  function IssuesUrl(projectId: Option<int>): (url: string)
  {
    match projectId
    case Some(id) => if id != 0 then "issues/?project=" + IntToString(id) else "issues/"
    case None => "issues/"
  }

  /** The unfiltered URL is used exactly when the project id is missing or 0. */
  lemma IssuesUrlFilters(projectId: Option<int>)
    ensures IssuesUrl(projectId) == "issues/" <==> projectId.None? || projectId.value == 0
  {
  }

  /** Distinct truthy project ids give distinct URLs. */
  lemma IssuesUrlInjective(a: int, b: int)
    requires a != 0 && b != 0
    requires IssuesUrl(Some(a)) == IssuesUrl(Some(b))
    ensures a == b
  {
    var p := "issues/?project=";
    assert (p + IntToString(a))[|p|..] == IntToString(a);
    assert (p + IntToString(b))[|p|..] == IntToString(b);
    IntToStringInjective(a, b);
  }

  // ------------------------------------------------------- order payload

  datatype OrderEntry = OrderEntry(id: int, order: int)

  function NumberFrom(issues: seq<Issue>, start: int): (entries: seq<OrderEntry>)
    ensures |entries| == |issues|
    ensures forall i :: 0 <= i < |issues| ==> entries[i] == OrderEntry(issues[i].id, start + i)
  {
    if issues == [] then []
    else [OrderEntry(issues[0].id, start)] + NumberFrom(issues[1..], start + 1)
  }

  /** The `{id, order}` list `updateIssueOrder` posts: each issue numbered by its index. */
  function OrderPayload(issues: seq<Issue>): (entries: seq<OrderEntry>)
    ensures |entries| == |issues|
    ensures forall i :: 0 <= i < |issues| ==> entries[i].id == issues[i].id && entries[i].order == i
  {
    NumberFrom(issues, 0)
  }

  // ------------------------------------------------- PATCH issue bodies

  /** A PATCH request: the path below the API root and the JSON body. */
  datatype Patch = Patch(path: string, body: map<string, Json>)

  /** `updateIssue({id, ...data})`: `id` goes to the path, everything else to the body. */
  function UpdateIssueRequest(fields: map<string, Json>): (req: Patch)
    ensures req.body.Keys == fields.Keys - {"id"}
    ensures forall k :: k in req.body ==> req.body[k] == fields[k]
    ensures "id" in fields ==> req.path == "issues/" + Render(fields["id"]) + "/"
    ensures "id" !in fields ==> req.path == "issues/undefined/"
  {
    var path := "issues/" + (if "id" in fields then Render(fields["id"]) else "undefined") + "/";
    Patch(path, fields - {"id"})
  }

  /** Nothing is lost: the body plus the id from the path is the caller's object. */
  lemma UpdateIssueKeepsFields(fields: map<string, Json>)
    requires "id" in fields
    ensures UpdateIssueRequest(fields).body["id" := fields["id"]] == fields
  {
  }

  /** `updateIssueStatus({id, status})`: a body holding only `status`. */
  function UpdateIssueStatusRequest(id: int, status: string): (req: Patch)
    ensures req.body.Keys == {"status"} && req.body["status"] == JStr(status)
  {
    Patch("issues/" + IntToString(id) + "/", map["status" := JStr(status)])
  }

  /** A status update is exactly the general update of an object with only `id` and `status`. */
  lemma StatusUpdateIsIssueUpdate(id: int, status: string)
    ensures UpdateIssueStatusRequest(id, status)
         == UpdateIssueRequest(map["id" := JNum(id), "status" := JStr(status)])
  {
    var fields := map["id" := JNum(id), "status" := JStr(status)];
    assert fields - {"id"} == map["status" := JStr(status)];
  }

  // ------------------------------------------------ profile form fields

  const ProfileFields: seq<string> := ["first_name", "last_name", "email", "avatar"]

  /** Whether `updateCurrentUser` appends field `f`: its value is present and truthy. */
  predicate Present(userData: map<string, Json>, f: string)
  {
    f in userData && Truthy(userData[f])
  }

  /** `Present` as a selector over field names. */
  function Appended(userData: map<string, Json>): string -> bool
  {
    f => Present(userData, f)
  }

  /**
   * The entries a form holds after `if (userData.f) formData.append('f', userData.f)`
   * for each field of `fields` in turn.
   */
  function FormFor(fields: seq<string>, userData: map<string, Json>): seq<(string, Json)>
  {
    if fields == [] then []
    else
      var f := fields[|fields| - 1];
      FormFor(fields[..|fields| - 1], userData) + (if Present(userData, f) then [(f, userData[f])] else [])
  }

  /**
   * `if (userData.f) formData.append('f', userData.f)` for the `k`-th
   * profile field.
   */
  method AppendIfTruthy(form: seq<(string, Json)>, userData: map<string, Json>, k: nat)
    returns (next: seq<(string, Json)>)
    requires k < |ProfileFields|
    requires form == FormFor(ProfileFields[..k], userData)
    ensures next == FormFor(ProfileFields[..k + 1], userData)
  {
    var f := ProfileFields[k];
    assert ProfileFields[..k + 1][..k] == ProfileFields[..k];
    if f in userData && Truthy(userData[f]) {
      next := form + [(f, userData[f])];
    } else {
      next := form;
    }
  }

  /** `new FormData()`: a form with no entries. */
  method NewFormData() returns (form: seq<(string, Json)>)
    ensures form == []
  {
    form := [];
  }

  /**
   * The FormData entries `updateCurrentUser` appends: for first_name,
   * last_name, email and avatar in turn, the field and its value when the
   * value is truthy.
   */
  method UpdateCurrentUserForm(userData: map<string, Json>) returns (form: seq<(string, Json)>)
    ensures form == FormFor(ProfileFields, userData)
  {
    form := NewFormData();
    assert ProfileFields[..0] == [];
    form := AppendIfTruthy(form, userData, 0);
    form := AppendIfTruthy(form, userData, 1);
    form := AppendIfTruthy(form, userData, 2);
    form := AppendIfTruthy(form, userData, 3);
    assert ProfileFields[..4] == ProfileFields;
  }

  /** The field names of a form, in order. */
  function Names(form: seq<(string, Json)>): (r: seq<string>)
    ensures |r| == |form|
  {
    if form == [] then [] else Names(form[..|form| - 1]) + [form[|form| - 1].0]
  }

  /** Every entry of the form is a listed field whose value is present and truthy, with that value. */
  lemma {:induction false} FormForEntries(fields: seq<string>, userData: map<string, Json>)
    ensures forall e :: e in FormFor(fields, userData) ==> e.0 in fields && Present(userData, e.0) && e.1 == userData[e.0]
  {
    if fields != [] {
      var init := fields[..|fields| - 1];
      FormForEntries(init, userData);
      assert forall g :: g in init ==> g in fields;
    }
  }

  /** Every listed field whose value is present and truthy is in the form, with its value. */
  lemma {:induction false} FormForComplete(fields: seq<string>, userData: map<string, Json>, f: string)
    requires f in fields && Present(userData, f)
    ensures (f, userData[f]) in FormFor(fields, userData)
  {
    var init := fields[..|fields| - 1];
    if f != fields[|fields| - 1] {
      assert fields == init + [fields[|fields| - 1]];
      FormForComplete(init, userData, f);
    }
  }

  /** The names of the form are the listed fields with truthy values, in list order. */
  lemma {:induction false} FormForNames(fields: seq<string>, userData: map<string, Json>)
    ensures Names(FormFor(fields, userData)) == Filter(fields, Appended(userData))
  {
    if fields != [] {
      var init := fields[..|fields| - 1];
      var f := fields[|fields| - 1];
      FormForNames(init, userData);
      assert fields == init + [f];
      FilterSnoc(init, f, Appended(userData));
      var form := FormFor(init, userData);
      if Present(userData, f) {
        var e := (f, userData[f]);
        assert FormFor(fields, userData) == form + [e];
        assert (form + [e])[..|form|] == form;
        assert Names(form + [e]) == Names(form) + [f];
      } else {
        assert FormFor(fields, userData) == form;
      }
    }
  }
}
