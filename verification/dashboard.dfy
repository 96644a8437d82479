/**
 The dashboard page's view logic: the status and search filter over the
 project list, the four stat counts, and adding a project from the
 "New Project" form. The React state, the modal and the markup are not
 modelled; the clock reading used for the new project's id and the current
 date are parameters.
 */
module Dashboard {
  import opened Text
  import opened Seqs
  import opened Projects

  /** The status drop-down: "all" or one project status. */
  datatype StatusFilter = All | Only(status: ProjectStatus)

  /** The search text as it is compared: trimmed, then lowercased. */
  function Needle(searchText: string): string {
    ToLower(Trim(searchText))
  }

  predicate MatchesStatus(p: Project, filter: StatusFilter) {
    filter.All? || p.status == filter.status
  }

  predicate MatchesSearch(p: Project, needle: string) {
    |needle| == 0 || Includes(ToLower(p.name), needle) || Includes(ToLower(p.address), needle)
  }

  /** A project passes the status filter and the search for `needle`. */
  predicate Shown(p: Project, needle: string, filter: StatusFilter) {
    MatchesStatus(p, filter) && MatchesSearch(p, needle)
  }

  /** The filter callback applied to the whole list. */
  function ShownProjects(projects: seq<Project>, needle: string, filter: StatusFilter)
    : (r: seq<Project>)
    ensures IsSubsequence(r, projects)
    ensures forall p :: p in r <==> p in projects && Shown(p, needle, filter)
    ensures forall p :: multiset(r)[p] == if Shown(p, needle, filter) then multiset(projects)[p] else 0
  {
    Filter(projects, (p: Project) => Shown(p, needle, filter))
  }

  /** `filteredProjects`: the projects, in their order, whose status passes
      the filter and whose lowercased name or address contains the needle
      (every project does when the needle is empty). A shown project appears
      as often as it does in the list, so "Showing N of M" counts repeats. */
  function FilteredProjects(projects: seq<Project>, searchText: string, filter: StatusFilter)
    : (r: seq<Project>)
    ensures IsSubsequence(r, projects)
    ensures |r| <= |projects|
    ensures forall p :: p in r <==>
      && p in projects
      && (filter.All? || p.status == filter.status)
      && (|Needle(searchText)| == 0
          || IsSubstring(Needle(searchText), ToLower(p.name))
          || IsSubstring(Needle(searchText), ToLower(p.address)))
    ensures forall p :: (multiset(r)[p] ==
      if Shown(p, Needle(searchText), filter) then multiset(projects)[p] else 0)
  {
    var r := ShownProjects(projects, Needle(searchText), filter);
    SubsequenceLength(r, projects);
    r
  }

  /** With "all" statuses and nothing but whitespace typed, every project is
      shown, in order. */
  lemma ShowAllWhenBlank(projects: seq<Project>, searchText: string)
    requires AllWhitespace(searchText)
    ensures FilteredProjects(projects, searchText, All) == projects
  {
    assert Needle(searchText) == [];
    var needle := Needle(searchText);
    FilterKeepsAll(projects, (p: Project) => Shown(p, needle, All));
  }

  /** Searching is insensitive to surrounding whitespace and to the case
      of ASCII letters in the search text. */
  lemma SearchIgnoresPaddingAndCase(projects: seq<Project>, pre: string, text: string, post: string,
                                    filter: StatusFilter)
    requires AllWhitespace(pre) && AllWhitespace(post)
    requires text == [] || (!IsWhitespace(text[0]) && !IsWhitespace(text[|text| - 1]))
    ensures FilteredProjects(projects, pre + text + post, filter)
         == FilteredProjects(projects, ToLower(text), filter)
  {
    NeedleOfPadded(pre, text, post);
  }

  lemma NeedleOfPadded(pre: string, text: string, post: string)
    requires AllWhitespace(pre) && AllWhitespace(post)
    requires text == [] || (!IsWhitespace(text[0]) && !IsWhitespace(text[|text| - 1]))
    ensures Needle(pre + text + post) == Needle(ToLower(text))
  {
    TrimOfPadded(pre, text, post);
    LowerKeepsTrimmed(text);
    ToLowerIdempotent(text);
  }

  /** Lowercasing text that has no whitespace at its ends keeps it so, and
      trimming it then changes nothing. */
  lemma LowerKeepsTrimmed(text: string)
    requires text == [] || (!IsWhitespace(text[0]) && !IsWhitespace(text[|text| - 1]))
    ensures Trim(ToLower(text)) == ToLower(text)
  {
    var lower := ToLower(text);
    assert TrimStart(lower) == lower;
    assert TrimEnd(lower) == lower;
  }

  /** The badge on each listed project, `formatLabel(project.status)`,
      reads as the status drop-down's option for that status. */
  lemma StatusBadgeLabel(status: ProjectStatus)
    ensures FormatLabel(status.Name()) == match status
      case Active => "Active"
      case Completed => "Completed"
      case OnHold => "On Hold"
  {
    match status
    case Active =>
      var r := CapitalizeWords("active");
      forall i | 0 <= i < 6 ensures r[i] == "Active"[i] {
      }
      FormatLabelPlain("active", "Active");
    case Completed =>
      var r := CapitalizeWords("completed");
      forall i | 0 <= i < 9 ensures r[i] == "Completed"[i] {
      }
      FormatLabelPlain("completed", "Completed");
    case OnHold =>
      FormatLabelOnHold();
  }

  /* ---------------------------------------------------------------------- */
  /* Stat cards                                                             */
  /* ---------------------------------------------------------------------- */

  /** `allPunchItems`: the punch items of every project, project by project.
      An item is listed exactly when one of the projects lists it. */
  function AllPunchItems(projects: seq<Project>): (r: seq<PunchItem>)
    ensures forall item :: item in r <==>
      exists k :: 0 <= k < |projects| && item in ProjectPunchItems(projects[k])
    decreases |projects|
  {
    if |projects| == 0 then []
    else
      var rest := AllPunchItems(projects[1..]);
      assert forall k :: 0 < k < |projects| ==> projects[k] == projects[1..][k - 1];
      assert forall item :: item in rest ==>
        exists k :: 0 <= k < |projects| && item in ProjectPunchItems(projects[k]) by {
        forall item | item in rest
          ensures exists k :: 0 <= k < |projects| && item in ProjectPunchItems(projects[k])
        {
          var j :| 0 <= j < |projects[1..]| && item in ProjectPunchItems(projects[1..][j]);
          assert projects[j + 1] == projects[1..][j];
        }
      }
      ProjectPunchItems(projects[0]) + rest
  }

  /** The items of a concatenated list are the first list's items followed
      by the second's: adding projects at either end keeps the others' items
      in place. */
  lemma {:induction false} AllPunchItemsAppend(a: seq<Project>, b: seq<Project>)
    ensures AllPunchItems(a + b) == AllPunchItems(a) + AllPunchItems(b)
    decreases |a|
  {
    if |a| > 0 {
      assert (a + b)[0] == a[0];
      assert (a + b)[1..] == a[1..] + b;
      AllPunchItemsAppend(a[1..], b);
    } else {
      assert a + b == b;
    }
  }

  datatype Stats = Stats(total: nat, active: nat, open: nat, overdue: nat)

  predicate IsOpen(item: PunchItem) {
    item.status != Resolved
  }

  /** The four stat cards. No more projects are active than exist, and no
      more items are overdue than are open, since an overdue item is never
      resolved. */
  function DashboardStats(projects: seq<Project>, today: string): (s: Stats)
    ensures s.total == |projects|
    ensures s.active <= s.total
    ensures s.open <= |AllPunchItems(projects)|
    ensures s.overdue <= s.open
  {
    var items := AllPunchItems(projects);
    FilterStricter(items, (i: PunchItem) => IsOverdue(i, today), IsOpen);
    Stats(
      |projects|,
      |Filter(projects, (p: Project) => p.status == Active)|,
      |Filter(items, IsOpen)|,
      |Filter(items, (i: PunchItem) => IsOverdue(i, today))|)
  }

  /** The overdue items are exactly the open items that are overdue, in
      the same order. */
  lemma OverdueItemsAreOpenItems(projects: seq<Project>, today: string)
    ensures var items := AllPunchItems(projects);
      Filter(items, (i: PunchItem) => IsOverdue(i, today)) == Filter(Filter(items, IsOpen), (i: PunchItem) => IsOverdue(i, today))
  {
    FilterThenFilter(AllPunchItems(projects), today);
  }

  lemma {:induction false} FilterThenFilter(items: seq<PunchItem>, today: string)
    ensures Filter(items, (i: PunchItem) => IsOverdue(i, today))
         == Filter(Filter(items, IsOpen), (i: PunchItem) => IsOverdue(i, today))
    decreases |items|
  {
    if |items| > 0 {
      FilterThenFilter(items[1..], today);
      var open := Filter(items[1..], IsOpen);
      if IsOpen(items[0]) {
        assert Filter(items, IsOpen) == [items[0]] + open;
        assert ([items[0]] + open)[1..] == open;
      }
    }
  }

  /** On the demo data with today 2026-02-17, there are three projects, two
      active, two open items (p1 and p3) and both of them overdue. */
  lemma DefaultStatsExample()
    ensures DashboardStats(DefaultProjects, "2026-02-17") == Stats(3, 2, 2, 2)
  {
    var items := DefaultItems();
    DefaultItemCounts(items, "2026-02-17");
    DefaultActiveCount();
  }

  lemma DefaultItemCounts(items: seq<PunchItem>, today: string)
    requires |items| == 3
    requires items[0].status == Open && items[0].dueDate == Some("2026-02-16")
    requires items[1].status == Resolved
    requires items[2].status == InProgress && items[2].dueDate == Some("2026-02-15")
    requires today == "2026-02-17"
    ensures |Filter(items, IsOpen)| == 2
    ensures |Filter(items, (i: PunchItem) => IsOverdue(i, today))| == 2
  {
    assert LexLess("2026-02-16", today) && LexLess("2026-02-15", today);
    KeepsFirstAndLast(items, IsOpen);
    KeepsFirstAndLast(items, (i: PunchItem) => IsOverdue(i, today));
  }

  /** A filter that keeps the first and last of three elements and drops
      the middle one returns two. */
  lemma KeepsFirstAndLast<T(!new)>(items: seq<T>, keep: T -> bool)
    requires |items| == 3 && keep(items[0]) && !keep(items[1]) && keep(items[2])
    ensures |Filter(items, keep)| == 2
  {
    assert items[1..][1..][1..] == [];
    assert Filter(items[1..][1..], keep) == [items[2]];
  }

  lemma DefaultActiveCount()
    ensures |Filter(DefaultProjects, (p: Project) => p.status == Active)| == 2
  {
    var ps := DefaultProjects;
    var active := (p: Project) => p.status == Active;
    assert ps[1..][1..][1..] == [];
    assert Filter(ps[1..][1..], active) == [];
    assert Filter(ps[1..], active) == [ps[1]];
  }

  /** The demo data's punch items, as the dashboard collects them. */
  lemma DefaultItems() returns (items: seq<PunchItem>)
    ensures items == AllPunchItems(DefaultProjects) && |items| == 3
    ensures items[0].status == Open && items[0].dueDate == Some("2026-02-16")
    ensures items[1].status == Resolved
    ensures items[2].status == InProgress && items[2].dueDate == Some("2026-02-15")
  {
    DefaultProjectPunchItems();
    items := AllPunchItems(DefaultProjects);
    assert AllPunchItems(DefaultProjects[1..][1..][1..]) == [];
    assert items == ProjectPunchItems(DefaultProjects[0]);
    var subs := DefaultProjects[0].subs;
    assert SubPunchItems(subs[1..][1..]) == [];
    assert ScopePunchItems(subs[0].scopes[1..]) == [];
    assert ScopePunchItems(subs[1].scopes[1..]) == [];
  }

  /* ---------------------------------------------------------------------- */
  /* Row counts                                                             */
  /* ---------------------------------------------------------------------- */

  /** The counts under each listed project: trades, tasks and punch items. */
  datatype RowCounts = RowCounts(trades: nat, tasks: nat, punches: nat)

  /** The scopes of a list of sub-trades. The sum is zero exactly when no
      sub-trade has a scope, and then no sub-trade has a punch item. */
  function ScopeCount(subs: seq<SubTrade>): (n: nat)
    ensures n == 0 <==> forall s :: s in subs ==> s.scopes == []
    ensures n == 0 ==> SubPunchItems(subs) == []
    decreases |subs|
  {
    if |subs| == 0 then 0
    else
      assert forall s :: s in subs <==> s == subs[0] || s in subs[1..];
      |subs[0].scopes| + ScopeCount(subs[1..])
  }

  /** The row counts read from the library's own hierarchy: one trade per
      sub-trade (the library's flattening calls each sub-trade a trade), one
      task per scope, and the flattened punch items. The counts nest: a
      project without trades has no tasks, and one without tasks has no
      punch items. */
  function ProjectRowCounts(p: Project): (c: RowCounts)
    ensures c.trades == |p.subs|
    ensures c.punches == |ProjectPunchItems(p)|
    ensures c.tasks == 0 <==> forall s :: s in p.subs ==> s.scopes == []
    ensures c.trades == 0 ==> c.tasks == 0
    ensures c.tasks == 0 ==> c.punches == 0
  {
    RowCounts(|p.subs|, ScopeCount(p.subs), |ProjectPunchItems(p)|)
  }

  /** The task count as `reduce` accumulates it, sub-trade by sub-trade. */
  method CountTasks(p: Project) returns (n: nat)
    ensures n == ProjectRowCounts(p).tasks
  {
    n := 0;
    var i := 0;
    while i < |p.subs|
      invariant 0 <= i <= |p.subs|
      invariant n + ScopeCount(p.subs[i..]) == ScopeCount(p.subs)
    {
      assert p.subs[i..][1..] == p.subs[i + 1..];
      n := n + |p.subs[i].scopes|;
      i := i + 1;
    }
  }

  /* ---------------------------------------------------------------------- */
  /* New Project                                                            */
  /* ---------------------------------------------------------------------- */

  /** The fields of the "New Project" form. */
  datatype ProjectForm = ProjectForm(
    name: string,
    address: string,
    status: ProjectStatus,
    startDate: string,
    endDate: string)

  /** The form's `required` inputs (name, address, start date) stop the
      browser from submitting while any of them is empty. Whitespace is not
      empty, so a name of only spaces passes and becomes "" once trimmed. */
  predicate PassesRequiredFields(form: ProjectForm) {
    form.name != "" && form.address != "" && form.startDate != ""
  }

  /** The project `handleCreateProject` builds. Its id is the clock reading
      `now` in decimal; name and address are trimmed; an empty end date is
      left out; and it has no sub-trades, hence no punch items. */
  function NewProject(form: ProjectForm, now: nat): (p: Project)
    ensures AllDigits(p.id) && DecimalValue(p.id) == now
    ensures p.name == Trim(form.name) && p.address == Trim(form.address)
    ensures p.status == form.status && p.startDate == form.startDate
    ensures p.endDate.Some? <==> form.endDate != ""
    ensures p.endDate.Some? ==> p.endDate.value == form.endDate
    ensures ProjectPunchItems(p) == []
  {
    Project(
      DecimalString(now),
      Trim(form.name),
      Trim(form.address),
      form.status,
      form.startDate,
      if form.endDate == "" then None else Some(form.endDate),
      [])
  }

  /** A new project's row reads 0 trades, 0 tasks and 0 punch items. */
  lemma NewProjectRowCounts(form: ProjectForm, now: nat)
    ensures ProjectRowCounts(NewProject(form, now)) == RowCounts(0, 0, 0)
  {
  }

  /** Submitting the form: when the required fields are filled, the new
      project goes in front and the existing ones follow unchanged and in
      order; otherwise the list is untouched. */
  function SubmitNewProject(form: ProjectForm, now: nat, current: seq<Project>): (r: seq<Project>)
    ensures PassesRequiredFields(form) <==> |r| == |current| + 1
    ensures !PassesRequiredFields(form) ==> r == current
    ensures PassesRequiredFields(form) ==> r[0] == NewProject(form, now) && r[1..] == current
  {
    if PassesRequiredFields(form) then
      var r := [NewProject(form, now)] + current;
      assert r[1..] == current;
      r
    else
      current
  }

  /** Adding a project raises the total by one and the active count by one
      exactly when the new project is active, and leaves the open and
      overdue counts as they were. */
  lemma SubmitUpdatesStats(form: ProjectForm, now: nat, current: seq<Project>, today: string)
    requires PassesRequiredFields(form)
    ensures var before := DashboardStats(current, today);
      var after := DashboardStats(SubmitNewProject(form, now, current), today);
      && after.total == before.total + 1
      && after.active == before.active + (if form.status == Active then 1 else 0)
      && after.open == before.open
      && after.overdue == before.overdue
  {
    var r := SubmitNewProject(form, now, current);
    assert r == [r[0]] + current;
    assert r[1..] == current;
    assert AllPunchItems(r) == AllPunchItems(current);
  }

  /** With "all" statuses and a blank search, the new project is shown
      first. */
  lemma NewProjectShownFirst(form: ProjectForm, now: nat, current: seq<Project>, searchText: string)
    requires PassesRequiredFields(form) && AllWhitespace(searchText)
    ensures var r := SubmitNewProject(form, now, current);
      FilteredProjects(r, searchText, All)[0] == NewProject(form, now)
  {
    ShowAllWhenBlank(SubmitNewProject(form, now, current), searchText);
  }

  /** The list the dashboard saves after a submission is the list it loads
      on the next visit, given that parsing undoes serialising. */
  lemma SubmissionSurvivesReload(form: ProjectForm, now: nat, current: seq<Project>, store: Storage,
                                 serialize: seq<Project> -> string, parse: string -> ParseResult)
    requires var r := SubmitNewProject(form, now, current);
      serialize(r) != "" && parse(serialize(r)) == ArrayValue(r)
    ensures var r := SubmitNewProject(form, now, current);
      LoadProjects(SaveProjects(Some(store), r, serialize), parse) == r
  {
    LoadAfterSave(store, SubmitNewProject(form, now, current), serialize, parse);
  }
}
