/**
 The dashboard page as its code is written, where it departs from the
 library's `Project` type. The record `handleCreateProject` builds carries a
 `trades` list and no `subs`, and each list row reads `project.trades`, which
 the library's projects do not carry. Reading a property of `undefined`
 throws a TypeError, and with no error boundary the dashboard is replaced
 by the error screen; here that is the `TypeError` outcome. `Dashboard` models the evidently intended behaviour.
 */
module DashboardAsWritten {
  import opened Text
  import opened Seqs
  import opened Projects
  import opened Dashboard

  /** A value that was computed, or the TypeError thrown computing it. */
  datatype Outcome<T> = Computed(value: T) | TypeError

  /** A trade in the record the dashboard builds; only its task count is
      read. */
  datatype Trade = Trade(taskCount: nat)

  /** An entry of the dashboard's list as the running page holds it: a
      library project (the demo data or a loaded one), which has `subs` and
      no `trades`, or the record the form submission builds, which has
      `trades` and no `subs`. */
  datatype Entry =
    | Stored(project: Project)
    | Created(id: string, name: string, address: string, status: ProjectStatus,
              startDate: string, endDate: Option<string>, trades: seq<Trade>)
  {
    function Status(): ProjectStatus {
      match this
      case Stored(p) => p.status
      case Created(_, _, _, status, _, _, _) => status
    }
  }

  /** A list of library projects as entries. */
  function Entries(projects: seq<Project>): (r: seq<Entry>)
    ensures |r| == |projects|
    ensures forall k :: 0 <= k < |r| ==> r[k].Stored? && r[k].project == projects[k]
  {
    seq(|projects|, k requires 0 <= k < |projects| => Stored(projects[k]))
  }

  /** `getProjectPunchItems` on an entry: `project.subs.flatMap` throws on
      the created record, whose `subs` is undefined. */
  function EntryPunchItems(e: Entry): Outcome<seq<PunchItem>> {
    match e
    case Stored(p) => Computed(ProjectPunchItems(p))
    case Created(_, _, _, _, _, _, _) => TypeError
  }

  /** `allPunchItems` as written: the `flatMap` throws as soon as one
      entry's punch items throw, so it yields a list exactly when every
      entry is a library project. */
  function AllEntryPunchItems(entries: seq<Entry>): (r: Outcome<seq<PunchItem>>)
    ensures r.Computed? <==> forall k :: 0 <= k < |entries| ==> entries[k].Stored?
    decreases |entries|
  {
    if |entries| == 0 then Computed([])
    else
      assert forall k :: 0 < k < |entries| ==> entries[k] == entries[1..][k - 1];
      match (EntryPunchItems(entries[0]), AllEntryPunchItems(entries[1..]))
      case (Computed(a), Computed(b)) => Computed(a + b)
      case _ => TypeError
  }

  /** On library projects, the page as written collects the same items as
      the corrected `AllPunchItems`. */
  lemma {:induction false} AllEntryPunchItemsOfProjects(projects: seq<Project>)
    ensures AllEntryPunchItems(Entries(projects)) == Computed(AllPunchItems(projects))
    decreases |projects|
  {
    if |projects| > 0 {
      assert Entries(projects)[1..] == Entries(projects[1..]);
      AllEntryPunchItemsOfProjects(projects[1..]);
    }
  }

  /** The active count over entries; on library projects it is the
      corrected count. */
  lemma {:induction false} ActiveEntriesOfProjects(projects: seq<Project>)
    ensures |Filter(Entries(projects), (e: Entry) => e.Status() == Active)|
         == |Filter(projects, (p: Project) => p.status == Active)|
    decreases |projects|
  {
    if |projects| > 0 {
      assert Entries(projects)[1..] == Entries(projects[1..]);
      ActiveEntriesOfProjects(projects[1..]);
    }
  }

  /** The stat values as written: they are computed only when
      `allPunchItems` does not throw. Whether the page then shows them
      depends on its rows as well (see `RenderAsWritten`). */
  function StatsAsWritten(entries: seq<Entry>, today: string): (r: Outcome<Stats>)
    ensures r.Computed? <==> forall k :: 0 <= k < |entries| ==> entries[k].Stored?
    ensures r.Computed? ==> r.value.total == |entries|
  {
    match AllEntryPunchItems(entries)
    case TypeError => TypeError
    case Computed(items) =>
      Computed(Stats(
        |entries|,
        |Filter(entries, (e: Entry) => e.Status() == Active)|,
        |Filter(items, IsOpen)|,
        |Filter(items, (i: PunchItem) => IsOverdue(i, today))|))
  }

  /** `handleCreateProject` as written: a filled form puts in front a record
      with the fields of the corrected `NewProject` but with `trades: []` in
      place of its sub-trades. */
  function SubmitAsWritten(form: ProjectForm, now: nat, current: seq<Entry>): (r: seq<Entry>)
    ensures !PassesRequiredFields(form) ==> r == current
    ensures PassesRequiredFields(form) ==> |r| == |current| + 1 && r[1..] == current
    ensures PassesRequiredFields(form) ==>
      var p := NewProject(form, now);
      r[0] == Created(p.id, p.name, p.address, p.status, p.startDate, p.endDate, [])
  {
    if PassesRequiredFields(form) then
      var created := Created(DecimalString(now), Trim(form.name), Trim(form.address), form.status,
                             form.startDate, if form.endDate == "" then None else Some(form.endDate), []);
      assert ([created] + current)[1..] == current;
      [created] + current
    else
      current
  }

  /** Before a submission the stat values as written are the corrected
      ones; after one, computing them throws, whatever the list held. */
  lemma SubmissionBreaksStats(form: ProjectForm, now: nat, current: seq<Project>, today: string)
    requires PassesRequiredFields(form)
    ensures StatsAsWritten(Entries(current), today) == Computed(DashboardStats(current, today))
    ensures StatsAsWritten(SubmitAsWritten(form, now, Entries(current)), today) == TypeError
  {
    AllEntryPunchItemsOfProjects(current);
    ActiveEntriesOfProjects(current);
    var r := SubmitAsWritten(form, now, Entries(current));
    assert !r[0].Stored?;
  }

  /** The row counts at lines 143-144 as written: `project.trades.reduce`
      throws on a library project, which has no `trades`. On the created
      record that sum is 0, but `getProjectPunchItems` then throws, since the
      record has no `subs`. */
  function RowCountsAsWritten(e: Entry): (r: Outcome<RowCounts>)
    ensures r == TypeError
  {
    match e
    case Stored(_) => TypeError
    case Created(_, _, _, _, _, _, _) => EntryPunchItemsCount(e)
  }

  /** `getProjectPunchItems(project).length` on an entry. */
  function EntryPunchItemsCount(e: Entry): Outcome<RowCounts>
    requires e.Created?
  {
    match EntryPunchItems(e)
    case TypeError => TypeError
    case Computed(items) => Computed(RowCounts(|e.trades|, TaskTotal(e.trades), |items|))
  }

  /** `trades.reduce((count, trade) => count + trade.tasks.length, 0)`. */
  function TaskTotal(trades: seq<Trade>): nat
    decreases |trades|
  {
    if |trades| == 0 then 0 else trades[0].taskCount + TaskTotal(trades[1..])
  }

  /** The fields the filter reads (status, name, address) of an entry. */
  function AsProject(e: Entry): Project {
    match e
    case Stored(p) => p
    case Created(id, name, address, status, startDate, endDate, _) =>
      Project(id, name, address, status, startDate, endDate, [])
  }

  /** The entries listed as rows: those the filter shows, in order. None
      is listed exactly when the filter shows no entry. */
  function ShownEntries(entries: seq<Entry>, needle: string, filter: StatusFilter): (rows: seq<Entry>)
    ensures rows == [] <==> forall k :: 0 <= k < |entries| ==> !Shown(AsProject(entries[k]), needle, filter)
  {
    var keep := (e: Entry) => Shown(AsProject(e), needle, filter);
    var rows := Filter(entries, keep);
    assert forall k :: 0 <= k < |entries| && keep(entries[k]) ==> entries[k] in rows;
    assert rows != [] ==> exists k :: 0 <= k < |entries| && keep(entries[k]) by {
      if rows != [] {
        assert rows[0] in rows;
        var k :| 0 <= k < |entries| && entries[k] == rows[0];
        assert keep(entries[k]);
      }
    }
    rows
  }

  /** One render of the page as written. The cards (lines 93-108) and the
      rows (lines 142-168) are parts of one returned expression, so the page
      renders only when `allPunchItems` does not throw and no row is shown,
      since every row throws. */
  function RenderAsWritten(entries: seq<Entry>, searchText: string, filter: StatusFilter,
                           today: string): (r: Outcome<Stats>)
    ensures r.Computed? <==>
      && (forall k :: 0 <= k < |entries| ==> entries[k].Stored?)
      && (forall k :: 0 <= k < |entries| ==> !Shown(AsProject(entries[k]), Needle(searchText), filter))
    ensures r.Computed? ==> r == StatsAsWritten(entries, today)
  {
    match StatsAsWritten(entries, today)
    case TypeError => TypeError
    case Computed(stats) =>
      var rows := ShownEntries(entries, Needle(searchText), filter);
      if rows == [] then Computed(stats)
      else
        match RowCountsAsWritten(rows[0])
        case TypeError => TypeError
        case Computed(_) => Computed(stats)
  }

  /** The first render on the demo data, with "all" statuses and an empty
      search, throws: the page as written never shows the demo data. */
  lemma DemoFirstRenderThrows(today: string)
    ensures RenderAsWritten(Entries(DefaultProjects), "", All, today) == TypeError
  {
    ShownRowThrows(Entries(DefaultProjects), 0, "", All, today);
  }

  /** With "all" statuses and an empty search, any non-empty list throws. */
  lemma ShownRowThrows(entries: seq<Entry>, k: nat, searchText: string, filter: StatusFilter, today: string)
    requires k < |entries| && filter == All && searchText == ""
    ensures RenderAsWritten(entries, searchText, filter, today) == TypeError
  {
    assert Needle(searchText) == [];
    assert Shown(AsProject(entries[k]), Needle(searchText), filter);
  }

  /** From a page that renders (no stored projects), submitting a filled
      form makes the next render throw; the corrected page shows the new
      project instead. */
  lemma EmptyListSubmissionBreaksRender(form: ProjectForm, now: nat, searchText: string,
                                       filter: StatusFilter, today: string)
    requires PassesRequiredFields(form)
    ensures RenderAsWritten([], searchText, filter, today) == Computed(Stats(0, 0, 0, 0))
    ensures RenderAsWritten(SubmitAsWritten(form, now, []), searchText, filter, today) == TypeError
  {
    var none: seq<Entry> := [];
    assert Filter(none, (e: Entry) => e.Status() == Active) == [];
    var r := SubmitAsWritten(form, now, []);
    assert !r[0].Stored?;
  }

  /** On the demo data the first listed row already throws. */
  lemma DemoRowThrows()
    ensures RowCountsAsWritten(Entries(DefaultProjects)[0]) == TypeError
    ensures ProjectRowCounts(DefaultProjects[0]) == RowCounts(2, 2, 3)
  {
    DefaultProjectPunchItems();
    var subs := DefaultProjects[0].subs;
    assert ScopeCount(subs[1..][1..]) == 0;
  }
}
