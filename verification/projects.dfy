/**
 The tracker's data model and the helpers its pages share: the
 Project -> SubTrade -> Scope -> PunchItem hierarchy, the built-in demo
 projects, the enum-to-label formatter, the overdue test on punch items, the
 flattening of a project's punch items, and loading and saving the project
 list in the browser's local storage.

 The current date, JSON serialisation and parsing, and the storage itself
 are parameters: `today` is what `new Date().toISOString().slice(0, 10)`
 yields, and the storage is absent when there is no `window`.
 */
module Projects {
  import opened Text

  datatype Option<T> = None | Some(value: T)

  datatype ProjectStatus = Active | Completed | OnHold
  {
    /** The string the source stores for this status. */
    function Name(): string {
      match this
      case Active => "active"
      case Completed => "completed"
      case OnHold => "on_hold"
    }
  }

  datatype PunchStatus = Open | InProgress | Resolved

  datatype PunchPriority = Low | Medium | High

  datatype PunchItem = PunchItem(
    id: string,
    description: string,
    status: PunchStatus,
    timestamp: string,
    photos: seq<string>,
    dueDate: Option<string>,
    assignee: Option<string>,
    priority: PunchPriority)

  datatype Scope = Scope(id: string, name: string, punchItems: seq<PunchItem>)

  datatype SubTrade = SubTrade(id: string, name: string, scopes: seq<Scope>)

  /** A project. `endDate` is not part of the library's project type; the
      dashboard attaches one to the projects it creates, and the demo
      projects have none. */
  datatype Project = Project(
    id: string,
    name: string,
    address: string,
    status: ProjectStatus,
    startDate: string,
    endDate: Option<string>,
    subs: seq<SubTrade>)

  /** The local-storage key that holds the serialised project list. */
  const StorageKey: string := "gc-tracker-projects"

  /** The built-in demo data. */
  const DefaultProjects: seq<Project> := [
    Project("1", "Riverside Office Renovation", "123 Main St, Austin, TX", Active, "2026-01-15", None, [
      SubTrade("s1", "Electrical", [
        Scope("sc1", "Lighting Fixtures", [
          PunchItem("p1", "Install pendant lights in lobby", Open, "2026-02-10T09:30:00", [],
                    Some("2026-02-16"), Some("Mike - Electric Co."), High),
          PunchItem("p2", "Replace switch in break room", Resolved, "2026-02-08T14:15:00", [],
                    Some("2026-02-12"), Some("Sara - Electric Co."), Medium)
        ])
      ]),
      SubTrade("s2", "Plumbing", [
        Scope("sc2", "Restroom Fixtures", [
          PunchItem("p3", "Fix leaky faucet in men's room", InProgress, "2026-02-11T10:00:00", [],
                    Some("2026-02-15"), Some("Allied Plumbing"), Medium)
        ])
      ])
    ]),
    Project("2", "Downtown Loft Build", "456 Congress Ave, Austin, TX", Active, "2026-02-01", None, []),
    Project("3", "Lake House Remodel", "789 Lakeview Dr, Lake Travis, TX", Completed, "2025-11-01", None, [])
  ]

  /* ---------------------------------------------------------------------- */
  /* formatLabel                                                            */
  /* ---------------------------------------------------------------------- */

  /** The index of the first `c` in `s`, or `|s|` when there is none. */
  function FirstIndexOf(s: string, c: char): (k: nat)
    ensures k <= |s|
    ensures k < |s| ==> s[k] == c
    ensures forall i :: 0 <= i < k ==> s[i] != c
    ensures k == |s| <==> c !in s
    decreases |s|
  {
    if |s| == 0 then 0
    else if s[0] == c then 0
    else
      assert forall x :: x in s <==> x == s[0] || x in s[1..];
      1 + FirstIndexOf(s[1..], c)
  }

  /** `value.replace("_", " ")`: a string pattern replaces only its first
      occurrence. */
  function ReplaceFirstUnderscore(value: string): string {
    var k := FirstIndexOf(value, '_');
    if k < |value| then value[k := ' '] else value
  }

  /** Position `i` of `s` matches `\b\w`: a word character that does not
      follow another word character. */
  predicate StartsWord(s: string, i: nat)
    requires i < |s|
  {
    IsWordChar(s[i]) && (i == 0 || !IsWordChar(s[i - 1]))
  }

  /** `s.replace(/\b\w/g, letter => letter.toUpperCase())`. */
  function CapitalizeWords(s: string): string {
    seq(|s|, i requires 0 <= i < |s| => if StartsWord(s, i) then UpperChar(s[i]) else s[i])
  }

  /** `shown` is the formatted `value`: it has the length of the value; the
      first underscore, and only that one, becomes a space; and apart from
      that the only characters that differ are lowercase letters, which
      become uppercase exactly when they begin a word once that space is in. */
  ghost predicate IsLabelFor(value: string, shown: string) {
    var k := FirstIndexOf(value, '_');
    && |shown| == |value|
    && (k < |value| ==> shown[k] == ' ')
    && (forall i :: 0 <= i < |value| && i != k ==>
          shown[i] == value[i] || (IsLowerAscii(value[i]) && shown[i] == UpperChar(value[i])))
    && (forall i {:trigger shown[i]} :: 0 <= i < |value| && i != k && IsLowerAscii(value[i]) ==>
          (shown[i] != value[i] <==> (i == 0 || i - 1 == k || !IsWordChar(value[i - 1]))))
  }

  /** `formatLabel`. */
  function FormatLabel(value: string): (r: string)
    ensures IsLabelFor(value, r)
  {
    FormatLabelIsLabel(value);
    CapitalizeWords(ReplaceFirstUnderscore(value))
  }

  lemma FormatLabelIsLabel(value: string)
    ensures IsLabelFor(value, CapitalizeWords(ReplaceFirstUnderscore(value)))
  {
    var k := FirstIndexOf(value, '_');
    var t := ReplaceFirstUnderscore(value);
    assert |t| == |value|;
    assert forall i :: 0 <= i < |value| && i != k ==> t[i] == value[i];
    assert k < |value| ==> t[k] == ' ';
  }

  /** A label is determined by its value: any two strings that are labels
      for the same value are equal, so `IsLabelFor` pins `formatLabel` down. */
  lemma LabelIsUnique(value: string, a: string, b: string)
    requires IsLabelFor(value, a) && IsLabelFor(value, b)
    ensures a == b
  {
    var k := FirstIndexOf(value, '_');
    forall i | 0 <= i < |value|
      ensures a[i] == b[i]
    {
      if i != k && IsLowerAscii(value[i]) {
        var starts := i == 0 || i - 1 == k || !IsWordChar(value[i - 1]);
        assert |a| == |value|;
        assert a[i] == value[i] || (IsLowerAscii(value[i]) && a[i] == UpperChar(value[i]));
        assert a[i] != value[i] <==> starts;
        assert b[i] != value[i] <==> starts;
      }
    }
  }

  /** Checks a `formatLabel` example in two steps: `t` is the value with its
      first underscore, at index 2, replaced, and `r` is `t` capitalised. */
  lemma FormatLabelSteps(v: string, t: string, r: string)
    requires |v| == |t| && 2 < |v| && v[..2] == t[..2] && v[2] == '_' && t[2] == ' '
    requires '_' !in v[..2] && v[3..] == t[3..]
    requires CapitalizeWords(t) == r
    ensures FormatLabel(v) == r
  {
    assert FirstIndexOf(v, '_') == 2 by {
      assert forall i :: 0 <= i < 2 ==> v[i] == v[..2][i];
    }
    assert ReplaceFirstUnderscore(v) == t by {
      forall i | 0 <= i < |v| ensures v[2 := ' '][i] == t[i] {
        if i < 2 {
          assert v[i] == v[..2][i] && t[i] == t[..2][i];
        } else if i > 2 {
          assert v[i] == v[3..][i - 3] && t[i] == t[3..][i - 3];
        }
      }
    }
  }

  /** Checks a `formatLabel` example without an underscore: only the
      capitalisation applies. */
  lemma FormatLabelPlain(v: string, r: string)
    requires '_' !in v
    requires CapitalizeWords(v) == r
    ensures FormatLabel(v) == r
  {
    assert FirstIndexOf(v, '_') == |v|;
  }

  lemma FormatLabelOnHold()
    ensures FormatLabel("on_hold") == "On Hold"
  {
    var r := CapitalizeWords("on hold");
    forall i | 0 <= i < 7 ensures r[i] == "On Hold"[i] {
    }
    FormatLabelSteps("on_hold", "on hold", "On Hold");
  }

  lemma FormatLabelInProgress()
    ensures FormatLabel("in_progress") == "In Progress"
  {
    var r := CapitalizeWords("in progress");
    forall i | 0 <= i < 11 ensures r[i] == "In Progress"[i] {
    }
    FormatLabelSteps("in_progress", "in progress", "In Progress");
  }

  /** Only the first underscore becomes a space, and the letter after the
      second one is not capitalised, because `_` is a word character. */
  lemma FormatLabelTwoUnderscores()
    ensures FormatLabel("in_progress_now") == "In Progress_now"
  {
    var r := CapitalizeWords("in progress_now");
    forall i | 0 <= i < 8 ensures r[i] == "In Progress_now"[i] {
    }
    forall i | 8 <= i < 15 ensures r[i] == "In Progress_now"[i] {
    }
    FormatLabelSteps("in_progress_now", "in progress_now", "In Progress_now");
  }

  /* ---------------------------------------------------------------------- */
  /* isOverdue                                                              */
  /* ---------------------------------------------------------------------- */

  /** `isOverdue`: an item with a non-empty due date that is not resolved is
      overdue when its due date sorts before `today`. */
  function IsOverdue(item: PunchItem, today: string): (r: bool)
    ensures item.dueDate.None? ==> !r
    ensures item.dueDate == Some("") ==> !r
    ensures item.status == Resolved ==> !r
    ensures item.dueDate.Some? && item.dueDate.value != "" && item.status != Resolved ==>
      (r <==> LexLess(item.dueDate.value, today))
  {
    match item.dueDate
    case None => false
    case Some(due) => due != "" && item.status != Resolved && LexLess(due, today)
  }

  /** For well-formed dates, overdue means unresolved and due on a calendar
      day strictly before today. */
  lemma OverdueMeansPastDue(item: PunchItem, today: string)
    requires item.dueDate.Some? && IsIsoDate(item.dueDate.value) && IsIsoDate(today)
    ensures IsOverdue(item, today) <==>
      item.status != Resolved && ChronologicallyBefore(item.dueDate.value, today)
  {
    IsoDateLexIsChronological(item.dueDate.value, today);
  }

  /** An item is never overdue on its own due date, and once overdue it
      stays overdue on every later day. */
  lemma OverdueIsMonotoneInToday(item: PunchItem, today: string, later: string)
    requires IsOverdue(item, today)
    requires today == later || LexLess(today, later)
    ensures IsOverdue(item, later)
    ensures !IsOverdue(item, item.dueDate.value)
  {
    if today != later {
      LexLessTransitive(item.dueDate.value, today, later);
    }
    LexLessIrreflexive(item.dueDate.value);
  }

  /* ---------------------------------------------------------------------- */
  /* getProjectPunchItems                                                   */
  /* ---------------------------------------------------------------------- */

  function ScopePunchItems(scopes: seq<Scope>): seq<PunchItem>
    decreases |scopes|
  {
    if |scopes| == 0 then [] else scopes[0].punchItems + ScopePunchItems(scopes[1..])
  }

  function SubPunchItems(subs: seq<SubTrade>): seq<PunchItem>
    decreases |subs|
  {
    if |subs| == 0 then [] else ScopePunchItems(subs[0].scopes) + SubPunchItems(subs[1..])
  }

  /** `getProjectPunchItems`: every punch item of every scope of every
      sub-trade, sub-trade by sub-trade and scope by scope. */
  function ProjectPunchItems(p: Project): (r: seq<PunchItem>)
    ensures p.subs == [] ==> r == []
  {
    SubPunchItems(p.subs)
  }

  lemma {:induction false} ScopePunchItemsAppend(a: seq<Scope>, b: seq<Scope>)
    ensures ScopePunchItems(a + b) == ScopePunchItems(a) + ScopePunchItems(b)
    decreases |a|
  {
    if |a| == 0 {
      assert a + b == b;
    } else {
      assert (a + b)[1..] == a[1..] + b;
      ScopePunchItemsAppend(a[1..], b);
    }
  }

  /** Flattening respects the order of the sub-trades: the items of the
      first sub-trades come first. */
  lemma {:induction false} SubPunchItemsAppend(a: seq<SubTrade>, b: seq<SubTrade>)
    ensures SubPunchItems(a + b) == SubPunchItems(a) + SubPunchItems(b)
    decreases |a|
  {
    if |a| == 0 {
      assert a + b == b;
    } else {
      assert (a + b)[1..] == a[1..] + b;
      SubPunchItemsAppend(a[1..], b);
    }
  }

  lemma {:induction false} ScopePunchItemsMembership(scopes: seq<Scope>, item: PunchItem)
    ensures item in ScopePunchItems(scopes) <==>
      exists c :: c in scopes && item in c.punchItems
    decreases |scopes|
  {
    if |scopes| > 0 {
      ScopePunchItemsMembership(scopes[1..], item);
      if item in scopes[0].punchItems {
        assert scopes[0] in scopes;
      }
      if exists c :: c in scopes[1..] && item in c.punchItems {
        var c :| c in scopes[1..] && item in c.punchItems;
        assert c in scopes;
      }
      if exists c :: c in scopes && item in c.punchItems {
        var c :| c in scopes && item in c.punchItems;
        if c != scopes[0] {
          assert c in scopes[1..];
        }
      }
    }
  }

  /** An item is listed for a project exactly when one of the project's
      scopes holds it: flattening neither drops nor invents items. */
  lemma {:induction false} ProjectPunchItemsMembership(p: Project, item: PunchItem)
    ensures item in ProjectPunchItems(p) <==>
      exists s, c :: s in p.subs && c in s.scopes && item in c.punchItems
  {
    SubPunchItemsMembership(p.subs, item);
  }

  lemma {:induction false} SubPunchItemsMembership(subs: seq<SubTrade>, item: PunchItem)
    ensures item in SubPunchItems(subs) <==>
      exists s, c :: s in subs && c in s.scopes && item in c.punchItems
    decreases |subs|
  {
    if |subs| > 0 {
      SubPunchItemsMembership(subs[1..], item);
      ScopePunchItemsMembership(subs[0].scopes, item);
      if item in ScopePunchItems(subs[0].scopes) {
        var c :| c in subs[0].scopes && item in c.punchItems;
        assert subs[0] in subs;
      }
      if exists s, c :: s in subs[1..] && c in s.scopes && item in c.punchItems {
        var s, c :| s in subs[1..] && c in s.scopes && item in c.punchItems;
        assert s in subs;
      }
      if exists s, c :: s in subs && c in s.scopes && item in c.punchItems {
        var s, c :| s in subs && c in s.scopes && item in c.punchItems;
        if s != subs[0] {
          assert s in subs[1..];
        }
      }
    }
  }

  /** The same flattening as an explicit double loop, accumulating each
      sub-trade's scopes in turn. */
  method CollectPunchItems(p: Project) returns (items: seq<PunchItem>)
    ensures items == ProjectPunchItems(p)
  {
    items := [];
    var i := 0;
    while i < |p.subs|
      invariant 0 <= i <= |p.subs|
      invariant items == SubPunchItems(p.subs[..i])
    {
      var scopes := p.subs[i].scopes;
      var inner := [];
      var j := 0;
      while j < |scopes|
        invariant 0 <= j <= |scopes|
        invariant inner == ScopePunchItems(scopes[..j])
      {
        ScopePunchItemsAppend(scopes[..j], [scopes[j]]);
        assert scopes[..j + 1] == scopes[..j] + [scopes[j]];
        inner := inner + scopes[j].punchItems;
        j := j + 1;
      }
      assert scopes[..j] == scopes;
      SubPunchItemsAppend(p.subs[..i], [p.subs[i]]);
      assert p.subs[..i + 1] == p.subs[..i] + [p.subs[i]];
      items := items + inner;
      i := i + 1;
    }
    assert p.subs[..i] == p.subs;
  }

  /** The number of a project's punch items, summed scope by scope over
      every sub-trade, is the length of the flattened list. */
  method CountPunchItems(p: Project) returns (n: nat)
    ensures n == |ProjectPunchItems(p)|
  {
    n := 0;
    var i := 0;
    while i < |p.subs|
      invariant 0 <= i <= |p.subs|
      invariant n == |SubPunchItems(p.subs[..i])|
    {
      var scopes := p.subs[i].scopes;
      var j := 0;
      var m := 0;
      while j < |scopes|
        invariant 0 <= j <= |scopes|
        invariant m == |ScopePunchItems(scopes[..j])|
      {
        ScopePunchItemsAppend(scopes[..j], [scopes[j]]);
        assert scopes[..j + 1] == scopes[..j] + [scopes[j]];
        m := m + |scopes[j].punchItems|;
        j := j + 1;
      }
      assert scopes[..j] == scopes;
      SubPunchItemsAppend(p.subs[..i], [p.subs[i]]);
      assert p.subs[..i + 1] == p.subs[..i] + [p.subs[i]];
      n := n + m;
      i := i + 1;
    }
    assert p.subs[..i] == p.subs;
  }

  /** The demo data: the first project lists its three items in order, and
      the other two have none. */
  lemma DefaultProjectPunchItems()
    ensures |ProjectPunchItems(DefaultProjects[0])| == 3
    ensures [ProjectPunchItems(DefaultProjects[0])[0].id,
             ProjectPunchItems(DefaultProjects[0])[1].id,
             ProjectPunchItems(DefaultProjects[0])[2].id] == ["p1", "p2", "p3"]
    ensures ProjectPunchItems(DefaultProjects[1]) == []
    ensures ProjectPunchItems(DefaultProjects[2]) == []
  {
    var subs := DefaultProjects[0].subs;
    assert SubPunchItems(subs[1..][1..]) == [];
    assert ScopePunchItems(subs[0].scopes[1..]) == [];
    assert ScopePunchItems(subs[1].scopes[1..]) == [];
  }

  /* ---------------------------------------------------------------------- */
  /* loadProjects / saveProjects                                            */
  /* ---------------------------------------------------------------------- */

  /** What `JSON.parse` does with the stored text: it throws, or yields a
      value that is not an array, or yields an array (taken, as the source
      casts it, to be an array of projects). */
  datatype ParseResult = Malformed | NotAnArray | ArrayValue(elements: seq<Project>)

  /** `window.localStorage`: string keys to string values. */
  type Storage = map<string, string>

  /** `loadProjects`. `window` is `None` outside a browser. */
  function LoadProjects(window: Option<Storage>, parse: string -> ParseResult): (r: seq<Project>)
    ensures window.None? ==> r == DefaultProjects
    ensures window.Some? && (StorageKey !in window.value || window.value[StorageKey] == "") ==>
      r == DefaultProjects
    ensures window.Some? && StorageKey in window.value && window.value[StorageKey] != "" ==>
      match parse(window.value[StorageKey])
      case ArrayValue(ps) => r == ps
      case _ => r == DefaultProjects
  {
    match window
    case None => DefaultProjects
    case Some(store) =>
      if StorageKey !in store || store[StorageKey] == "" then DefaultProjects
      else
        match parse(store[StorageKey])
        case ArrayValue(ps) => ps
        case _ => DefaultProjects
  }

  /** Loading looks at nothing but the project key. */
  lemma LoadReadsOnlyStorageKey(a: Storage, b: Storage, parse: string -> ParseResult)
    requires StorageKey in a <==> StorageKey in b
    requires StorageKey in a ==> a[StorageKey] == b[StorageKey]
    ensures LoadProjects(Some(a), parse) == LoadProjects(Some(b), parse)
  {
  }

  /** `saveProjects`: outside a browser nothing happens; otherwise the
      project key now holds the serialisation of the whole list and every
      other key is as it was. */
  function SaveProjects(window: Option<Storage>, projects: seq<Project>,
                        serialize: seq<Project> -> string): (r: Option<Storage>)
    ensures window.None? ==> r.None?
    ensures window.Some? ==> (r.Some? && StorageKey in r.value
      && r.value[StorageKey] == serialize(projects))
    ensures window.Some? ==> (r.Some? && r.value.Keys == window.value.Keys + {StorageKey})
    ensures window.Some? ==> (r.Some? &&
      forall k :: k in window.value && k != StorageKey ==> r.value[k] == window.value[k])
  {
    match window
    case None => None
    case Some(store) => Some(store[StorageKey := serialize(projects)])
  }

  /** What was saved is what is loaded next, provided serialisation is
      never empty (`JSON.stringify` of an array is at least "[]") and parsing
      undoes it. */
  lemma LoadAfterSave(store: Storage, projects: seq<Project>,
                      serialize: seq<Project> -> string, parse: string -> ParseResult)
    requires serialize(projects) != ""
    requires parse(serialize(projects)) == ArrayValue(projects)
    ensures LoadProjects(SaveProjects(Some(store), projects, serialize), parse) == projects
  {
  }

  /** Outside a browser a save changes nothing and a load always yields
      the demo data. */
  lemma NoWindowIgnoresSaves(projects: seq<Project>, serialize: seq<Project> -> string,
                             parse: string -> ParseResult)
    ensures LoadProjects(SaveProjects(None, projects, serialize), parse) == DefaultProjects
  {
  }
}
