/** The logic of the administrator's dashboard: the status filter, the status
    and department statistics, the status labels and notices, the rule that
    enables the two status buttons, and the component's own state. */
module AdminDashboard {
  import opened Options
  import opened Seqs
  import opened JsArray
  import opened JsString
  import opened JsObject
  import opened Complaints

  // ---------------------------------------------------------------------------
  // The status filter

  /** The value of the status filter: every complaint, or one status. */
  datatype Selector = All | Only(status: Status)

  /** The `value` of the select item that chooses `sel`. */
  function SelectorValue(sel: Selector): string {
    match sel
    case All => "all"
    case Only(s) => StatusValue(s)
  }

  /** The selector a select item's value stands for; no other string stands
      for one. */
  function SelectorOf(value: string): (r: Option<Selector>)
    ensures r.Some? ==> SelectorValue(r.value) == value
    ensures r.None? ==> forall sel :: SelectorValue(sel) != value
  {
    if value == "all" then Some(All)
    else if value == "pending" then Some(Only(Pending))
    else if value == "in-progress" then Some(Only(InProgress))
    else if value == "resolved" then Some(Only(Resolved))
    else None
  }

  /** Every selector is chosen by its own item's value. */
  lemma SelectorRoundTrip(sel: Selector)
    ensures SelectorOf(SelectorValue(sel)) == Some(sel)
  {
    match sel
    case All =>
    case Only(s) =>
      assert StatusValue(s) != "all";
  }

  /** The list's predicate: a complaint is shown when the selector is `all`
      or names its status. */
  function Shown(sel: Selector): Complaint -> bool {
    (c: Complaint) => sel == All || c.status == sel.status
  }

  /** `filteredComplaints`: the complaints the list shows under `sel`. */
  function FilteredComplaints(complaints: seq<Complaint>, sel: Selector): (r: seq<Complaint>)
    ensures |r| <= |complaints|
    ensures forall k :: 0 <= k < |r| ==> r[k] in complaints && (sel == All || r[k].status == sel.status)
  {
    Filter(complaints, Shown(sel))
  }

  /** Under `all` the list is shown unchanged. */
  lemma FilterAllShowsEverything(complaints: seq<Complaint>)
    ensures FilteredComplaints(complaints, All) == complaints
  {
    FilterKeepsAll(complaints, Shown(All));
  }

  /** Under one status the list shows the complaints at exactly the positions
      holding that status, in their original order, and nothing else. */
  lemma FilterByStatusIsExact(complaints: seq<Complaint>, s: Status) returns (f: seq<nat>)
    ensures |f| == |FilteredComplaints(complaints, Only(s))|
    ensures forall k :: 0 <= k < |f| ==>
      f[k] < |complaints| && FilteredComplaints(complaints, Only(s))[k] == complaints[f[k]]
    ensures forall k, l :: 0 <= k < l < |f| ==> f[k] < f[l]
    ensures forall i :: 0 <= i < |complaints| ==> (complaints[i].status == s <==> i in f)
  {
    f := FilterPositions(complaints, Shown(Only(s)));
  }

  /** A complaint is shown under a status exactly when it is in the list and
      has that status. */
  lemma FilterByStatusMembership(complaints: seq<Complaint>, s: Status, c: Complaint)
    ensures c in FilteredComplaints(complaints, Only(s)) <==> c in complaints && c.status == s
  {
    FilterMembership(complaints, Shown(Only(s)), c);
  }

  /** The "No complaints found" message appears exactly when no complaint of
      the list passes the filter. */
  lemma NoComplaintsFound(complaints: seq<Complaint>, sel: Selector)
    ensures |FilteredComplaints(complaints, sel)| == 0 <==>
      forall i :: 0 <= i < |complaints| ==> !(sel == All || complaints[i].status == sel.status)
  {
    if forall i :: 0 <= i < |complaints| ==> !(sel == All || complaints[i].status == sel.status) {
      FilterKeepsNone(complaints, Shown(sel));
    } else {
      var i :| 0 <= i < |complaints| && (sel == All || complaints[i].status == sel.status);
      FilterMembership(complaints, Shown(sel), complaints[i]);
    }
  }

  /** Filtering the shown list again changes nothing. */
  lemma FilterIdempotent(complaints: seq<Complaint>, sel: Selector)
    ensures FilteredComplaints(FilteredComplaints(complaints, sel), sel) == FilteredComplaints(complaints, sel)
  {
    FilterKeepsAll(FilteredComplaints(complaints, sel), Shown(sel));
  }

  // ---------------------------------------------------------------------------
  // Status statistics

  /** The predicate of each status count: the complaint has status `s`. */
  function HasStatus(s: Status): Complaint -> bool {
    (c: Complaint) => c.status == s
  }

  /** The four figures of the statistics cards. */
  datatype StatusStats = StatusStats(total: nat, pending: nat, inProgress: nat, resolved: nat)

  /** Each count's predicate keeps what the list filter keeps for that status. */
  lemma CountMatchesFilter(complaints: seq<Complaint>, s: Status)
    ensures Filter(complaints, HasStatus(s)) == FilteredComplaints(complaints, Only(s))
  {
    FilterAgree(complaints, HasStatus(s), Shown(Only(s)));
  }

  /** Every complaint has exactly one of the three statuses. */
  lemma {:induction false} StatusPartition(complaints: seq<Complaint>)
    ensures |Filter(complaints, HasStatus(Pending))| + |Filter(complaints, HasStatus(InProgress))|
            + |Filter(complaints, HasStatus(Resolved))| == |complaints|
    decreases |complaints|
  {
    if complaints != [] {
      var init := complaints[..|complaints| - 1];
      assert complaints == init + [complaints[|complaints| - 1]];
      StatusPartition(init);
    }
  }

  /** `getStatusStats()`: the total and the count per status, over the whole
      list whatever the filter; the counts add up to the total and each is
      what the list shows under that status. */
  function GetStatusStats(complaints: seq<Complaint>): (stats: StatusStats)
    ensures stats.total == |complaints|
    ensures stats.pending + stats.inProgress + stats.resolved == stats.total
    ensures stats.pending == |FilteredComplaints(complaints, Only(Pending))|
    ensures stats.inProgress == |FilteredComplaints(complaints, Only(InProgress))|
    ensures stats.resolved == |FilteredComplaints(complaints, Only(Resolved))|
  {
    StatusPartition(complaints);
    CountMatchesFilter(complaints, Pending);
    CountMatchesFilter(complaints, InProgress);
    CountMatchesFilter(complaints, Resolved);
    StatusStats(
      |complaints|,
      |Filter(complaints, HasStatus(Pending))|,
      |Filter(complaints, HasStatus(InProgress))|,
      |Filter(complaints, HasStatus(Resolved))|)
  }

  // ---------------------------------------------------------------------------
  // Department statistics

  /** The complaints of one department. */
  function InDepartment(d: string): Complaint -> bool {
    (c: Complaint) => c.department == d
  }

  /** The department of each complaint, in list order. */
  function DepartmentsOf(complaints: seq<Complaint>): (ds: seq<string>)
    ensures |ds| == |complaints|
    ensures forall i :: 0 <= i < |ds| ==> ds[i] == complaints[i].department
    decreases |complaints|
  {
    if complaints == [] then []
    else
      var init := complaints[..|complaints| - 1];
      DepartmentsOf(init) + [complaints[|complaints| - 1].department]
  }

  /** One step of the department loop: the entry of `d`, taken as zero when
      missing, goes up by one. */
  function CountOne(departments: Dict, d: string): (r: Dict)
    requires departments.Valid()
    ensures r.Valid()
  {
    departments.Put(d, departments.Get(d).GetOr(0) + 1)
  }

  /** The object `departments` once the `forEach` has visited `complaints`. */
  function Tally(complaints: seq<Complaint>): (d: Dict)
    ensures d.Valid()
    decreases |complaints|
  {
    if complaints == [] then Empty()
    else CountOne(Tally(complaints[..|complaints| - 1]), complaints[|complaints| - 1].department)
  }

  /** The tally holds, for every name, the number of complaints of that
      department (no entry counting as zero). */
  lemma {:induction false} TallyCount(complaints: seq<Complaint>, d: string)
    ensures Tally(complaints).Get(d).GetOr(0) == |Filter(complaints, InDepartment(d))|
    decreases |complaints|
  {
    if complaints != [] {
      var init, last := complaints[..|complaints| - 1], complaints[|complaints| - 1];
      var before := Tally(init);
      TallyCount(init, d);
      assert Tally(complaints) == CountOne(before, last.department);
      assert Filter(complaints, InDepartment(d))
        == Filter(init, InDepartment(d)) + (if last.department == d then [last] else []);
    }
  }

  /** Counting a complaint of department `x` creates `x` and no other key. */
  lemma CountOneKeys(departments: Dict, x: string, d: string)
    requires departments.Valid()
    ensures d in CountOne(departments, x).values <==> d in departments.values || d == x
  {
  }

  /** The tally holds a key exactly for the departments that occur. */
  lemma {:induction false} TallyKeys(complaints: seq<Complaint>, d: string)
    ensures d in Tally(complaints).values <==> d in DepartmentsOf(complaints)
    decreases |complaints|
  {
    if complaints != [] {
      var init, last := complaints[..|complaints| - 1], complaints[|complaints| - 1];
      TallyKeys(init, d);
      CountOneKeys(Tally(init), last.department, d);
      assert DepartmentsOf(complaints) == DepartmentsOf(init) + [last.department];
    }
  }

  /** A stored count is the number of complaints of that department, and at
      least one. */
  lemma TallyEntry(complaints: seq<Complaint>, d: string)
    requires d in Tally(complaints).values
    ensures Tally(complaints).values[d] == |Filter(complaints, InDepartment(d))|
    ensures Tally(complaints).values[d] >= 1
  {
    TallyCount(complaints, d);
    TallyKeys(complaints, d);
    var k :| 0 <= k < |complaints| && DepartmentsOf(complaints)[k] == d;
    FilterMembership(complaints, InDepartment(d), complaints[k]);
  }

  /** Counting one complaint adds one to the total. */
  lemma CountOneTotal(departments: Dict, d: string)
    requires departments.Valid()
    ensures CountOne(departments, d).Total() == departments.Total() + 1
  {
    var v := departments.Get(d).GetOr(0) + 1;
    assert CountOne(departments, d) == departments.Put(d, v);
    PutTotal(departments, d, v);
  }

  /** The counts of the tally add up to the number of complaints. */
  lemma {:induction false} TallyTotal(complaints: seq<Complaint>)
    ensures Tally(complaints).Total() == |complaints|
    decreases |complaints|
  {
    if complaints != [] {
      var init, last := complaints[..|complaints| - 1], complaints[|complaints| - 1];
      TallyTotal(init);
      CountOneTotal(Tally(init), last.department);
    }
  }

  /** `keys` are names that occur in `ds`, listed in the order of their first
      occurrence there. */
  ghost predicate InFirstSeenOrder<T>(keys: seq<T>, ds: seq<T>) {
    && (forall k :: k in keys ==> k in ds)
    && (forall i, j :: 0 <= i < j < |keys| ==> IndexOf(ds, keys[i]) < IndexOf(ds, keys[j]))
  }

  /** Seeing `x` once more keeps the order; seeing it for the first time puts
      it last. */
  lemma FirstSeenAppend<T>(keys: seq<T>, ds: seq<T>, x: T)
    requires InFirstSeenOrder(keys, ds)
    requires x in keys <==> x in ds
    ensures InFirstSeenOrder(if x in keys then keys else keys + [x], ds + [x])
  {
    forall k | k in ds ensures IndexOf(ds + [x], k) == IndexOf(ds, k) {
      IndexOfAppend(ds, [x], k);
    }
    if x !in keys {
      IndexOfAppended(ds, x);
      var after := keys + [x];
      assert forall i :: 0 <= i < |keys| ==> after[i] == keys[i] && keys[i] in ds;
    }
  }

  /** Counting one more complaint of department `x` keeps the created keys in
      first-seen order. */
  lemma CountOneKeepsOrder(before: Dict, ds: seq<string>, x: string)
    requires before.Valid()
    requires forall k :: k in before.values <==> k in ds
    requires InFirstSeenOrder(before.created, ds)
    ensures InFirstSeenOrder(CountOne(before, x).created, ds + [x])
  {
    assert CountOne(before, x).created == if x in before.created then before.created else before.created + [x];
    FirstSeenAppend(before.created, ds, x);
  }

  /** The tally's keys are the departments that occur, created in the order in
      which each department first occurs in the list. */
  lemma {:induction false} TallyOrder(complaints: seq<Complaint>)
    ensures InFirstSeenOrder(Tally(complaints).created, DepartmentsOf(complaints))
    decreases |complaints|
  {
    if complaints != [] {
      var init, last := complaints[..|complaints| - 1], complaints[|complaints| - 1];
      assert complaints == init + [last];
      TallyOrder(init);
      forall k ensures k in Tally(init).values <==> k in DepartmentsOf(init) {
        TallyKeys(init, k);
      }
      CountOneKeepsOrder(Tally(init), DepartmentsOf(init), last.department);
    }
  }

  /** `{ name, count }`, one per department. */
  datatype DepartmentCount = DepartmentCount(name: string, count: nat)

  /** Each entry of the object, a name with its count, becomes one
      `DepartmentCount` record, in entry order. */
  function ToDepartmentCounts(entries: seq<(string, nat)>): (r: seq<DepartmentCount>)
    ensures |r| == |entries|
    ensures forall i :: 0 <= i < |r| ==> r[i].name == entries[i].0 && r[i].count == entries[i].1
    ensures TotalCount(r) == ValueSum(entries)
  {
    if entries == [] then []
    else [DepartmentCount(entries[0].0, entries[0].1)] + ToDepartmentCounts(entries[1..])
  }

  /** The sum of the listed counts. */
  function TotalCount(stats: seq<DepartmentCount>): nat {
    if stats == [] then 0 else stats[0].count + TotalCount(stats[1..])
  }

  /** The listed names. */
  function Names(stats: seq<DepartmentCount>): (names: seq<string>)
    ensures |names| == |stats|
    ensures forall i :: 0 <= i < |stats| ==> names[i] == stats[i].name
  {
    if stats == [] then [] else [stats[0].name] + Names(stats[1..])
  }

  /** What `getDepartmentStats()` returns for `complaints`. */
  function DepartmentBreakdown(complaints: seq<Complaint>): seq<DepartmentCount> {
    ToDepartmentCounts(Tally(complaints).Entries())
  }

  /** Converting key-value pairs lists the keys in the same order, each
      with its value. */
  lemma PairCounts(es: seq<(string, nat)>, keys: seq<string>, values: map<string, nat>)
    requires |es| == |keys|
    requires forall i :: 0 <= i < |es| ==> es[i].0 == keys[i] && es[i].0 in values && es[i].1 == values[es[i].0]
    ensures var r := ToDepartmentCounts(es);
      && Names(r) == keys
      && forall i :: 0 <= i < |r| ==> r[i].name in values && r[i].count == values[r[i].name]
  {
    var r := ToDepartmentCounts(es);
    forall i | 0 <= i < |r| ensures Names(r)[i] == keys[i] {
      assert Names(r)[i] == r[i].name == es[i].0;
    }
  }

  /** Converting the entries of an object lists its keys in `Object.entries`
      order, each with its value. */
  lemma EntryCounts(departments: Dict)
    requires departments.Valid()
    ensures var r := ToDepartmentCounts(departments.Entries());
      && Names(r) == departments.OwnKeys()
      && forall i :: 0 <= i < |r| ==> r[i].name in departments.values && r[i].count == departments.values[r[i].name]
  {
    PairCounts(departments.Entries(), departments.OwnKeys(), departments.values);
  }

  /** The names listed are the tally's keys in `Object.entries` order. */
  lemma BreakdownNames(complaints: seq<Complaint>)
    ensures var r, tally := DepartmentBreakdown(complaints), Tally(complaints);
      && Names(r) == tally.OwnKeys()
      && forall i :: 0 <= i < |r| ==> r[i].name in tally.values && r[i].count == tally.values[r[i].name]
  {
    EntryCounts(Tally(complaints));
  }

  /** Each listed count is the number of complaints of that department, and
      at least one. */
  lemma BreakdownCounts(complaints: seq<Complaint>)
    ensures var r := DepartmentBreakdown(complaints);
      forall i :: 0 <= i < |r| ==> r[i].count == |Filter(complaints, InDepartment(r[i].name))| && r[i].count >= 1
  {
    var r := DepartmentBreakdown(complaints);
    BreakdownNames(complaints);
    forall i | 0 <= i < |r|
      ensures r[i].count == |Filter(complaints, InDepartment(r[i].name))| && r[i].count >= 1
    {
      TallyEntry(complaints, r[i].name);
    }
  }

  /** Each department is listed at most once, and a name is listed exactly
      when some complaint has that department. */
  lemma BreakdownListsEachDepartmentOnce(complaints: seq<Complaint>)
    ensures Distinct(Names(DepartmentBreakdown(complaints)))
    ensures forall d :: d in Names(DepartmentBreakdown(complaints)) <==> d in DepartmentsOf(complaints)
  {
    var tally := Tally(complaints);
    var names := Names(DepartmentBreakdown(complaints));
    BreakdownNames(complaints);
    forall d ensures d in names <==> d in DepartmentsOf(complaints) {
      TallyKeys(complaints, d);
      assert d in names <==> d in multiset(tally.created);
    }
  }

  /** The listed counts add up to the number of complaints. */
  lemma BreakdownTotal(complaints: seq<Complaint>)
    ensures TotalCount(DepartmentBreakdown(complaints)) == |complaints|
  {
    var tally := Tally(complaints);
    EntriesTotal(tally);
    TallyTotal(complaints);
  }

  /** Department names that are array indices are listed first, by ascending
      value. */
  lemma BreakdownIndicesFirst(complaints: seq<Complaint>)
    ensures var names := Names(DepartmentBreakdown(complaints));
      forall i, j :: 0 <= i < j < |names| && IsArrayIndex(names[j]) ==>
        IsArrayIndex(names[i]) && DecimalValue(names[i]) <= DecimalValue(names[j])
  {
    BreakdownNames(complaints);
    IndicesFirst(Tally(complaints));
  }

  /** Keeping only some keys keeps them in first-seen order. */
  lemma FilteredFirstSeenOrder(keys: seq<string>, ds: seq<string>, p: string -> bool)
    requires InFirstSeenOrder(keys, ds)
    ensures InFirstSeenOrder(Filter(keys, p), ds)
  {
    var kept := Filter(keys, p);
    var f := FilterPositions(keys, p);
    forall i, j | 0 <= i < j < |kept| ensures IndexOf(ds, kept[i]) < IndexOf(ds, kept[j]) {
      assert kept[i] == keys[f[i]] && kept[j] == keys[f[j]];
    }
  }

  /** Every other department name is listed in the order in which its
      department first occurs in the complaint list. */
  lemma BreakdownFirstSeenOrder(complaints: seq<Complaint>)
    ensures InFirstSeenOrder(Filter(Names(DepartmentBreakdown(complaints)), IsNamedKey), DepartmentsOf(complaints))
  {
    var tally := Tally(complaints);
    BreakdownNames(complaints);
    NamedKeysKeepCreationOrder(tally);
    TallyOrder(complaints);
    FilteredFirstSeenOrder(tally.created, DepartmentsOf(complaints), IsNamedKey);
  }

  /** Keys drawn from a list of named keys are all kept by the named-key filter. */
  lemma NamedKeysKept(keys: seq<string>, ds: seq<string>)
    requires forall d :: d in ds ==> IsNamedKey(d)
    requires forall k :: k in keys ==> k in ds
    ensures Filter(keys, IsNamedKey) == keys
  {
    FilterKeepsAll(keys, IsNamedKey);
  }

  /** When no department name is an array index, the list follows the order
      in which departments first occur. */
  lemma BreakdownWithoutIndexNames(complaints: seq<Complaint>)
    requires forall i :: 0 <= i < |complaints| ==> IsNamedKey(complaints[i].department)
    ensures InFirstSeenOrder(Names(DepartmentBreakdown(complaints)), DepartmentsOf(complaints))
  {
    var names := Names(DepartmentBreakdown(complaints));
    var ds := DepartmentsOf(complaints);
    BreakdownListsEachDepartmentOnce(complaints);
    NamedKeysKept(names, ds);
    BreakdownFirstSeenOrder(complaints);
  }

  /** One more step of the `forEach`. */
  lemma TallyStep(complaints: seq<Complaint>, i: nat)
    requires i < |complaints|
    ensures Tally(complaints[..i + 1]) == CountOne(Tally(complaints[..i]), complaints[i].department)
  {
    assert complaints[..i + 1] == complaints[..i] + [complaints[i]];
    TallySnoc(complaints[..i], complaints[i]);
  }

  /** The `forEach` loop of `getDepartmentStats()`: each complaint adds one
      to its department's entry, creating the entry on first sight. */
  method CountDepartments(complaints: seq<Complaint>) returns (departments: Dict)
    ensures departments == Tally(complaints)
  {
    departments := Empty();
    var i := 0;
    while i < |complaints|
      invariant 0 <= i <= |complaints|
      invariant departments == Tally(complaints[..i])
    {
      var department := complaints[i].department;
      TallyStep(complaints, i);
      departments := departments.Put(department, departments.Get(department).GetOr(0) + 1);
      i := i + 1;
    }
    assert complaints[..i] == complaints;
  }

  /** `getDepartmentStats()`: the entries of the counted `departments` object
      as name/count pairs. */
  method DepartmentStats(complaints: seq<Complaint>) returns (stats: seq<DepartmentCount>)
    ensures stats == DepartmentBreakdown(complaints)
    ensures TotalCount(stats) == |complaints|
    ensures forall i :: 0 <= i < |stats| ==> stats[i].count == |Filter(complaints, InDepartment(stats[i].name))|
  {
    var departments := CountDepartments(complaints);
    stats := ToDepartmentCounts(departments.Entries());
    BreakdownTotal(complaints);
    BreakdownCounts(complaints);
  }

  // ---------------------------------------------------------------------------
  // Status labels and the notice after an update

  /** The status as the badge and the notice show it: the stored value with
      its first hyphen replaced by a space. */
  function StatusLabel(s: Status): string {
    ReplaceFirst(StatusValue(s), '-', ' ')
  }

  /** "pending" has no hyphen and is shown as it is. */
  lemma PendingLabel()
    ensures StatusLabel(Pending) == "pending"
  {
    assert '-' !in "pending";
  }

  /** "resolved" has no hyphen and is shown as it is. */
  lemma ResolvedLabel()
    ensures StatusLabel(Resolved) == "resolved"
  {
    assert '-' !in "resolved";
  }

  /** The value "in-progress" split around its hyphen. */
  lemma HyphenReplaced(v: string)
    requires v == "in" + ['-'] + "progress"
    ensures ReplaceFirst(v, '-', ' ') == "in" + [' '] + "progress"
  {
    ReplaceFirstAt("in", "progress", '-', ' ');
  }

  /** The hyphen of "in-progress" becomes a space: the label is "in progress". */
  lemma InProgressLabel()
    ensures StatusLabel(InProgress) == "in" + [' '] + "progress"
  {
    assert StatusValue(InProgress) == "in" + ['-'] + "progress";
    HyphenReplaced(StatusValue(InProgress));
  }

  /** Different statuses get different labels. */
  lemma StatusLabelInjective(s: Status, t: Status)
    ensures StatusLabel(s) == StatusLabel(t) ==> s == t
  {
    PendingLabel();
    InProgressLabel();
    ResolvedLabel();
  }

  /** A toast: its title and its description. */
  datatype Notice = Notice(title: string, description: string)

  /** The toast shown after a status update. */
  function StatusUpdatedNotice(newStatus: Status): Notice {
    Notice("Status Updated", "Complaint status changed to " + StatusLabel(newStatus) + ".")
  }

  /** Marking a complaint in progress announces "in progress", with a space. */
  lemma InProgressNotice()
    ensures StatusUpdatedNotice(InProgress).description
      == "Complaint status changed to " + ("in" + [' '] + "progress") + "."
  {
    InProgressLabel();
  }

  /** Different statuses give different notices. */
  lemma NoticeInjective(s: Status, t: Status)
    ensures StatusUpdatedNotice(s) == StatusUpdatedNotice(t) ==> s == t
  {
    if StatusUpdatedNotice(s) == StatusUpdatedNotice(t) {
      var prefix := "Complaint status changed to ";
      var a, b := StatusLabel(s), StatusLabel(t);
      var x, y := prefix + a + ".", prefix + b + ".";
      assert x == y;
      assert a == x[|prefix|..|x| - 1];
      assert b == y[|prefix|..|y| - 1];
      StatusLabelInjective(s, t);
    }
  }

  // ---------------------------------------------------------------------------
  // The status buttons

  /** The two buttons on each complaint card. */
  datatype StatusAction = MarkInProgress | MarkResolved

  /** The status a button asks for; no button asks for pending. */
  function Target(a: StatusAction): (s: Status)
    ensures s != Pending
  {
    match a
    case MarkInProgress => InProgress
    case MarkResolved => Resolved
  }

  /** A button is disabled when the complaint already has its target status. */
  predicate Disabled(c: Complaint, a: StatusAction) {
    c.status == Target(a)
  }

  /** The buttons a complaint card offers: "Mark In Progress" unless the
      complaint is in progress, "Mark Resolved" unless it is resolved. */
  function EnabledActions(c: Complaint): (acts: set<StatusAction>)
    ensures MarkInProgress in acts <==> c.status != InProgress
    ensures MarkResolved in acts <==> c.status != Resolved
    ensures forall a :: a in acts <==> !Disabled(c, a)
  {
    (if c.status != InProgress then {MarkInProgress} else {})
    + (if c.status != Resolved then {MarkResolved} else {})
  }

  /** The status changes the dashboard offers, as a table: from pending to
      either other status, and between in-progress and resolved; none back to
      pending and none that keeps the status. */
  predicate Transition(from: Status, to: Status) {
    match from
    case Pending => to == InProgress || to == Resolved
    case InProgress => to == Resolved
    case Resolved => to == InProgress
  }

  /** An enabled button leads exactly along the transition table. */
  lemma ButtonsFollowTransitions(c: Complaint, to: Status)
    ensures (exists a :: a in EnabledActions(c) && Target(a) == to) <==> Transition(c.status, to)
  {
    if Transition(c.status, to) {
      var a := if to == InProgress then MarkInProgress else MarkResolved;
      assert a in EnabledActions(c) && Target(a) == to;
    }
  }

  // ---------------------------------------------------------------------------
  // The component's state

  /** The dashboard's state: the cached complaint list, the selected filter,
      and the notices shown so far. */
  class Dashboard {
    var complaints: seq<Complaint>
    var filter: Selector
    var notices: seq<Notice>

    /** The initial state: no complaints yet, filter `all`. */
    constructor ()
      ensures complaints == [] && filter == All && notices == []
    {
      complaints := [];
      filter := All;
      notices := [];
    }

    /** The effect run on mount: `setComplaints(getComplaints())`, where
        `fetched` is what the store returns. */
    method Mount(fetched: seq<Complaint>)
      modifies this
      ensures complaints == fetched
      ensures filter == old(filter) && notices == old(notices)
    {
      complaints := fetched;
    }

    /** `setFilter`, on a choice in the status select. */
    method SetFilter(sel: Selector)
      modifies this
      ensures filter == sel
      ensures complaints == old(complaints) && notices == old(notices)
    {
      filter := sel;
    }

    /** `handleStatusUpdate`: the store is asked to set `newStatus` on the
        complaint `complaintId`, the list is fetched again (`refetched`), and a
        notice names the new status. The filter stays as it was. */
    method HandleStatusUpdate(complaintId: string, newStatus: Status, refetched: seq<Complaint>)
      modifies this
      ensures complaints == refetched
      ensures notices == old(notices) + [StatusUpdatedNotice(newStatus)]
      ensures filter == old(filter)
    {
      complaints := refetched;
      notices := notices + [StatusUpdatedNotice(newStatus)];
    }

    /** A click on button `a` of complaint `c`'s card: a disabled button does
        nothing, an enabled one runs the update to its target status. */
    method Press(c: Complaint, a: StatusAction, refetched: seq<Complaint>)
      modifies this
      ensures Disabled(c, a) ==> complaints == old(complaints) && notices == old(notices) && filter == old(filter)
      ensures !Disabled(c, a) ==>
        && complaints == refetched
        && notices == old(notices) + [StatusUpdatedNotice(Target(a))]
        && filter == old(filter)
    {
      if !Disabled(c, a) {
        HandleStatusUpdate(c.id, Target(a), refetched);
      }
    }

    /** The complaints the list shows. */
    function Visible(): (r: seq<Complaint>)
      reads this
      ensures filter == All ==> r == complaints
      ensures forall k :: 0 <= k < |r| ==> r[k] in complaints && (filter == All || r[k].status == filter.status)
    {
      FilterAllShowsEverything(complaints);
      FilteredComplaints(complaints, filter)
    }

    /** The statistics cards: computed from the whole list, not the shown one. */
    function Stats(): (stats: StatusStats)
      reads this
      ensures stats.total == |complaints|
      ensures stats.pending + stats.inProgress + stats.resolved == stats.total
    {
      GetStatusStats(complaints)
    }

    /** The department breakdown: computed from the whole list, not the shown
        one. */
    function Departments(): (stats: seq<DepartmentCount>)
      reads this
      ensures TotalCount(stats) == |complaints|
      ensures forall i :: 0 <= i < |stats| ==> stats[i].count == |Filter(complaints, InDepartment(stats[i].name))|
    {
      BreakdownTotal(complaints);
      BreakdownCounts(complaints);
      DepartmentBreakdown(complaints)
    }
  }

  // ---------------------------------------------------------------------------
  // A worked case

  /** The tally of a list whose last complaint is `last`. */
  lemma TallySnoc(init: seq<Complaint>, last: Complaint)
    ensures Tally(init + [last]) == CountOne(Tally(init), last.department)
  {
    assert (init + [last])[..|init|] == init;
  }

  /** Counting one complaint creates its department's key, holding one. */
  lemma OneDepartmentTally(first: Complaint)
    ensures Tally([first]) == Dict(map[first.department := 1], [first.department])
  {
    TallySnoc([], first);
    assert [] + [first] == [first];
  }

  /** Counting a pair of complaints counts the second after the first. */
  lemma TallyPair(first: Complaint, second: Complaint)
    ensures Tally([first, second]) == CountOne(Tally([first]), second.department)
  {
    assert [first, second][..1] == [first];
  }

  /** Counting a second, different name in `{x: 1}` gives `{x: 1, y: 1}`. */
  lemma CountSecondKey(x: string, y: string)
    requires x != y
    ensures Dict(map[x := 1], [x]).Valid()
    ensures CountOne(Dict(map[x := 1], [x]), y) == Dict(map[x := 1, y := 1], [x, y])
  {
    assert [x] + [y] == [x, y];
  }

  /** Counting two complaints of different departments creates one key per
      department, in list order, each holding one. */
  lemma TwoDepartmentsTally(first: Complaint, second: Complaint)
    requires first.department != second.department
    ensures Tally([first, second])
      == Dict(map[first.department := 1, second.department := 1], [first.department, second.department])
  {
    TallyPair(first, second);
    OneDepartmentTally(first);
    CountSecondKey(first.department, second.department);
  }

  /** The object `{x: 1, y: 1}` with two named keys lists its keys in
      creation order. */
  lemma TwoKeys(tally: Dict, x: string, y: string)
    requires x != y && IsNamedKey(x) && IsNamedKey(y)
    requires tally == Dict(map[x := 1, y := 1], [x, y])
    ensures tally.Valid() && tally.OwnKeys() == [x, y]
  {
    OwnKeysWithoutIndices(tally);
  }

  /** ... and lists each key with its value. */
  lemma TwoEntries(tally: Dict, x: string, y: string)
    requires tally.Valid() && tally.OwnKeys() == [x, y]
    requires x in tally.values && y in tally.values && tally.values[x] == 1 && tally.values[y] == 1
    ensures tally.Entries() == [(x, 1), (y, 1)]
  {
  }

  /** `Object.entries({x: 1, y: 1})` with two named keys. */
  lemma NamedPairEntries(tally: Dict, x: string, y: string)
    requires x != y && IsNamedKey(x) && IsNamedKey(y)
    requires tally == Dict(map[x := 1, y := 1], [x, y])
    ensures tally.Valid() && tally.Entries() == [(x, 1), (y, 1)]
  {
    TwoKeys(tally, x, y);
    TwoEntries(tally, x, y);
  }

  /** The entries of the tally of two complaints of different departments,
      neither named like an array index. */
  lemma TwoDepartmentsEntries(first: Complaint, second: Complaint)
    requires first.department != second.department
    requires IsNamedKey(first.department) && IsNamedKey(second.department)
    ensures Tally([first, second]).Entries() == [(first.department, 1), (second.department, 1)]
  {
    var x, y := first.department, second.department;
    TwoDepartmentsTally(first, second);
    NamedPairEntries(Dict(map[x := 1, y := 1], [x, y]), x, y);
  }

  /** Converting two entries. */
  lemma TwoCounts(x: string, y: string)
    ensures ToDepartmentCounts([(x, 1), (y, 1)]) == [DepartmentCount(x, 1), DepartmentCount(y, 1)]
  {
    var es: seq<(string, nat)> := [(x, 1), (y, 1)];
    assert es[1..] == [(y, 1)];
  }

  /** Two complaints of different departments, neither named like an array
      index, are listed in list order with one complaint each. */
  lemma TwoDepartments(first: Complaint, second: Complaint)
    requires first.department != second.department
    requires IsNamedKey(first.department) && IsNamedKey(second.department)
    ensures DepartmentBreakdown([first, second])
      == [DepartmentCount(first.department, 1), DepartmentCount(second.department, 1)]
  {
    TwoDepartmentsEntries(first, second);
    TwoCounts(first.department, second.department);
  }

  /** A pending and a resolved complaint: the pending filter shows the first,
      and the cards read 2, 1, 0, 1. */
  lemma PendingThenResolved(first: Complaint, second: Complaint)
    requires first.status == Pending && second.status == Resolved
    ensures FilteredComplaints([first, second], Only(Pending)) == [first]
    ensures GetStatusStats([first, second]) == StatusStats(2, 1, 0, 1)
  {
    FilterPair(first, second, Shown(Only(Pending)));
    FilterPair(first, second, HasStatus(InProgress));
  }

  /** Complaint 1 pending for Roads and complaint 2 resolved for Water: the
      pending filter shows the first, the cards read 2, 1, 0, 1, and the
      breakdown lists Roads then Water with one complaint each. */
  lemma RoadsAndWater(roads: Complaint, water: Complaint)
    requires roads.department == "Roads" && roads.status == Pending
    requires water.department == "Water" && water.status == Resolved
    ensures FilteredComplaints([roads, water], Only(Pending)) == [roads]
    ensures GetStatusStats([roads, water]) == StatusStats(2, 1, 0, 1)
    ensures DepartmentBreakdown([roads, water]) == [DepartmentCount("Roads", 1), DepartmentCount("Water", 1)]
  {
    PendingThenResolved(roads, water);
    assert IsNamedKey(roads.department) by {
      assert !IsDigit(roads.department[0]);
    }
    assert IsNamedKey(water.department) by {
      assert !IsDigit(water.department[0]);
    }
    assert roads.department != water.department by {
      assert roads.department[0] != water.department[0];
    }
    TwoDepartments(roads, water);
  }
}
