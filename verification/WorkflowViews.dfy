/** The two views of pending work: the counters of stats, and the pages of list. */
module WorkflowViews {
  import opened Text

  datatype Tx = Tx(id: string, referenceNumber: string, status: string)
  datatype Outlet = Outlet(id: string, name: string, status: string)
  datatype Agent = Agent(id: string, name: string, isApproved: bool)

  /** The four tables, newest row first, which is the order list asks for. */
  datatype Tables = Tables(transactions: seq<Tx>, franchises: seq<Outlet>, branches: seq<Outlet>, agents: seq<Agent>)

  datatype Counters = Counters(pending: nat, completed: nat, rejected: nat)

  function Count<T>(p: T -> bool, rows: seq<T>): nat {
    if rows == [] then 0 else (if p(rows[0]) then 1 else 0) + Count(p, rows[1..])
  }

  function Filter<T>(p: T -> bool, rows: seq<T>): seq<T> {
    if rows == [] then [] else (if p(rows[0]) then [rows[0]] else []) + Filter(p, rows[1..])
  }

  function Stats(t: Tables): Counters {
    var txPending := Count((x: Tx) => x.status == "ADMIN_APPROVAL_PENDING", t.transactions);
    var txCompleted := Count((x: Tx) => x.status == "APPROVED" || x.status == "COMPLETED", t.transactions);
    var txRejected := Count((x: Tx) => x.status == "REJECTED", t.transactions);
    var franchisePending := Count((x: Outlet) => x.status == "PENDING", t.franchises);
    var franchiseCompleted := Count((x: Outlet) => x.status == "APPROVED" || x.status == "ACTIVE", t.franchises);
    var franchiseRejected := Count((x: Outlet) => x.status == "REJECTED", t.franchises);
    var branchPending := Count((x: Outlet) => x.status == "PENDING", t.branches);
    var branchCompleted := Count((x: Outlet) => x.status == "APPROVED" || x.status == "ACTIVE", t.branches);
    var branchRejected := Count((x: Outlet) => x.status == "REJECTED", t.branches);
    var agentsPending := Count((x: Agent) => !x.isApproved, t.agents);
    var agentsCompleted := Count((x: Agent) => x.isApproved, t.agents);
    Counters(txPending + franchisePending + branchPending + agentsPending,
             txCompleted + franchiseCompleted + branchCompleted + agentsCompleted,
             txRejected + franchiseRejected + branchRejected)
  }

  // ----- list

  datatype StatusFilter = All | Pending | Completed | Rejected

  predicate TxWhere(f: StatusFilter, x: Tx) {
    match f
    case All => true
    case Pending => x.status == "ADMIN_APPROVAL_PENDING"
    case Completed => x.status == "APPROVED" || x.status == "COMPLETED"
    case Rejected => x.status == "REJECTED"
  }

  predicate OutletWhere(f: StatusFilter, x: Outlet) {
    match f
    case All => true
    case Pending => x.status == "PENDING"
    case Completed => x.status == "APPROVED" || x.status == "ACTIVE"
    case Rejected => x.status == "REJECTED"
  }

  /** No agent is ever rejected; the query asks for an id that is not supposed to exist. */
  predicate AgentWhere(f: StatusFilter, x: Agent) {
    match f
    case All => true
    case Pending => !x.isApproved
    case Completed => x.isApproved
    case Rejected => x.id == "__none__"
  }

  function TxsWhere(f: StatusFilter): Tx -> bool {
    (x: Tx) => TxWhere(f, x)
  }

  function OutletsWhere(f: StatusFilter): Outlet -> bool {
    (x: Outlet) => OutletWhere(f, x)
  }

  function AgentsWhere(f: StatusFilter): Agent -> bool {
    (x: Agent) => AgentWhere(f, x)
  }

  datatype Item = Item(id: string, group: string, workflowAction: string, actionNeeded: string, status: string, title: string)

  function TxItem(x: Tx): Item {
    var pending := x.status == "ADMIN_APPROVAL_PENDING";
    Item("transaction:" + x.id, "Transaction", "Transaction Approval", if pending then "Approve" else x.status,
         if pending then "Pending" else x.status, x.referenceNumber)
  }

  function OutletItem(prefix: string, action: string, x: Outlet): Item {
    Item(prefix + x.id, "Outlet Management", action, if x.status == "PENDING" then "Approve" else x.status,
         if x.status == "PENDING" then "Pending" else x.status, x.name)
  }

  function FranchiseItem(x: Outlet): Item {
    OutletItem("franchise:", "Create Franchise", x)
  }

  function BranchItem(x: Outlet): Item {
    OutletItem("branch:", "Create Branch", x)
  }

  function AgentItem(x: Agent): Item {
    Item("agent:" + x.id, "Agent", "Agent Onboarding", if x.isApproved then "None" else "Approve",
         if x.isApproved then "Completed" else "Pending", x.name)
  }

  function Map<T, U>(f: T -> U, rows: seq<T>): (r: seq<U>)
    ensures |r| == |rows|
  {
    seq(|rows|, i requires 0 <= i < |rows| => f(rows[i]))
  }

  predicate Wanted(group: string, name: string) {
    group == "" || group == name
  }

  function TxItems(t: Tables, f: StatusFilter, group: string): seq<Item> {
    if Wanted(group, "Transaction") then Map(TxItem, Filter(TxsWhere(f), t.transactions)) else []
  }

  function FranchiseItems(t: Tables, f: StatusFilter, group: string): seq<Item> {
    if !Wanted(group, "Outlet Management") then []
    else Map(FranchiseItem, Filter(OutletsWhere(f), t.franchises))
  }

  function BranchItems(t: Tables, f: StatusFilter, group: string): seq<Item> {
    if !Wanted(group, "Outlet Management") then []
    else Map(BranchItem, Filter(OutletsWhere(f), t.branches))
  }

  function AgentItems(t: Tables, f: StatusFilter, group: string): seq<Item> {
    if Wanted(group, "Agent") then Map(AgentItem, Filter(AgentsWhere(f), t.agents)) else []
  }

  predicate Contains(s: string, part: string) {
    exists i :: 0 <= i <= |s| && part <= s[i..]
  }

  predicate Found(query: string, it: Item) {
    Contains(Lower(it.title), query) || Contains(Lower(it.workflowAction), query) || Contains(Lower(it.group), query)
  }

  function Matcher(search: string): Item -> bool {
    (it: Item) => Found(Lower(Trim(search)), it)
  }

  /** The items that a request selects, before they are cut into pages. */
  function Items(t: Tables, f: StatusFilter, group: string, search: string): seq<Item> {
    var items := TxItems(t, f, group) + FranchiseItems(t, f, group) + BranchItems(t, f, group) + AgentItems(t, f, group);
    Searched(items, search)
  }

  function Searched(items: seq<Item>, search: string): seq<Item> {
    if Trim(search) == "" then items else Filter(Matcher(search), items)
  }

  /** items.slice(start, end) for offsets that are not negative. */
  function Slice<T>(items: seq<T>, start: nat, end: nat): seq<T>
    requires start <= end
  {
    if start >= |items| then [] else if end >= |items| then items[start..] else items[start..end]
  }

  function Page<T>(items: seq<T>, page: nat, limit: nat): seq<T>
    requires page >= 1
  {
    Slice(items, (page - 1) * limit, (page - 1) * limit + limit)
  }

  function CeilDiv(a: nat, b: nat): nat
    requires b >= 1
  {
    (a + b - 1) / b
  }

  datatype Listing = Listing(data: seq<Item>, page: nat, limit: nat, total: nat, totalPages: nat)

  // ----- which items a request lists, told from the rows

  datatype Row = TxRow(tx: Tx) | FranchiseRow(outlet: Outlet) | BranchRow(outlet: Outlet) | AgentRow(agent: Agent)

  /** Transactions, franchises, branches and agents, each in the order of its table. */
  function Rows(t: Tables): seq<Row> {
    seq(|t.transactions|, i requires 0 <= i < |t.transactions| => TxRow(t.transactions[i]))
    + seq(|t.franchises|, i requires 0 <= i < |t.franchises| => FranchiseRow(t.franchises[i]))
    + seq(|t.branches|, i requires 0 <= i < |t.branches| => BranchRow(t.branches[i]))
    + seq(|t.agents|, i requires 0 <= i < |t.agents| => AgentRow(t.agents[i]))
  }

  /** How a row is shown. */
  function Shown(row: Row): Item {
    match row
    case TxRow(x) =>
      if x.status == "ADMIN_APPROVAL_PENDING"
      then Item("transaction:" + x.id, "Transaction", "Transaction Approval", "Approve", "Pending", x.referenceNumber)
      else Item("transaction:" + x.id, "Transaction", "Transaction Approval", x.status, x.status, x.referenceNumber)
    case FranchiseRow(x) =>
      if x.status == "PENDING" then Item("franchise:" + x.id, "Outlet Management", "Create Franchise", "Approve", "Pending", x.name)
      else Item("franchise:" + x.id, "Outlet Management", "Create Franchise", x.status, x.status, x.name)
    case BranchRow(x) =>
      if x.status == "PENDING" then Item("branch:" + x.id, "Outlet Management", "Create Branch", "Approve", "Pending", x.name)
      else Item("branch:" + x.id, "Outlet Management", "Create Branch", x.status, x.status, x.name)
    case AgentRow(x) =>
      if x.isApproved then Item("agent:" + x.id, "Agent", "Agent Onboarding", "None", "Completed", x.name)
      else Item("agent:" + x.id, "Agent", "Agent Onboarding", "Approve", "Pending", x.name)
  }

  predicate HasStatus(row: Row, f: StatusFilter) {
    match f
    case All => true
    case Pending =>
      (row.TxRow? && row.tx.status == "ADMIN_APPROVAL_PENDING") || (row.AgentRow? && !row.agent.isApproved)
      || ((row.FranchiseRow? || row.BranchRow?) && row.outlet.status == "PENDING")
    case Completed =>
      (row.TxRow? && row.tx.status in ["APPROVED", "COMPLETED"]) || (row.AgentRow? && row.agent.isApproved)
      || ((row.FranchiseRow? || row.BranchRow?) && row.outlet.status in ["APPROVED", "ACTIVE"])
    case Rejected =>
      (row.TxRow? && row.tx.status == "REJECTED") || (row.AgentRow? && row.agent.id == "__none__")
      || ((row.FranchiseRow? || row.BranchRow?) && row.outlet.status == "REJECTED")
  }

  /** Some suffix of a text starts with the part. */
  predicate OccursIn(part: string, s: string) {
    part <= s || (s != "" && OccursIn(part, s[1..]))
  }

  /** The wanted status and group, and the search, ignoring case, in the title, the action or the group. */
  predicate IsListed(row: Row, f: StatusFilter, group: string, search: string) {
    var it, part := Shown(row), Lower(Trim(search));
    && HasStatus(row, f) && (group == "" || group == it.group)
    && (part == "" || exists text :: text in [it.title, it.workflowAction, it.group] && OccursIn(part, Lower(text)))
  }

  /** The places of the listed rows, in the order of the tables. */
  ghost predicate IsSelection(listed: seq<nat>, rows: seq<Row>, f: StatusFilter, group: string, search: string) {
    && (forall i, j :: 0 <= i < j < |listed| ==> listed[i] < listed[j])
    && (forall i :: 0 <= i < |listed| ==> listed[i] < |rows| && IsListed(rows[listed[i]], f, group, search))
    && (forall k :: 0 <= k < |rows| && IsListed(rows[k], f, group, search) ==> k in listed)
  }

  /** The items are those of at most limit listed rows from a start on. */
  ghost predicate ShowsFrom(items: seq<Item>, listed: seq<nat>, rows: seq<Row>, start: nat, limit: nat) {
    && |items| == (if |listed| <= start then 0 else if |listed| <= start + limit then |listed| - start else limit)
    && forall j :: 0 <= j < |items| ==> listed[start + j] < |rows| && items[j] == Shown(rows[listed[start + j]])
  }

  method List(t: Tables, f: StatusFilter, group: string, search: string, page: nat, limit: nat)
    returns (r: Listing, ghost listed: seq<nat>)
    requires page >= 1 && limit >= 1
    ensures IsSelection(listed, Rows(t), f, group, search)
    ensures r.page == page && r.limit == limit && r.total == |listed| == |Items(t, f, group, search)|
    ensures r.total <= r.totalPages * limit < r.total + limit
    ensures r.data == Page(Items(t, f, group, search), page, limit)
    ensures ShowsFrom(r.data, listed, Rows(t), (page - 1) * limit, limit)
  {
    hide TxItems, FranchiseItems, BranchItems, AgentItems, Filter, IsSelection, Rows, Shown, CeilDiv;
    var items: seq<Item> := [];
    items := items + TxItems(t, f, group);
    items := items + FranchiseItems(t, f, group);
    items := items + BranchItems(t, f, group);
    items := items + AgentItems(t, f, group);
    assert items == TxItems(t, f, group) + FranchiseItems(t, f, group) + BranchItems(t, f, group) + AgentItems(t, f, group);
    if Trim(search) != "" {
      items := Filter(Matcher(search), items);
    }
    var start := (page - 1) * limit;
    r := Listing(Slice(items, start, start + limit), page, limit, |items|, CeilDiv(|items|, limit));
    CeilDivBounds(|items|, limit);
    listed := ItemsAreSelected(t, f, group, search);
    SliceShows(items, listed, Rows(t), start, limit);
  }

  lemma SliceShows(items: seq<Item>, listed: seq<nat>, rows: seq<Row>, start: nat, limit: nat)
    requires |items| == |listed| && forall j :: 0 <= j < |listed| ==> listed[j] < |rows| && items[j] == Shown(rows[listed[j]])
    ensures ShowsFrom(Slice(items, start, start + limit), listed, rows, start, limit)
  {
    hide Shown;
  }

  /** The listed items of some rows. */
  function Picked(rows: seq<Row>, f: StatusFilter, group: string, search: string): seq<Item> {
    if rows == [] then []
    else (if IsListed(rows[0], f, group, search) then [Shown(rows[0])] else []) + Picked(rows[1..], f, group, search)
  }

  lemma PickedStep(rows: seq<Row>, f: StatusFilter, group: string, search: string)
    requires rows != []
    ensures Picked(rows, f, group, search)
         == (if IsListed(rows[0], f, group, search) then [Shown(rows[0])] else []) + Picked(rows[1..], f, group, search)
  {
  }

  lemma {:induction false} PickedAppend(a: seq<Row>, b: seq<Row>, f: StatusFilter, group: string, search: string)
    ensures Picked(a + b, f, group, search) == Picked(a, f, group, search) + Picked(b, f, group, search)
  {
    hide IsListed, Shown;
    if a == [] {
      assert a + b == b;
    } else {
      var one := if IsListed(a[0], f, group, search) then [Shown(a[0])] else [];
      PickedAppend(a[1..], b, f, group, search);
      assert (a + b)[0] == a[0] && (a + b)[1..] == a[1..] + b;
      PickedStep(a + b, f, group, search);
      PickedStep(a, f, group, search);
      hide Picked;
      var front, back := Picked(a[1..], f, group, search), Picked(b, f, group, search);
      assert one + (front + back) == (one + front) + back;
    }
  }

  lemma FilterStep<T>(p: T -> bool, rows: seq<T>)
    requires rows != []
    ensures Filter(p, rows) == (if p(rows[0]) then [rows[0]] else []) + Filter(p, rows[1..])
  {
  }

  lemma {:induction false} FilterAppend<T>(p: T -> bool, a: seq<T>, b: seq<T>)
    ensures Filter(p, a + b) == Filter(p, a) + Filter(p, b)
  {
    if a == [] {
      assert a + b == b;
    } else {
      var rest := a[1..];
      var one := if p(a[0]) then [a[0]] else [];
      FilterAppend(p, rest, b);
      assert (a + b)[0] == a[0] && (a + b)[1..] == rest + b;
      FilterStep(p, a + b);
      FilterStep(p, a);
      hide Filter;
      assert one + (Filter(p, rest) + Filter(p, b)) == (one + Filter(p, rest)) + Filter(p, b);
    }
  }

  lemma SearchedAppend(a: seq<Item>, b: seq<Item>, search: string)
    ensures Searched(a + b, search) == Searched(a, search) + Searched(b, search)
  {
    FilterAppend(Matcher(search), a, b);
  }

  lemma {:induction false} ContainsIffOccurs(s: string, part: string)
    ensures Contains(s, part) <==> OccursIn(part, s)
  {
    if s != "" {
      ContainsIffOccurs(s[1..], part);
      assert s[0..] == s;
      if i :| 0 <= i <= |s| && part <= s[i..] {
        assert i > 0 ==> s[i..] == s[1..][i - 1..];
      }
      if i :| 0 <= i <= |s[1..]| && part <= s[1..][i..] {
        assert s[1..][i..] == s[i + 1..];
      }
    } else {
      assert s[0..] == s;
    }
  }

  lemma FoundIff(part: string, it: Item)
    ensures Found(part, it) <==> exists text :: text in [it.title, it.workflowAction, it.group] && OccursIn(part, Lower(text))
  {
    hide Lower, Contains, OccursIn;
    ContainsIffOccurs(Lower(it.title), part);
    ContainsIffOccurs(Lower(it.workflowAction), part);
    ContainsIffOccurs(Lower(it.group), part);
    assert it.title in [it.title, it.workflowAction, it.group];
    assert it.workflowAction in [it.title, it.workflowAction, it.group];
    assert it.group in [it.title, it.workflowAction, it.group];
  }

  lemma PickedOne(row: Row, f: StatusFilter, group: string, search: string)
    ensures Picked([row], f, group, search) == if IsListed(row, f, group, search) then [Shown(row)] else []
  {
    hide IsListed, Shown;
    assert [row][1..] == [];
  }

  lemma FilterOne<T>(p: T -> bool, x: T)
    ensures Filter(p, [x]) == if p(x) then [x] else []
  {
    assert [x][1..] == [];
  }

  /** One row that the query returns is listed exactly if the search keeps its item. */
  lemma SearchedOne(row: Row, f: StatusFilter, group: string, search: string)
    requires HasStatus(row, f) && (group == "" || group == Shown(row).group)
    ensures Searched([Shown(row)], search) == Picked([row], f, group, search)
  {
    hide Lower, Trim, Found, HasStatus, Shown, OccursIn, Filter, Picked;
    FoundIff(Lower(Trim(search)), Shown(row));
    PickedOne(row, f, group, search);
    FilterOne(Matcher(search), Shown(row));
    LowerEmpty(Trim(search));
  }

  lemma LowerEmpty(s: string)
    ensures Lower(s) == "" <==> s == ""
  {
  }

  function TxRows(rows: seq<Tx>): (r: seq<Row>)
    ensures |r| == |rows|
  {
    seq(|rows|, i requires 0 <= i < |rows| => TxRow(rows[i]))
  }

  function FranchiseRows(rows: seq<Outlet>): (r: seq<Row>)
    ensures |r| == |rows|
  {
    seq(|rows|, i requires 0 <= i < |rows| => FranchiseRow(rows[i]))
  }

  function BranchRows(rows: seq<Outlet>): (r: seq<Row>)
    ensures |r| == |rows|
  {
    seq(|rows|, i requires 0 <= i < |rows| => BranchRow(rows[i]))
  }

  function AgentRows(rows: seq<Agent>): (r: seq<Row>)
    ensures |r| == |rows|
  {
    seq(|rows|, i requires 0 <= i < |rows| => AgentRow(rows[i]))
  }

  /** Rows of a group that is not wanted are not listed. */
  lemma {:induction false} NonePicked(rows: seq<Row>, f: StatusFilter, group: string, search: string)
    requires forall i :: 0 <= i < |rows| ==> !IsListed(rows[i], f, group, search)
    ensures Picked(rows, f, group, search) == []
  {
    hide IsListed;
    if rows != [] { NonePicked(rows[1..], f, group, search); }
  }

  /** One table: what the query selects, maps to items and searches is what is picked of its rows. */
  lemma {:induction false} TablePicked<T>(
    rows: seq<T>, all: seq<Row>, where: T -> bool, item: T -> Item, f: StatusFilter, group: string, search: string)
    requires |all| == |rows| && forall i :: 0 <= i < |rows| ==> (where(rows[i]) <==> HasStatus(all[i], f))
    requires forall i :: 0 <= i < |rows| ==> item(rows[i]) == Shown(all[i]) && (group == "" || group == Shown(all[i]).group)
    ensures Searched(Map(item, Filter(where, rows)), search) == Picked(all, f, group, search)
  {
    hide HasStatus, Shown, Searched, Picked;
    if rows == [] {
      NothingSearched(search);
      NonePicked(all, f, group, search);
      assert Map(item, Filter(where, rows)) == [];
    } else {
      TablePicked(rows[1..], all[1..], where, item, f, group, search);
      assert all == [all[0]] + all[1..];
      PickedAppend([all[0]], all[1..], f, group, search);
      var selected, others := Filter(where, rows), Filter(where, rows[1..]);
      if where(rows[0]) {
        assert Map(item, selected) == [item(rows[0])] + Map(item, others);
        SearchedAppend([item(rows[0])], Map(item, others), search);
        SearchedOne(all[0], f, group, search);
      } else {
        assert selected == others;
        PickedOne(all[0], f, group, search);
      }
    }
  }

  lemma TxsPicked(t: Tables, f: StatusFilter, group: string, search: string)
    ensures Searched(TxItems(t, f, group), search) == Picked(TxRows(t.transactions), f, group, search)
  {
    hide Searched, Picked, Filter;
    if Wanted(group, "Transaction") {
      TablePicked(t.transactions, TxRows(t.transactions), TxsWhere(f), TxItem, f, group, search);
    } else {
      NothingSearched(search);
      NonePicked(TxRows(t.transactions), f, group, search);
    }
  }

  lemma NothingSearched(search: string)
    ensures Searched([], search) == []
  {
  }

  lemma FranchisesPicked(t: Tables, f: StatusFilter, group: string, search: string)
    ensures Searched(FranchiseItems(t, f, group), search) == Picked(FranchiseRows(t.franchises), f, group, search)
  {
    hide Searched, Picked, Filter;
    if Wanted(group, "Outlet Management") {
      TablePicked(t.franchises, FranchiseRows(t.franchises), OutletsWhere(f), FranchiseItem, f, group, search);
    } else {
      NothingSearched(search);
      NonePicked(FranchiseRows(t.franchises), f, group, search);
    }
  }

  lemma BranchesPicked(t: Tables, f: StatusFilter, group: string, search: string)
    ensures Searched(BranchItems(t, f, group), search) == Picked(BranchRows(t.branches), f, group, search)
  {
    hide Searched, Picked, Filter;
    if Wanted(group, "Outlet Management") {
      TablePicked(t.branches, BranchRows(t.branches), OutletsWhere(f), BranchItem, f, group, search);
    } else {
      NothingSearched(search);
      NonePicked(BranchRows(t.branches), f, group, search);
    }
  }

  lemma AgentsPicked(t: Tables, f: StatusFilter, group: string, search: string)
    ensures Searched(AgentItems(t, f, group), search) == Picked(AgentRows(t.agents), f, group, search)
  {
    hide Searched, Picked, Filter;
    if Wanted(group, "Agent") {
      TablePicked(t.agents, AgentRows(t.agents), AgentsWhere(f), AgentItem, f, group, search);
    } else {
      NothingSearched(search);
      NonePicked(AgentRows(t.agents), f, group, search);
    }
  }

  lemma ItemsArePicked(t: Tables, f: StatusFilter, group: string, search: string)
    ensures Items(t, f, group, search) == Picked(Rows(t), f, group, search)
  {
    hide TxItems, FranchiseItems, BranchItems, AgentItems, Searched, Picked;
    var txs, franchises, branches := TxItems(t, f, group), FranchiseItems(t, f, group), BranchItems(t, f, group);
    SearchedAppend(txs + franchises + branches, AgentItems(t, f, group), search);
    SearchedAppend(txs + franchises, branches, search);
    SearchedAppend(txs, franchises, search);
    TxsPicked(t, f, group, search);
    FranchisesPicked(t, f, group, search);
    BranchesPicked(t, f, group, search);
    AgentsPicked(t, f, group, search);
    var txRows, franchiseRows, branchRows := TxRows(t.transactions), FranchiseRows(t.franchises), BranchRows(t.branches);
    PickedAppend(txRows + franchiseRows + branchRows, AgentRows(t.agents), f, group, search);
    PickedAppend(txRows + franchiseRows, branchRows, f, group, search);
    PickedAppend(txRows, franchiseRows, f, group, search);
    assert Rows(t) == txRows + franchiseRows + branchRows + AgentRows(t.agents);
  }

  lemma PickedIsSelected(rows: seq<Row>, f: StatusFilter, group: string, search: string) returns (listed: seq<nat>)
    ensures IsSelection(listed, rows, f, group, search)
    ensures |Picked(rows, f, group, search)| == |listed|
    ensures forall j :: 0 <= j < |listed| ==>
              listed[j] < |rows| && Picked(rows, f, group, search)[j] == Shown(rows[listed[j]])
  {
    hide IsListed, Shown, Picked;
    listed := [];
    NonePicked(rows[..0], f, group, search);
    for i := 0 to |rows|
      invariant forall a, b :: 0 <= a < b < |listed| ==> listed[a] < listed[b]
      invariant forall a :: 0 <= a < |listed| ==> listed[a] < i && IsListed(rows[listed[a]], f, group, search)
      invariant forall k :: 0 <= k < i && IsListed(rows[k], f, group, search) ==> k in listed
      invariant |Picked(rows[..i], f, group, search)| == |listed|
      invariant forall j :: 0 <= j < |listed| ==> Picked(rows[..i], f, group, search)[j] == Shown(rows[listed[j]])
    {
      assert rows[..i + 1] == rows[..i] + [rows[i]];
      PickedAppend(rows[..i], [rows[i]], f, group, search);
      PickedOne(rows[i], f, group, search);
      if IsListed(rows[i], f, group, search) {
        listed := listed + [i];
      }
    }
    assert rows[..|rows|] == rows;
  }

  lemma ItemsAreSelected(t: Tables, f: StatusFilter, group: string, search: string) returns (listed: seq<nat>)
    ensures IsSelection(listed, Rows(t), f, group, search)
    ensures |Items(t, f, group, search)| == |listed|
    ensures forall j :: 0 <= j < |listed| ==>
              listed[j] < |Rows(t)| && Items(t, f, group, search)[j] == Shown(Rows(t)[listed[j]])
  {
    hide Items, Rows, IsSelection, Picked, Shown;
    ItemsArePicked(t, f, group, search);
    listed := PickedIsSelected(Rows(t), f, group, search);
  }

  // ----- the counters and the totals agree

  lemma {:induction false} FilterCount<T(!new)>(p: T -> bool, q: T -> bool, rows: seq<T>)
    requires forall x :: p(x) == q(x)
    ensures |Filter(p, rows)| == Count(q, rows)
  {
    if rows != [] { FilterCount(p, q, rows[1..]); }
  }

  lemma PendingAgrees(t: Tables)
    ensures |Items(t, Pending, "", "")| == Stats(t).pending
  {
    FilterCount(TxsWhere(Pending), (x: Tx) => x.status == "ADMIN_APPROVAL_PENDING", t.transactions);
    FilterCount(OutletsWhere(Pending), (x: Outlet) => x.status == "PENDING", t.franchises);
    FilterCount(OutletsWhere(Pending), (x: Outlet) => x.status == "PENDING", t.branches);
    FilterCount(AgentsWhere(Pending), (x: Agent) => !x.isApproved, t.agents);
  }

  lemma CompletedAgrees(t: Tables)
    ensures |Items(t, Completed, "", "")| == Stats(t).completed
  {
    FilterCount(TxsWhere(Completed), (x: Tx) => x.status == "APPROVED" || x.status == "COMPLETED", t.transactions);
    FilterCount(OutletsWhere(Completed), (x: Outlet) => x.status == "APPROVED" || x.status == "ACTIVE", t.franchises);
    FilterCount(OutletsWhere(Completed), (x: Outlet) => x.status == "APPROVED" || x.status == "ACTIVE", t.branches);
    FilterCount(AgentsWhere(Completed), (x: Agent) => x.isApproved, t.agents);
  }

  /** The rejected totals agree as long as no agent has the id that the query takes for impossible. */
  lemma RejectedAgrees(t: Tables)
    ensures |Items(t, Rejected, "", "")| == Stats(t).rejected + Count((x: Agent) => x.id == "__none__", t.agents)
  {
    FilterCount(TxsWhere(Rejected), (x: Tx) => x.status == "REJECTED", t.transactions);
    FilterCount(OutletsWhere(Rejected), (x: Outlet) => x.status == "REJECTED", t.franchises);
    FilterCount(OutletsWhere(Rejected), (x: Outlet) => x.status == "REJECTED", t.branches);
    FilterCount(AgentsWhere(Rejected), (x: Agent) => x.id == "__none__", t.agents);
  }

  // ----- pages

  function FirstPages<T>(items: seq<T>, limit: nat, n: nat): seq<T> {
    if n == 0 then [] else FirstPages(items, limit, n - 1) + Page(items, n, limit)
  }

  lemma {:induction false} PagesTile<T>(items: seq<T>, limit: nat, n: nat)
    ensures FirstPages(items, limit, n) == if n * limit < |items| then items[..n * limit] else items
  {
    if n > 0 {
      PagesTile(items, limit, n - 1);
      assert n * limit == (n - 1) * limit + limit;
    }
  }

  lemma CeilDivBounds(a: nat, b: nat)
    requires b >= 1
    ensures a <= CeilDiv(a, b) * b < a + b
  {
  }

  lemma {:induction false} MulMonotonic(a: nat, b: nat, c: nat)
    requires a <= b
    ensures a * c <= b * c
  {
  }

  /** A page that is not the last one is full, and there is nothing behind the last one. */
  lemma PageSize<T>(items: seq<T>, limit: nat, n: nat)
    requires limit >= 1 && n >= 1
    ensures var pages := CeilDiv(|items|, limit);
            && (n < pages ==> |Page(items, n, limit)| == limit)
            && (n == pages ==> 1 <= |Page(items, n, limit)| <= limit)
            && (n > pages ==> Page(items, n, limit) == [])
  {
    var pages := CeilDiv(|items|, limit);
    CeilDivBounds(|items|, limit);
    hide CeilDiv;
    if n < pages {
      MulMonotonic(n, pages - 1, limit);
    } else if n > pages {
      MulMonotonic(pages, n - 1, limit);
    }
  }

  /** The pages 1 to totalPages make up the list, all but the last are full, and the last is not empty. */
  lemma PagesMakeUpTheList<T>(items: seq<T>, limit: nat)
    requires limit >= 1
    ensures var pages := CeilDiv(|items|, limit);
            && FirstPages(items, limit, pages) == items
            && (pages == 0 <==> items == [])
            && (forall n :: 1 <= n < pages ==> |Page(items, n, limit)| == limit)
            && (pages >= 1 ==> 1 <= |Page(items, pages, limit)| <= limit)
            && (forall n :: n > pages ==> Page(items, n, limit) == [])
  {
    var pages := CeilDiv(|items|, limit);
    CeilDivBounds(|items|, limit);
    PagesTile(items, limit, pages);
    hide CeilDiv, Page, FirstPages;
    forall n: nat | n >= 1
      ensures n < pages ==> |Page(items, n, limit)| == limit
      ensures n == pages ==> 1 <= |Page(items, n, limit)| <= limit
      ensures n > pages ==> Page(items, n, limit) == []
    {
      PageSize(items, limit, n);
    }
  }
}
