/**
 Branches, pick-up stations and agents: three tables written by two services, whose uniqueness
 rules are checked by queries before the writes. The id of a branch or agent is its position.
 Columns without a rule are kept together in a map.
 */
module RegistryModel {
  import opened Text

  datatype Branch = Branch(name: string, email: Option<string>, franchiseId: Option<string>, columns: map<string, string>)
  datatype Station = Station(name: string, email: string, columns: map<string, string>)
  datatype Agent = Agent(name: string, email: string, phone: string, branchId: Option<nat>)

  datatype Tables = Tables(branches: seq<Branch>, stations: map<nat, Station>, nextStation: nat, agents: seq<Agent>, franchises: set<string>)

  datatype Error = Validation | NotFound | Database
  datatype Outcome = Done(id: nat) | Failed(error: Error)
  datatype Reply = Reply(tables: Tables, outcome: Outcome)

  /** A field of a JSON body. */
  datatype Field = Absent | Null | Given(text: string)

  function Trimmed(f: Field): string {
    if f.Given? then Trim(f.text) else ""
  }

  /** equals with mode insensitive. */
  predicate SameFolded(a: string, b: string) {
    Lower(a) == Lower(b)
  }

  // ----- lookups

  /** The first branch with a name, ignoring case. */
  function FindBranch(branches: seq<Branch>, name: string): (r: Option<nat>)
    ensures r.Some? ==> r.value < |branches| && SameFolded(branches[r.value].name, name)
    ensures r.None? ==> forall i :: 0 <= i < |branches| ==> !SameFolded(branches[i].name, name)
  {
    if branches == [] then None
    else
      var earlier := FindBranch(branches[..|branches| - 1], name);
      if earlier.Some? then earlier
      else if SameFolded(branches[|branches| - 1].name, name) then Some(|branches| - 1) else None
  }

  /** Another branch, if any, that has the name or the e-mail. */
  predicate BranchNameTaken(branches: seq<Branch>, name: string, except: Option<nat>) {
    exists i :: 0 <= i < |branches| && except != Some(i) && SameFolded(branches[i].name, name)
  }

  predicate BranchEmailTaken(branches: seq<Branch>, email: string, except: Option<nat>) {
    exists i :: 0 <= i < |branches| && except != Some(i) && branches[i].email.Some? && SameFolded(branches[i].email.value, email)
  }

  predicate StationNameTaken(stations: map<nat, Station>, name: string, except: Option<nat>) {
    exists i :: i in stations && except != Some(i) && SameFolded(stations[i].name, name)
  }

  predicate StationEmailTaken(stations: map<nat, Station>, email: string, except: Option<nat>) {
    exists i :: i in stations && except != Some(i) && SameFolded(stations[i].email, email)
  }

  predicate AgentEmailTaken(agents: seq<Agent>, email: string, except: Option<nat>) {
    exists i :: 0 <= i < |agents| && except != Some(i) && agents[i].email == email
  }

  predicate AgentPhoneTaken(agents: seq<Agent>, phone: string, except: Option<nat>) {
    exists i :: 0 <= i < |agents| && except != Some(i) && agents[i].phone == phone
  }

  /** The first agent with the e-mail or the phone number; empty texts are not looked for. */
  function FindAgent(agents: seq<Agent>, email: string, phone: string): (r: Option<nat>)
    ensures r.Some? ==> r.value < |agents|
    ensures r.None? && email != "" ==> !AgentEmailTaken(agents, email, None)
    ensures r.None? && phone != "" ==> !AgentPhoneTaken(agents, phone, None)
  {
    if agents == [] then None
    else
      var earlier := FindAgent(agents[..|agents| - 1], email, phone);
      var last := agents[|agents| - 1];
      if earlier.Some? then earlier
      else if (email != "" && last.email == email) || (phone != "" && last.phone == phone) then Some(|agents| - 1) else None
  }

  // ----- branches

  /** The body of createBranch and updateBranch; complete says that the other required texts are given. */
  datatype BranchBody = BranchBody(
    name: Field, email: Field, complete: bool, franchiseId: Field, columns: map<string, string>,
    agentName: Field, agentEmail: Field, agentPhone: Field)

  function TextOf(f: Field): string {
    if f.Given? then f.text else ""
  }

  function OptionOf(f: Field): Option<string> {
    if f.Given? then Some(f.text) else None
  }

  /** Attaching the initial agent; a failing insert (a missing e-mail or phone) is logged and ignored. */
  function AttachAgent(t: Tables, branchId: nat, b: BranchBody): Tables {
    var name, email, phone := Trimmed(b.agentName), Trimmed(b.agentEmail), Trimmed(b.agentPhone);
    if name == "" || (email == "" && phone == "") then t
    else
      var existing := FindAgent(t.agents, email, phone);
      if existing.Some? then t.(agents := t.agents[existing.value := t.agents[existing.value].(branchId := Some(branchId))])
      else if email == "" || phone == "" then t
      else t.(agents := t.agents + [Agent(name, email, phone, Some(branchId))])
  }

  predicate KnownFranchise(t: Tables, id: Option<string>) {
    id.Some? ==> id.value in t.franchises
  }

  function CreateBranch(t: Tables, b: BranchBody): Reply {
    var name, email := TextOf(b.name), TextOf(b.email);
    if name == "" || !b.complete then Reply(t, Failed(Validation))
    else if BranchNameTaken(t.branches, name, None) then Reply(t, Failed(Validation))
    else if email != "" && BranchEmailTaken(t.branches, email, None) then Reply(t, Failed(Validation))
    else if !KnownFranchise(t, OptionOf(b.franchiseId)) then Reply(t, Failed(Database))
    else
      var row := Branch(name, OptionOf(b.email), OptionOf(b.franchiseId), b.columns);
      Reply(AttachAgent(t.(branches := t.branches + [row]), |t.branches|, b), Done(|t.branches|))
  }

  /** The columns an update writes; None leaves a column as it is. */
  datatype BranchPatch = BranchPatch(
    name: Option<string>, email: Option<Option<string>>, franchiseId: Option<Option<string>>, columns: map<string, string>)

  const EMPTY_PATCH := BranchPatch(None, None, None, map[])

  function Patched(row: Branch, p: BranchPatch): Branch {
    Branch(if p.name.Some? then p.name.value else row.name,
           if p.email.Some? then p.email.value else row.email,
           if p.franchiseId.Some? then p.franchiseId.value else row.franchiseId,
           row.columns + p.columns)
  }

  function UpdateBranch(t: Tables, id: nat, b: BranchBody): Reply {
    if id >= |t.branches| then Reply(t, Failed(NotFound))
    else
      var row := t.branches[id];
      var name, email, franchise := Trimmed(b.name), Trimmed(b.email), Trimmed(b.franchiseId);
      var rename := name != "" && Lower(name) != Lower(row.name);
      if rename && BranchNameTaken(t.branches, name, Some(id)) then Reply(t, Failed(Validation))
      else if email != "" && BranchEmailTaken(t.branches, email, Some(id)) then Reply(t, Failed(Validation))
      else if franchise != "" && franchise !in t.franchises then Reply(t, Failed(NotFound))
      else
        var patch := BranchPatch(
          if rename then Some(name) else None,
          if email != "" then Some(Some(email)) else if b.email.Null? then Some(None) else None,
          if franchise != "" then Some(Some(franchise)) else if b.franchiseId.Null? then Some(None) else None,
          b.columns);
        if patch == EMPTY_PATCH then Reply(t, Failed(Validation))
        else Reply(t.(branches := t.branches[id := Patched(row, patch)]), Done(id))
  }

  function Attached(agents: seq<Agent>, ids: seq<nat>, branchId: nat): (r: seq<Agent>)
    ensures |r| == |agents|
  {
    seq(|agents|, i requires 0 <= i < |agents| => if i in ids then agents[i].(branchId := Some(branchId)) else agents[i])
  }

  function AddAgentsToBranch(t: Tables, id: nat, agentIds: seq<nat>): Reply {
    if id >= |t.branches| then Reply(t, Failed(NotFound))
    else if agentIds == [] then Reply(t, Done(id))
    else if exists i :: 0 <= i < |agentIds| && agentIds[i] >= |t.agents| then Reply(t, Failed(NotFound))
    else Reply(t.(agents := Attached(t.agents, agentIds, id)), Done(id))
  }

  // ----- stations

  datatype StationBody = StationBody(name: Field, email: Field, complete: bool, columns: map<string, string>)

  function CreateStation(t: Tables, b: StationBody): Reply {
    if TextOf(b.name) == "" || TextOf(b.email) == "" || !b.complete then Reply(t, Failed(Validation))
    else
      var name, email := Trimmed(b.name), Trimmed(b.email);
      if StationNameTaken(t.stations, name, None) || StationEmailTaken(t.stations, email, None) then Reply(t, Failed(Validation))
      else
        Reply(t.(stations := t.stations[t.nextStation := Station(name, email, b.columns)], nextStation := t.nextStation + 1),
              Done(t.nextStation))
  }

  function UpdateStation(t: Tables, id: nat, b: StationBody): Reply {
    if id !in t.stations then Reply(t, Failed(NotFound))
    else
      var row := t.stations[id];
      var name, email := Trimmed(b.name), Trimmed(b.email);
      var rename := name != "" && Lower(name) != Lower(row.name);
      var readdress := email != "" && Lower(email) != Lower(row.email);
      if rename && StationNameTaken(t.stations, name, Some(id)) then Reply(t, Failed(Validation))
      else if readdress && StationEmailTaken(t.stations, email, Some(id)) then Reply(t, Failed(Validation))
      else if !rename && !readdress && b.columns == map[] then Reply(t, Failed(Validation))
      else
        Reply(t.(stations := t.stations[id := Station(if rename then name else row.name, if readdress then email else row.email,
                                                      row.columns + b.columns)]),
              Done(id))
  }

  function DeleteStation(t: Tables, id: nat): Reply {
    if id !in t.stations then Reply(t, Failed(NotFound)) else Reply(t.(stations := t.stations - {id}), Done(id))
  }

  // ----- agents

  function CreateAgent(t: Tables, name: string, email: string, phone: string, branch: string): Reply {
    if name == "" || email == "" || phone == "" || branch == "" then Reply(t, Failed(Validation))
    else if AgentEmailTaken(t.agents, email, None) || AgentPhoneTaken(t.agents, phone, None) then Reply(t, Failed(Validation))
    else
      var found := FindBranch(t.branches, branch);
      if found.None? then Reply(t, Failed(Validation))
      else Reply(t.(agents := t.agents + [Agent(name, email, phone, found)]), Done(|t.agents|))
  }

  /** The unique columns of the table have the last word. */
  function WriteAgent(t: Tables, id: nat, row: Agent): Reply
    requires id < |t.agents|
  {
    if AgentEmailTaken(t.agents, row.email, Some(id)) || AgentPhoneTaken(t.agents, row.phone, Some(id))
    then Reply(t, Failed(Database))
    else Reply(t.(agents := t.agents[id := row]), Done(id))
  }

  function OrEmpty(text: Option<string>): string {
    if text.Some? then text.value else ""
  }

  /** A given text is written even if it is empty, but only texts that are not empty are checked by the service. */
  function UpdateAgent(t: Tables, id: nat, name: Option<string>, email: Option<string>, phone: Option<string>, branch: Option<string>): Reply {
    if OrEmpty(name) == "" && OrEmpty(email) == "" && OrEmpty(phone) == "" && OrEmpty(branch) == "" then Reply(t, Failed(Validation))
    else if id >= |t.agents| then Reply(t, Failed(NotFound))
    else if OrEmpty(email) != "" && AgentEmailTaken(t.agents, OrEmpty(email), Some(id)) then Reply(t, Failed(Validation))
    else if OrEmpty(phone) != "" && AgentPhoneTaken(t.agents, OrEmpty(phone), Some(id)) then Reply(t, Failed(Validation))
    else
      var found := if OrEmpty(branch) != "" then FindBranch(t.branches, OrEmpty(branch)) else None;
      if OrEmpty(branch) != "" && found.None? then Reply(t, Failed(Validation))
      else
        var row := t.agents[id];
        var edited := Agent(if name.Some? then name.value else row.name, if email.Some? then email.value else row.email,
                            if phone.Some? then phone.value else row.phone, if found.Some? then found else row.branchId);
        WriteAgent(t, id, edited)
  }

  /** What the controller, the only caller of the agent update, makes of a field: null and blank texts count as missing. */
  function NormalizeOptionalText(f: Field): Option<string> {
    if Trimmed(f) != "" then Some(Trimmed(f)) else None
  }

  /** An agent update as it arrives at the controller. */
  function RequestUpdate(t: Tables, id: nat, name: Field, email: Field, phone: Field, branch: Field): Reply {
    UpdateAgent(t, id, NormalizeOptionalText(name), NormalizeOptionalText(email), NormalizeOptionalText(phone), NormalizeOptionalText(branch))
  }

  // ----- one operation

  datatype Op =
    | OpCreateBranch(body: BranchBody)
    | OpUpdateBranch(id: nat, body: BranchBody)
    | OpAddAgents(id: nat, agentIds: seq<nat>)
    | OpCreateStation(station: StationBody)
    | OpUpdateStation(id: nat, station: StationBody)
    | OpDeleteStation(id: nat)
    | OpCreateAgent(name: string, email: string, phone: string, branch: string)
    | OpUpdateAgent(id: nat, newName: Option<string>, newEmail: Option<string>, newPhone: Option<string>, newBranch: Option<string>)

  function Step(t: Tables, op: Op): Reply {
    match op
    case OpCreateBranch(b) => CreateBranch(t, b)
    case OpUpdateBranch(id, b) => UpdateBranch(t, id, b)
    case OpAddAgents(id, agentIds) => AddAgentsToBranch(t, id, agentIds)
    case OpCreateStation(b) => CreateStation(t, b)
    case OpUpdateStation(id, b) => UpdateStation(t, id, b)
    case OpDeleteStation(id) => DeleteStation(t, id)
    case OpCreateAgent(name, email, phone, branch) => CreateAgent(t, name, email, phone, branch)
    case OpUpdateAgent(id, name, email, phone, branch) => UpdateAgent(t, id, name, email, phone, branch)
  }
}
