/** Uniqueness across the services, over every sequence of operations. */
module RegistryRuns {
  import opened Text
  import opened RegistryModel

  ghost predicate BranchesDistinct(branches: seq<Branch>) {
    && (forall i, j :: 0 <= i < j < |branches| ==> !SameFolded(branches[i].name, branches[j].name))
    && (forall i, j :: 0 <= i < j < |branches| && branches[i].email.Some? && branches[j].email.Some? && branches[i].email.value != "" ==>
          !SameFolded(branches[i].email.value, branches[j].email.value))
  }

  ghost predicate StationsDistinct(stations: map<nat, Station>) {
    && (forall i, j :: i in stations && j in stations && i != j ==> !SameFolded(stations[i].name, stations[j].name))
    && (forall i, j :: i in stations && j in stations && i != j ==> !SameFolded(stations[i].email, stations[j].email))
  }

  ghost predicate AgentsDistinct(agents: seq<Agent>) {
    && (forall i, j :: 0 <= i < j < |agents| ==> agents[i].email != agents[j].email)
    && (forall i, j :: 0 <= i < j < |agents| ==> agents[i].phone != agents[j].phone)
  }

  ghost predicate BranchIdsExist(t: Tables) {
    forall i :: 0 <= i < |t.agents| && t.agents[i].branchId.Some? ==> t.agents[i].branchId.value < |t.branches|
  }

  ghost predicate Consistent(t: Tables) {
    && BranchesDistinct(t.branches) && StationsDistinct(t.stations) && AgentsDistinct(t.agents) && BranchIdsExist(t)
    && forall i :: i in t.stations ==> i < t.nextStation
  }

  /** Case folding keeps a text empty or not empty. */
  lemma FoldedNonEmpty(a: string, b: string)
    requires SameFolded(a, b)
    ensures a == "" <==> b == ""
  {
  }

  /** Attaching an agent to a new branch: a new agent has an e-mail and a phone that nobody has. */
  lemma AttachKeepsAgents(t: Tables, b: BranchBody)
    requires Consistent(t)
    ensures forall row ::
              var t' := t.(branches := t.branches + [row]);
              var attached := AttachAgent(t', |t.branches|, b);
              && attached == t'.(agents := attached.agents)
              && AgentsDistinct(attached.agents) && BranchIdsExist(attached)
  {
    hide Lower, Trim, FindAgent, StationsDistinct, BranchesDistinct;
  }

  lemma BranchesAfterCreate(t: Tables, b: BranchBody)
    requires Consistent(t)
    ensures Consistent(CreateBranch(t, b).tables)
  {
    hide Lower, Trim, FindAgent, FindBranch, StationsDistinct, AttachAgent;
    AttachKeepsAgents(t, b);
    var r := CreateBranch(t, b);
    if r.outcome.Done? {
      var row := Branch(TextOf(b.name), OptionOf(b.email), OptionOf(b.franchiseId), b.columns);
      var branches := t.branches + [row];
      forall i | 0 <= i < |t.branches| && t.branches[i].email.Some? && t.branches[i].email.value != "" && row.email.Some?
        ensures !SameFolded(t.branches[i].email.value, row.email.value)
      {
        if SameFolded(t.branches[i].email.value, row.email.value) {
          FoldedNonEmpty(t.branches[i].email.value, row.email.value);
        }
      }
      assert BranchesDistinct(branches);
    }
  }

  lemma BranchesAfterUpdate(t: Tables, id: nat, b: BranchBody)
    requires Consistent(t)
    ensures Consistent(UpdateBranch(t, id, b).tables)
  {
    hide Lower, Trim;
  }

  lemma StationsAfterPut(stations: map<nat, Station>, id: nat, row: Station)
    requires StationsDistinct(stations)
    requires !StationNameTaken(stations, row.name, Some(id)) && !StationEmailTaken(stations, row.email, Some(id))
    ensures StationsDistinct(stations[id := row])
  {
    hide Lower;
  }

  /** An update that keeps a name or an e-mail keeps it free of others. */
  lemma OwnTextsAreFree(stations: map<nat, Station>, id: nat)
    requires StationsDistinct(stations) && id in stations
    ensures !StationNameTaken(stations, stations[id].name, Some(id)) && !StationEmailTaken(stations, stations[id].email, Some(id))
  {
    hide Lower;
  }

  lemma StationsAfterStep(t: Tables, op: Op)
    requires Consistent(t) && (op.OpCreateStation? || op.OpUpdateStation? || op.OpDeleteStation?)
    ensures Consistent(Step(t, op).tables)
  {
    hide Lower, Trim, BranchesDistinct, AgentsDistinct, StationNameTaken, StationEmailTaken;
    if op.OpCreateStation? && Step(t, op).outcome.Done? {
      FreshIdIsNoException(t, Trimmed(op.station.name), Trimmed(op.station.email));
      StationsAfterPut(t.stations, t.nextStation, Step(t, op).tables.stations[t.nextStation]);
    } else if op.OpUpdateStation? && op.id in t.stations {
      OwnTextsAreFree(t.stations, op.id);
      if Step(t, op).outcome.Done? {
        StationsAfterPut(t.stations, op.id, Step(t, op).tables.stations[op.id]);
      }
    }
  }

  lemma FreshIdIsNoException(t: Tables, name: string, email: string)
    requires Consistent(t)
    ensures StationNameTaken(t.stations, name, None) == StationNameTaken(t.stations, name, Some(t.nextStation))
    ensures StationEmailTaken(t.stations, email, None) == StationEmailTaken(t.stations, email, Some(t.nextStation))
  {
    hide Lower;
  }

  lemma AgentsAfterStep(t: Tables, op: Op)
    requires Consistent(t) && (op.OpCreateAgent? || op.OpUpdateAgent? || op.OpAddAgents?)
    ensures Consistent(Step(t, op).tables)
  {
    hide Lower, Trim, BranchesDistinct, StationsDistinct, FindBranch;
  }

  lemma StepKeepsConsistent(t: Tables, op: Op)
    requires Consistent(t)
    ensures Consistent(Step(t, op).tables)
  {
    hide Consistent;
    match op
    case OpCreateBranch(b) => BranchesAfterCreate(t, b);
    case OpUpdateBranch(id, b) => BranchesAfterUpdate(t, id, b);
    case OpAddAgents(_, _) => AgentsAfterStep(t, op);
    case OpCreateStation(_) => StationsAfterStep(t, op);
    case OpUpdateStation(_, _) => StationsAfterStep(t, op);
    case OpDeleteStation(_) => StationsAfterStep(t, op);
    case OpCreateAgent(_, _, _, _) => AgentsAfterStep(t, op);
    case OpUpdateAgent(_, _, _, _, _) => AgentsAfterStep(t, op);
  }

  function TablesAfter(franchises: set<string>, ops: seq<Op>): Tables {
    if ops == [] then Tables([], map[], 0, [], franchises)
    else Step(TablesAfter(franchises, ops[..|ops| - 1]), ops[|ops| - 1]).tables
  }

  /**
   Over every sequence of operations of both services, branch names and e-mails, station names and
   e-mails, agent e-mails and phones stay pairwise distinct, and agents point to existing branches.
   */
  lemma {:induction false} UniqueOverRuns(franchises: set<string>, ops: seq<Op>)
    ensures Consistent(TablesAfter(franchises, ops))
  {
    if ops != [] {
      UniqueOverRuns(franchises, ops[..|ops| - 1]);
      StepKeepsConsistent(TablesAfter(franchises, ops[..|ops| - 1]), ops[|ops| - 1]);
    }
  }

  // ----- what the operations achieve

  /** A created branch is the one its name resolves to, in any case, and the agents created under it belong to it. */
  lemma CreatedBranchIsFound(t: Tables, b: BranchBody, spelling: string, name: string, email: string, phone: string)
    requires Consistent(t) && CreateBranch(t, b).outcome.Done? && SameFolded(spelling, TextOf(b.name)) && spelling != ""
    ensures var t' := CreateBranch(t, b).tables;
            && FindBranch(t'.branches, spelling) == Some(|t.branches|)
            && (CreateAgent(t', name, email, phone, spelling).outcome.Done? ==>
                  CreateAgent(t', name, email, phone, spelling).tables.agents == t'.agents + [Agent(name, email, phone, Some(|t.branches|))])
  {
    hide Trim, Lower;
  }

  predicate AgentFits(a: Agent, email: string, phone: string) {
    (email != "" && a.email == email) || (phone != "" && a.phone == phone)
  }

  /**
   The initial agent of a new branch, if a name is given: somebody with the e-mail or the phone is
   moved to the branch, and otherwise a new agent is added, but only if both are given.
   */
  lemma InitialAgentAttached(t: Tables, b: BranchBody, email: string, phone: string)
    requires Consistent(t) && CreateBranch(t, b).outcome.Done?
    requires email == Trimmed(b.agentEmail) && phone == Trimmed(b.agentPhone)
    ensures (exists a :: a in CreateBranch(t, b).tables.agents && a.branchId == Some(|t.branches|) && AgentFits(a, email, phone))
       <==> Trimmed(b.agentName) != "" && ((email != "" && phone != "") || (exists a :: a in t.agents && AgentFits(a, email, phone)))
  {
    hide Trim, Lower, FindAgent, BranchesDistinct, StationsDistinct, AgentsDistinct;
    var agents := CreateBranch(t, b).tables.agents;
    var found := FindAgent(t.agents, email, phone);
    FoundAgentFits(t.agents, email, phone);
    if Trimmed(b.agentName) == "" {
      assert agents == t.agents;
    } else if found.Some? {
      assert agents[found.value] in agents && t.agents[found.value] in t.agents;
      assert AgentFits(t.agents[found.value], email, phone) && AgentFits(agents[found.value], email, phone);
    } else {
      assert forall a :: a in t.agents ==> !AgentFits(a, email, phone);
      if email != "" && phone != "" {
        assert agents[|t.agents|] in agents && AgentFits(agents[|t.agents|], email, phone);
      } else {
        assert agents == t.agents;
      }
    }
  }

  lemma {:induction false} FoundAgentFits(agents: seq<Agent>, email: string, phone: string)
    ensures var i := FindAgent(agents, email, phone);
            i.Some? ==> AgentFits(agents[i.value], email, phone)
  {
    if agents != [] { FoundAgentFits(agents[..|agents| - 1], email, phone); }
  }
}
