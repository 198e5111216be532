/** The outlet and agent services over the shared tables; updates gather a patch before they write. */
module RegistryService {
  import opened Text
  import opened RegistryModel

  class Registry {
    var branches: seq<Branch>
    var stations: map<nat, Station>
    var nextStation: nat
    var agents: seq<Agent>
    const franchises: set<string>

    ghost function Abs(): Tables
      reads this
    {
      Tables(branches, stations, nextStation, agents, franchises)
    }

    constructor (franchises: set<string>)
      ensures Abs() == Tables([], map[], 0, [], franchises)
    {
      branches, stations, nextStation, agents := [], map[], 0, [];
      this.franchises := franchises;
    }

    method AttachInitialAgent(branchId: nat, b: BranchBody)
      modifies this`agents
      ensures Abs() == old(AttachAgent(Abs(), branchId, b))
    {
      var name, email, phone := Trimmed(b.agentName), Trimmed(b.agentEmail), Trimmed(b.agentPhone);
      if name != "" && (email != "" || phone != "") {
        var existing := FindAgent(agents, email, phone);
        if existing.Some? {
          agents := agents[existing.value := agents[existing.value].(branchId := Some(branchId))];
        } else if email != "" && phone != "" {
          agents := agents + [Agent(name, email, phone, Some(branchId))];
        }
      }
    }

    method CreateBranch(b: BranchBody) returns (outcome: Outcome)
      modifies this
      ensures Reply(Abs(), outcome) == old(RegistryModel.CreateBranch(Abs(), b))
    {
      var name, email := TextOf(b.name), TextOf(b.email);
      if name == "" || !b.complete { return Failed(Validation); }
      if BranchNameTaken(branches, name, None) { return Failed(Validation); }
      if email != "" {
        if BranchEmailTaken(branches, email, None) { return Failed(Validation); }
      }
      if b.franchiseId.Given? && b.franchiseId.text !in franchises { return Failed(Database); }
      var id := |branches|;
      branches := branches + [Branch(name, OptionOf(b.email), OptionOf(b.franchiseId), b.columns)];
      AttachInitialAgent(id, b);
      return Done(id);
    }

    method UpdateBranch(id: nat, b: BranchBody) returns (outcome: Outcome)
      modifies this
      ensures Reply(Abs(), outcome) == old(RegistryModel.UpdateBranch(Abs(), id, b))
    {
      if id >= |branches| { return Failed(NotFound); }
      var row := branches[id];
      var patch := EMPTY_PATCH;
      var name, email := Trimmed(b.name), Trimmed(b.email);
      if name != "" && Lower(name) != Lower(row.name) {
        if BranchNameTaken(branches, name, Some(id)) { return Failed(Validation); }
        patch := patch.(name := Some(name));
      }
      if email != "" {
        if BranchEmailTaken(branches, email, Some(id)) { return Failed(Validation); }
        patch := patch.(email := Some(Some(email)));
      } else if b.email.Null? {
        patch := patch.(email := Some(None));
      }
      patch := patch.(columns := b.columns);
      var franchise := Trimmed(b.franchiseId);
      if franchise != "" {
        if franchise !in franchises { return Failed(NotFound); }
        patch := patch.(franchiseId := Some(Some(franchise)));
      } else if b.franchiseId.Null? {
        patch := patch.(franchiseId := Some(None));
      }
      if patch == EMPTY_PATCH { return Failed(Validation); }
      branches := branches[id := Patched(row, patch)];
      return Done(id);
    }

    method AddAgentsToBranch(id: nat, agentIds: seq<nat>) returns (outcome: Outcome)
      modifies this
      ensures Reply(Abs(), outcome) == old(RegistryModel.AddAgentsToBranch(Abs(), id, agentIds))
    {
      if id >= |branches| { return Failed(NotFound); }
      if agentIds == [] { return Done(id); }
      if exists i :: 0 <= i < |agentIds| && agentIds[i] >= |agents| { return Failed(NotFound); }
      agents := Attached(agents, agentIds, id);
      return Done(id);
    }

    method CreatePickupStation(b: StationBody) returns (outcome: Outcome)
      modifies this
      ensures Reply(Abs(), outcome) == old(CreateStation(Abs(), b))
    {
      if TextOf(b.name) == "" || TextOf(b.email) == "" || !b.complete { return Failed(Validation); }
      var name, email := Trimmed(b.name), Trimmed(b.email);
      if StationNameTaken(stations, name, None) { return Failed(Validation); }
      if StationEmailTaken(stations, email, None) { return Failed(Validation); }
      outcome := Done(nextStation);
      stations := stations[nextStation := Station(name, email, b.columns)];
      nextStation := nextStation + 1;
    }

    method UpdatePickupStation(id: nat, b: StationBody) returns (outcome: Outcome)
      modifies this
      ensures Reply(Abs(), outcome) == old(UpdateStation(Abs(), id, b))
    {
      if id !in stations { return Failed(NotFound); }
      var row := stations[id];
      var patched := row;
      var changed := false;
      var name, email := Trimmed(b.name), Trimmed(b.email);
      if name != "" && Lower(name) != Lower(row.name) {
        if StationNameTaken(stations, name, Some(id)) { return Failed(Validation); }
        patched, changed := patched.(name := name), true;
      }
      if email != "" && Lower(email) != Lower(row.email) {
        if StationEmailTaken(stations, email, Some(id)) { return Failed(Validation); }
        patched, changed := patched.(email := email), true;
      }
      if b.columns != map[] {
        changed := true;
      }
      if !changed { return Failed(Validation); }
      stations := stations[id := patched.(columns := row.columns + b.columns)];
      return Done(id);
    }

    method DeletePickupStation(id: nat) returns (outcome: Outcome)
      modifies this
      ensures Reply(Abs(), outcome) == old(DeleteStation(Abs(), id))
    {
      if id !in stations { return Failed(NotFound); }
      stations := stations - {id};
      return Done(id);
    }

    method CreateAgent(name: string, email: string, phone: string, branch: string) returns (outcome: Outcome)
      modifies this
      ensures Reply(Abs(), outcome) == old(RegistryModel.CreateAgent(Abs(), name, email, phone, branch))
    {
      if name == "" || email == "" || phone == "" || branch == "" { return Failed(Validation); }
      var existing := FindAgent(agents, email, phone);
      FindAgentIff(agents, email, phone);
      if existing.Some? { return Failed(Validation); }
      var found := FindBranch(branches, branch);
      if found.None? { return Failed(Validation); }
      outcome := Done(|agents|);
      agents := agents + [Agent(name, email, phone, found)];
    }

    method WriteRow(id: nat, row: Agent) returns (outcome: Outcome)
      requires id < |agents|
      modifies this`agents
      ensures Reply(Abs(), outcome) == old(WriteAgent(Abs(), id, row))
    {
      if AgentEmailTaken(agents, row.email, Some(id)) || AgentPhoneTaken(agents, row.phone, Some(id)) { return Failed(Database); }
      agents := agents[id := row];
      return Done(id);
    }

    method UpdateAgent(id: nat, name: Option<string>, email: Option<string>, phone: Option<string>, branch: Option<string>)
      returns (outcome: Outcome)
      modifies this
      ensures Reply(Abs(), outcome) == old(RegistryModel.UpdateAgent(Abs(), id, name, email, phone, branch))
    {
      hide Lower, FindBranch, AgentEmailTaken, AgentPhoneTaken, WriteAgent;
      if OrEmpty(name) == "" && OrEmpty(email) == "" && OrEmpty(phone) == "" && OrEmpty(branch) == "" { return Failed(Validation); }
      if id >= |agents| { return Failed(NotFound); }
      if OrEmpty(email) != "" {
        if AgentEmailTaken(agents, email.value, Some(id)) { return Failed(Validation); }
      }
      if OrEmpty(phone) != "" {
        if AgentPhoneTaken(agents, phone.value, Some(id)) { return Failed(Validation); }
      }
      var row := agents[id];
      if OrEmpty(branch) != "" {
        var found := FindBranch(branches, branch.value);
        if found.None? { return Failed(Validation); }
        row := row.(branchId := found);
      }
      if name.Some? { row := row.(name := name.value); }
      if email.Some? { row := row.(email := email.value); }
      if phone.Some? { row := row.(phone := phone.value); }
      outcome := WriteRow(id, row);
    }
  }

  /** The lookup finds somebody exactly when the e-mail or the phone number is taken. */
  lemma {:induction false} FindAgentIff(agents: seq<Agent>, email: string, phone: string)
    requires email != "" && phone != ""
    ensures FindAgent(agents, email, phone).Some?
       <==> AgentEmailTaken(agents, email, None) || AgentPhoneTaken(agents, phone, None)
  {
    if agents != [] {
      var front, last := agents[..|agents| - 1], |agents| - 1;
      FindAgentIff(front, email, phone);
      if AgentEmailTaken(agents, email, None) && agents[last].email != email {
        var i :| 0 <= i < |agents| && agents[i].email == email;
        assert front[i].email == email;
      }
      if AgentPhoneTaken(agents, phone, None) && agents[last].phone != phone {
        var i :| 0 <= i < |agents| && agents[i].phone == phone;
        assert front[i].phone == phone;
      }
      if FindAgent(front, email, phone).Some? {
        if AgentEmailTaken(front, email, None) {
          var i :| 0 <= i < |front| && front[i].email == email;
          assert agents[i].email == email;
        } else {
          var i :| 0 <= i < |front| && front[i].phone == phone;
          assert agents[i].phone == phone;
        }
      }
    }
  }
}
