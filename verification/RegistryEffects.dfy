/** Exactly when the operations of the registry succeed in consistent tables, and what can be read back afterwards. */
module RegistryEffects {
  import opened Text
  import opened RegistryModel
  import opened RegistryRuns

  // ----- the words of the statements below

  /** A field of a body is its text without the blanks at the ends, or empty if it is null or missing. */
  lemma TrimmedField(f: Field) returns (front: nat, back: nat)
    ensures f.Given? ==> IsTrimmed(f.text, front, back, Trimmed(f))
    ensures !f.Given? ==> Trimmed(f) == ""
  {
    if f.Given? {
      front, back := TrimIsTrimmed(f.text);
    } else {
      front, back := 0, 0;
    }
  }

  /** Names and e-mails are compared up to the case of ASCII letters. */
  lemma FoldedIff(a: string, b: string)
    ensures SameFolded(a, b) <==> SameUpToCase(a, b)
  {
    LowerIff(a, b);
  }

  predicate HasText(f: Field) {
    f.Given? && f.text != ""
  }

  predicate NonEmpty(text: Option<string>) {
    text.Some? && text.value != ""
  }

  /** Nobody but the agent with this id has the e-mail, or the phone number. */
  predicate EmailFree(agents: seq<Agent>, email: string, id: nat) {
    forall i :: 0 <= i < |agents| && i != id ==> agents[i].email != email
  }

  predicate PhoneFree(agents: seq<Agent>, phone: string, id: nat) {
    forall i :: 0 <= i < |agents| && i != id ==> agents[i].phone != phone
  }

  // ----- agents of a branch

  function AgentsOf(t: Tables, branchId: nat): set<nat> {
    set i | 0 <= i < |t.agents| && t.agents[i].branchId == Some(branchId)
  }

  function IdSet(ids: seq<nat>): set<nat> {
    set id | id in ids
  }

  /**
   Adding agents to a branch: if it and all of them exist the branch gets exactly them, every other
   branch loses exactly them, and nothing else changes; otherwise nothing changes at all.
   */
  lemma AddedAgentsMove(t: Tables, id: nat, agentIds: seq<nat>, other: nat)
    requires other != id
    ensures var r := AddAgentsToBranch(t, id, agentIds);
            && (r.outcome.Done? <==> id < |t.branches| && forall a :: a in agentIds ==> a < |t.agents|)
            && (r.outcome.Done? ==>
                  && AgentsOf(r.tables, id) == AgentsOf(t, id) + IdSet(agentIds)
                  && AgentsOf(r.tables, other) == AgentsOf(t, other) - IdSet(agentIds))
            && (!r.outcome.Done? ==> r == Reply(t, Failed(NotFound)))
            && r.tables == t.(agents := r.tables.agents) && |r.tables.agents| == |t.agents|
            && forall a :: 0 <= a < |t.agents| ==> r.tables.agents[a] == t.agents[a].(branchId := r.tables.agents[a].branchId)
  {
    var r := AddAgentsToBranch(t, id, agentIds);
    if a :| a in agentIds && a >= |t.agents| {
      var i :| 0 <= i < |agentIds| && agentIds[i] == a;
    }
    if i :| 0 <= i < |agentIds| && agentIds[i] >= |t.agents| {
      assert agentIds[i] in agentIds;
    }
    if r.outcome.Done? {
      assert forall a :: 0 <= a < |t.agents| ==>
          r.tables.agents[a] == if a in agentIds then t.agents[a].(branchId := Some(id)) else t.agents[a];
    }
  }

  // ----- stations

  /**
   A station is created exactly if its texts are given and no station has its name or its e-mail in
   any case. It gets an id that no station has, and deleting it leaves the stations of before.
   */
  lemma CreatedStationIsDeleted(t: Tables, b: StationBody)
    requires Consistent(t)
    ensures var r := CreateStation(t, b);
            && (r.outcome.Done? <==>
                  && HasText(b.name) && HasText(b.email) && b.complete
                  && (forall row :: row in t.stations.Values ==>
                        !SameFolded(row.name, Trimmed(b.name)) && !SameFolded(row.email, Trimmed(b.email))))
            && (r.outcome.Done? ==>
                  && r.outcome.id !in t.stations && r.outcome.id in r.tables.stations
                  && r.tables.stations[r.outcome.id] == Station(Trimmed(b.name), Trimmed(b.email), b.columns)
                  && DeleteStation(r.tables, r.outcome.id).tables.stations == t.stations
                  && r.tables == t.(stations := r.tables.stations, nextStation := r.tables.nextStation))
            && (!r.outcome.Done? ==> r == Reply(t, Failed(Validation)))
  {
    hide Trim, Lower;
    var r := CreateStation(t, b);
    if r.outcome.Done? {
      assert r.tables.stations - {t.nextStation} == t.stations;
    } else if i :| i in t.stations && (SameFolded(t.stations[i].name, Trimmed(b.name)) || SameFolded(t.stations[i].email, Trimmed(b.email))) {
      assert t.stations[i] in t.stations.Values;
    }
  }

  /** A deleted station frees its name and e-mail, in any case, and until then nobody else can have them. */
  lemma DeletedStationFreesTexts(t: Tables, id: nat, b: StationBody)
    requires Consistent(t) && id in t.stations && b.complete && HasText(b.name) && HasText(b.email)
    requires SameFolded(Trimmed(b.name), t.stations[id].name) && SameFolded(Trimmed(b.email), t.stations[id].email)
    ensures CreateStation(t, b).outcome == Failed(Validation)
    ensures CreateStation(DeleteStation(t, id).tables, b).outcome == Done(t.nextStation)
    ensures forall i :: i in t.stations && i != id ==>
              i in DeleteStation(t, id).tables.stations && DeleteStation(t, id).tables.stations[i] == t.stations[i]
    ensures DeleteStation(t, id).outcome == Done(id) && forall other :: other !in t.stations ==>
              DeleteStation(t, other) == Reply(t, Failed(NotFound))
  {
    hide Trim, Lower, BranchesDistinct, AgentsDistinct;
  }

  /** What a text of a body asks for: the trimmed text, or the present one if that is empty. */
  function Wanted(f: Field, present: string): string {
    if Trimmed(f) != "" then Trimmed(f) else present
  }

  /**
   An update of a station succeeds exactly if no other station has the wanted texts and something is
   to be changed. Then the station has the wanted texts up to case, and the others are as before.
   */
  lemma UpdatedStationReads(t: Tables, id: nat, b: StationBody)
    requires Consistent(t)
    ensures id !in t.stations ==> UpdateStation(t, id, b) == Reply(t, Failed(NotFound))
    ensures id in t.stations ==>
            var r, row := UpdateStation(t, id, b), t.stations[id];
            var name, email := Wanted(b.name, row.name), Wanted(b.email, row.email);
            && (r.outcome.Done? <==>
                  && (forall i :: i in t.stations && i != id ==>
                        !SameFolded(t.stations[i].name, name) && !SameFolded(t.stations[i].email, email))
                  && (!SameFolded(name, row.name) || !SameFolded(email, row.email) || b.columns != map[]))
            && r.tables == t.(stations := r.tables.stations) && r.tables.stations.Keys == t.stations.Keys
            && (forall i :: i in t.stations && i != id ==> r.tables.stations[i] == t.stations[i])
            && (r.outcome.Done? ==>
                  && r.tables.stations[id].name == (if SameFolded(name, row.name) then row.name else name)
                  && r.tables.stations[id].email == (if SameFolded(email, row.email) then row.email else email)
                  && r.tables.stations[id].columns == row.columns + b.columns)
            && (!r.outcome.Done? ==> r == Reply(t, Failed(Validation)))
  {
    hide Trim, Lower, StationNameTaken, StationEmailTaken, BranchesDistinct, AgentsDistinct;
    if id in t.stations {
      OwnTextsAreFree(t.stations, id);
      var row := t.stations[id];
      var name, email := Wanted(b.name, row.name), Wanted(b.email, row.email);
      FoldedNameTaken(t.stations, name, row.name, id);
      FoldedEmailTaken(t.stations, email, row.email, id);
      StationTakenIff(t.stations, name, email, id);
    }
  }

  lemma StationTakenIff(stations: map<nat, Station>, name: string, email: string, id: nat)
    ensures StationNameTaken(stations, name, Some(id)) || StationEmailTaken(stations, email, Some(id))
       <==> !forall i :: i in stations && i != id ==> !SameFolded(stations[i].name, name) && !SameFolded(stations[i].email, email)
  {
    hide SameFolded;
  }

  lemma FoldedNameTaken(stations: map<nat, Station>, a: string, b: string, id: nat)
    ensures SameFolded(a, b) ==> StationNameTaken(stations, a, Some(id)) == StationNameTaken(stations, b, Some(id))
  {
    hide Lower;
  }

  lemma FoldedEmailTaken(stations: map<nat, Station>, a: string, b: string, id: nat)
    ensures SameFolded(a, b) ==> StationEmailTaken(stations, a, Some(id)) == StationEmailTaken(stations, b, Some(id))
  {
    hide Lower;
  }

  // ----- branches

  /**
   The initial agent of a branch that nobody belongs to: at most one agent, whose contacts are the
   given ones, is moved to it or added with the given name; all others stay.
   */
  ghost predicate AttachesOne(before: seq<Agent>, after: seq<Agent>, id: nat, b: BranchBody) {
    && |before| <= |after| <= |before| + 1
    && (forall a, a' :: 0 <= a < a' < |after| && after[a].branchId == Some(id) ==> after[a'].branchId != Some(id))
    && (forall a :: 0 <= a < |after| && after[a].branchId == Some(id) ==>
          AgentFits(after[a], Trimmed(b.agentEmail), Trimmed(b.agentPhone)))
    && (forall a :: 0 <= a < |before| && after[a].branchId != Some(id) ==> after[a] == before[a])
    && (forall a :: 0 <= a < |before| ==> after[a] == before[a].(branchId := after[a].branchId))
    && (|after| > |before| ==>
          after[|before|] == Agent(Trimmed(b.agentName), Trimmed(b.agentEmail), Trimmed(b.agentPhone), Some(id)))
  }

  lemma AttachedOne(t: Tables, id: nat, b: BranchBody)
    requires forall a :: 0 <= a < |t.agents| ==> t.agents[a].branchId != Some(id)
    ensures AttachAgent(t, id, b) == t.(agents := AttachAgent(t, id, b).agents)
    ensures AttachesOne(t.agents, AttachAgent(t, id, b).agents, id, b)
  {
    hide Trim, FindAgent;
    FoundAgentFits(t.agents, Trimmed(b.agentEmail), Trimmed(b.agentPhone));
  }

  /** No branch has the name or, if one is given, the e-mail, in any case. */
  predicate BranchTextsFree(branches: seq<Branch>, b: BranchBody)
    requires b.name.Given?
  {
    && (forall row :: row in branches ==> !SameFolded(row.name, b.name.text))
    && (HasText(b.email) ==> forall row :: row in branches && row.email.Some? ==> !SameFolded(row.email.value, b.email.text))
  }

  /**
   A branch is created exactly if its texts are given, no branch has its name or its e-mail in any
   case, and its franchise exists. The row is added behind the others with at most one agent, and
   everything else stays.
   */
  lemma CreatedBranchReads(t: Tables, b: BranchBody)
    requires Consistent(t)
    ensures var r := CreateBranch(t, b);
            && (r.outcome.Done? <==>
                  && HasText(b.name) && b.complete && BranchTextsFree(t.branches, b)
                  && (b.franchiseId.Given? ==> b.franchiseId.text in t.franchises))
            && (r.outcome.Done? ==>
                  && r.outcome.id == |t.branches| && AttachesOne(t.agents, r.tables.agents, |t.branches|, b)
                  && r.tables == t.(agents := r.tables.agents,
                       branches := t.branches + [Branch(b.name.text, if b.email.Given? then Some(b.email.text) else None,
                                                        if b.franchiseId.Given? then Some(b.franchiseId.text) else None, b.columns)]))
            && (!r.outcome.Done? ==>
                  r == Reply(t, Failed(if HasText(b.name) && b.complete && BranchTextsFree(t.branches, b) then Database else Validation)))
  {
    hide SameFolded, AttachAgent, AttachesOne, BranchesDistinct, StationsDistinct, AgentsDistinct;
    if b.name.Given? {
      TextsFreeIff(t.branches, b);
    }
    var row := Branch(TextOf(b.name), OptionOf(b.email), OptionOf(b.franchiseId), b.columns);
    AttachedOne(t.(branches := t.branches + [row]), |t.branches|, b);
  }

  lemma TextsFreeIff(branches: seq<Branch>, b: BranchBody)
    requires b.name.Given?
    ensures BranchTextsFree(branches, b)
       <==> !BranchNameTaken(branches, b.name.text, None) && (HasText(b.email) ==> !BranchEmailTaken(branches, b.email.text, None))
  {
    hide SameFolded;
    if BranchTextsFree(branches, b) {
      assert forall i :: 0 <= i < |branches| ==> branches[i] in branches;
    }
  }

  /** What a field asks for in a column that may be null: null, the trimmed text, or no change if that is empty. */
  function Chosen(f: Field, present: Option<string>): Option<string> {
    if f.Null? then None else if Trimmed(f) != "" then Some(Trimmed(f)) else present
  }

  /** No other branch has the name or, if it is not empty, the e-mail, in any case. */
  predicate NoOtherHas(branches: seq<Branch>, id: nat, name: string, email: string) {
    && (forall i :: 0 <= i < |branches| && i != id ==> !SameFolded(branches[i].name, name))
    && (email != "" ==>
          forall i :: 0 <= i < |branches| && i != id && branches[i].email.Some? ==> !SameFolded(branches[i].email.value, email))
  }

  /** Something an update of a branch has to write. */
  predicate AsksForChange(row: Branch, b: BranchBody) {
    || !SameFolded(Wanted(b.name, row.name), row.name)
    || Trimmed(b.email) != "" || b.email.Null? || Trimmed(b.franchiseId) != "" || b.franchiseId.Null? || b.columns != map[]
  }

  /**
   An update of a branch succeeds exactly if no other branch has the wanted name or a given e-mail,
   a given franchise exists, and something is to be written. Then the wanted name leads to this
   branch and to no other, and all other rows are as before.
   */
  lemma UpdatedBranchReads(t: Tables, id: nat, b: BranchBody)
    requires Consistent(t)
    ensures id >= |t.branches| ==> UpdateBranch(t, id, b) == Reply(t, Failed(NotFound))
    ensures id < |t.branches| ==>
            var r, row := UpdateBranch(t, id, b), t.branches[id];
            var name := Wanted(b.name, row.name);
            && (r.outcome.Done? <==>
                  && NoOtherHas(t.branches, id, name, Trimmed(b.email))
                  && (Trimmed(b.franchiseId) != "" ==> Trimmed(b.franchiseId) in t.franchises)
                  && AsksForChange(row, b))
            && (r.outcome.Done? ==>
                  && FindBranch(r.tables.branches, name) == Some(id)
                  && r.tables.branches[id].name == (if SameFolded(name, row.name) then row.name else name)
                  && r.tables.branches[id].email == Chosen(b.email, row.email)
                  && r.tables.branches[id].franchiseId == Chosen(b.franchiseId, row.franchiseId)
                  && r.tables.branches[id].columns == row.columns + b.columns
                  && r.tables == t.(branches := t.branches[id := r.tables.branches[id]]))
            && (!r.outcome.Done? ==> r.tables == t)
            && (!r.outcome.Done? ==> r.outcome == Failed(if NoOtherHas(t.branches, id, name, Trimmed(b.email))
                  && Trimmed(b.franchiseId) != "" && Trimmed(b.franchiseId) !in t.franchises then NotFound else Validation))
  {
    hide Trim, Lower, StationsDistinct, AgentsDistinct, FindBranch, BranchNameTaken, BranchEmailTaken;
    if id < |t.branches| {
      var r, row := UpdateBranch(t, id, b), t.branches[id];
      var name := Wanted(b.name, row.name);
      BranchTakenIff(t.branches, name, Trimmed(b.email), id);
      if SameFolded(name, row.name) {
        OwnNameIsFree(t.branches, id, name);
      }
      if r.outcome.Done? {
        BranchesAfterUpdate(t, id, b);
        OnlyNamesake(r.tables.branches, id, name);
      }
    }
  }

  lemma BranchTakenIff(branches: seq<Branch>, name: string, email: string, id: nat)
    ensures BranchNameTaken(branches, name, Some(id))
       <==> !forall i :: 0 <= i < |branches| && i != id ==> !SameFolded(branches[i].name, name)
    ensures BranchEmailTaken(branches, email, Some(id))
       <==> !forall i :: 0 <= i < |branches| && i != id && branches[i].email.Some? ==> !SameFolded(branches[i].email.value, email)
  {
    hide SameFolded;
  }

  lemma OwnNameIsFree(branches: seq<Branch>, id: nat, name: string)
    requires BranchesDistinct(branches) && id < |branches| && SameFolded(name, branches[id].name)
    ensures !BranchNameTaken(branches, name, Some(id))
  {
    hide Lower;
  }

  lemma OnlyNamesake(branches: seq<Branch>, id: nat, name: string)
    requires BranchesDistinct(branches) && id < |branches| && SameFolded(name, branches[id].name)
    ensures FindBranch(branches, name) == Some(id)
  {
    hide Lower;
  }

  // ----- agents

  /**
   A new agent needs all four texts, free contacts and the name of a branch in any case. Then each
   contact alone leads to the agent, whose branch has that name.
   */
  lemma CreatedAgentIsFound(t: Tables, name: string, email: string, phone: string, branch: string)
    ensures var r := CreateAgent(t, name, email, phone, branch);
            && (r.outcome.Done? <==>
                  && name != "" && email != "" && phone != "" && branch != ""
                  && (forall a :: a in t.agents ==> a.email != email && a.phone != phone)
                  && (exists b :: b in t.branches && SameFolded(b.name, branch)))
            && (r.outcome.Done? ==>
                  && FindAgent(r.tables.agents, email, "") == Some(|t.agents|) && FindAgent(r.tables.agents, "", phone) == Some(|t.agents|)
                  && r.tables == t.(agents := t.agents + [r.tables.agents[|t.agents|]]) && r.tables.agents[|t.agents|].name == name
                  && var b := r.tables.agents[|t.agents|].branchId;
                     b.Some? && b.value < |t.branches| && SameFolded(t.branches[b.value].name, branch))
            && (!r.outcome.Done? ==> r == Reply(t, Failed(Validation)))
  {
    hide Lower, FindBranch, FindAgent;
    var r := CreateAgent(t, name, email, phone, branch);
    var found := FindBranch(t.branches, branch);
    if found.Some? {
      assert t.branches[found.value] in t.branches;
    }
    if AgentEmailTaken(t.agents, email, None) {
      var i :| 0 <= i < |t.agents| && t.agents[i].email == email;
      assert t.agents[i] in t.agents;
    } else if AgentPhoneTaken(t.agents, phone, None) {
      var i :| 0 <= i < |t.agents| && t.agents[i].phone == phone;
      assert t.agents[i] in t.agents;
    } else if r.outcome.Done? {
      OnlyLastFits(r.tables.agents, email, "");
      OnlyLastFits(r.tables.agents, "", phone);
    }
  }

  lemma OnlyLastFits(agents: seq<Agent>, email: string, phone: string)
    requires agents != [] && AgentFits(agents[|agents| - 1], email, phone)
    requires forall i :: 0 <= i < |agents| - 1 ==> !AgentFits(agents[i], email, phone)
    ensures FindAgent(agents, email, phone) == Some(|agents| - 1)
  {
    var front := agents[..|agents| - 1];
    FoundAgentFits(front, email, phone);
    assert forall i :: 0 <= i < |front| ==> front[i] == agents[i];
  }

  /** The request of an update names a branch that exists, if any, and asks for something. */
  predicate UpdateIsProper(t: Tables, id: nat, name: Option<string>, email: Option<string>, phone: Option<string>, branch: Option<string>) {
    && (NonEmpty(name) || NonEmpty(email) || NonEmpty(phone) || NonEmpty(branch))
    && id < |t.agents| && (NonEmpty(branch) ==> exists b :: b in t.branches && SameFolded(b.name, branch.value))
  }

  /** What a given text leaves in a column; the others leave it as it is. */
  function Written(text: Option<string>, present: string): string {
    if text.Some? then text.value else present
  }

  /** An update of an agent succeeds exactly if it is proper and no other agent has a given e-mail or phone, even an empty one. */
  lemma UpdatedAgentReads(t: Tables, id: nat, name: Option<string>, email: Option<string>, phone: Option<string>, branch: Option<string>)
    requires Consistent(t)
    ensures var r := UpdateAgent(t, id, name, email, phone, branch);
            && (r.outcome.Done? <==>
                  && UpdateIsProper(t, id, name, email, phone, branch)
                  && (email.Some? ==> EmailFree(t.agents, email.value, id))
                  && (phone.Some? ==> PhoneFree(t.agents, phone.value, id)))
            && (r.outcome.Done? ==>
                  && r.tables == t.(agents := t.agents[id := r.tables.agents[id]])
                  && r.tables.agents[id].name == Written(name, t.agents[id].name)
                  && r.tables.agents[id].email == Written(email, t.agents[id].email)
                  && r.tables.agents[id].phone == Written(phone, t.agents[id].phone)
                  && (if !NonEmpty(branch) then r.tables.agents[id].branchId == t.agents[id].branchId
                      else var b := r.tables.agents[id].branchId;
                           b.Some? && b.value < |t.branches| && SameFolded(t.branches[b.value].name, branch.value)))
            && (!r.outcome.Done? ==> r.tables == t)
            && (r.outcome == Failed(NotFound) ==> id >= |t.agents|)
            && (id >= |t.agents| && (NonEmpty(name) || NonEmpty(email) || NonEmpty(phone) || NonEmpty(branch)) ==>
                  r.outcome == Failed(NotFound))
  {
    hide Lower, Trim, FindBranch, SameFolded, BranchesDistinct, StationsDistinct;
    BranchFoundIff(t.branches, OrEmpty(branch));
  }

  /**
   The unique columns of the agent table are reached past the service's own checks exactly by a
   proper update with free contacts that writes an empty e-mail or phone which another agent has.
   Callers of the service other than the present controller could pass such a text.
   */
  lemma DatabaseConflictIff(t: Tables, id: nat, name: Option<string>, email: Option<string>, phone: Option<string>, branch: Option<string>)
    requires Consistent(t)
    ensures UpdateAgent(t, id, name, email, phone, branch).outcome == Failed(Database)
       <==> && UpdateIsProper(t, id, name, email, phone, branch)
            && (NonEmpty(email) ==> EmailFree(t.agents, email.value, id))
            && (NonEmpty(phone) ==> PhoneFree(t.agents, phone.value, id))
            && ((email == Some("") && !EmailFree(t.agents, "", id)) ||
                (phone == Some("") && !PhoneFree(t.agents, "", id)))
  {
    hide Lower, Trim, FindBranch, SameFolded;
    BranchFoundIff(t.branches, OrEmpty(branch));
  }

  /**
   The controller never passes an empty text on, so no request reaches the conflict: it succeeds
   exactly if it names something, the agent and the branch exist and the contacts are free.
   */
  lemma RequestsNeverConflict(t: Tables, id: nat, name: Field, email: Field, phone: Field, branch: Field)
    requires Consistent(t)
    ensures var r := RequestUpdate(t, id, name, email, phone, branch);
            && r.outcome != Failed(Database)
            && (r.outcome.Done? <==>
                  && (Trimmed(name) != "" || Trimmed(email) != "" || Trimmed(phone) != "" || Trimmed(branch) != "")
                  && id < |t.agents|
                  && (Trimmed(email) != "" ==> EmailFree(t.agents, Trimmed(email), id))
                  && (Trimmed(phone) != "" ==> PhoneFree(t.agents, Trimmed(phone), id))
                  && (Trimmed(branch) != "" ==> exists b :: b in t.branches && SameFolded(b.name, Trimmed(branch))))
            && (r.outcome.Done? ==>
                  && r.tables == t.(agents := t.agents[id := r.tables.agents[id]])
                  && r.tables.agents[id].name == Wanted(name, t.agents[id].name)
                  && r.tables.agents[id].email == Wanted(email, t.agents[id].email)
                  && r.tables.agents[id].phone == Wanted(phone, t.agents[id].phone))
  {
    hide UpdateAgent, NormalizeOptionalText, Trimmed, SameFolded, Consistent, FindBranch, EmailFree, PhoneFree;
    var name', email', phone', branch' :=
      NormalizeOptionalText(name), NormalizeOptionalText(email), NormalizeOptionalText(phone), NormalizeOptionalText(branch);
    Normalized(name);
    Normalized(email);
    Normalized(phone);
    Normalized(branch);
    DatabaseConflictIff(t, id, name', email', phone', branch');
    UpdatedAgentReads(t, id, name', email', phone', branch');
    BranchFoundIff(t.branches, Trimmed(branch));
  }

  lemma Normalized(f: Field)
    ensures NormalizeOptionalText(f) != Some("") && OrEmpty(NormalizeOptionalText(f)) == Trimmed(f)
  {
  }

  lemma BranchFoundIff(branches: seq<Branch>, name: string)
    ensures FindBranch(branches, name).Some? <==> exists b :: b in branches && SameFolded(b.name, name)
  {
    hide FindBranch, SameFolded;
    if b :| b in branches && SameFolded(b.name, name) {
      var i :| 0 <= i < |branches| && branches[i] == b;
    }
  }

  /** Once an agent has an empty e-mail, every other agent that is to have one runs into the conflict. */
  lemma SecondEmptyEmailFails(t: Tables, i: nat, j: nat, name: string)
    requires Consistent(t) && i < |t.agents| && j < |t.agents| && i != j && name != ""
    requires forall a :: a in t.agents ==> a.email != ""
    ensures var r := UpdateAgent(t, i, Some(name), Some(""), None, None);
            r.outcome.Done? && UpdateAgent(r.tables, j, Some(name), Some(""), None, None).outcome == Failed(Database)
  {
    hide Consistent, WriteAgent, FindBranch;
    UpdatedAgentReads(t, i, Some(name), Some(""), None, None);
    var t' := UpdateAgent(t, i, Some(name), Some(""), None, None).tables;
    AgentsAfterStep(t, OpUpdateAgent(i, Some(name), Some(""), None, None));
    assert t'.agents[i].email == "";
    DatabaseConflictIff(t', j, Some(name), Some(""), None, None);
  }

  lemma OneMore(franchises: set<string>, ops: seq<Op>, op: Op)
    ensures TablesAfter(franchises, ops + [op]) == Step(TablesAfter(franchises, ops), op).tables
  {
    assert (ops + [op])[..|ops|] == ops;
  }

  lemma FirstBranch(t: Tables, b: BranchBody)
    requires t.branches == [] && b == BranchBody(Given("B"), Absent, true, Absent, map[], Absent, Absent, Absent)
    ensures CreateBranch(t, b).tables == t.(branches := [Branch("B", None, None, map[])])
  {
  }

  lemma OneMoreAgent(t: Tables, name: string, email: string, phone: string)
    requires t.branches == [Branch("B", None, None, map[])] && name != "" && email != "" && phone != ""
    requires forall a :: a in t.agents ==> a.email != email && a.phone != phone
    ensures CreateAgent(t, name, email, phone, "B").tables == t.(agents := t.agents + [Agent(name, email, phone, Some(0))])
  {
    hide Lower;
    assert SameFolded(t.branches[0].name, "B");
    CreatedAgentIsFound(t, name, email, phone, "B");
  }

  /** A run of five operations reaches the conflict. */
  lemma DatabaseConflictHappens() returns (ops: seq<Op>, last: Op)
    ensures |ops| == 4 && Step(TablesAfter({}, ops), last).outcome == Failed(Database)
  {
    hide CreateBranch, CreateAgent, UpdateAgent, TablesAfter, Consistent;
    var create := OpCreateBranch(BranchBody(Given("B"), Absent, true, Absent, map[], Absent, Absent, Absent));
    var first, second := OpCreateAgent("A", "a", "1", "B"), OpCreateAgent("C", "c", "2", "B");
    var empty := OpUpdateAgent(0, Some("X"), Some(""), None, None);
    last := OpUpdateAgent(1, Some("X"), Some(""), None, None);
    NoOps();
    FirstBranch(Tables([], map[], 0, [], {}), create.body);
    OneMore({}, [], create);
    assert [] + [create] == [create];
    OneMore({}, [create], first);
    OneMoreAgent(TablesAfter({}, [create]), "A", "a", "1");
    var setUp := [create] + [first] + [second];
    OneMore({}, [create] + [first], second);
    OneMoreAgent(TablesAfter({}, [create] + [first]), "C", "c", "2");
    OneMore({}, setUp, empty);
    UniqueOverRuns({}, setUp);
    SecondEmptyEmailFails(TablesAfter({}, setUp), 0, 1, "X");
    ops := setUp + [empty];
  }

  lemma NoOps()
    ensures TablesAfter({}, []) == Tables([], map[], 0, [], {})
  {
  }
}
