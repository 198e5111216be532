/**
 Workflow templates over three tables. Writes are not in a transaction: an assignee that the
 database refuses (unknown admin, or assigned to the stage already) ends the call and leaves
 what has been written so far.
 */
module WorkflowModel {
  import opened Text
  import opened Decimal

  datatype TemplateType = REVIEW | APPROVAL
  datatype TemplateStatus = ACTIVE | DRAFT | ARCHIVED

  datatype Template = Template(
    id: nat, name: string, kind: TemplateType, departmentId: Option<string>, escalationMinutes: int,
    hasPtaRequest: bool, status: TemplateStatus, createdBy: string)

  datatype Stage = Stage(id: nat, templateId: nat, name: string, escalationMinutes: int, order: nat)
  datatype Assignee = Assignee(stageId: nat, adminId: string)

  /** The tables, the ids that foreign keys may point to, and the next fresh id. */
  datatype Store = Store(
    templates: seq<Template>, stages: seq<Stage>, assignees: seq<Assignee>,
    admins: set<string>, departments: set<string>, nextId: nat)

  /** The request body; empty texts and missing numbers are replaced by defaults. */
  datatype StageInput = StageInput(name: string, escalationMinutes: Option<int>, assignees: Option<seq<string>>)
  datatype Payload = Payload(
    name: Option<string>, kind: Option<TemplateType>, departmentId: string, escalationMinutes: Option<int>,
    hasPtaRequest: bool, stages: Option<seq<StageInput>>)

  datatype Error = InvalidInput | MissingRow | Refused
  datatype Outcome = Done(id: nat) | Failed(error: Error)
  datatype Reply = Reply(store: Store, outcome: Outcome)

  function OrZero(n: Option<int>): int {
    if n.Some? then n.value else 0
  }

  function DepartmentOf(p: Payload): Option<string> {
    if p.departmentId == "" then None else Some(p.departmentId)
  }

  predicate DepartmentExists(s: Store, p: Payload) {
    DepartmentOf(p).Some? ==> DepartmentOf(p).value in s.departments
  }

  function AssigneesIn(st: StageInput): seq<string> {
    if st.assignees.Some? then st.assignees.value else []
  }

  function StageName(st: StageInput, order: nat): string {
    if st.name != "" then st.name else "Stage " + Show(order)
  }

  // ----- writing

  datatype Written = Written(store: Store, ok: bool)

  function AddAssignee(s: Store, stageId: nat, adminId: string): Written {
    var row := Assignee(stageId, adminId);
    if adminId !in s.admins || row in s.assignees then Written(s, false)
    else Written(s.(assignees := s.assignees + [row]), true)
  }

  /** The first k assignees of a list, up to the first refusal. */
  function AddAssignees(s: Store, stageId: nat, list: seq<string>, k: nat): Written
    requires k <= |list|
  {
    if k == 0 then Written(s, true)
    else
      var w := AddAssignees(s, stageId, list, k - 1);
      if w.ok then AddAssignee(w.store, stageId, list[k - 1]) else w
  }

  function AddStage(s: Store, templateId: nat, st: StageInput, order: nat): Written {
    var row := Stage(s.nextId, templateId, StageName(st, order), OrZero(st.escalationMinutes), order);
    AddAssignees(s.(stages := s.stages + [row], nextId := s.nextId + 1), row.id, AssigneesIn(st), |AssigneesIn(st)|)
  }

  /** The first k stages of a request, up to the first refusal. */
  function AddStages(s: Store, templateId: nat, stages: seq<StageInput>, k: nat): Written
    requires k <= |stages|
  {
    if k == 0 then Written(s, true)
    else
      var w := AddStages(s, templateId, stages, k - 1);
      if w.ok then AddStage(w.store, templateId, stages[k - 1], k) else w
  }

  function AddAll(s: Store, templateId: nat, stages: Option<seq<StageInput>>): Reply {
    var w := if stages.Some? then AddStages(s, templateId, stages.value, |stages.value|) else Written(s, true);
    Reply(w.store, if w.ok then Done(templateId) else Failed(Refused))
  }

  /** createTemplate and saveDraft differ in the status only. */
  function Create(s: Store, p: Payload, adminId: string, status: TemplateStatus): Reply {
    if p.name.None? || p.kind.None? then Reply(s, Failed(InvalidInput))
    else if adminId !in s.admins || !DepartmentExists(s, p) then Reply(s, Failed(Refused))
    else
      var row := Template(s.nextId, p.name.value, p.kind.value, DepartmentOf(p), OrZero(p.escalationMinutes),
                          p.hasPtaRequest, status, adminId);
      AddAll(s.(templates := s.templates + [row], nextId := s.nextId + 1), row.id, p.stages)
  }

  function FindTemplate(templates: seq<Template>, id: nat): (r: Option<nat>)
    ensures r.Some? ==> r.value < |templates| && templates[r.value].id == id
    ensures r.None? ==> forall i :: 0 <= i < |templates| ==> templates[i].id != id
  {
    if templates == [] then None
    else if templates[|templates| - 1].id == id then Some(|templates| - 1)
    else FindTemplate(templates[..|templates| - 1], id)
  }

  function OtherStages(stages: seq<Stage>, templateId: nat): seq<Stage> {
    if stages == [] then []
    else
      var rest := OtherStages(stages[..|stages| - 1], templateId);
      if stages[|stages| - 1].templateId == templateId then rest else rest + [stages[|stages| - 1]]
  }

  function AssigneesWithStage(assignees: seq<Assignee>, stageIds: set<nat>): seq<Assignee> {
    if assignees == [] then []
    else
      var rest := AssigneesWithStage(assignees[..|assignees| - 1], stageIds);
      if assignees[|assignees| - 1].stageId in stageIds then rest + [assignees[|assignees| - 1]] else rest
  }

  function StageIds(stages: seq<Stage>): set<nat> {
    set i | 0 <= i < |stages| :: stages[i].id
  }

  /** Deleting the stages of a template deletes their assignees too. */
  function DeleteStages(s: Store, templateId: nat): Store {
    var kept := OtherStages(s.stages, templateId);
    s.(stages := kept, assignees := AssigneesWithStage(s.assignees, StageIds(kept)))
  }

  /** A missing name or type is left as it is; the other columns get their defaults. */
  function Edited(t: Template, p: Payload): Template {
    t.(name := if p.name.Some? then p.name.value else t.name,
       kind := if p.kind.Some? then p.kind.value else t.kind,
       departmentId := DepartmentOf(p), escalationMinutes := OrZero(p.escalationMinutes), hasPtaRequest := p.hasPtaRequest)
  }

  function Update(s: Store, id: nat, p: Payload): Reply {
    var t := FindTemplate(s.templates, id);
    if t.None? then Reply(s, Failed(MissingRow))
    else if !DepartmentExists(s, p) then Reply(s, Failed(Refused))
    else
      var edited := s.(templates := s.templates[t.value := Edited(s.templates[t.value], p)]);
      if p.stages.None? then Reply(edited, Done(id)) else AddAll(DeleteStages(edited, id), id, p.stages)
  }

  function Publish(s: Store, id: nat): Reply {
    var t := FindTemplate(s.templates, id);
    if t.None? then Reply(s, Failed(MissingRow))
    else Reply(s.(templates := s.templates[t.value := s.templates[t.value].(status := ACTIVE)]), Done(id))
  }

  // ----- reading

  datatype Header = Header(
    id: nat, name: string, kind: TemplateType, status: TemplateStatus, escalationMinutes: int,
    hasPtaRequest: bool, departmentId: Option<string>)

  /** A stage as it is read: its assignees come in no particular order. */
  datatype StageView = StageView(id: nat, name: string, escalationMinutes: int, order: nat, assignees: multiset<string>)
  datatype TemplateView = TemplateView(header: Option<Header>, stages: seq<StageView>)

  function HeaderOf(t: Template): Header {
    Header(t.id, t.name, t.kind, t.status, t.escalationMinutes, t.hasPtaRequest, t.departmentId)
  }

  function StagesOf(stages: seq<Stage>, templateId: nat): seq<Stage> {
    if stages == [] then []
    else
      var rest := StagesOf(stages[..|stages| - 1], templateId);
      if stages[|stages| - 1].templateId == templateId then rest + [stages[|stages| - 1]] else rest
  }

  function AssigneesOf(assignees: seq<Assignee>, stageId: nat): multiset<string> {
    if assignees == [] then multiset{}
    else
      var rest := AssigneesOf(assignees[..|assignees| - 1], stageId);
      if assignees[|assignees| - 1].stageId == stageId then rest + multiset{assignees[|assignees| - 1].adminId} else rest
  }

  /** orderBy order asc. */
  function SortByOrder(stages: seq<Stage>): (r: seq<Stage>)
    ensures |r| == |stages|
  {
    if stages == [] then [] else InsertByOrder(SortByOrder(stages[..|stages| - 1]), stages[|stages| - 1])
  }

  function InsertByOrder(stages: seq<Stage>, x: Stage): (r: seq<Stage>)
    ensures |r| == |stages| + 1
  {
    if stages == [] || stages[|stages| - 1].order <= x.order then stages + [x]
    else InsertByOrder(stages[..|stages| - 1], x) + [stages[|stages| - 1]]
  }

  function ViewOf(assignees: seq<Assignee>, st: Stage): StageView {
    StageView(st.id, st.name, st.escalationMinutes, st.order, AssigneesOf(assignees, st.id))
  }

  function ViewsOf(assignees: seq<Assignee>, stages: seq<Stage>): (views: seq<StageView>)
    ensures |views| == |stages|
  {
    seq(|stages|, i requires 0 <= i < |stages| => ViewOf(assignees, stages[i]))
  }

  function HeaderIn(templates: seq<Template>, id: nat): Option<Header> {
    var t := FindTemplate(templates, id);
    if t.Some? then Some(HeaderOf(templates[t.value])) else None
  }

  function GetTemplate(s: Store, id: nat): TemplateView {
    TemplateView(HeaderIn(s.templates, id), ViewsOf(s.assignees, SortByOrder(StagesOf(s.stages, id))))
  }
}
