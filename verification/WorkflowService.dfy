/** The workflow template methods with their nested loops over the three tables. */
module WorkflowService {
  import opened Text
  import opened WorkflowModel

  class Service {
    var templates: seq<Template>
    var stages: seq<Stage>
    var assignees: seq<Assignee>
    var nextId: nat
    const admins: set<string>
    const departments: set<string>

    ghost function Abs(): Store
      reads this
    {
      Store(templates, stages, assignees, admins, departments, nextId)
    }

    constructor (admins: set<string>, departments: set<string>)
      ensures Abs() == Store([], [], [], admins, departments, 0)
    {
      templates, stages, assignees, nextId := [], [], [], 0;
      this.admins, this.departments := admins, departments;
    }

    /** workflowAssignee.create, which the database refuses for unknown admins and repeated pairs. */
    method CreateAssignee(stageId: nat, adminId: string) returns (ok: bool)
      modifies this`assignees
      ensures Written(Abs(), ok) == old(AddAssignee(Abs(), stageId, adminId))
    {
      var row := Assignee(stageId, adminId);
      ok := adminId in admins && row !in assignees;
      if ok {
        assignees := assignees + [row];
      }
    }

    method CreateStage(templateId: nat, st: StageInput, order: nat) returns (ok: bool)
      modifies this
      ensures Written(Abs(), ok) == old(AddStage(Abs(), templateId, st, order))
    {
      var stageId := nextId;
      stages := stages + [Stage(stageId, templateId, StageName(st, order), OrZero(st.escalationMinutes), order)];
      nextId := nextId + 1;
      ghost var created := Abs();
      ok := true;
      var list := AssigneesIn(st);
      var i := 0;
      while i < |list| && ok
        invariant i <= |list|
        invariant AddAssignees(created, stageId, list, i) == Written(Abs(), ok)
        invariant !ok ==> AddAssignees(created, stageId, list, |list|) == Written(Abs(), ok)
      {
        ok := CreateAssignee(stageId, list[i]);
        i := i + 1;
        if !ok {
          RefusalIsFinal(created, stageId, list, i);
        }
      }
    }

    /** The loop over the stages of a request. */
    method CreateStages(templateId: nat, input: seq<StageInput>) returns (ok: bool)
      modifies this
      ensures Written(Abs(), ok) == old(AddStages(Abs(), templateId, input, |input|))
    {
      ghost var before := Abs();
      ok := true;
      var order := 0;
      while order < |input| && ok
        invariant order <= |input|
        invariant AddStages(before, templateId, input, order) == Written(Abs(), ok)
        invariant !ok ==> AddStages(before, templateId, input, |input|) == Written(Abs(), ok)
      {
        ok := CreateStage(templateId, input[order], order + 1);
        order := order + 1;
        if !ok {
          RefusalEndsStages(before, templateId, input, order);
        }
      }
    }

    method CreateWithStatus(p: Payload, adminId: string, status: TemplateStatus) returns (outcome: Outcome)
      modifies this
      ensures Reply(Abs(), outcome) == old(Create(Abs(), p, adminId, status))
    {
      if p.name.None? || p.kind.None? { return Failed(InvalidInput); }
      if adminId !in admins || (p.departmentId != "" && p.departmentId !in departments) { return Failed(Refused); }
      var id := nextId;
      templates := templates + [Template(id, p.name.value, p.kind.value, DepartmentOf(p), OrZero(p.escalationMinutes),
                                         p.hasPtaRequest, status, adminId)];
      nextId := nextId + 1;
      if p.stages.Some? && |p.stages.value| > 0 {
        var ok := CreateStages(id, p.stages.value);
        if !ok { return Failed(Refused); }
      }
      return Done(id);
    }

    method CreateTemplate(p: Payload, adminId: string) returns (outcome: Outcome)
      modifies this
      ensures Reply(Abs(), outcome) == old(Create(Abs(), p, adminId, ACTIVE))
    {
      outcome := CreateWithStatus(p, adminId, ACTIVE);
    }

    method SaveDraft(p: Payload, adminId: string) returns (outcome: Outcome)
      modifies this
      ensures Reply(Abs(), outcome) == old(Create(Abs(), p, adminId, DRAFT))
    {
      outcome := CreateWithStatus(p, adminId, DRAFT);
    }

    method UpdateTemplate(id: nat, p: Payload) returns (outcome: Outcome)
      modifies this
      ensures Reply(Abs(), outcome) == old(Update(Abs(), id, p))
    {
      var t := FindTemplate(templates, id);
      if t.None? { return Failed(MissingRow); }
      if p.departmentId != "" && p.departmentId !in departments { return Failed(Refused); }
      templates := templates[t.value := Edited(templates[t.value], p)];
      if p.stages.Some? {
        var kept := OtherStages(stages, id);
        assignees := AssigneesWithStage(assignees, StageIds(kept));
        stages := kept;
        var ok := CreateStages(id, p.stages.value);
        if !ok { return Failed(Refused); }
      }
      return Done(id);
    }

    method PublishTemplate(id: nat) returns (outcome: Outcome)
      modifies this
      ensures Reply(Abs(), outcome) == old(Publish(Abs(), id))
    {
      var t := FindTemplate(templates, id);
      if t.None? { return Failed(MissingRow); }
      templates := templates[t.value := templates[t.value].(status := ACTIVE)];
      return Done(id);
    }
  }

  /** After a refusal nothing more is written. */
  lemma {:induction false} RefusalIsFinal(s: Store, stageId: nat, list: seq<string>, k: nat)
    requires k <= |list| && !AddAssignees(s, stageId, list, k).ok
    ensures AddAssignees(s, stageId, list, |list|) == AddAssignees(s, stageId, list, k)
    decreases |list| - k
  {
    if k < |list| { RefusalIsFinal(s, stageId, list, k + 1); }
  }

  lemma {:induction false} RefusalEndsStages(s: Store, templateId: nat, stages: seq<StageInput>, k: nat)
    requires k <= |stages| && !AddStages(s, templateId, stages, k).ok
    ensures AddStages(s, templateId, stages, |stages|) == AddStages(s, templateId, stages, k)
    decreases |stages| - k
  {
    if k < |stages| { RefusalEndsStages(s, templateId, stages, k + 1); }
  }
}
