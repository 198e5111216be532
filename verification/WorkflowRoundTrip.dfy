/** What getTemplate reads after the writes, and what they leave alone. */
module WorkflowRoundTrip {
  import opened Text
  import opened Decimal
  import opened WorkflowModel

  // ----- the invariant of the tables

  predicate HasTemplate(s: Store, id: nat) {
    exists i :: 0 <= i < |s.templates| && s.templates[i].id == id
  }

  /** Ids are unique and not yet to be drawn, foreign keys point to rows, and stages are stored in their order. */
  ghost predicate Valid(s: Store) {
    && (forall i :: 0 <= i < |s.templates| ==> s.templates[i].id < s.nextId)
    && (forall i, j :: 0 <= i < j < |s.templates| ==> s.templates[i].id != s.templates[j].id)
    && (forall i :: 0 <= i < |s.stages| ==> s.stages[i].id < s.nextId && HasTemplate(s, s.stages[i].templateId))
    && (forall i, j :: 0 <= i < j < |s.stages| ==> s.stages[i].id != s.stages[j].id)
    && (forall i, j :: 0 <= i < j < |s.stages| && s.stages[i].templateId == s.stages[j].templateId ==>
          s.stages[i].order < s.stages[j].order)
    && (forall i :: 0 <= i < |s.assignees| ==> s.assignees[i].stageId in StageIds(s.stages))
  }

  // ----- lists of assignees

  /** How many of the first k assignees are written: all of them, up to the first that is refused. */
  function Accepted(list: seq<string>, admins: set<string>, k: nat): (a: nat)
    requires k <= |list|
    ensures a <= k
  {
    if k == 0 then 0
    else
      var a := Accepted(list, admins, k - 1);
      if a == k - 1 && list[k - 1] in admins && list[k - 1] !in list[..k - 1] then k else a
  }

  /** Nothing is refused exactly when the admins exist and are named once each. */
  lemma {:induction false} AcceptedIff(list: seq<string>, admins: set<string>, k: nat)
    requires k <= |list|
    ensures Accepted(list, admins, k) == k
       <==> (forall i :: 0 <= i < k ==> list[i] in admins) && (forall i, j :: 0 <= i < j < k ==> list[i] != list[j])
  {
    if k > 0 {
      AcceptedIff(list, admins, k - 1);
      assert list[k - 1] in list[..k - 1] <==> exists i :: 0 <= i < k - 1 && list[i] == list[k - 1];
    }
  }

  function Rows(stageId: nat, list: seq<string>, k: nat): (rows: seq<Assignee>)
    requires k <= |list|
    ensures |rows| == k
  {
    seq(k, i requires 0 <= i < k => Assignee(stageId, list[i]))
  }

  lemma {:induction false} AssigneesWritten(s: Store, stageId: nat, list: seq<string>, k: nat)
    requires k <= |list|
    requires forall i :: 0 <= i < |s.assignees| ==> s.assignees[i].stageId != stageId
    ensures var a := Accepted(list, s.admins, k);
            AddAssignees(s, stageId, list, k) == Written(s.(assignees := s.assignees + Rows(stageId, list, a)), a == k)
  {
    if k > 0 {
      AssigneesWritten(s, stageId, list, k - 1);
      var w := AddAssignees(s, stageId, list, k - 1);
      if w.ok {
        var row := Assignee(stageId, list[k - 1]);
        assert row in w.store.assignees <==> list[k - 1] in list[..k - 1] by {
          RowsMembers(stageId, list, k - 1, list[k - 1]);
        }
        assert Rows(stageId, list, k) == Rows(stageId, list, k - 1) + [row];
      }
    }
  }

  lemma RowsMembers(stageId: nat, list: seq<string>, k: nat, adminId: string)
    requires k <= |list|
    ensures Assignee(stageId, adminId) in Rows(stageId, list, k) <==> adminId in list[..k]
  {
    if adminId in list[..k] {
      var i :| 0 <= i < k && list[i] == adminId;
      assert Rows(stageId, list, k)[i] == Assignee(stageId, adminId);
    }
  }

  lemma {:induction false} AssigneesOfRows(base: seq<Assignee>, stageId: nat, list: seq<string>, k: nat, id: nat)
    requires k <= |list|
    ensures AssigneesOf(base + Rows(stageId, list, k), id)
         == AssigneesOf(base, id) + if id == stageId then multiset(list[..k]) else multiset{}
  {
    var all := base + Rows(stageId, list, k);
    if k == 0 {
      assert all == base;
    } else {
      assert all[..|all| - 1] == base + Rows(stageId, list, k - 1);
      AssigneesOfRows(base, stageId, list, k - 1, id);
      assert list[..k] == list[..k - 1] + [list[k - 1]];
    }
  }

  lemma {:induction false} NoAssignees(assignees: seq<Assignee>, id: nat)
    requires forall i :: 0 <= i < |assignees| ==> assignees[i].stageId != id
    ensures AssigneesOf(assignees, id) == multiset{}
  {
    if assignees != [] { NoAssignees(assignees[..|assignees| - 1], id); }
  }

  // ----- the stages of a template

  /** The stages of a template in the order of the table. */
  function View(s: Store, id: nat): seq<StageView> {
    ViewsOf(s.assignees, StagesOf(s.stages, id))
  }

  lemma {:induction false} StagesOfMembers(stages: seq<Stage>, id: nat, i: nat)
    requires i < |StagesOf(stages, id)|
    ensures exists j :: 0 <= j < |stages| && stages[j] == StagesOf(stages, id)[i] && stages[j].templateId == id
  {
    var front, last := stages[..|stages| - 1], stages[|stages| - 1];
    if i < |StagesOf(front, id)| {
      StagesOfMembers(front, id, i);
      var j :| 0 <= j < |front| && front[j] == StagesOf(front, id)[i] && front[j].templateId == id;
      assert stages[j] == front[j];
    } else {
      assert stages[|stages| - 1] == last;
    }
  }

  predicate Ascending(stages: seq<Stage>) {
    forall i, j :: 0 <= i < j < |stages| ==> stages[i].order < stages[j].order
  }

  lemma {:induction false} StagesOfAscending(stages: seq<Stage>, id: nat)
    requires forall i, j :: 0 <= i < j < |stages| && stages[i].templateId == stages[j].templateId ==> stages[i].order < stages[j].order
    ensures Ascending(StagesOf(stages, id))
  {
    if stages != [] {
      var front, last := stages[..|stages| - 1], stages[|stages| - 1];
      StagesOfAscending(front, id);
      if last.templateId == id {
        forall i | 0 <= i < |StagesOf(front, id)|
          ensures StagesOf(front, id)[i].order < last.order
        {
          StagesOfMembers(front, id, i);
        }
      }
    }
  }

  lemma {:induction false} SortAscending(stages: seq<Stage>)
    requires Ascending(stages)
    ensures SortByOrder(stages) == stages
  {
    if stages != [] {
      SortAscending(stages[..|stages| - 1]);
    }
  }

  /** Sorting changes nothing: stages are stored in their order. */
  lemma ReadsInOrder(s: Store, id: nat)
    requires Valid(s)
    ensures GetTemplate(s, id).stages == View(s, id)
  {
    StagesOfAscending(s.stages, id);
    SortAscending(StagesOf(s.stages, id));
  }

  lemma SameViews(a: seq<Assignee>, b: seq<Assignee>, stages: seq<Stage>)
    requires forall i :: 0 <= i < |stages| ==> AssigneesOf(a, stages[i].id) == AssigneesOf(b, stages[i].id)
    ensures ViewsOf(a, stages) == ViewsOf(b, stages)
  {
  }

  // ----- writing stages

  /** What is read of a stage, apart from its id. */
  datatype Content = Content(name: string, escalationMinutes: int, order: nat, assignees: multiset<string>)

  function ContentOf(v: StageView): Content {
    Content(v.name, v.escalationMinutes, v.order, v.assignees)
  }

  function Contents(views: seq<StageView>): (contents: seq<Content>)
    ensures |contents| == |views|
  {
    seq(|views|, i requires 0 <= i < |views| => ContentOf(views[i]))
  }

  function AcceptedIn(st: StageInput, admins: set<string>): nat {
    Accepted(AssigneesIn(st), admins, |AssigneesIn(st)|)
  }

  predicate StageAccepted(st: StageInput, admins: set<string>) {
    AcceptedIn(st, admins) == |AssigneesIn(st)|
  }

  /** A stage of a request with its defaults filled in, and the assignees that are not behind a refusal. */
  function Expected(st: StageInput, order: nat, admins: set<string>): Content {
    var list := if st.assignees.Some? then st.assignees.value else [];
    Content(if st.name == "" then "Stage " + Show(order) else st.name,
            if st.escalationMinutes.Some? then st.escalationMinutes.value else 0,
            order, multiset(list[..Accepted(list, admins, |list|)]))
  }

  predicate StagesAccepted(stages: seq<StageInput>, admins: set<string>, k: nat)
    requires k <= |stages|
  {
    forall i :: 0 <= i < k ==> StageAccepted(stages[i], admins)
  }

  /** The stages of a request that are written: all of them, up to the first with a refusal. */
  function ExpectedStages(stages: seq<StageInput>, admins: set<string>, k: nat): seq<Content>
    requires k <= |stages|
  {
    if k == 0 then []
    else if StagesAccepted(stages, admins, k - 1) then ExpectedStages(stages, admins, k - 1) + [Expected(stages[k - 1], k, admins)]
    else ExpectedStages(stages, admins, k - 1)
  }

  /** Every other template reads the same. */
  ghost predicate SameOthers(s: Store, s': Store, id: nat) {
    forall other: nat :: other != id ==> View(s', other) == View(s, other)
  }

  /** A write to the stages of one template. */
  ghost predicate WritesStagesOf(s: Store, s': Store, id: nat) {
    && s'.templates == s.templates && s'.admins == s.admins && s'.departments == s.departments
    && Valid(s') && SameOthers(s, s', id)
  }

  predicate OrdersBelow(s: Store, id: nat, order: nat) {
    forall i :: 0 <= i < |s.stages| && s.stages[i].templateId == id ==> s.stages[i].order < order
  }

  function NewStage(s: Store, id: nat, st: StageInput, order: nat): Stage {
    Stage(s.nextId, id, StageName(st, order), OrZero(st.escalationMinutes), order)
  }

  function WithStage(s: Store, row: Stage, list: seq<string>, a: nat): Store
    requires a <= |list|
  {
    s.(stages := s.stages + [row], assignees := s.assignees + Rows(row.id, list, a), nextId := s.nextId + 1)
  }

  lemma StageShape(s: Store, id: nat, st: StageInput, order: nat)
    requires Valid(s)
    ensures AddStage(s, id, st, order)
         == Written(WithStage(s, NewStage(s, id, st, order), AssigneesIn(st), AcceptedIn(st, s.admins)), StageAccepted(st, s.admins))
  {
    var row, list := NewStage(s, id, st, order), AssigneesIn(st);
    assert forall i :: 0 <= i < |s.assignees| ==> s.assignees[i].stageId != row.id;
    AssigneesWritten(s.(stages := s.stages + [row], nextId := s.nextId + 1), row.id, list, |list|);
  }

  lemma WithStageValid(s: Store, row: Stage, list: seq<string>, a: nat)
    requires Valid(s) && HasTemplate(s, row.templateId) && row.id == s.nextId && a <= |list|
    requires OrdersBelow(s, row.templateId, row.order)
    ensures Valid(WithStage(s, row, list, a))
  {
    var s' := WithStage(s, row, list, a);
    forall i | 0 <= i < |s'.stages|
      ensures HasTemplate(s', s'.stages[i].templateId)
    {
      assert HasTemplate(s, s'.stages[i].templateId);
    }
    StageIdsGrow(s.stages, row);
    hide StageIds;
    assert forall i :: 0 <= i < |s'.assignees| ==> i < |s.assignees| || s'.assignees[i].stageId == row.id;
  }

  lemma StageIdsGrow(stages: seq<Stage>, row: Stage)
    ensures row.id in StageIds(stages + [row])
    ensures StageIds(stages) <= StageIds(stages + [row])
  {
    assert (stages + [row])[|stages|] == row;
    forall i | 0 <= i < |stages|
      ensures stages[i].id in StageIds(stages + [row])
    {
      assert (stages + [row])[i] == stages[i];
    }
  }

  /** The assignees of older stages are not touched. */
  lemma OlderStagesKeepAssignees(s: Store, row: Stage, list: seq<string>, a: nat, id: nat)
    requires Valid(s) && row.id == s.nextId && a <= |list|
    ensures ViewsOf(WithStage(s, row, list, a).assignees, StagesOf(s.stages, id)) == View(s, id)
  {
    var assignees := WithStage(s, row, list, a).assignees;
    var stages := StagesOf(s.stages, id);
    forall i | 0 <= i < |stages|
      ensures AssigneesOf(assignees, stages[i].id) == AssigneesOf(s.assignees, stages[i].id)
    {
      StagesOfMembers(s.stages, id, i);
      AssigneesOfRows(s.assignees, row.id, list, a, stages[i].id);
    }
    SameViews(assignees, s.assignees, stages);
  }

  lemma WithStageViews(s: Store, row: Stage, list: seq<string>, a: nat, id: nat)
    requires Valid(s) && row.id == s.nextId && a <= |list|
    ensures View(WithStage(s, row, list, a), id)
         == View(s, id) + if id == row.templateId
                          then [StageView(row.id, row.name, row.escalationMinutes, row.order, multiset(list[..a]))] else []
  {
    var s' := WithStage(s, row, list, a);
    OlderStagesKeepAssignees(s, row, list, a, id);
    assert s'.stages[..|s'.stages| - 1] == s.stages;
    if id == row.templateId {
      NoAssignees(s.assignees, row.id);
      AssigneesOfRows(s.assignees, row.id, list, a, row.id);
      assert StagesOf(s'.stages, id) == StagesOf(s.stages, id) + [row];
      assert View(s', id) == ViewsOf(s'.assignees, StagesOf(s.stages, id)) + [ViewOf(s'.assignees, row)];
      assert ViewOf(s'.assignees, row).assignees == multiset(list[..a]);
    }
  }

  /** One more stage: it is appended to its template, and nothing else reads differently. */
  lemma StageWritten(s: Store, id: nat, st: StageInput, order: nat)
    requires Valid(s) && HasTemplate(s, id) && OrdersBelow(s, id, order)
    ensures var w := AddStage(s, id, st, order);
            && (w.ok <==> StageAccepted(st, s.admins))
            && WritesStagesOf(s, w.store, id) && OrdersBelow(w.store, id, order + 1)
            && Contents(View(w.store, id)) == Contents(View(s, id)) + [Expected(st, order, s.admins)]
  {
    hide Valid, View, AddStage;
    var row, list, a := NewStage(s, id, st, order), AssigneesIn(st), AcceptedIn(st, s.admins);
    StageShape(s, id, st, order);
    WithStageValid(s, row, list, a);
    forall other: nat
      ensures other != id ==> View(WithStage(s, row, list, a), other) == View(s, other)
    {
      WithStageViews(s, row, list, a, other);
    }
    WithStageViews(s, row, list, a, id);
  }

  /** All stages of a request: the template reads as requested, up to the first refusal. */
  lemma {:induction false} StagesWritten(s: Store, id: nat, stages: seq<StageInput>, k: nat)
    requires Valid(s) && HasTemplate(s, id) && k <= |stages|
    requires forall i :: 0 <= i < |s.stages| ==> s.stages[i].templateId != id
    ensures var w := AddStages(s, id, stages, k);
            && (w.ok <==> StagesAccepted(stages, s.admins, k))
            && WritesStagesOf(s, w.store, id) && OrdersBelow(w.store, id, k + 1)
            && Contents(View(w.store, id)) == ExpectedStages(stages, s.admins, k)
  {
    hide Valid, StageAccepted, AddStage;
    if k == 0 {
      NoStages(s.stages, id);
    } else {
      hide View;
      StagesWritten(s, id, stages, k - 1);
      var w := AddStages(s, id, stages, k - 1);
      if w.ok {
        StageWritten(w.store, id, stages[k - 1], k);
      }
    }
  }

  lemma {:induction false} NoStages(stages: seq<Stage>, id: nat)
    requires forall i :: 0 <= i < |stages| ==> stages[i].templateId != id
    ensures StagesOf(stages, id) == []
  {
    if stages != [] { NoStages(stages[..|stages| - 1], id); }
  }

  // ----- deleting stages

  lemma {:induction false} OtherStagesAt(stages: seq<Stage>, id: nat, i: nat) returns (j: nat)
    requires i < |OtherStages(stages, id)|
    ensures j < |stages| && stages[j] == OtherStages(stages, id)[i] && stages[j].templateId != id
  {
    var front := stages[..|stages| - 1];
    if i < |OtherStages(front, id)| {
      j := OtherStagesAt(front, id, i);
    } else {
      j := |stages| - 1;
    }
  }

  lemma {:induction false} OtherStagesPair(stages: seq<Stage>, id: nat, i: nat, i': nat) returns (j: nat, j': nat)
    requires i < i' < |OtherStages(stages, id)|
    ensures j < j' < |stages| && stages[j] == OtherStages(stages, id)[i] && stages[j'] == OtherStages(stages, id)[i']
  {
    var front := stages[..|stages| - 1];
    if i' < |OtherStages(front, id)| {
      j, j' := OtherStagesPair(front, id, i, i');
    } else {
      j := OtherStagesAt(front, id, i);
      j' := |stages| - 1;
    }
  }

  lemma {:induction false} OtherStagesKeep(stages: seq<Stage>, id: nat, other: nat)
    ensures StagesOf(OtherStages(stages, id), other) == if other == id then [] else StagesOf(stages, other)
  {
    if stages != [] {
      var front := stages[..|stages| - 1];
      OtherStagesKeep(front, id, other);
      var kept := OtherStages(front, id) + [stages[|stages| - 1]];
      assert kept[..|kept| - 1] == OtherStages(front, id);
    }
  }

  lemma {:induction false} KeptAssignees(assignees: seq<Assignee>, ids: set<nat>, id: nat)
    requires id in ids
    ensures AssigneesOf(AssigneesWithStage(assignees, ids), id) == AssigneesOf(assignees, id)
  {
    if assignees != [] {
      var front := assignees[..|assignees| - 1];
      KeptAssignees(front, ids, id);
      var kept := AssigneesWithStage(front, ids) + [assignees[|assignees| - 1]];
      assert kept[..|kept| - 1] == AssigneesWithStage(front, ids);
    }
  }

  lemma {:induction false} KeptAssigneesHaveStage(assignees: seq<Assignee>, ids: set<nat>)
    ensures forall i :: 0 <= i < |AssigneesWithStage(assignees, ids)| ==> AssigneesWithStage(assignees, ids)[i].stageId in ids
  {
    if assignees != [] { KeptAssigneesHaveStage(assignees[..|assignees| - 1], ids); }
  }

  lemma DeleteStagesValid(s: Store, id: nat)
    requires Valid(s)
    ensures Valid(DeleteStages(s, id))
    ensures forall i :: 0 <= i < |DeleteStages(s, id).stages| ==> DeleteStages(s, id).stages[i].templateId != id
  {
    var s' := DeleteStages(s, id);
    KeptAssigneesHaveStage(s.assignees, StageIds(s'.stages));
    forall i | 0 <= i < |s'.stages|
      ensures s'.stages[i].templateId != id && s'.stages[i].id < s'.nextId && HasTemplate(s', s'.stages[i].templateId)
    {
      var j := OtherStagesAt(s.stages, id, i);
      assert HasTemplate(s, s.stages[j].templateId);
    }
    forall i, i' | 0 <= i < i' < |s'.stages|
      ensures s'.stages[i].id != s'.stages[i'].id
      ensures s'.stages[i].templateId == s'.stages[i'].templateId ==> s'.stages[i].order < s'.stages[i'].order
    {
      var j, j' := OtherStagesPair(s.stages, id, i, i');
    }
  }

  /** Deleting the stages of a template empties it and leaves the other templates alone. */
  lemma DeleteStagesViews(s: Store, id: nat, other: nat)
    requires Valid(s)
    ensures View(DeleteStages(s, id), other) == if other == id then [] else View(s, other)
  {
    var s' := DeleteStages(s, id);
    OtherStagesKeep(s.stages, id, other);
    var stages := StagesOf(s'.stages, other);
    forall i | 0 <= i < |stages|
      ensures AssigneesOf(s'.assignees, stages[i].id) == AssigneesOf(s.assignees, stages[i].id)
    {
      StagesOfMembers(s'.stages, other, i);
      var j :| 0 <= j < |s'.stages| && s'.stages[j] == stages[i];
      KeptAssignees(s.assignees, StageIds(s'.stages), stages[i].id);
    }
    SameViews(s'.assignees, s.assignees, stages);
  }

  // ----- templates

  lemma FindTemplateAt(templates: seq<Template>, i: nat)
    requires i < |templates|
    requires forall a, b :: 0 <= a < b < |templates| ==> templates[a].id != templates[b].id
    ensures FindTemplate(templates, templates[i].id) == Some(i)
  {
  }

  lemma HeaderOfNew(s: Store, row: Template, id: nat)
    requires Valid(s) && row.id == s.nextId
    ensures HeaderIn(s.templates + [row], id) == if id == row.id then Some(HeaderOf(row)) else HeaderIn(s.templates, id)
  {
  }

  lemma HeaderOfEdited(s: Store, i: nat, row: Template, id: nat)
    requires Valid(s) && i < |s.templates| && row.id == s.templates[i].id
    ensures HeaderIn(s.templates[i := row], id) == if id == row.id then Some(HeaderOf(row)) else HeaderIn(s.templates, id)
  {
    var templates := s.templates[i := row];
    var t := FindTemplate(templates, id);
    assert forall k :: 0 <= k < |templates| ==> templates[k].id == s.templates[k].id;
    if t.Some? {
      FindTemplateAt(templates, t.value);
      FindTemplateAt(s.templates, t.value);
    } else {
      assert FindTemplate(s.templates, id).None?;
    }
  }

  lemma NewTemplateValid(s: Store, row: Template)
    requires Valid(s) && row.id == s.nextId
    ensures Valid(s.(templates := s.templates + [row], nextId := s.nextId + 1))
    ensures HasTemplate(s.(templates := s.templates + [row], nextId := s.nextId + 1), row.id)
    ensures forall i :: 0 <= i < |s.stages| ==> s.stages[i].templateId != row.id
  {
    var s' := s.(templates := s.templates + [row], nextId := s.nextId + 1);
    assert s'.templates[|s.templates|].id == row.id;
    forall i | 0 <= i < |s.stages|
      ensures HasTemplate(s', s.stages[i].templateId) && s.stages[i].templateId != row.id
    {
      assert HasTemplate(s, s.stages[i].templateId);
      var j :| 0 <= j < |s.templates| && s.templates[j].id == s.stages[i].templateId;
      assert s'.templates[j].id == s.stages[i].templateId;
    }
  }

  lemma EditedTemplateValid(s: Store, i: nat, row: Template)
    requires Valid(s) && i < |s.templates| && row.id == s.templates[i].id
    ensures Valid(s.(templates := s.templates[i := row]))
    ensures HasTemplate(s.(templates := s.templates[i := row]), row.id)
  {
    var s' := s.(templates := s.templates[i := row]);
    assert s'.templates[i].id == row.id;
    forall k | 0 <= k < |s.stages|
      ensures HasTemplate(s', s.stages[k].templateId)
    {
      assert HasTemplate(s, s.stages[k].templateId);
      var j :| 0 <= j < |s.templates| && s.templates[j].id == s.stages[k].templateId;
      assert s'.templates[j].id == s.stages[k].templateId;
    }
  }

  // ----- the round trips

  predicate AllAccepted(stages: Option<seq<StageInput>>, admins: set<string>) {
    stages.Some? ==> StagesAccepted(stages.value, admins, |stages.value|)
  }

  function Requested(stages: Option<seq<StageInput>>, admins: set<string>): seq<Content> {
    if stages.Some? then ExpectedStages(stages.value, admins, |stages.value|) else []
  }

  /** A stage of a request with its defaults and all of its assignees. */
  function FullStage(st: StageInput, order: nat): Content {
    Content(if st.name == "" then "Stage " + Show(order) else st.name,
            if st.escalationMinutes.Some? then st.escalationMinutes.value else 0,
            order, multiset(if st.assignees.Some? then st.assignees.value else []))
  }

  lemma ExpectedIsFull(st: StageInput, order: nat, admins: set<string>)
    requires StageAccepted(st, admins)
    ensures Expected(st, order, admins) == FullStage(st, order)
  {
    assert AssigneesIn(st)[..|AssigneesIn(st)|] == AssigneesIn(st);
  }

  /** With nothing refused, the requested stages are all there, in order, with defaults and the same assignees. */
  lemma {:induction false} RequestedWhenAccepted(stages: seq<StageInput>, admins: set<string>, k: nat)
    requires k <= |stages| && StagesAccepted(stages, admins, |stages|)
    ensures |ExpectedStages(stages, admins, k)| == k
    ensures forall i :: 0 <= i < k ==> ExpectedStages(stages, admins, k)[i] == FullStage(stages[i], i + 1)
  {
    hide Expected, FullStage, StageAccepted;
    if k > 0 {
      RequestedWhenAccepted(stages, admins, k - 1);
      assert StageAccepted(stages[k - 1], admins);
      ExpectedIsFull(stages[k - 1], k, admins);
    }
  }

  /** The request is refused exactly when a stage names an unknown admin, or an admin twice. */
  lemma StageAcceptedIff(st: StageInput, admins: set<string>)
    ensures var list := if st.assignees.Some? then st.assignees.value else [];
            (StageAccepted(st, admins)
            <==> (forall i :: 0 <= i < |list| ==> list[i] in admins) && (forall i, j :: 0 <= i < j < |list| ==> list[i] != list[j]))
  {
    AcceptedIff(AssigneesIn(st), admins, |AssigneesIn(st)|);
  }

  /** The stages are written to a template that has none. */
  lemma AllWritten(s: Store, id: nat, stages: Option<seq<StageInput>>)
    requires Valid(s) && HasTemplate(s, id)
    requires forall i :: 0 <= i < |s.stages| ==> s.stages[i].templateId != id
    ensures var r := AddAll(s, id, stages);
            && (r.outcome == Done(id) <==> AllAccepted(stages, s.admins)) && (r.outcome == Done(id) || r.outcome == Failed(Refused))
            && WritesStagesOf(s, r.store, id)
            && Contents(View(r.store, id)) == Requested(stages, s.admins)
  {
    if stages.Some? {
      hide Valid, View, AddStages;
      StagesWritten(s, id, stages.value, |stages.value|);
    } else {
      NoStages(s.stages, id);
    }
  }

  /** No department is given, or one that exists. */
  predicate KnownDepartment(s: Store, p: Payload) {
    p.departmentId == "" || p.departmentId in s.departments
  }

  predicate Insertable(s: Store, p: Payload, adminId: string) {
    p.name.Some? && p.kind.Some? && adminId in s.admins && KnownDepartment(s, p)
  }

  /** The columns that are read of a template, from the request and from what was read before. */
  function RequestedHeader(p: Payload, id: nat, status: TemplateStatus, name: string, kind: TemplateType): Header {
    Header(id, if p.name.Some? then p.name.value else name, if p.kind.Some? then p.kind.value else kind, status,
           if p.escalationMinutes.Some? then p.escalationMinutes.value else 0, p.hasPtaRequest,
           if p.departmentId == "" then None else Some(p.departmentId))
  }

  function NewTemplate(s: Store, p: Payload, adminId: string, status: TemplateStatus): Template
    requires Insertable(s, p, adminId)
  {
    Template(s.nextId, p.name.value, p.kind.value, DepartmentOf(p), OrZero(p.escalationMinutes), p.hasPtaRequest, status, adminId)
  }

  /** Every other template reads the same. */
  ghost predicate OthersReadTheSame(s: Store, s': Store, id: nat) {
    forall other: nat :: other != id ==> GetTemplate(s', other) == GetTemplate(s, other)
  }

  lemma OthersFrom(s: Store, s': Store, id: nat)
    requires Valid(s) && Valid(s') && SameOthers(s, s', id)
    requires forall other: nat :: other != id ==> HeaderIn(s'.templates, other) == HeaderIn(s.templates, other)
    ensures OthersReadTheSame(s, s', id)
  {
    hide View, Valid, HeaderIn, SortByOrder, StagesOf, ViewsOf;
    forall other: nat | other != id
      ensures GetTemplate(s', other) == GetTemplate(s, other)
    {
      ReadsInOrder(s, other);
      ReadsInOrder(s', other);
      assert View(s', other) == View(s, other);
    }
  }

  /**
   Creating a template: it succeeds exactly when the row and every assignee can be inserted, and
   whenever the row is inserted it reads back with the requested stages up to the first refusal.
   */
  lemma CreateReadsBack(s: Store, p: Payload, adminId: string, status: TemplateStatus)
    requires Valid(s)
    ensures var r := Create(s, p, adminId, status);
            && Valid(r.store) && OthersReadTheSame(s, r.store, s.nextId)
            && (r.outcome == Done(s.nextId) <==> Insertable(s, p, adminId) && AllAccepted(p.stages, s.admins))
            && (r.outcome == Done(s.nextId) || r.outcome.Failed?)
            && (!Insertable(s, p, adminId) ==>
                  r == Reply(s, Failed(if p.name.None? || p.kind.None? then InvalidInput else Refused)))
            && (Insertable(s, p, adminId) && !AllAccepted(p.stages, s.admins) ==> r.outcome == Failed(Refused))
            && (Insertable(s, p, adminId) ==>
                  && GetTemplate(r.store, s.nextId).header == Some(RequestedHeader(p, s.nextId, status, p.name.value, p.kind.value))
                  && Contents(GetTemplate(r.store, s.nextId).stages) == Requested(p.stages, s.admins))
  {
    hide Valid, View, AddAll, HeaderIn, SortByOrder, StagesOf, ViewsOf, Requested, Contents, AllAccepted;
    if Insertable(s, p, adminId) {
      var row := NewTemplate(s, p, adminId, status);
      var inserted := s.(templates := s.templates + [row], nextId := s.nextId + 1);
      NewTemplateValid(s, row);
      AllWritten(inserted, row.id, p.stages);
      var s' := AddAll(inserted, row.id, p.stages).store;
      forall other: nat
        ensures HeaderIn(s'.templates, other) == if other == row.id then Some(HeaderOf(row)) else HeaderIn(s.templates, other)
      {
        HeaderOfNew(s, row, other);
      }
      SameView(s, inserted);
      OthersFrom(s, s', row.id);
      ReadsInOrder(s', row.id);
    }
  }

  lemma SameView(s: Store, s': Store)
    requires s'.stages == s.stages && s'.assignees == s.assignees
    ensures forall id: nat :: View(s', id) == View(s, id)
  {
  }

  /** The old stages are deleted before the new ones are written. */
  lemma StagesReplaced(s: Store, id: nat, stages: Option<seq<StageInput>>)
    requires Valid(s) && HasTemplate(s, id)
    ensures var r := AddAll(DeleteStages(s, id), id, stages);
            && (r.outcome == Done(id) <==> AllAccepted(stages, s.admins)) && (r.outcome == Done(id) || r.outcome == Failed(Refused))
            && WritesStagesOf(s, r.store, id)
            && Contents(View(r.store, id)) == Requested(stages, s.admins)
  {
    hide Valid, View, AddAll, Requested, Contents, AllAccepted, OtherStages, AssigneesWithStage;
    var deleted := DeleteStages(s, id);
    DeleteStagesValid(s, id);
    assert HasTemplate(deleted, id);
    AllWritten(deleted, id, stages);
    forall other: nat | other != id
      ensures View(deleted, other) == View(s, other)
    {
      DeleteStagesViews(s, id, other);
    }
  }

  predicate Editable(s: Store, p: Payload, id: nat) {
    HasTemplate(s, id) && KnownDepartment(s, p)
  }

  /**
   Updating a template: it succeeds exactly when the row can be edited and every assignee can be
   inserted. Without stages in the request the stages stay as they are; with stages, the old ones
   are gone and the template reads as requested up to the first refusal.
   */
  lemma UpdateReadsBack(s: Store, p: Payload, id: nat)
    requires Valid(s)
    ensures var r := Update(s, id, p);
            && Valid(r.store) && OthersReadTheSame(s, r.store, id)
            && (r.outcome == Done(id) <==> Editable(s, p, id) && AllAccepted(p.stages, s.admins))
            && (r.outcome == Done(id) || r.outcome.Failed?)
            && (!Editable(s, p, id) ==> r == Reply(s, Failed(if HasTemplate(s, id) then Refused else MissingRow)))
            && (Editable(s, p, id) && !AllAccepted(p.stages, s.admins) ==> r.outcome == Failed(Refused))
            && (Editable(s, p, id) ==>
                  && GetTemplate(s, id).header.Some?
                  && GetTemplate(r.store, id).header
                     == (var h := GetTemplate(s, id).header.value; Some(RequestedHeader(p, id, h.status, h.name, h.kind)))
                  && (p.stages.None? ==> GetTemplate(r.store, id).stages == GetTemplate(s, id).stages)
                  && (p.stages.Some? ==> Contents(GetTemplate(r.store, id).stages) == Requested(p.stages, s.admins)))
  {
    hide Valid, View, AddAll, SortByOrder, StagesOf, ViewsOf, Requested, Contents, StagesAccepted, DeleteStages;
    var t := FindTemplate(s.templates, id);
    if t.Some? && DepartmentExists(s, p) {
      var row := Edited(s.templates[t.value], p);
      var edited := s.(templates := s.templates[t.value := row]);
      EditedTemplateValid(s, t.value, row);
      SameView(s, edited);
      var s' := Update(s, id, p).store;
      if p.stages.Some? {
        StagesReplaced(edited, id, p.stages);
      }
      assert Valid(s') && SameOthers(s, s', id) && s'.templates == edited.templates;
      forall other: nat
        ensures HeaderIn(s'.templates, other) == if other == id then Some(HeaderOf(row)) else HeaderIn(s.templates, other)
      {
        HeaderOfEdited(s, t.value, row, other);
      }
      OthersFrom(s, s', id);
      ReadsInOrder(s, id);
      ReadsInOrder(s', id);
    }
  }

  // ----- drafts

  lemma {:induction false} AddAssigneesAnyTemplates(s: Store, templates: seq<Template>, stageId: nat, list: seq<string>, k: nat)
    requires k <= |list|
    ensures var w := AddAssignees(s, stageId, list, k);
            AddAssignees(s.(templates := templates), stageId, list, k) == Written(w.store.(templates := templates), w.ok)
  {
    if k > 0 { AddAssigneesAnyTemplates(s, templates, stageId, list, k - 1); }
  }

  /** Writing stages does not look at the template rows. */
  lemma {:induction false} AddStagesAnyTemplates(s: Store, templates: seq<Template>, id: nat, stages: seq<StageInput>, k: nat)
    requires k <= |stages|
    ensures var w := AddStages(s, id, stages, k);
            AddStages(s.(templates := templates), id, stages, k) == Written(w.store.(templates := templates), w.ok)
  {
    if k > 0 {
      AddStagesAnyTemplates(s, templates, id, stages, k - 1);
      var w := AddStages(s, id, stages, k - 1);
      if w.ok {
        var st := stages[k - 1];
        var row := NewStage(w.store, id, st, k);
        AddAssigneesAnyTemplates(w.store.(stages := w.store.stages + [row], nextId := w.store.nextId + 1), templates,
                                 row.id, AssigneesIn(st), |AssigneesIn(st)|);
      }
    }
  }

  /** Saving a draft and publishing it gives the same tables as creating the template at once. */
  lemma DraftThenPublish(s: Store, p: Payload, adminId: string)
    requires Valid(s) && Insertable(s, p, adminId)
    ensures Publish(Create(s, p, adminId, DRAFT).store, s.nextId).outcome == Done(s.nextId)
    ensures Publish(Create(s, p, adminId, DRAFT).store, s.nextId).store == Create(s, p, adminId, ACTIVE).store
    ensures Create(s, p, adminId, DRAFT).outcome == Create(s, p, adminId, ACTIVE).outcome
  {
    hide AddStages;
    var draft, active := NewTemplate(s, p, adminId, DRAFT), NewTemplate(s, p, adminId, ACTIVE);
    var inserted := s.(templates := s.templates + [draft], nextId := s.nextId + 1);
    if p.stages.Some? {
      AddStagesAnyTemplates(inserted, s.templates + [active], draft.id, p.stages.value, |p.stages.value|);
      AddStagesAnyTemplates(inserted, s.templates + [draft], draft.id, p.stages.value, |p.stages.value|);
    }
    assert FindTemplate(s.templates + [draft], draft.id) == Some(|s.templates|);
    assert (s.templates + [draft])[|s.templates| := active] == s.templates + [active];
    assert draft.(status := ACTIVE) == active;
  }

  /** Publishing changes the status of one template and nothing else that can be read. */
  lemma PublishReadsBack(s: Store, id: nat)
    requires Valid(s)
    ensures var r := Publish(s, id);
            && Valid(r.store) && OthersReadTheSame(s, r.store, id)
            && (r.outcome == Done(id) <==> HasTemplate(s, id))
            && GetTemplate(r.store, id).stages == GetTemplate(s, id).stages
            && (HasTemplate(s, id) ==>
                  && GetTemplate(s, id).header.Some?
                  && GetTemplate(r.store, id).header == Some(GetTemplate(s, id).header.value.(status := ACTIVE)))
            && (!HasTemplate(s, id) ==> r == Reply(s, Failed(MissingRow)))
  {
    hide Valid, View, SortByOrder, StagesOf, ViewsOf;
    var t := FindTemplate(s.templates, id);
    if t.Some? {
      var row := s.templates[t.value].(status := ACTIVE);
      var s' := s.(templates := s.templates[t.value := row]);
      EditedTemplateValid(s, t.value, row);
      SameView(s, s');
      forall other: nat
        ensures HeaderIn(s'.templates, other) == if other == id then Some(HeaderOf(row)) else HeaderIn(s.templates, other)
      {
        HeaderOfEdited(s, t.value, row, other);
      }
      OthersFrom(s, s', id);
    }
  }
}
