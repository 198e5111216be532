/** Workflow templates over sequences of calls: the tables stay valid, and a template reads as its last write left it. */
module WorkflowRuns {
  import opened Text
  import opened WorkflowModel
  import opened WorkflowRoundTrip

  datatype Op =
    | OpCreate(payload: Payload, adminId: string, status: TemplateStatus)
    | OpUpdate(id: nat, payload: Payload)
    | OpPublish(id: nat)

  function Step(s: Store, op: Op): Reply {
    match op
    case OpCreate(p, adminId, status) => Create(s, p, adminId, status)
    case OpUpdate(id, p) => Update(s, id, p)
    case OpPublish(id) => Publish(s, id)
  }

  function Empty(admins: set<string>, departments: set<string>): Store {
    Store([], [], [], admins, departments, 0)
  }

  /** The store after the first n calls. */
  function StoreAt(start: Store, ops: seq<Op>, n: nat): Store
    requires n <= |ops|
  {
    if n == 0 then start else Step(StoreAt(start, ops, n - 1), ops[n - 1]).store
  }

  /** The template that a call writes to, if its row can be written: a new one, or the one it names. */
  function Target(s: Store, op: Op): nat {
    match op
    case OpCreate(_, _, _) => s.nextId
    case OpUpdate(id, _) => id
    case OpPublish(id) => id
  }

  /** What a call leaves of its target, told from what was read before and from the request. */
  ghost predicate Leaves(s: Store, op: Op, before: TemplateView, after: TemplateView) {
    match op
    case OpCreate(p, adminId, status) =>
      if Insertable(s, p, adminId) then
        && after.header == Some(RequestedHeader(p, s.nextId, status, p.name.value, p.kind.value))
        && Contents(after.stages) == Requested(p.stages, s.admins)
      else after == before
    case OpUpdate(id, p) =>
      if Editable(s, p, id) then
        && before.header.Some?
        && after.header == (var h := before.header.value; Some(RequestedHeader(p, id, h.status, h.name, h.kind)))
        && (if p.stages.None? then after.stages == before.stages else Contents(after.stages) == Requested(p.stages, s.admins))
      else after == before
    case OpPublish(id) =>
      if HasTemplate(s, id) then
        before.header.Some? && after == TemplateView(Some(before.header.value.(status := ACTIVE)), before.stages)
      else after == before
  }

  /** One call keeps the tables valid, changes its target as requested, and no other template. */
  lemma StepReads(s: Store, op: Op)
    requires Valid(s)
    ensures var s' := Step(s, op).store;
            && Valid(s') && OthersReadTheSame(s, s', Target(s, op))
            && Leaves(s, op, GetTemplate(s, Target(s, op)), GetTemplate(s', Target(s, op)))
  {
    hide Valid, GetTemplate, Create, Update, Publish, RequestedHeader, Requested, Contents, OthersReadTheSame;
    match op
    case OpCreate(p, adminId, status) => CreateReadsBack(s, p, adminId, status);
    case OpUpdate(id, p) => UpdateReadsBack(s, p, id);
    case OpPublish(id) => PublishReadsBack(s, id);
  }

  /** In every reachable store ids are unique, foreign keys point to rows, and stages are in order. */
  lemma {:induction false} ValidOverRuns(admins: set<string>, departments: set<string>, ops: seq<Op>, n: nat)
    requires n <= |ops|
    ensures Valid(StoreAt(Empty(admins, departments), ops, n))
  {
    if n > 0 {
      hide Step, Valid;
      ValidOverRuns(admins, departments, ops, n - 1);
      StepReads(StoreAt(Empty(admins, departments), ops, n - 1), ops[n - 1]);
    } else {
      EmptyIsValid(admins, departments);
    }
  }

  lemma EmptyIsValid(admins: set<string>, departments: set<string>)
    ensures Valid(Empty(admins, departments))
  {
  }

  /** A template that no call of m to n is for reads the same after them. */
  lemma {:induction false} UntouchedReadsTheSame(start: Store, ops: seq<Op>, m: nat, n: nat, id: nat)
    requires m <= n <= |ops| && Valid(StoreAt(start, ops, m))
    requires forall i :: m <= i < n ==> Target(StoreAt(start, ops, i), ops[i]) != id
    ensures Valid(StoreAt(start, ops, n))
    ensures GetTemplate(StoreAt(start, ops, n), id) == GetTemplate(StoreAt(start, ops, m), id)
    decreases n
  {
    if m < n {
      hide Step, Valid, GetTemplate, Leaves;
      UntouchedReadsTheSame(start, ops, m, n - 1, id);
      StepReads(StoreAt(start, ops, n - 1), ops[n - 1]);
    }
  }

  lemma NextStore(start: Store, ops: seq<Op>, m: nat)
    requires m < |ops|
    ensures StoreAt(start, ops, m + 1) == Step(StoreAt(start, ops, m), ops[m]).store
  {
  }

  lemma LastWriteFrom(start: Store, ops: seq<Op>, m: nat, n: nat)
    requires m < n <= |ops| && Valid(StoreAt(start, ops, m))
    requires forall i :: m < i < n ==> Target(StoreAt(start, ops, i), ops[i]) != Target(StoreAt(start, ops, m), ops[m])
    ensures var s := StoreAt(start, ops, m);
            var id := Target(s, ops[m]);
            Leaves(s, ops[m], GetTemplate(s, id), GetTemplate(StoreAt(start, ops, n), id))
  {
    hide Step, Valid, StoreAt, GetTemplate, Leaves, Target;
    NextStore(start, ops, m);
    StepReads(StoreAt(start, ops, m), ops[m]);
    UntouchedReadsTheSame(start, ops, m + 1, n, Target(StoreAt(start, ops, m), ops[m]));
  }

  /**
   getTemplate reads what the last create, update or publish of a template left, whatever happens to
   other templates afterwards.
   */
  lemma LastWriteIsRead(admins: set<string>, departments: set<string>, ops: seq<Op>, m: nat, n: nat)
    requires m < n <= |ops|
    requires var start := Empty(admins, departments);
             forall i :: m < i < n ==> Target(StoreAt(start, ops, i), ops[i]) != Target(StoreAt(start, ops, m), ops[m])
    ensures var start := Empty(admins, departments);
            var s := StoreAt(start, ops, m);
            var id := Target(s, ops[m]);
            Leaves(s, ops[m], GetTemplate(s, id), GetTemplate(StoreAt(start, ops, n), id))
  {
    hide Step, Valid, StoreAt, Empty, GetTemplate, Leaves, Target;
    ValidOverRuns(admins, departments, ops, m);
    LastWriteFrom(Empty(admins, departments), ops, m, n);
  }
}
