/** Ticket status updates and the comments they leave behind. */
module Tickets {
  import opened Text

  datatype Status = OPEN | IN_PROGRESS | RESOLVED | CLOSED
  datatype Note = Reopened | Acknowledged | Fixed | Verified

  /** A comment is written by a status update, or by hand with a free text. */
  datatype Comment = Automatic(ticketId: nat, note: Note) | Manual(ticketId: nat, message: string)

  datatype Store = Store(tickets: map<nat, Status>, comments: seq<Comment>, nextId: nat)

  /** OPEN leaves a note only for a ticket that had been resolved or closed. */
  function NoteFor(current: Status, status: Status): Option<Note> {
    match status
    case OPEN => if current == RESOLVED || current == CLOSED then Some(Reopened) else None
    case IN_PROGRESS => Some(Acknowledged)
    case RESOLVED => Some(Fixed)
    case CLOSED => Some(Verified)
  }

  datatype Op = Create | UpdateStatus(id: nat, status: Status) | AddComment(id: nat, message: string)

  function Apply(s: Store, op: Op): Store {
    match op
    case Create => s.(tickets := s.tickets[s.nextId := OPEN], nextId := s.nextId + 1)
    case UpdateStatus(id, status) =>
      if id !in s.tickets then s
      else
        var note := NoteFor(s.tickets[id], status);
        s.(tickets := s.tickets[id := status],
           comments := s.comments + if note.Some? then [Automatic(id, note.value)] else [])
    case AddComment(id, message) =>
      // the comment row refers to a ticket
      if id !in s.tickets then s else s.(comments := s.comments + [Manual(id, message)])
  }

  class TicketService {
    var tickets: map<nat, Status>
    var comments: seq<Comment>
    var nextId: nat

    ghost function Abs(): Store
      reads this
    {
      Store(tickets, comments, nextId)
    }

    constructor ()
      ensures Abs() == Store(map[], [], 0)
    {
      tickets, comments, nextId := map[], [], 0;
    }

    method CreateTicket() returns (id: nat)
      modifies this
      ensures Abs() == old(Apply(Abs(), Create)) && id == old(nextId)
    {
      id := nextId;
      tickets := tickets[id := OPEN];
      nextId := nextId + 1;
    }

    method UpdateTicketStatus(id: nat, status: Status) returns (found: bool)
      modifies this
      ensures Abs() == old(Apply(Abs(), UpdateStatus(id, status))) && found == old(id in tickets)
    {
      found := id in tickets;
      if !found { return; }
      var note := NoteFor(tickets[id], status);
      var created: seq<Comment> := [];
      if note.Some? {
        created := created + [Automatic(id, note.value)];
      }
      tickets := tickets[id := status];
      comments := comments + created;
    }
  }

  // ----- runs

  function After(ops: seq<Op>): Store {
    if ops == [] then Store(map[], [], 0) else Apply(After(ops[..|ops| - 1]), ops[|ops| - 1])
  }

  /** The automatic notes of a ticket, oldest first. */
  function NotesOf(comments: seq<Comment>, id: nat): seq<Note> {
    if comments == [] then []
    else
      var last := comments[|comments| - 1];
      NotesOf(comments[..|comments| - 1], id) + if last.Automatic? && last.ticketId == id then [last.note] else []
  }

  function Reopens(notes: seq<Note>): nat {
    if notes == [] then 0 else Reopens(notes[..|notes| - 1]) + if notes[|notes| - 1] == Reopened then 1 else 0
  }

  function Endings(notes: seq<Note>): nat {
    if notes == [] then 0
    else Endings(notes[..|notes| - 1]) + if notes[|notes| - 1] == Fixed || notes[|notes| - 1] == Verified then 1 else 0
  }

  /** Successful status updates of a ticket, and those of them that leave no note. */
  function Updates(ops: seq<Op>, id: nat): nat {
    if ops == [] then 0
    else
      var op := ops[|ops| - 1];
      Updates(ops[..|ops| - 1], id)
      + if op.UpdateStatus? && op.id == id && id in After(ops[..|ops| - 1]).tickets then 1 else 0
  }

  function SilentUpdates(ops: seq<Op>, id: nat): nat {
    if ops == [] then 0
    else
      var op, before := ops[|ops| - 1], After(ops[..|ops| - 1]);
      SilentUpdates(ops[..|ops| - 1], id)
      + if op == UpdateStatus(id, OPEN) && id in before.tickets && (before.tickets[id] == OPEN || before.tickets[id] == IN_PROGRESS)
        then 1 else 0
  }

  predicate Ended(s: Store, id: nat) {
    id in s.tickets && (s.tickets[id] == RESOLVED || s.tickets[id] == CLOSED)
  }

  ghost predicate EveryPrefix(notes: seq<Note>) {
    forall k :: 0 <= k <= |notes| ==> Reopens(notes[..k]) <= Endings(notes[..k])
  }

  lemma EveryPrefixGrows(notes: seq<Note>, note: Note)
    requires EveryPrefix(notes) && Reopens(notes + [note]) <= Endings(notes + [note])
    ensures EveryPrefix(notes + [note])
  {
    var more := notes + [note];
    forall k | 0 <= k <= |more|
      ensures Reopens(more[..k]) <= Endings(more[..k])
    {
      assert k <= |notes| ==> more[..k] == notes[..k];
      assert k == |more| ==> more[..k] == more;
    }
  }

  lemma NotesAfterComment(comments: seq<Comment>, c: Comment, id: nat)
    ensures NotesOf(comments + [c], id)
         == if c.Automatic? && c.ticketId == id then NotesOf(comments, id) + [c.note] else NotesOf(comments, id)
  {
  }

  lemma CountsAfterNote(notes: seq<Note>, note: Note)
    ensures Reopens(notes + [note]) == Reopens(notes) + if note == Reopened then 1 else 0
    ensures Endings(notes + [note]) == Endings(notes) + if note == Fixed || note == Verified then 1 else 0
  {
  }

  ghost predicate Disciplined(s: Store, id: nat) {
    var notes := NotesOf(s.comments, id);
    && EveryPrefix(notes)
    && Reopens(notes) + (if Ended(s, id) then 1 else 0) <= Endings(notes)
    && (id !in s.tickets ==> notes == [])
    && (forall i :: i in s.tickets ==> i < s.nextId)
  }

  lemma UpdateKeepsDiscipline(s: Store, target: nat, status: Status, id: nat)
    requires Disciplined(s, id) && target in s.tickets
    ensures Disciplined(Apply(s, UpdateStatus(target, status)), id)
  {
    hide NotesOf, Reopens, Endings, EveryPrefix;
    var note := NoteFor(s.tickets[target], status);
    if note.Some? {
      NotesAfterComment(s.comments, Automatic(target, note.value), id);
      if target == id {
        var notes := NotesOf(s.comments, id);
        CountsAfterNote(notes, note.value);
        EveryPrefixGrows(notes, note.value);
      }
    } else {
      assert Apply(s, UpdateStatus(target, status)).comments == s.comments;
    }
  }

  lemma StepKeepsDiscipline(s: Store, op: Op, id: nat)
    requires Disciplined(s, id)
    ensures Disciplined(Apply(s, op), id)
  {
    hide NotesOf, Reopens, Endings, EveryPrefix;
    if op.UpdateStatus? && op.id in s.tickets {
      UpdateKeepsDiscipline(s, op.id, op.status, id);
    } else if op.AddComment? {
      NotesAfterComment(s.comments, Manual(op.id, op.message), id);
    }
  }

  /** At every prefix of the automatic log of a ticket, every reopening answers an earlier resolution or closing. */
  lemma {:induction false} ReopensAnswerEndings(ops: seq<Op>, id: nat)
    ensures Disciplined(After(ops), id)
  {
    if ops == [] {
      assert EveryPrefix([]);
    } else {
      hide Disciplined, Apply;
      ReopensAnswerEndings(ops[..|ops| - 1], id);
      StepKeepsDiscipline(After(ops[..|ops| - 1]), ops[|ops| - 1], id);
    }
  }

  /** The notes of a ticket are its successful status updates, apart from the silent ones. */
  lemma {:induction false} NotesAreUpdates(ops: seq<Op>, id: nat)
    ensures |NotesOf(After(ops).comments, id)| == Updates(ops, id) - SilentUpdates(ops, id)
  {
    if ops != [] {
      var before, op := After(ops[..|ops| - 1]), ops[|ops| - 1];
      NotesAreUpdates(ops[..|ops| - 1], id);
      hide After, NotesOf;
      assert After(ops) == Apply(before, op) by { LastStep(ops); }
      if op.AddComment? {
        NotesAfterComment(before.comments, Manual(op.id, op.message), id);
      } else if op.UpdateStatus? && op.id in before.tickets {
        var note := NoteFor(before.tickets[op.id], op.status);
        if note.Some? {
          NotesAfterComment(before.comments, Automatic(op.id, note.value), id);
        } else {
          assert Apply(before, op).comments == before.comments;
        }
      }
    }
  }

  lemma LastStep(ops: seq<Op>)
    requires ops != []
    ensures After(ops) == Apply(After(ops[..|ops| - 1]), ops[|ops| - 1])
  {
  }

  // ----- what an update does

  /** A status update sets the status of its ticket and adds the note of the change; nothing else changes. */
  lemma UpdateLeavesItsNote(s: Store, id: nat, status: Status)
    ensures id !in s.tickets ==> Apply(s, UpdateStatus(id, status)) == s
    ensures id in s.tickets ==>
              var s', was := Apply(s, UpdateStatus(id, status)), s.tickets[id];
              && s'.tickets == s.tickets[id := status] && s'.nextId == s.nextId
              && (status == CLOSED ==> s'.comments == s.comments + [Automatic(id, Verified)])
              && (status == RESOLVED ==> s'.comments == s.comments + [Automatic(id, Fixed)])
              && (status == IN_PROGRESS ==> s'.comments == s.comments + [Automatic(id, Acknowledged)])
              && (status == OPEN && was in {RESOLVED, CLOSED} ==> s'.comments == s.comments + [Automatic(id, Reopened)])
              && (status == OPEN && was in {OPEN, IN_PROGRESS} ==> s'.comments == s.comments)
  {
  }

  /** A new ticket is open, has an id that no ticket has, and no notes. */
  lemma CreatedTicketIsOpen(ops: seq<Op>)
    ensures var s := After(ops);
            var s' := Apply(s, Create);
            && s.nextId !in s.tickets && s'.tickets == s.tickets[s.nextId := OPEN]
            && s'.comments == s.comments && NotesOf(s'.comments, s.nextId) == []
  {
    ReopensAnswerEndings(ops, After(ops).nextId);
  }

  /** A comment by hand is added exactly to a ticket that exists, and is no note of its status. */
  lemma CommentIsAdded(s: Store, id: nat, message: string, other: nat)
    ensures Apply(s, AddComment(id, message)) == if id in s.tickets then s.(comments := s.comments + [Manual(id, message)]) else s
    ensures NotesOf(Apply(s, AddComment(id, message)).comments, other) == NotesOf(s.comments, other)
  {
    NotesAfterComment(s.comments, Manual(id, message), other);
  }

  /** What the last note of a ticket says about its status. */
  predicate Tells(notes: seq<Note>, status: Status) {
    if notes == [] then status == OPEN
    else
      match notes[|notes| - 1]
      case Reopened => status == OPEN
      case Acknowledged => status == IN_PROGRESS || status == OPEN
      case Fixed => status == RESOLVED
      case Verified => status == CLOSED
  }

  lemma TellsAfterUpdate(s: Store, target: nat, status: Status, id: nat)
    requires id in s.tickets ==> Tells(NotesOf(s.comments, id), s.tickets[id])
    ensures var s' := Apply(s, UpdateStatus(target, status));
            id in s'.tickets ==> Tells(NotesOf(s'.comments, id), s'.tickets[id])
  {
    hide NotesOf;
    if target in s.tickets {
      var note := NoteFor(s.tickets[target], status);
      if note.Some? {
        NotesAfterComment(s.comments, Automatic(target, note.value), id);
      } else {
        assert Apply(s, UpdateStatus(target, status)).comments == s.comments;
      }
    }
  }

  /** The status of a ticket is the one its last note stands for, or open again without a note after an acknowledgement. */
  lemma {:induction false} LastNoteTellsStatus(ops: seq<Op>, id: nat)
    ensures id in After(ops).tickets ==> Tells(NotesOf(After(ops).comments, id), After(ops).tickets[id])
  {
    if ops != [] {
      var front := ops[..|ops| - 1];
      var before, op := After(front), ops[|ops| - 1];
      LastNoteTellsStatus(front, id);
      LastStep(ops);
      hide After, NotesOf, Tells;
      match op {
        case Create =>
          CreatedTicketIsOpen(front);
          NothingTellsOpen();
        case AddComment(target, message) => CommentIsAdded(before, target, message, id);
        case UpdateStatus(target, status) => TellsAfterUpdate(before, target, status, id);
      }
    }
  }

  lemma NothingTellsOpen()
    ensures Tells([], OPEN)
  {
  }
}
