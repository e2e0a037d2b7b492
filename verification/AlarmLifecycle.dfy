/** The life of an alarm row: created once for a rule and a request, acknowledged, resolved. Every
    change is a conditional update and an audit entry in one transaction.
  */
module AlarmLifecycle {
  import opened Options
  import opened KeyStore

  datatype Change = Created | Acked | Resolved

  /** An alarm is pending (0), acknowledged (1) or resolved (2). */
  datatype Alarm = Alarm(rule: int, request: string, tenant: int, status: int, ackBy: int, resolveBy: int)

  datatype Entry = Entry(alarm: nat, tenant: int, change: Change, operator: int)

  /** Calls of any number of clients, in the order of their transactions. A call may fail before or
      after its transaction commits; a transaction that fails half-way leaves nothing. */
  datatype Action =
    | Create(rule: int, request: string, tenant: int, fault: Fault)
    | Transition(tenant: int, alarm: nat, operator: int, step: Step, fault: Fault)

  /** Acknowledge or resolve. */
  datatype Step = Ack | Resolve {
    function From(): int { if Ack? then 0 else 1 }

    function Change(): Change { if Ack? then Acked else Resolved }

    function Update(row: Alarm, operator: int): Alarm {
      if Ack? then row.(status := 1, ackBy := operator) else row.(status := 2, resolveBy := operator)
    }
  }

  datatype Reply = Done | Duplicate | NotFound | Failed

  /** `replies` is history: each call with its reply. */
  datatype World = World(rows: map<nat, Alarm>, log: seq<Entry>, nextId: nat, replies: seq<(Action, Reply)>)

  const INIT := World(map[], [], 1, [])

  predicate Occupied(rows: map<nat, Alarm>, rule: int, request: string) {
    exists id :: id in rows && rows[id].rule == rule && rows[id].request == request
  }

  predicate Updatable(rows: map<nat, Alarm>, tenant: int, id: nat, status: int) {
    id in rows && rows[id].tenant == tenant && rows[id].status == status
  }

  function Answered(w: World, a: Action, refusal: Option<Reply>): World {
    var reply := if !a.fault.NoFault? then Failed else if refusal.Some? then refusal.value else Done;
    w.(replies := w.replies + [(a, reply)])
  }

  /** Write a row with its audit entry, if the transaction commits. */
  function Write(w: World, a: Action, id: nat, row: Alarm, entry: Entry): World {
    Answered(if a.fault.TakesEffect() then w.(rows := w.rows[id := row], log := w.log + [entry]) else w, a, None)
  }

  /** An identifier is used up by every attempt to insert. */
  function Apply(w: World, a: Action): World {
    match a
    case Create(rule, request, tenant, f) =>
      var w' := w.(nextId := w.nextId + 1);
      if Occupied(w.rows, rule, request) then Answered(w', a, Some(Duplicate))
      else Write(w', a, w.nextId, Alarm(rule, request, tenant, 0, 0, 0), Entry(w.nextId, tenant, Created, 0))
    case Transition(tenant, id, operator, step, f) =>
      if !Updatable(w.rows, tenant, id, step.From()) then Answered(w, a, Some(NotFound))
      else Write(w, a, id, step.Update(w.rows[id], operator), Entry(id, tenant, step.Change(), operator))
  }

  function Exec(run: seq<Action>): World {
    if run == [] then INIT else Apply(Exec(run[..|run| - 1]), run[|run| - 1])
  }

  // ----- The audit trail tells the state of every alarm

  function Trail(log: seq<Entry>, id: nat): seq<Entry> {
    if log == [] then []
    else
      var e := log[|log| - 1];
      Trail(log[..|log| - 1], id) + if e.alarm == id then [e] else []
  }

  /** The entries that an alarm must have: one for each state it has been in. */
  function Expected(id: nat, a: Alarm): seq<Entry> {
    [Entry(id, a.tenant, Created, 0)]
    + (if a.status >= 1 then [Entry(id, a.tenant, Acked, a.ackBy)] else [])
    + (if a.status >= 2 then [Entry(id, a.tenant, Resolved, a.resolveBy)] else [])
  }

  ghost predicate Inv(w: World) {
    && (forall id :: id in w.rows ==> 0 <= w.rows[id].status <= 2 && id < w.nextId)
    && (forall id :: Trail(w.log, id) == if id in w.rows then Expected(id, w.rows[id]) else [])
    && (forall i, j :: i in w.rows && j in w.rows && i != j ==>
          w.rows[i].rule != w.rows[j].rule || w.rows[i].request != w.rows[j].request)
  }

  lemma TrailSnoc(log: seq<Entry>, e: Entry, id: nat)
    ensures Trail(log + [e], id) == Trail(log, id) + if e.alarm == id then [e] else []
  {
    assert (log + [e])[..|log|] == log;
  }

  lemma WriteKeepsInv(w: World, a: Action, id: nat, row: Alarm, entry: Entry)
    requires Inv(w) && id < w.nextId && entry.alarm == id && 0 <= row.status <= 2
    requires Expected(id, row) == (if id in w.rows then Expected(id, w.rows[id]) else []) + [entry]
    requires forall i :: i in w.rows && i != id ==> w.rows[i].rule != row.rule || w.rows[i].request != row.request
    ensures Inv(Write(w, a, id, row, entry))
  {
    var rows := w.rows[id := row];
    forall i ensures Trail(w.log + [entry], i) == if i in rows then Expected(i, rows[i]) else [] {
      TrailSnoc(w.log, entry, i);
      if i != id {
        assert Trail(w.log, i) + [] == Trail(w.log, i);
      }
    }
    if a.fault.TakesEffect() {
      assert Write(w, a, id, row, entry).rows == rows && Write(w, a, id, row, entry).log == w.log + [entry];
    }
  }

  lemma StepKeepsInv(w: World, a: Action)
    requires Inv(w)
    ensures Inv(Apply(w, a))
  {
    match a {
      case Create(rule, request, tenant, f) =>
        if !Occupied(w.rows, rule, request) {
          var w' := w.(nextId := w.nextId + 1);
          WriteKeepsInv(w', a, w.nextId, Alarm(rule, request, tenant, 0, 0, 0), Entry(w.nextId, tenant, Created, 0));
        }
      case Transition(tenant, id, operator, step, f) =>
        if Updatable(w.rows, tenant, id, step.From()) {
          WriteKeepsInv(w, a, id, step.Update(w.rows[id], operator), Entry(id, tenant, step.Change(), operator));
        }
    }
  }

  /** In every run the audit entries of an alarm are exactly one for each state it has been in, in
      order and with the operators on the row; and there is one alarm for a rule and a request. */
  lemma {:induction false} AuditTellsState(run: seq<Action>)
    ensures Inv(Exec(run))
  {
    if run != [] {
      AuditTellsState(run[..|run| - 1]);
      StepKeepsInv(Exec(run[..|run| - 1]), run[|run| - 1]);
    }
  }

  // ----- Of the operators who acknowledge an alarm at once, one succeeds

  predicate Succeeds(a: Action, r: Reply, id: nat, step: Step) {
    r.Done? && a.Transition? && a.alarm == id && a.step == step
  }

  /** The calls that took a step with an alarm and were told so. */
  function Successes(replies: seq<(Action, Reply)>, id: nat, step: Step): nat {
    if replies == [] then 0
    else
      var last := replies[|replies| - 1];
      Successes(replies[..|replies| - 1], id, step) + if Succeeds(last.0, last.1, id, step) then 1 else 0
  }

  function Count(log: seq<Entry>, id: nat, change: Change): nat {
    if log == [] then 0
    else
      var e := log[|log| - 1];
      Count(log[..|log| - 1], id, change) + if e.alarm == id && e.change == change then 1 else 0
  }

  lemma CountSnoc(log: seq<Entry>, e: Entry, id: nat, change: Change)
    ensures Count(log + [e], id, change)
         == Count(log, id, change) + if e.alarm == id && e.change == change then 1 else 0
  {
    assert (log + [e])[..|log|] == log;
  }

  lemma SuccessesSnoc(replies: seq<(Action, Reply)>, a: Action, r: Reply, id: nat, step: Step)
    ensures Successes(replies + [(a, r)], id, step)
         == Successes(replies, id, step) + if Succeeds(a, r, id, step) then 1 else 0
  {
    assert (replies + [(a, r)])[..|replies|] == replies;
  }

  lemma {:induction false} CountIsOfTrail(log: seq<Entry>, id: nat, change: Change)
    ensures Count(log, id, change) == Count(Trail(log, id), id, change)
  {
    if log != [] {
      var front, e := log[..|log| - 1], log[|log| - 1];
      CountIsOfTrail(front, id, change);
      if e.alarm == id {
        assert (Trail(front, id) + [e])[..|Trail(front, id)|] == Trail(front, id);
      } else {
        assert Trail(front, id) + [] == Trail(front, id);
      }
    }
  }

  lemma StepIsAudited(w: World, a: Action, id: nat, step: Step)
    ensures Successes(Apply(w, a).replies, id, step) - Successes(w.replies, id, step)
         <= Count(Apply(w, a).log, id, step.Change()) - Count(w.log, id, step.Change())
  {
    var w' := Apply(w, a);
    var reply := w'.replies[|w.replies|].1;
    SuccessesSnoc(w.replies, a, reply, id, step);
    if w'.log != w.log {
      CountSnoc(w.log, w'.log[|w.log|], id, step.Change());
    }
  }

  /** A call that succeeds is audited; one that is audited may not know that it has succeeded. */
  lemma {:induction false} SuccessIsAudited(run: seq<Action>, id: nat, step: Step)
    ensures Successes(Exec(run).replies, id, step) <= Count(Exec(run).log, id, step.Change())
  {
    if run != [] {
      SuccessIsAudited(run[..|run| - 1], id, step);
      StepIsAudited(Exec(run[..|run| - 1]), run[|run| - 1], id, step);
    }
  }

  /** However many clients try, at most one is told that it acknowledged an alarm, and at most one
      that it resolved it; and nothing is resolved that was not acknowledged. */
  lemma OneWinner(run: seq<Action>, id: nat, step: Step)
    ensures Successes(Exec(run).replies, id, step) <= 1
    ensures var log := Exec(run).log;
      Count(log, id, Resolved) <= Count(log, id, Acked) <= Count(log, id, Created) <= 1
  {
    var w := Exec(run);
    AuditTellsState(run);
    SuccessIsAudited(run, id, step);
    CountIsOfTrail(w.log, id, Created);
    CountIsOfTrail(w.log, id, Acked);
    CountIsOfTrail(w.log, id, Resolved);
    if id in w.rows {
      ExpectedCounts(id, w.rows[id]);
    }
  }

  lemma ExpectedCounts(id: nat, a: Alarm)
    requires 0 <= a.status <= 2
    ensures Count(Expected(id, a), id, Created) == 1
    ensures Count(Expected(id, a), id, Acked) == if a.status >= 1 then 1 else 0
    ensures Count(Expected(id, a), id, Resolved) == if a.status >= 2 then 1 else 0
  {
    var e := Expected(id, a);
    assert e[..1][..0] == [];
    assert Count(e[..1], id, Created) == 1 && Count(e[..1], id, Acked) == Count(e[..1], id, Resolved) == 0;
    if a.status == 0 {
      assert e == e[..1];
    } else {
      assert e[..2][..1] == e[..1];
      assert a.status == 1 ==> e == e[..2];
    }
  }

  // ----- The table

  class AlarmTable {
    var rows: map<nat, Alarm>
    var log: seq<Entry>
    var nextId: nat
    ghost var replies: seq<(Action, Reply)>
    ghost var run: seq<Action>

    ghost function View(): World
      reads this
    {
      World(rows, log, nextId, replies)
    }

    ghost predicate Valid()
      reads this
    {
      View() == Exec(run)
    }

    constructor ()
      ensures Valid() && run == []
    {
      rows, log, nextId := map[], [], 1;
      replies, run := [], [];
    }

    ghost method Note(a: Action, reply: Reply)
      modifies this`replies, this`run
      ensures replies == old(replies) + [(a, reply)] && run == old(run) + [a]
    {
      replies, run := replies + [(a, reply)], run + [a];
    }

    /** Insert an alarm unless there is one for the rule and the request. */
    method Create(rule: int, request: string, tenant: int, fault: Fault) returns (reply: Reply)
      requires Valid()
      modifies this
      ensures Valid() && run == old(run) + [Action.Create(rule, request, tenant, fault)]
      ensures replies == old(replies) + [(Action.Create(rule, request, tenant, fault), reply)]
      ensures var free := forall id :: id in old(rows) ==>
          old(rows)[id].rule != rule || old(rows)[id].request != request;
        && reply == (if !fault.NoFault? then Failed else if free then Done else Duplicate)
        && if free && fault.TakesEffect()
           then rows == old(rows)[old(nextId) := Alarm(rule, request, tenant, 0, 0, 0)]
                && log == old(log) + [Entry(old(nextId), tenant, Created, 0)]
           else rows == old(rows) && log == old(log)
    {
      ghost var a := Action.Create(rule, request, tenant, fault);
      var id := nextId;
      nextId := nextId + 1;
      reply := if fault.NoFault? then Done else Failed;
      if Occupied(rows, rule, request) {
        reply := if fault.NoFault? then Duplicate else Failed;
      } else if fault.TakesEffect() {
        rows := rows[id := Alarm(rule, request, tenant, 0, 0, 0)];
        log := log + [Entry(id, tenant, Created, 0)];
      }
      Note(a, reply);
      assert run[..|run| - 1] == old(run);
    }

    /** Acknowledge a pending alarm, or resolve an acknowledged one. */
    method Transition(tenant: int, id: nat, operator: int, step: Step, fault: Fault) returns (reply: Reply)
      requires Valid()
      modifies this
      ensures Valid() && run == old(run) + [Action.Transition(tenant, id, operator, step, fault)]
      ensures replies == old(replies) + [(Action.Transition(tenant, id, operator, step, fault), reply)]
      ensures var ready := id in old(rows) && old(rows)[id].tenant == tenant
          && old(rows)[id].status == (if step.Ack? then 0 else 1);
        && reply == (if !fault.NoFault? then Failed else if ready then Done else NotFound)
        && if ready && fault.TakesEffect()
           then rows == old(rows)[id := if step.Ack? then old(rows)[id].(status := 1, ackBy := operator)
                                        else old(rows)[id].(status := 2, resolveBy := operator)]
                && log == old(log) + [Entry(id, tenant, if step.Ack? then Acked else Resolved, operator)]
           else rows == old(rows) && log == old(log)
    {
      reply := if fault.NoFault? then Done else Failed;
      if !Updatable(rows, tenant, id, step.From()) {
        reply := if fault.NoFault? then NotFound else Failed;
      } else if fault.TakesEffect() {
        rows := rows[id := step.Update(rows[id], operator)];
        log := log + [Entry(id, tenant, step.Change(), operator)];
      }
      Note(Action.Transition(tenant, id, operator, step, fault), reply);
      assert run[..|run| - 1] == old(run);
    }
  }
}
