/** Alarm ingestion as a transition system.

    Any number of consumers and replays work on messages at the same time. Each of their
    store calls is one atomic step, may fail in either way a `Fault` describes, and keys may
    expire at any moment. An attempt is one call of `HandleDeviceEvent`; a consumer makes up
    to four of them, a replay exactly one.
  */
module AlarmProtocol {
  import opened Options
  import opened KeyStore

  // ----- Data

  /** The idempotency key of an event: the request id it carries, or else a fingerprint. */
  datatype EventId = Given(request: string) | Fingerprint(device: string, kind: string, time: int)

  datatype Event = Event(id: EventId, tenant: int, device: string, kind: string)

  /** A bus message; `event` is what its payload decodes to, `None` for a malformed payload. */
  datatype Message = Message(payload: string, event: Option<Event>)

  datatype CooldownKey = CooldownKey(device: string, kind: string, rule: int)

  datatype Row = Row(rule: int, request: EventId, tenant: int, device: string)

  /** `Attempt(a, n)` is the n-th call of the handler made by actor `a`. */
  datatype Attempt = Attempt(actor: nat, number: nat)

  /** What happened to one draft of an attempt that went past the L1 check. */
  datatype Fate = Stored | AlreadyStored | Suppressed

  datatype Failure = Malformed | Retryable

  datatype Outcome =
    | NoDrafts
    | AlreadySeen
    | Handled(rules: seq<int>, fates: seq<Fate>)
    | Buried
    | Rejected
  {
    /** The caller sees nil, and the consumer commits the offset. */
    predicate Commits() { this != Rejected }
  }

  datatype Pc =
    | Clear
    | Evaluate
    | Claim(rules: seq<int>)
    | Cool(rules: seq<int>)
    | Store(rules: seq<int>)
    | Release
    | Failed(failure: Failure)
    | Bury
    | Returned(outcome: Outcome)

  datatype Kind = Consumer | Replay

  /** One handler run. `fates` lists the drafts of the current attempt dealt with so far. */
  datatype Actor = Actor(kind: Kind, msg: Message, attempt: nat, pc: Pc, fates: seq<Fate>) {
    predicate HasEvent() { msg.event.Some? }

    /** Past the L1 check and not back yet. */
    predicate InFlight() { pc.Cool? || pc.Store? || pc.Release? }
  }

  /** `None` components are the ones left unconfigured. */
  datatype Config = Config(storage: bool, cooldown: bool, deadLetters: bool, rejectMissingTenant: bool)

  /** The values of `dedup` and `cooldown` record which attempt set the key; `leaked` records
      the attempts that set a cooldown key and then gave up without a row, `orphans` those that set
      an L1 key without hearing of it or could not give theirs back. All of it is history that no
      step of the program reads. */
  datatype World = World(
    dedup: map<EventId, Attempt>,
    cooldown: map<CooldownKey, Attempt>,
    rows: seq<Row>,
    deadLetters: seq<Message>,
    actors: map<nat, Actor>,
    leaked: set<(Attempt, int)>,
    orphans: set<Attempt>)

  datatype Evaluation = EvalError | Drafts(rules: seq<int>)

  datatype Action =
    | Spawn(id: nat, kind: Kind, msg: Message)
    | Act(id: nat, fault: Fault, evaluation: Evaluation, cancelled: bool)
    | ExpireDedup(event: EventId)
    | ExpireCooldown(key: CooldownKey)

  const MAX_RETRIES: nat := 3

  // ----- Steps

  predicate HasRow(rows: seq<Row>, rule: int, request: EventId) {
    exists r :: r in rows && r.rule == rule && r.request == request
  }

  /** The unique index on (rule, request): an insert that meets a row changes nothing. */
  function Insert(rows: seq<Row>, row: Row, f: Fault): (r: seq<Row>) {
    if f.TakesEffect() && !HasRow(rows, row.rule, row.request) then rows + [row] else rows
  }

  /** Rules have distinct ids, so the drafts of one event do too. */
  predicate Distinct(rules: seq<int>) {
    forall i, j :: 0 <= i < j < |rules| ==> rules[i] != rules[j]
  }

  function KeyOf(ev: Event, rule: int): CooldownKey {
    CooldownKey(ev.device, ev.kind, rule)
  }

  function RowOf(ev: Event, rule: int): Row {
    Row(rule, ev.id, ev.tenant, ev.device)
  }

  predicate Enabled(cfg: Config, w: World, a: Action) {
    match a
    case Spawn(id, kind, msg) => id !in w.actors && (kind.Replay? ==> msg in w.deadLetters)
    case Act(id, _, evaluation, _) =>
      id in w.actors && !w.actors[id].pc.Returned? && (evaluation.Drafts? ==> Distinct(evaluation.rules))
    case ExpireDedup(_) => true
    case ExpireCooldown(_) => true
  }

  function Goto(w: World, id: nat, a: Actor): World {
    w.(actors := w.actors[id := a])
  }

  function EvaluateStep(cfg: Config, a: Actor, e: Evaluation): Actor {
    if a.msg.event.None? then a.(pc := Failed(Malformed))
    else if e.EvalError? then a.(pc := Failed(Retryable))
    else if e.rules == [] then a.(pc := Returned(NoDrafts))
    else if !cfg.storage then a.(pc := Failed(Retryable))
    else if a.msg.event.value.tenant <= 0 && cfg.rejectMissingTenant && cfg.deadLetters then
      a.(pc := Failed(Malformed))
    else a.(pc := Claim(e.rules))
  }

  function ClaimStep(w: World, id: nat, a: Actor, f: Fault): World
    requires a.pc.Claim? && a.HasEvent()
  {
    var me := Attempt(id, a.attempt);
    var (dedup, reply) := SetIfAbsent(w.dedup, a.msg.event.value.id, me, f);
    var orphans := if f.Late? && a.msg.event.value.id !in w.dedup then {me} else {};
    var pc := match reply
      case Unavailable => Failed(Retryable)
      case Answer(true) => Returned(AlreadySeen)
      case Answer(false) => Cool(a.pc.rules);
    Goto(w.(dedup := dedup, orphans := w.orphans + orphans), id, a.(pc := pc, fates := []))
  }

  function CoolStep(cfg: Config, w: World, id: nat, a: Actor, f: Fault): World
    requires a.pc.Cool? && a.HasEvent() && |a.fates| <= |a.pc.rules|
  {
    var rules, n := a.pc.rules, |a.fates|;
    if n == |rules| then Goto(w, id, a.(pc := Returned(Handled(rules, a.fates))))
    else if !cfg.cooldown then Goto(w, id, a.(pc := Store(rules)))
    else
      var key := KeyOf(a.msg.event.value, rules[n]);
      var me := Attempt(id, a.attempt);
      var (cooldown, reply) := SetIfAbsent(w.cooldown, key, me, f);
      var w' := w.(cooldown := cooldown);
      match reply
      case Unavailable =>
        var leaked := if f.Late? && key !in w.cooldown then {(me, rules[n])} else {};
        Goto(w'.(leaked := w.leaked + leaked), id, a.(pc := Release))
      case Answer(true) => Goto(w', id, a.(fates := a.fates + [Suppressed]))
      case Answer(false) => Goto(w', id, a.(pc := Store(rules)))
  }

  function StoreStep(w: World, id: nat, a: Actor, f: Fault): World
    requires a.pc.Store? && a.HasEvent() && |a.fates| < |a.pc.rules|
  {
    var rules, n := a.pc.rules, |a.fates|;
    var ev := a.msg.event.value;
    var present := HasRow(w.rows, rules[n], ev.id);
    var w' := w.(rows := Insert(w.rows, RowOf(ev, rules[n]), f));
    if f.Reports() then
      Goto(w', id, a.(pc := Cool(rules), fates := a.fates + [if present then AlreadyStored else Stored]))
    else
      var leaked := if f.Lost? then {(Attempt(id, a.attempt), rules[n])} else {};
      Goto(w'.(leaked := w.leaked + leaked), id, a.(pc := Release))
  }

  function FailedStep(a: Actor, cancelled: bool): Actor
    requires a.pc.Failed?
  {
    if a.kind.Replay? then a.(pc := Returned(Rejected))
    else if a.pc.failure.Malformed? || a.attempt >= MAX_RETRIES then a.(pc := Bury)
    else if cancelled then a.(pc := Returned(Rejected))
    else a.(attempt := a.attempt + 1, pc := Evaluate)
  }

  function BuryStep(cfg: Config, w: World, id: nat, a: Actor, f: Fault): World {
    if !cfg.deadLetters then Goto(w, id, a.(pc := Returned(Rejected)))
    else
      var w' := if f.TakesEffect() then w.(deadLetters := w.deadLetters + [a.msg]) else w;
      Goto(w', id, a.(pc := Returned(if f.Reports() then Buried else Rejected)))
  }

  /** Delete the L1 key of the actor's event, when it has one. */
  function DropKey(w: World, a: Actor, f: Fault): World {
    if a.HasEvent() then w.(dedup := Delete(w.dedup, a.msg.event.value.id, f)) else w
  }

  /** Give the L1 key back. */
  function ReleaseStep(w: World, id: nat, a: Actor, f: Fault): World {
    var orphans := if f.Lost? then {Attempt(id, a.attempt)} else {};
    Goto(DropKey(w, a, f).(orphans := w.orphans + orphans), id, a.(pc := Failed(Retryable)))
  }

  /** An actor in a state it can be in: the shape its program counter implies. */
  predicate Shaped(a: Actor) {
    && (a.pc.Claim? || a.InFlight() ==> a.HasEvent())
    && (a.pc.Cool? ==> |a.fates| <= |a.pc.rules|)
    && (a.pc.Store? ==> |a.fates| < |a.pc.rules|)
  }

  function ActStep(cfg: Config, w: World, id: nat, a: Actor, f: Fault, e: Evaluation, cancelled: bool): World
    requires Shaped(a)
  {
    match a.pc
    case Clear => Goto(DropKey(w, a, f), id, a.(pc := Evaluate))
    case Evaluate => Goto(w, id, EvaluateStep(cfg, a, e))
    case Claim(_) => ClaimStep(w, id, a, f)
    case Cool(_) => CoolStep(cfg, w, id, a, f)
    case Store(_) => StoreStep(w, id, a, f)
    case Release => ReleaseStep(w, id, a, f)
    case Failed(_) => Goto(w, id, FailedStep(a, cancelled))
    case Bury => BuryStep(cfg, w, id, a, f)
    case Returned(_) => w
  }

  function Apply(cfg: Config, w: World, a: Action): World
    requires Enabled(cfg, w, a)
    requires forall n :: n in w.actors ==> Shaped(w.actors[n])
  {
    match a
    case Spawn(id, kind, msg) =>
      Goto(w, id, Actor(kind, msg, 0, if kind.Replay? then Clear else Evaluate, []))
    case Act(id, f, e, cancelled) => ActStep(cfg, w, id, w.actors[id], f, e, cancelled)
    case ExpireDedup(event) => w.(dedup := w.dedup - {event})
    case ExpireCooldown(key) => w.(cooldown := w.cooldown - {key})
  }

  const INIT := World(map[], map[], [], [], map[], {}, {})

  // ----- Invariant

  ghost predicate UniqueRows(rows: seq<Row>) {
    forall i, j :: 0 <= i < j < |rows| ==> rows[i].rule != rows[j].rule || rows[i].request != rows[j].request
  }

  /** Draft by draft: a stored fate has its row. */
  ghost predicate Accounted(rows: seq<Row>, ev: EventId, rules: seq<int>, fates: seq<Fate>) {
    && |fates| <= |rules|
    && forall i :: 0 <= i < |fates| && fates[i] != Suppressed ==> HasRow(rows, rules[i], ev)
  }

  /** No retry can help: the payload does not parse, or the event belongs to nobody. */
  predicate Hopeless(cfg: Config, msg: Message) {
    msg.event.None? || (msg.event.value.tenant <= 0 && cfg.rejectMissingTenant && cfg.deadLetters)
  }

  /** What one actor may be sure of, given the rows and the dead letters. */
  ghost predicate ActorOk(cfg: Config, rows: seq<Row>, deadLetters: seq<Message>, a: Actor) {
    && Shaped(a)
    && a.attempt <= MAX_RETRIES
    && (a.kind.Replay? ==> a.attempt == 0)
    && (a.msg.event.None? ==>
      a.attempt == 0 && a.pc in {Clear, Evaluate, Failed(Malformed), Bury, Returned(Buried), Returned(Rejected)})
    && (a.pc.Cool? || a.pc.Store? ==>
      Accounted(rows, a.msg.event.value.id, a.pc.rules, a.fates) && (!cfg.cooldown ==> Suppressed !in a.fates))
    && (a.pc.Returned? && a.pc.outcome.Handled? ==>
      && |a.pc.outcome.fates| == |a.pc.outcome.rules|
      && Accounted(rows, a.msg.event.value.id, a.pc.outcome.rules, a.pc.outcome.fates)
      && (!cfg.cooldown ==> Suppressed !in a.pc.outcome.fates))
    && (a.pc == Returned(Buried) ==> a.msg in deadLetters)
    && (a.pc == Bury || a.pc == Returned(Buried) ==> a.kind.Consumer?)
    && (a.pc == Clear ==> a.kind.Replay?)
    && (a.pc == Failed(Malformed) ==> Hopeless(cfg, a.msg))
    && (a.pc == Bury || a.pc == Returned(Buried) ==> a.attempt == MAX_RETRIES || Hopeless(cfg, a.msg))
  }

  /** The holder of a cooldown key is about to store its alarm, has stored it, or leaked the key. */
  ghost predicate HolderOk(w: World, key: CooldownKey, h: Attempt) {
    && h.actor in w.actors
    && var a := w.actors[h.actor];
    && a.HasEvent()
    && KeyOf(a.msg.event.value, key.rule) == key
    && (|| (a.pc.Store? && a.attempt == h.number && |a.fates| < |a.pc.rules| && a.pc.rules[|a.fates|] == key.rule)
        || HasRow(w.rows, key.rule, a.msg.event.value.id)
        || (h, key.rule) in w.leaked)
  }

  ghost predicate Inv(cfg: Config, w: World) {
    && UniqueRows(w.rows)
    && (forall n :: n in w.actors ==> ActorOk(cfg, w.rows, w.deadLetters, w.actors[n]))
    && (forall k :: k in w.cooldown ==> HolderOk(w, k, w.cooldown[k]))
  }

  /** The attempt that set a live L1 key is at work or has dealt with every draft. */
  ghost predicate ClaimOk(w: World, event: EventId, h: Attempt) {
    && h.actor in w.actors
    && var a := w.actors[h.actor];
    && a.HasEvent()
    && a.msg.event.value.id == event
    && a.attempt == h.number
    && (a.InFlight() || (a.pc.Returned? && a.pc.outcome.Handled?))
  }

  /** An orphaned attempt has failed, and deals with no draft any more. */
  ghost predicate OrphanOk(w: World, h: Attempt) {
    && h.actor in w.actors
    && var a := w.actors[h.actor];
    && h.number <= a.attempt
    && (h.number == a.attempt ==>
          a.pc.Failed? || a.pc.Bury? || a.pc == Returned(Buried) || a.pc == Returned(Rejected))
  }

  ghost predicate ClaimInv(w: World) {
    && (forall e :: e in w.dedup ==> ClaimOk(w, e, w.dedup[e]) || w.dedup[e] in w.orphans)
    && (forall h :: h in w.orphans ==> OrphanOk(w, h))
  }

  lemma RowsKept(rows: seq<Row>, row: Row, f: Fault, rule: int, request: EventId)
    ensures HasRow(rows, rule, request) ==> HasRow(Insert(rows, row, f), rule, request)
    ensures f.TakesEffect() ==> HasRow(Insert(rows, row, f), row.rule, row.request)
  {
    if HasRow(rows, rule, request) {
      var r :| r in rows && r.rule == rule && r.request == request;
      assert r in Insert(rows, row, f);
    }
    if f.TakesEffect() && !HasRow(rows, row.rule, row.request) {
      assert row in Insert(rows, row, f);
    }
  }

  lemma InsertKeepsUnique(rows: seq<Row>, row: Row, f: Fault)
    requires UniqueRows(rows)
    ensures UniqueRows(Insert(rows, row, f))
  {
    var after := Insert(rows, row, f);
    forall i, j | 0 <= i < j < |after|
      ensures after[i].rule != after[j].rule || after[i].request != after[j].request
    {
      if j == |rows| {
        assert rows[i] in rows;
      }
    }
  }

  /** Rows are only added. */
  ghost predicate Grows(rows: seq<Row>, rows': seq<Row>) {
    forall rule, e :: HasRow(rows, rule, e) ==> HasRow(rows', rule, e)
  }

  lemma InsertGrows(rows: seq<Row>, row: Row, f: Fault)
    ensures Grows(rows, Insert(rows, row, f))
  {
    forall rule, e | HasRow(rows, rule, e) ensures HasRow(Insert(rows, row, f), rule, e) {
      RowsKept(rows, row, f, rule, e);
    }
  }

  /** `w'` differs from `w` by a move of one actor that only adds to what others rely on. */
  ghost predicate Moved(w: World, w': World, id: nat, a': Actor) {
    && id in w.actors
    && w'.actors == w.actors[id := a']
    && a'.msg == w.actors[id].msg
    && Grows(w.rows, w'.rows)
    && (forall m :: m in w.deadLetters ==> m in w'.deadLetters)
    && w.leaked <= w'.leaked
  }

  /** A move keeps the invariant if the mover's new state is fine, new cooldown keys have a good
      holder, and a mover that leaves the store step has its row or has leaked its key. */
  lemma MoveKeepsInv(cfg: Config, w: World, w': World, id: nat, a': Actor)
    requires Inv(cfg, w) && Moved(w, w', id, a')
    requires UniqueRows(w'.rows) && ActorOk(cfg, w'.rows, w'.deadLetters, a')
    requires forall k :: k in w'.cooldown ==>
      (k in w.cooldown && w'.cooldown[k] == w.cooldown[k]) || HolderOk(w', k, w'.cooldown[k])
    requires var a := w.actors[id];
      a.pc.Store? && a.HasEvent() && |a.fates| < |a.pc.rules| ==>
        var rule := a.pc.rules[|a.fates|];
        HasRow(w'.rows, rule, a.msg.event.value.id) || (Attempt(id, a.attempt), rule) in w'.leaked
    ensures Inv(cfg, w')
  {
    forall n | n in w'.actors ensures ActorOk(cfg, w'.rows, w'.deadLetters, w'.actors[n]) {
      if n != id {
        assert ActorOk(cfg, w.rows, w.deadLetters, w.actors[n]);
      }
    }
    forall k | k in w'.cooldown ensures HolderOk(w', k, w'.cooldown[k]) {
      if k in w.cooldown && w'.cooldown[k] == w.cooldown[k] {
        assert HolderOk(w, k, w.cooldown[k]);
      }
    }
  }

  lemma ClaimKeepsInv(cfg: Config, w: World, id: nat, f: Fault)
    requires Inv(cfg, w) && id in w.actors && w.actors[id].pc.Claim?
    ensures Inv(cfg, ClaimStep(w, id, w.actors[id], f))
  {
    var w' := ClaimStep(w, id, w.actors[id], f);
    MoveKeepsInv(cfg, w, w', id, w'.actors[id]);
  }

  lemma CoolActorOk(cfg: Config, w: World, id: nat, f: Fault)
    requires Inv(cfg, w) && id in w.actors && w.actors[id].pc.Cool?
    ensures var w' := CoolStep(cfg, w, id, w.actors[id], f);
      ActorOk(cfg, w.rows, w.deadLetters, w'.actors[id])
  {
    assert ActorOk(cfg, w.rows, w.deadLetters, w.actors[id]);
  }

  lemma CoolKeepsInv(cfg: Config, w: World, id: nat, f: Fault)
    requires Inv(cfg, w) && id in w.actors && w.actors[id].pc.Cool?
    ensures Inv(cfg, CoolStep(cfg, w, id, w.actors[id], f))
  {
    var a := w.actors[id];
    var w' := CoolStep(cfg, w, id, a, f);
    CoolActorOk(cfg, w, id, f);
    forall k | k in w'.cooldown && (k !in w.cooldown || w'.cooldown[k] != w.cooldown[k])
      ensures HolderOk(w', k, w'.cooldown[k])
    {
      assert k == KeyOf(a.msg.event.value, a.pc.rules[|a.fates|]);
    }
    MoveKeepsInv(cfg, w, w', id, w'.actors[id]);
  }

  lemma StoreKeepsInv(cfg: Config, w: World, id: nat, f: Fault)
    requires Inv(cfg, w) && id in w.actors && w.actors[id].pc.Store?
    ensures Inv(cfg, StoreStep(w, id, w.actors[id], f))
  {
    var a := w.actors[id];
    var w' := StoreStep(w, id, a, f);
    assert ActorOk(cfg, w.rows, w.deadLetters, a);
    var row := RowOf(a.msg.event.value, a.pc.rules[|a.fates|]);
    InsertKeepsUnique(w.rows, row, f);
    InsertGrows(w.rows, row, f);
    RowsKept(w.rows, row, f, row.rule, row.request);
    assert ActorOk(cfg, w'.rows, w'.deadLetters, w'.actors[id]);
    MoveKeepsInv(cfg, w, w', id, w'.actors[id]);
  }

  /** A move that touches no store beyond the L1 keys, to a state that is fine. */
  lemma PlainMoveKeepsInv(cfg: Config, w: World, w': World, id: nat, a': Actor)
    requires Inv(cfg, w) && id in w.actors && !w.actors[id].pc.Store?
    requires w' == Goto(w, id, a').(dedup := w'.dedup, orphans := w'.orphans) && a'.msg == w.actors[id].msg
    requires ActorOk(cfg, w.rows, w.deadLetters, a')
    ensures Inv(cfg, w')
  {
    MoveKeepsInv(cfg, w, w', id, a');
  }

  lemma BuryKeepsInv(cfg: Config, w: World, id: nat, f: Fault)
    requires Inv(cfg, w) && id in w.actors && w.actors[id].pc.Bury?
    ensures Inv(cfg, BuryStep(cfg, w, id, w.actors[id], f))
  {
    var a := w.actors[id];
    var w' := BuryStep(cfg, w, id, a, f);
    assert ActorOk(cfg, w.rows, w.deadLetters, a);
    assert ActorOk(cfg, w'.rows, w'.deadLetters, w'.actors[id]);
    MoveKeepsInv(cfg, w, w', id, w'.actors[id]);
  }

  lemma EvaluateKeepsInv(cfg: Config, w: World, id: nat, e: Evaluation)
    requires Inv(cfg, w) && id in w.actors && w.actors[id].pc.Evaluate?
    ensures Inv(cfg, Goto(w, id, EvaluateStep(cfg, w.actors[id], e)))
  {
    var a := w.actors[id];
    assert ActorOk(cfg, w.rows, w.deadLetters, a);
    PlainMoveKeepsInv(cfg, w, Goto(w, id, EvaluateStep(cfg, a, e)), id, EvaluateStep(cfg, a, e));
  }

  lemma FailedKeepsInv(cfg: Config, w: World, id: nat, cancelled: bool)
    requires Inv(cfg, w) && id in w.actors && w.actors[id].pc.Failed?
    ensures Inv(cfg, Goto(w, id, FailedStep(w.actors[id], cancelled)))
  {
    var a := w.actors[id];
    assert ActorOk(cfg, w.rows, w.deadLetters, a);
    PlainMoveKeepsInv(cfg, w, Goto(w, id, FailedStep(a, cancelled)), id, FailedStep(a, cancelled));
  }

  lemma ClearKeepsInv(cfg: Config, w: World, id: nat, f: Fault)
    requires Inv(cfg, w) && id in w.actors && w.actors[id].pc.Clear?
    ensures Inv(cfg, Goto(DropKey(w, w.actors[id], f), id, w.actors[id].(pc := Evaluate)))
  {
    var a := w.actors[id];
    assert ActorOk(cfg, w.rows, w.deadLetters, a);
    PlainMoveKeepsInv(cfg, w, Goto(DropKey(w, a, f), id, a.(pc := Evaluate)), id, a.(pc := Evaluate));
  }

  lemma ReleaseKeepsInv(cfg: Config, w: World, id: nat, f: Fault)
    requires Inv(cfg, w) && id in w.actors && w.actors[id].pc.Release?
    ensures Inv(cfg, ReleaseStep(w, id, w.actors[id], f))
  {
    var a := w.actors[id];
    assert ActorOk(cfg, w.rows, w.deadLetters, a);
    PlainMoveKeepsInv(cfg, w, ReleaseStep(w, id, a, f), id, a.(pc := Failed(Retryable)));
  }

  lemma ActKeepsInv(cfg: Config, w: World, id: nat, f: Fault, e: Evaluation, cancelled: bool)
    requires Inv(cfg, w) && Enabled(cfg, w, Act(id, f, e, cancelled))
    ensures Inv(cfg, ActStep(cfg, w, id, w.actors[id], f, e, cancelled))
  {
    match w.actors[id].pc
    case Clear => ClearKeepsInv(cfg, w, id, f);
    case Evaluate => EvaluateKeepsInv(cfg, w, id, e);
    case Claim(_) => ClaimKeepsInv(cfg, w, id, f);
    case Cool(_) => CoolKeepsInv(cfg, w, id, f);
    case Store(_) => StoreKeepsInv(cfg, w, id, f);
    case Release => ReleaseKeepsInv(cfg, w, id, f);
    case Failed(_) => FailedKeepsInv(cfg, w, id, cancelled);
    case Bury => BuryKeepsInv(cfg, w, id, f);
    case Returned(_) =>
  }

  lemma StepKeepsInv(cfg: Config, w: World, a: Action)
    requires Inv(cfg, w) && Enabled(cfg, w, a)
    ensures Inv(cfg, Apply(cfg, w, a))
  {
    match a
    case Act(id, f, e, cancelled) => ActKeepsInv(cfg, w, id, f, e, cancelled);
    case _ =>
      forall k | k in Apply(cfg, w, a).cooldown ensures HolderOk(Apply(cfg, w, a), k, w.cooldown[k]) {
        assert HolderOk(w, k, w.cooldown[k]);
      }
  }

  /** A move keeps the claims if any new key is the mover's or orphaned, and the mover's own attempt
      stays at its key, ends well or is orphaned. */
  lemma MoveKeepsClaims(w: World, w': World, id: nat, a': Actor)
    requires ClaimInv(w) && id in w.actors
    requires w'.actors == w.actors[id := a'] && a'.msg == w.actors[id].msg
    requires forall e :: e in w'.dedup ==>
      (e in w.dedup && w'.dedup[e] == w.dedup[e]) || ClaimOk(w', e, w'.dedup[e]) || w'.dedup[e] in w'.orphans
    requires w.orphans <= w'.orphans <= w.orphans + {Attempt(id, w.actors[id].attempt)}
    requires forall h :: h in w'.orphans && h.actor == id ==> OrphanOk(w', h)
    requires var a := w.actors[id];
      a.HasEvent() && a.InFlight() && a.msg.event.value.id in w'.dedup ==>
        || (a'.attempt == a.attempt && (a'.InFlight() || (a'.pc.Returned? && a'.pc.outcome.Handled?)))
        || Attempt(id, a.attempt) in w'.orphans
    requires var a := w.actors[id]; !(a.pc.Returned? && a.pc.outcome.Handled?)
    ensures ClaimInv(w')
  {
    forall e | e in w'.dedup ensures ClaimOk(w', e, w'.dedup[e]) || w'.dedup[e] in w'.orphans {
      if e in w.dedup && w'.dedup[e] == w.dedup[e] && w.dedup[e] !in w'.orphans {
        assert ClaimOk(w, e, w.dedup[e]);
      }
    }
    forall h | h in w'.orphans ensures OrphanOk(w', h) {
      if h.actor != id {
        assert OrphanOk(w, h);
      }
    }
  }

  /** The mover's earlier orphans are of earlier attempts, or it has failed already. */
  lemma OwnOrphans(w: World, w': World, id: nat, a': Actor)
    requires ClaimInv(w) && id in w.actors && w'.actors == w.actors[id := a']
    requires var a := w.actors[id];
      || (a'.attempt > a.attempt)
      || (a'.attempt == a.attempt && !a.pc.Failed? && !a.pc.Bury? && !a.pc.Returned?)
      || (a'.attempt == a.attempt && (a'.pc.Bury? || a'.pc == Returned(Buried) || a'.pc == Returned(Rejected)))
    ensures forall h :: h in w.orphans && h.actor == id ==> OrphanOk(w', h)
  {
    forall h | h in w.orphans && h.actor == id ensures OrphanOk(w', h) {
      assert OrphanOk(w, h);
    }
  }

  lemma ClaimKeepsClaims(cfg: Config, w: World, id: nat, f: Fault)
    requires Inv(cfg, w) && ClaimInv(w) && id in w.actors && w.actors[id].pc.Claim?
    ensures ClaimInv(ClaimStep(w, id, w.actors[id], f))
  {
    var w' := ClaimStep(w, id, w.actors[id], f);
    OwnOrphans(w, w', id, w'.actors[id]);
    MoveKeepsClaims(w, w', id, w'.actors[id]);
  }

  /** What a cooldown step leaves alone. */
  lemma CoolFrame(cfg: Config, w: World, id: nat, a: Actor, f: Fault)
    requires a.pc.Cool? && a.HasEvent() && |a.fates| <= |a.pc.rules|
    ensures var w' := CoolStep(cfg, w, id, a, f);
      && w'.dedup == w.dedup && w'.orphans == w.orphans && w'.actors == w.actors[id := w'.actors[id]]
      && w'.actors[id].msg == a.msg && w'.actors[id].attempt == a.attempt
      && (w'.actors[id].InFlight() || (w'.actors[id].pc.Returned? && w'.actors[id].pc.outcome.Handled?))
  {
  }

  lemma CoolKeepsClaims(cfg: Config, w: World, id: nat, f: Fault)
    requires Inv(cfg, w) && ClaimInv(w) && id in w.actors && w.actors[id].pc.Cool?
    ensures ClaimInv(CoolStep(cfg, w, id, w.actors[id], f))
  {
    var a := w.actors[id];
    assert Shaped(a);
    CoolFrame(cfg, w, id, a, f);
    var w' := CoolStep(cfg, w, id, a, f);
    OwnOrphans(w, w', id, w'.actors[id]);
    MoveKeepsClaims(w, w', id, w'.actors[id]);
  }

  lemma StoreKeepsClaims(cfg: Config, w: World, id: nat, f: Fault)
    requires Inv(cfg, w) && ClaimInv(w) && id in w.actors && w.actors[id].pc.Store?
    ensures ClaimInv(StoreStep(w, id, w.actors[id], f))
  {
    var w' := StoreStep(w, id, w.actors[id], f);
    OwnOrphans(w, w', id, w'.actors[id]);
    MoveKeepsClaims(w, w', id, w'.actors[id]);
  }

  lemma BuryKeepsClaims(cfg: Config, w: World, id: nat, f: Fault)
    requires Inv(cfg, w) && ClaimInv(w) && id in w.actors && w.actors[id].pc.Bury?
    ensures ClaimInv(BuryStep(cfg, w, id, w.actors[id], f))
  {
    var w' := BuryStep(cfg, w, id, w.actors[id], f);
    OwnOrphans(w, w', id, w'.actors[id]);
    MoveKeepsClaims(w, w', id, w'.actors[id]);
  }

  lemma EvaluateKeepsClaims(cfg: Config, w: World, id: nat, e: Evaluation)
    requires ClaimInv(w) && id in w.actors && w.actors[id].pc.Evaluate?
    ensures ClaimInv(Goto(w, id, EvaluateStep(cfg, w.actors[id], e)))
  {
    var a' := EvaluateStep(cfg, w.actors[id], e);
    OwnOrphans(w, Goto(w, id, a'), id, a');
    MoveKeepsClaims(w, Goto(w, id, a'), id, a');
  }

  lemma FailedKeepsClaims(w: World, id: nat, cancelled: bool)
    requires ClaimInv(w) && id in w.actors && w.actors[id].pc.Failed?
    ensures ClaimInv(Goto(w, id, FailedStep(w.actors[id], cancelled)))
  {
    var a' := FailedStep(w.actors[id], cancelled);
    OwnOrphans(w, Goto(w, id, a'), id, a');
    MoveKeepsClaims(w, Goto(w, id, a'), id, a');
  }

  lemma ClearKeepsClaims(w: World, id: nat, f: Fault)
    requires ClaimInv(w) && id in w.actors && w.actors[id].pc.Clear?
    ensures ClaimInv(Goto(DropKey(w, w.actors[id], f), id, w.actors[id].(pc := Evaluate)))
  {
    var a' := w.actors[id].(pc := Evaluate);
    OwnOrphans(w, Goto(DropKey(w, w.actors[id], f), id, a'), id, a');
    MoveKeepsClaims(w, Goto(DropKey(w, w.actors[id], f), id, a'), id, a');
  }

  lemma ReleaseKeepsClaims(w: World, id: nat, f: Fault)
    requires ClaimInv(w) && id in w.actors && w.actors[id].pc.Release? && w.actors[id].HasEvent()
    ensures ClaimInv(ReleaseStep(w, id, w.actors[id], f))
  {
    var w' := ReleaseStep(w, id, w.actors[id], f);
    OwnOrphans(w, w', id, w'.actors[id]);
    MoveKeepsClaims(w, w', id, w'.actors[id]);
  }

  lemma ActKeepsClaims(cfg: Config, w: World, id: nat, f: Fault, e: Evaluation, cancelled: bool)
    requires Inv(cfg, w) && ClaimInv(w) && Enabled(cfg, w, Act(id, f, e, cancelled))
    ensures ClaimInv(ActStep(cfg, w, id, w.actors[id], f, e, cancelled))
  {
    assert ActorOk(cfg, w.rows, w.deadLetters, w.actors[id]);
    match w.actors[id].pc
    case Clear => ClearKeepsClaims(w, id, f);
    case Evaluate => EvaluateKeepsClaims(cfg, w, id, e);
    case Claim(_) => ClaimKeepsClaims(cfg, w, id, f);
    case Cool(_) => CoolKeepsClaims(cfg, w, id, f);
    case Store(_) => StoreKeepsClaims(cfg, w, id, f);
    case Release => ReleaseKeepsClaims(w, id, f);
    case Failed(_) => FailedKeepsClaims(w, id, cancelled);
    case Bury => BuryKeepsClaims(cfg, w, id, f);
    case Returned(_) =>
  }

  lemma StepKeepsClaims(cfg: Config, w: World, a: Action)
    requires Inv(cfg, w) && ClaimInv(w) && Enabled(cfg, w, a)
    ensures ClaimInv(Apply(cfg, w, a))
  {
    match a
    case Act(id, f, e, cancelled) => ActKeepsClaims(cfg, w, id, f, e, cancelled);
    case _ =>
      var w' := Apply(cfg, w, a);
      forall e | e in w'.dedup ensures ClaimOk(w', e, w'.dedup[e]) || w'.dedup[e] in w'.orphans {
        assert ClaimOk(w, e, w.dedup[e]) || w.dedup[e] in w.orphans;
      }
      forall h | h in w'.orphans ensures OrphanOk(w', h) {
        assert OrphanOk(w, h);
      }
  }
}
