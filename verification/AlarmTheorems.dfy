/** What every run of alarm ingestion guarantees, and the runs that show where its documented
    promise stops holding.
  */
module AlarmTheorems {
  import opened Options
  import opened KeyStore
  import opened AlarmProtocol

  ghost predicate CanStep(cfg: Config, w: World, a: Action) {
    Enabled(cfg, w, a) && forall n :: n in w.actors ==> Shaped(w.actors[n])
  }

  /** The world after the actions `run`, if each was possible when its turn came. */
  ghost function Exec(cfg: Config, w: World, run: seq<Action>): Option<World> {
    if run == [] then Some(w)
    else
      var last := |run| - 1;
      match Exec(cfg, w, run[..last])
      case None => None
      case Some(u) => if CanStep(cfg, u, run[last]) then Some(Apply(cfg, u, run[last])) else None
  }

  lemma {:induction false} RunKeepsInv(cfg: Config, w: World, run: seq<Action>)
    requires Inv(cfg, w) && Exec(cfg, w, run).Some?
    ensures Inv(cfg, Exec(cfg, w, run).value)
  {
    if run != [] {
      var last := |run| - 1;
      RunKeepsInv(cfg, w, run[..last]);
      StepKeepsInv(cfg, Exec(cfg, w, run[..last]).value, run[last]);
    }
  }

  lemma {:induction false} RunKeepsClaims(cfg: Config, w: World, run: seq<Action>)
    requires Inv(cfg, w) && ClaimInv(w) && Exec(cfg, w, run).Some?
    ensures ClaimInv(Exec(cfg, w, run).value)
  {
    if run != [] {
      var last := |run| - 1;
      RunKeepsClaims(cfg, w, run[..last]);
      RunKeepsInv(cfg, w, run[..last]);
      StepKeepsClaims(cfg, Exec(cfg, w, run[..last]).value, run[last]);
    }
  }

  // ----- Safety of every run

  /** L3: no two rows share (rule, request), whatever is retried, redelivered or replayed. */
  lemma RowsStayUnique(cfg: Config, run: seq<Action>, i: nat, j: nat)
    requires Exec(cfg, INIT, run).Some?
    requires i < j < |Exec(cfg, INIT, run).value.rows|
    ensures var rows := Exec(cfg, INIT, run).value.rows;
      rows[i].rule != rows[j].rule || rows[i].request != rows[j].request
  {
    RunKeepsInv(cfg, INIT, run);
  }

  /** The draft of a rule has its row, or is held back by the cooldown. */
  ghost predicate DealtWith(cfg: Config, w: World, id: EventId, rule: int, fate: Fate) {
    (exists r :: r in w.rows && r.rule == rule && r.request == id) || (cfg.cooldown && fate == Suppressed)
  }

  /** What a committed offset stands for. */
  ghost predicate Settled(cfg: Config, w: World, a: Actor) {
    a.pc.Returned? &&
    match a.pc.outcome
    case NoDrafts => true
    case AlreadySeen => true
    case Handled(rules, fates) =>
      && a.HasEvent()
      && |fates| == |rules|
      && forall i :: 0 <= i < |rules| ==> DealtWith(cfg, w, a.msg.event.value.id, rules[i], fates[i])
    case Buried => a.msg in w.deadLetters
    case Rejected => false
  }

  /** Commit accounting under arbitrary store failures: at most four attempts, exactly one for a
      malformed payload, exactly four before a message is given up that a retry could help, and a nil
      return is one of the four settled outcomes. A malformed payload can only be settled by a dead
      letter. */
  lemma CommitAccounting(cfg: Config, run: seq<Action>, n: nat)
    requires Exec(cfg, INIT, run).Some?
    requires n in Exec(cfg, INIT, run).value.actors
    ensures var w := Exec(cfg, INIT, run).value; var a := w.actors[n];
      && a.attempt + 1 <= 4
      && (!a.HasEvent() ==> a.attempt + 1 == 1)
      && ((a.pc.Bury? || a.pc == Returned(Buried)) && !Hopeless(cfg, a.msg) ==> a.attempt + 1 == 4)
      && (a.pc.Returned? && a.pc.outcome.Commits() ==> Settled(cfg, w, a))
      && (a.pc.Returned? && a.pc.outcome.Commits() && !a.HasEvent() ==> a.msg in w.deadLetters)
  {
    RunKeepsInv(cfg, INIT, run);
    var w := Exec(cfg, INIT, run).value;
    var a := w.actors[n];
    assert ActorOk(cfg, w.rows, w.deadLetters, a);
    if a.pc.Returned? && a.pc.outcome.Handled? {
      HandledHasRows(cfg, w, a);
    }
  }

  lemma HandledHasRows(cfg: Config, w: World, a: Actor)
    requires ActorOk(cfg, w.rows, w.deadLetters, a) && a.pc.Returned? && a.pc.outcome.Handled?
    ensures Settled(cfg, w, a)
  {
    var o, id := a.pc.outcome, a.msg.event.value.id;
    forall i | 0 <= i < |o.rules| ensures DealtWith(cfg, w, id, o.rules[i], o.fates[i]) {
      if o.fates[i] == Suppressed {
        assert Suppressed in o.fates;
      } else {
        assert HasRow(w.rows, o.rules[i], id);
      }
    }
  }

  /** The row is of the event of some message that is or was handled. */
  ghost predicate Owned(w: World, row: Row) {
    exists n :: n in w.actors && w.actors[n].msg.event.Some?
      && var ev := w.actors[n].msg.event.value;
      row.request == ev.id && row.tenant == ev.tenant && row.device == ev.device
  }

  lemma OwnedStays(w: World, w': World, row: Row)
    requires Owned(w, row) && forall n :: n in w.actors ==> n in w'.actors && w'.actors[n].msg == w.actors[n].msg
    ensures Owned(w', row)
  {
    var n :| n in w.actors && w.actors[n].msg.event.Some?
      && var ev := w.actors[n].msg.event.value;
      row.request == ev.id && row.tenant == ev.tenant && row.device == ev.device;
    assert n in w'.actors && w'.actors[n].msg == w.actors[n].msg;
  }

  lemma StepKeepsMessages(cfg: Config, w: World, a: Action)
    requires CanStep(cfg, w, a)
    ensures forall n :: n in w.actors ==>
      n in Apply(cfg, w, a).actors && Apply(cfg, w, a).actors[n].msg == w.actors[n].msg
  {
    if a.Act? {
      ActKeepsMessages(cfg, w, a.id, a.fault, a.evaluation, a.cancelled);
    }
  }

  lemma ActKeepsMessages(cfg: Config, w: World, id: nat, f: Fault, e: Evaluation, c: bool)
    requires id in w.actors && Shaped(w.actors[id])
    ensures var w' := ActStep(cfg, w, id, w.actors[id], f, e, c);
      w'.actors.Keys == w.actors.Keys && forall n :: n in w.actors ==> w'.actors[n].msg == w.actors[n].msg
  {
    var a := w.actors[id];
    match a.pc
    case Clear => GotoKeepsMessages(DropKey(w, a, f), w, id, a.(pc := Evaluate));
    case Evaluate => GotoKeepsMessages(w, w, id, EvaluateStep(cfg, a, e));
    case Claim(_) => ClaimKeepsMessages(w, id, f);
    case Cool(_) => CoolFrame(cfg, w, id, a, f);
    case Store(_) => StoreKeepsMessages(w, id, f);
    case Release => ReleaseKeepsMessages(w, id, f);
    case Failed(_) => GotoKeepsMessages(w, w, id, FailedStep(a, c));
    case Bury => BuryKeepsMessages(cfg, w, id, f);
    case Returned(_) =>
  }

  ghost predicate SameMessages(w: World, w': World) {
    w'.actors.Keys == w.actors.Keys && forall n :: n in w.actors ==> w'.actors[n].msg == w.actors[n].msg
  }

  lemma GotoKeepsMessages(v: World, w: World, id: nat, a: Actor)
    requires id in w.actors && v.actors == w.actors && a.msg == w.actors[id].msg
    ensures SameMessages(w, Goto(v, id, a))
  {
  }

  lemma ClaimKeepsMessages(w: World, id: nat, f: Fault)
    requires id in w.actors && w.actors[id].pc.Claim? && w.actors[id].HasEvent()
    ensures SameMessages(w, ClaimStep(w, id, w.actors[id], f))
  {
  }

  lemma StoreKeepsMessages(w: World, id: nat, f: Fault)
    requires id in w.actors && w.actors[id].pc.Store? && Shaped(w.actors[id])
    ensures SameMessages(w, StoreStep(w, id, w.actors[id], f))
  {
  }

  lemma ReleaseKeepsMessages(w: World, id: nat, f: Fault)
    requires id in w.actors && w.actors[id].pc.Release?
    ensures SameMessages(w, ReleaseStep(w, id, w.actors[id], f))
  {
  }

  lemma BuryKeepsMessages(cfg: Config, w: World, id: nat, f: Fault)
    requires id in w.actors && w.actors[id].pc.Bury?
    ensures SameMessages(w, BuryStep(cfg, w, id, w.actors[id], f))
  {
  }

  /** Only the insert adds a row, and the one of its event. */
  lemma StepAddsOwnRow(cfg: Config, w: World, id: nat, f: Fault, e: Evaluation, c: bool)
    requires id in w.actors && Shaped(w.actors[id])
    ensures forall row :: row in ActStep(cfg, w, id, w.actors[id], f, e, c).rows ==>
      row in w.rows || (w.actors[id].msg.event.Some? && NewRow(w.actors[id].msg.event.value, row))
  {
    var a := w.actors[id];
    match a.pc
    case Store(rules) =>
      assert StoreStep(w, id, a, f).rows == Insert(w.rows, RowOf(a.msg.event.value, rules[|a.fates|]), f);
    case Cool(_) => assert CoolStep(cfg, w, id, a, f).rows == w.rows;
    case _ =>
  }

  predicate NewRow(ev: Event, row: Row) { row.request == ev.id && row.tenant == ev.tenant && row.device == ev.device }

  /** Every alarm is filed under the tenant and the device of an event that was handled, with its key. */
  lemma {:induction false} RowsAreOwned(cfg: Config, run: seq<Action>)
    requires Exec(cfg, INIT, run).Some?
    ensures forall row :: row in Exec(cfg, INIT, run).value.rows ==> Owned(Exec(cfg, INIT, run).value, row)
  {
    if run != [] {
      var last := |run| - 1;
      RowsAreOwned(cfg, run[..last]);
      var w, a := Exec(cfg, INIT, run[..last]).value, run[last];
      var w' := Apply(cfg, w, a);
      StepKeepsMessages(cfg, w, a);
      if a.Act? {
        StepAddsOwnRow(cfg, w, a.id, a.fault, a.evaluation, a.cancelled);
      }
      forall row | row in w'.rows ensures Owned(w', row) {
        if row in w.rows {
          OwnedStays(w, w', row);
        } else {
          assert a.id in w'.actors && w'.actors[a.id].msg == w.actors[a.id].msg;
        }
      }
    }
  }

  /** Without the cooldown component the documented promise holds as written: an offset committed
      after handling means that every draft has its row. */
  lemma WithoutCooldownAllStored(cfg: Config, run: seq<Action>, n: nat, i: nat)
    requires !cfg.cooldown && Exec(cfg, INIT, run).Some?
    requires var w := Exec(cfg, INIT, run).value;
      n in w.actors && w.actors[n].pc.Returned? && w.actors[n].pc.outcome.Handled? &&
      i < |w.actors[n].pc.outcome.rules|
    ensures var w := Exec(cfg, INIT, run).value;
      w.actors[n].HasEvent() &&
      exists r :: r in w.rows && r.rule == w.actors[n].pc.outcome.rules[i]
        && r.request == w.actors[n].msg.event.value.id
  {
    RunKeepsInv(cfg, INIT, run);
    var w := Exec(cfg, INIT, run).value;
    var a := w.actors[n];
    HandledHasRows(cfg, w, a);
    assert DealtWith(cfg, w, a.msg.event.value.id, a.pc.outcome.rules[i], a.pc.outcome.fates[i]);
  }

  /** Attempt `h` on event `e` is between its claim and its end. */
  ghost predicate AtWork(w: World, e: EventId, h: Attempt) {
    && h.actor in w.actors
    && var a := w.actors[h.actor];
    a.attempt == h.number && a.HasEvent() && a.msg.event.value.id == e && a.InFlight()
  }

  /** Attempt `h` on event `e` has dealt with every one of its drafts. */
  ghost predicate SettledBy(cfg: Config, w: World, e: EventId, h: Attempt) {
    && h.actor in w.actors
    && var a := w.actors[h.actor];
    && a.attempt == h.number && a.HasEvent() && a.msg.event.value.id == e
    && a.pc.Returned? && a.pc.outcome.Handled? && Settled(cfg, w, a)
  }

  /** L1 key meaning, for every run and under all faults: the attempt that set a live key is at work
      or has dealt with every one of its drafts if and only if it was not orphaned, that is, if it
      heard of its claim and no release of its own was lost. */
  lemma LiveKeyMeansHandled(cfg: Config, run: seq<Action>, e: EventId)
    requires Exec(cfg, INIT, run).Some? && e in Exec(cfg, INIT, run).value.dedup
    ensures var w := Exec(cfg, INIT, run).value;
      AtWork(w, e, w.dedup[e]) || SettledBy(cfg, w, e, w.dedup[e]) <==> w.dedup[e] !in w.orphans
  {
    RunKeepsClaims(cfg, INIT, run);
    var w := Exec(cfg, INIT, run).value;
    var h := w.dedup[e];
    if h in w.orphans {
      assert OrphanOk(w, h);
    } else {
      assert ClaimOk(w, e, h);
      CommitAccounting(cfg, run, h.actor);
    }
  }

  /** An actor that is told "already seen" meets a live key. The attempt that set it is at work or has
      dealt with every draft if and only if it is not orphaned, and then it is another's. */
  lemma SeenMeansClaimed(cfg: Config, run: seq<Action>, n: nat, f: Fault, e: Evaluation, c: bool)
    requires Exec(cfg, INIT, run).Some?
    requires var w := Exec(cfg, INIT, run).value;
      n in w.actors && w.actors[n].pc.Claim? && CanStep(cfg, w, Act(n, f, e, c)) &&
      Apply(cfg, w, Act(n, f, e, c)).actors[n].pc == Returned(AlreadySeen)
    ensures var w := Exec(cfg, INIT, run).value;
      w.actors[n].HasEvent() &&
      var id := w.actors[n].msg.event.value.id;
      && id in w.dedup
      && var h := w.dedup[id];
      && (h !in w.orphans ==> h.actor != n)
      && (AtWork(w, id, h) || SettledBy(cfg, w, id, h) <==> h !in w.orphans)
  {
    var w := Exec(cfg, INIT, run).value;
    LiveKeyMeansHandled(cfg, run, w.actors[n].msg.event.value.id);
  }

  lemma {:induction false} OrphansStay(cfg: Config, w: World, more: seq<Action>)
    requires Exec(cfg, w, more).Some?
    ensures w.orphans <= Exec(cfg, w, more).value.orphans
  {
    if more != [] {
      OrphansStay(cfg, w, more[..|more| - 1]);
    }
  }

  lemma {:induction false} ExecConcat(cfg: Config, w: World, run: seq<Action>, more: seq<Action>)
    requires Exec(cfg, w, run).Some?
    ensures Exec(cfg, w, run + more) == Exec(cfg, Exec(cfg, w, run).value, more)
  {
    if more == [] {
      assert run + more == run;
    } else {
      var front := more[..|more| - 1];
      ExecConcat(cfg, w, run, front);
      assert (run + more)[..|run + more| - 1] == run + front;
    }
  }

  /** The other half: while an orphaned key lives, whoever handles the event is told "already seen" and
      commits, and the attempt that set the key deals with no draft, now or in any continuation. */
  lemma OrphanedKeyHidesEvent(cfg: Config, run: seq<Action>, more: seq<Action>, id: EventId, n: nat, e: Evaluation,
                              c: bool)
    requires Exec(cfg, INIT, run).Some? && Exec(cfg, INIT, run + more).Some?
    requires var w := Exec(cfg, INIT, run).value;
      && id in w.dedup && w.dedup[id] in w.orphans
      && n in w.actors && w.actors[n].pc.Claim? && w.actors[n].msg.event.Some?
      && w.actors[n].msg.event.value.id == id && CanStep(cfg, w, Act(n, NoFault, e, c))
    ensures var w := Exec(cfg, INIT, run).value; var u := Exec(cfg, INIT, run + more).value;
      && Apply(cfg, w, Act(n, NoFault, e, c)).actors[n].pc == Returned(AlreadySeen)
      && !AtWork(u, id, w.dedup[id]) && !SettledBy(cfg, u, id, w.dedup[id])
  {
    var w := Exec(cfg, INIT, run).value;
    ExecConcat(cfg, INIT, run, more);
    OrphansStay(cfg, w, more);
    RunKeepsClaims(cfg, INIT, run + more);
    assert OrphanOk(Exec(cfg, INIT, run + more).value, w.dedup[id]);
  }

  /** L2 cooldown meaning: with nobody at the store step, a cooldown key without a row of its
      holder's event was leaked by an attempt that took the key and then gave up. */
  lemma CooldownKeyMeansStoredOrLeaked(cfg: Config, run: seq<Action>, k: CooldownKey)
    requires Exec(cfg, INIT, run).Some?
    requires var w := Exec(cfg, INIT, run).value;
      k in w.cooldown && forall n :: n in w.actors ==> !w.actors[n].pc.Store?
    ensures var w := Exec(cfg, INIT, run).value; var h := w.cooldown[k];
      && h.actor in w.actors && w.actors[h.actor].HasEvent()
      && var ev := w.actors[h.actor].msg.event.value;
      && ev.device == k.device && ev.kind == k.kind
      && (HasRow(w.rows, k.rule, ev.id) || (h, k.rule) in w.leaked)
  {
    RunKeepsInv(cfg, INIT, run);
    var w := Exec(cfg, INIT, run).value;
    assert HolderOk(w, k, w.cooldown[k]);
  }

  /** The cooldown key of the draft that comes next, if there is one, was not leaked. */
  ghost predicate NotLeaked(w: World, a: Actor)
    requires a.pc.Cool?
  {
    a.HasEvent() && |a.fates| < |a.pc.rules| ==>
      var rule := a.pc.rules[|a.fates|]; var key := KeyOf(a.msg.event.value, rule);
      key in w.cooldown ==> (w.cooldown[key], rule) !in w.leaked
  }

  predicate AboutToStore(a: Actor, rule: int) {
    a.pc.Store? && |a.fates| < |a.pc.rules| && a.pc.rules[|a.fates|] == rule
  }

  /** A suppressed draft has a counterpart of the same rule, device and kind that is stored, or about to
      be, unless the very key that suppresses it was leaked. */
  lemma SuppressedHasCounterpart(cfg: Config, run: seq<Action>, n: nat, f: Fault, e: Evaluation, c: bool)
    requires Exec(cfg, INIT, run).Some?
    requires var w := Exec(cfg, INIT, run).value;
      && n in w.actors && w.actors[n].pc.Cool? && CanStep(cfg, w, Act(n, f, e, c))
      && Apply(cfg, w, Act(n, f, e, c)).actors[n].fates == w.actors[n].fates + [Suppressed]
      && NotLeaked(w, w.actors[n])
    ensures var w := Exec(cfg, INIT, run).value; var a := w.actors[n];
      a.HasEvent() && |a.fates| < |a.pc.rules| &&
      var rule := a.pc.rules[|a.fates|]; var ev := a.msg.event.value;
      exists m :: m in w.actors && w.actors[m].HasEvent()
        && var other := w.actors[m].msg.event.value;
        && other.device == ev.device && other.kind == ev.kind
        && (|| (exists r :: r in w.rows && r.rule == rule && r.request == other.id)
            || AboutToStore(w.actors[m], rule))
  {
    RunKeepsInv(cfg, INIT, run);
    var w := Exec(cfg, INIT, run).value;
    var a := w.actors[n];
    var key := KeyOf(a.msg.event.value, a.pc.rules[|a.fates|]);
    assert HolderOk(w, key, w.cooldown[key]);
  }

  // ----- Where the promise stops holding

  /** One more action at the end of a run. */
  lemma Extend(cfg: Config, run: seq<Action>, w: World, a: Action) returns (w': World)
    requires Exec(cfg, INIT, run) == Some(w) && CanStep(cfg, w, a)
    ensures w' == Apply(cfg, w, a) && Exec(cfg, INIT, run + [a]) == Some(w')
  {
    w' := Apply(cfg, w, a);
    assert (run + [a])[..|run|] == run;
  }

  /** A step of actor `id` at the end of a run. */
  lemma ExtendAct(cfg: Config, run: seq<Action>, w: World, id: nat, f: Fault, e: Evaluation, c: bool)
    requires Exec(cfg, INIT, run) == Some(w) && Enabled(cfg, w, Act(id, f, e, c)) && Shaped(w.actors[id])
    ensures Exec(cfg, INIT, run + [Act(id, f, e, c)]) == Some(ActStep(cfg, w, id, w.actors[id], f, e, c))
  {
    RunKeepsInv(cfg, INIT, run);
    var _ := Extend(cfg, run, w, Act(id, f, e, c));
  }

  lemma Next(cfg: Config, run: seq<Action>, w: World, a: Action) returns (run': seq<Action>, w': World)
    requires Exec(cfg, INIT, run) == Some(w) && CanStep(cfg, w, a)
    ensures w' == Apply(cfg, w, a) && Exec(cfg, INIT, run') == Some(w')
  {
    run' := run + [a];
    w' := Extend(cfg, run, w, a);
  }

  /** A run in which consumer 0 commits the offset of `msg` and no alarm, no dead letter and no
      other handler exists. */
  ghost predicate Loses(cfg: Config, run: seq<Action>, msg: Message) {
    && Exec(cfg, INIT, run).Some?
    && var w := Exec(cfg, INIT, run).value;
    && w.rows == [] && w.deadLetters == []
    && w.actors.Keys == {0}
    && w.actors[0].msg == msg && w.actors[0].kind.Consumer?
    && w.actors[0].pc.Returned? && w.actors[0].pc.outcome.Commits()
  }

  /** Consumer 0 has evaluated `msg` to the one draft `rule` and is about to claim it. */
  lemma ReachClaim(cfg: Config, msg: Message, rule: int) returns (run: seq<Action>, w: World)
    requires cfg.storage && msg.event.Some? && msg.event.value.tenant > 0
    ensures Exec(cfg, INIT, run) == Some(w)
    ensures w == INIT.(actors := map[0 := Actor(Consumer, msg, 0, Claim([rule]), [])])
  {
    run, w := [], INIT;
    run, w := Next(cfg, run, w, Spawn(0, Consumer, msg));
    run, w := Next(cfg, run, w, Act(0, NoFault, Drafts([rule]), false));
  }

  /** From there the claim and the cooldown key are taken. */
  lemma ReachStore(cfg: Config, msg: Message, rule: int) returns (run: seq<Action>, w: World)
    requires cfg.storage && cfg.cooldown && msg.event.Some? && msg.event.value.tenant > 0
    ensures Exec(cfg, INIT, run) == Some(w)
    ensures w == INIT.(
      dedup := map[msg.event.value.id := Attempt(0, 0)],
      cooldown := map[KeyOf(msg.event.value, rule) := Attempt(0, 0)],
      actors := map[0 := Actor(Consumer, msg, 0, Store([rule]), [])])
  {
    run, w := ReachClaim(cfg, msg, rule);
    run, w := Next(cfg, run, w, Act(0, NoFault, EvalError, false));
    run, w := Next(cfg, run, w, Act(0, NoFault, EvalError, false));
  }

  /** Then the insert is lost, the L1 key is given back and the retry begins. The cooldown key
      stays. */
  lemma ReachLeak(cfg: Config, msg: Message, rule: int) returns (run: seq<Action>, w: World)
    requires cfg.storage && cfg.cooldown && msg.event.Some? && msg.event.value.tenant > 0
    ensures Exec(cfg, INIT, run) == Some(w)
    ensures w == INIT.(
      cooldown := map[KeyOf(msg.event.value, rule) := Attempt(0, 0)],
      leaked := {(Attempt(0, 0), rule)},
      actors := map[0 := Actor(Consumer, msg, 1, Evaluate, [])])
  {
    run, w := ReachStore(cfg, msg, rule);
    run, w := Next(cfg, run, w, Act(0, Lost, EvalError, false));
    run, w := Next(cfg, run, w, Act(0, NoFault, EvalError, false));
    assert w.dedup == map[];
    run, w := Next(cfg, run, w, Act(0, NoFault, EvalError, false));
  }

  /** Leaked cooldown key: for every event and rule, one failed insert followed by a healthy
      retry commits the offset with nothing stored. The L1 key stays set, so a redelivery is
      skipped as well. */
  lemma LeakedCooldownLosesAlarm(cfg: Config, msg: Message, rule: int) returns (run: seq<Action>)
    requires cfg.storage && cfg.cooldown && msg.event.Some? && msg.event.value.tenant > 0
    ensures Loses(cfg, run, msg) && Exec(cfg, INIT, run).value.orphans == {}
    ensures var w := Exec(cfg, INIT, run).value;
      w.actors[0].pc.outcome == Handled([rule], [Suppressed]) && msg.event.value.id in w.dedup
  {
    var w;
    run, w := ReachLeak(cfg, msg, rule);
    var ok := Act(0, NoFault, Drafts([rule]), false);
    run, w := Next(cfg, run, w, ok);
    run, w := Next(cfg, run, w, ok);
    run, w := Next(cfg, run, w, ok);
    assert w.actors[0].fates == [Suppressed];
    run, w := Next(cfg, run, w, ok);
  }

  /** Lost claim reply: if the L1 key was set but the reply never came, the retry takes its own
      key for a duplicate and commits. */
  lemma LateClaimLosesAlarm(cfg: Config, msg: Message, rule: int) returns (run: seq<Action>)
    requires cfg.storage && msg.event.Some? && msg.event.value.tenant > 0
    ensures Loses(cfg, run, msg) && Exec(cfg, INIT, run).value.orphans == {Attempt(0, 0)}
    ensures Exec(cfg, INIT, run).value.actors[0].pc.outcome == AlreadySeen
  {
    var w;
    run, w := ReachClaim(cfg, msg, rule);
    var ok := Act(0, NoFault, Drafts([rule]), false);
    run, w := Next(cfg, run, w, Act(0, Late, EvalError, false));
    run, w := Next(cfg, run, w, ok);
    run, w := Next(cfg, run, w, ok);
    run, w := Next(cfg, run, w, ok);
  }
}
