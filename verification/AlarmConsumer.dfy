/** The consumer of device events in its imperative form: one object holding the four stores.

    Store calls fail as an `Env` says. Every method records the atomic steps it makes, so that `run`
    is always a run of the transition system that ends in the present state, and all theorems about
    runs apply to the object.
  */
module AlarmConsumer {
  import opened Options
  import opened KeyStore
  import opened AlarmProtocol
  import opened AlarmTheorems

  /** How the retry loop ends. */
  datatype End = Done | Cancelled | GiveUp

  /** What one attempt meets: what the rules yield, the fault of each store call (`cool` and `store`
      by draft), and whether the wait after it is cancelled. */
  datatype Env = Env(evaluation: Evaluation, claim: Fault, cool: nat -> Fault, store: nat -> Fault, release: Fault,
                     cancelled: bool)
  {
    predicate Sensible() { evaluation.Drafts? ==> Distinct(evaluation.rules) }

    /** No call that an attempt with `n` drafts makes fails. */
    predicate Healthy(n: nat) {
      claim.NoFault? && forall i: nat :: i < n ==> cool(i).NoFault? && store(i).NoFault?
    }
  }

  class AlarmService {
    const cfg: Config
    var dedup: map<EventId, Attempt>
    var cooldown: map<CooldownKey, Attempt>
    var rows: seq<Row>
    var deadLetters: seq<Message>
    ghost var actors: map<nat, Actor>
    ghost var leaked: set<(Attempt, int)>
    ghost var orphans: set<Attempt>
    ghost var run: seq<Action>

    ghost function View(): World
      reads this
    {
      World(dedup, cooldown, rows, deadLetters, actors, leaked, orphans)
    }

    ghost predicate Valid()
      reads this
    {
      Exec(cfg, INIT, run) == Some(View())
    }

    /** Only actor `me` moved since `before`, and the run got longer. */
    twostate predicate OnlyMoved(me: nat)
      reads this
    {
      old(run) <= run && actors.Keys == old(actors.Keys) + {me}
      && forall n :: n in old(actors) && n != me ==> actors[n] == old(actors[n])
    }

    constructor (cfg: Config)
      ensures Valid() && View() == INIT && run == [] && this.cfg == cfg
    {
      this.cfg := cfg;
      dedup, cooldown, rows, deadLetters := map[], map[], [], [];
      actors, leaked, orphans, run := map[], {}, {}, [];
    }

    /** Append one action to the run; `w` is the state it leads to. */
    ghost method Record(a: Action, w: World, before: World)
      requires Exec(cfg, INIT, run) == Some(before)
      requires CanStep(cfg, before, a) && w == Apply(cfg, before, a)
      requires w.dedup == dedup && w.cooldown == cooldown && w.rows == rows && w.deadLetters == deadLetters
      modifies this`actors, this`leaked, this`orphans, this`run
      ensures Valid() && View() == w && run == old(run) + [a]
    {
      var _ := Extend(cfg, run, before, a);
      actors, leaked, orphans, run := w.actors, w.leaked, w.orphans, run + [a];
    }

    /** Append one step of actor `me`; `w` is the state it leads to. */
    ghost method RecordAct(me: nat, f: Fault, before: World, w: World)
      requires Exec(cfg, INIT, run) == Some(before)
      requires me in before.actors && !before.actors[me].pc.Returned? && Shaped(before.actors[me])
      requires w == ActStep(cfg, before, me, before.actors[me], f, EvalError, false)
      requires w.dedup == dedup && w.cooldown == cooldown && w.rows == rows && w.deadLetters == deadLetters
      modifies this`actors, this`leaked, this`orphans, this`run
      ensures Valid() && View() == w && old(run) <= run
    {
      ExtendAct(cfg, run, before, me, f, EvalError, false);
      actors, leaked, orphans := w.actors, w.leaked, w.orphans;
      run := run + [Act(me, f, EvalError, false)];
    }

    /** A step that touches no store. */
    ghost method Think(me: nat, e: Evaluation, cancelled: bool)
      requires Valid() && me in actors
      requires actors[me].pc.Evaluate? || actors[me].pc.Failed? || (actors[me].pc.Clear? && !actors[me].HasEvent())
      requires e.Drafts? ==> Distinct(e.rules)
      modifies this`actors, this`leaked, this`orphans, this`run
      ensures Valid() && OnlyMoved(me) && leaked == old(leaked)
      ensures actors[me] ==
        if old(actors)[me].pc.Clear? then old(actors)[me].(pc := Evaluate)
        else if old(actors)[me].pc.Evaluate? then EvaluateStep(cfg, old(actors)[me], e)
        else FailedStep(old(actors)[me], cancelled)
    {
      RunKeepsInv(cfg, INIT, run);
      var a := actors[me];
      var a' :=
        if a.pc.Clear? then a.(pc := Evaluate)
        else if a.pc.Evaluate? then EvaluateStep(cfg, a, e)
        else FailedStep(a, cancelled);
      Record(Act(me, NoFault, e, cancelled), Goto(View(), me, a'), View());
    }

    /** L1: claim the idempotency key. */
    method Seen(me: nat, ev: Event, attempt: nat, f: Fault) returns (reply: Reply)
      requires Valid() && me in actors && actors[me].pc.Claim?
      requires actors[me].msg.event == Some(ev) && actors[me].attempt == attempt
      modifies this
      ensures Valid() && OnlyMoved(me)
      ensures cooldown == old(cooldown) && rows == old(rows) && deadLetters == old(deadLetters)
      ensures (dedup, reply) == SetIfAbsent(old(dedup), ev.id, Attempt(me, attempt), f)
      ensures actors[me] == old(actors)[me].(fates := [], pc := match reply
        case Unavailable => Failed(Retryable)
        case Answer(true) => Returned(AlreadySeen)
        case Answer(false) => Cool(old(actors)[me].pc.rules))
    {
      ghost var before := View();
      var r := SetIfAbsent(dedup, ev.id, Attempt(me, attempt), f);
      dedup, reply := r.0, r.1;
      RecordAct(me, f, before, ClaimStep(before, me, before.actors[me], f));
    }

    /** Give the idempotency key back. The outcome of the call is only logged. */
    method ReleaseDedupKey(me: nat, ev: Event, f: Fault)
      requires Valid() && me in actors && (actors[me].pc.Release? || actors[me].pc.Clear?)
      requires actors[me].msg.event == Some(ev)
      modifies this
      ensures Valid() && OnlyMoved(me)
      ensures cooldown == old(cooldown) && rows == old(rows) && deadLetters == old(deadLetters)
      ensures dedup == Delete(old(dedup), ev.id, f)
      ensures actors[me] == old(actors)[me].(pc := if old(actors)[me].pc.Clear? then Evaluate else Failed(Retryable))
    {
      ghost var before := View();
      ghost var a := actors[me];
      dedup := Delete(dedup, ev.id, f);
      RecordAct(me, f, before,
                if a.pc.Clear? then Goto(DropKey(before, a, f), me, a.(pc := Evaluate))
                else ReleaseStep(before, me, a, f));
    }

    /** L2: take the cooldown key of one draft. */
    method TryAcquire(me: nat, ev: Event, attempt: nat, rule: int, f: Fault) returns (reply: Reply)
      requires Valid() && me in actors && cfg.cooldown && actors[me].pc.Cool?
      requires actors[me].msg.event == Some(ev) && actors[me].attempt == attempt
      requires |actors[me].fates| < |actors[me].pc.rules| && actors[me].pc.rules[|actors[me].fates|] == rule
      modifies this
      ensures Valid() && OnlyMoved(me)
      ensures dedup == old(dedup) && rows == old(rows) && deadLetters == old(deadLetters)
      ensures (cooldown, reply) ==
        SetIfAbsent(old(cooldown), CooldownKey(ev.device, ev.kind, rule), Attempt(me, attempt), f)
      ensures var a := old(actors)[me];
        actors[me] == match reply
          case Unavailable => a.(pc := Release)
          case Answer(true) => a.(fates := a.fates + [Suppressed])
          case Answer(false) => a.(pc := Store(a.pc.rules))
    {
      ghost var before := View();
      var r := SetIfAbsent(cooldown, KeyOf(ev, rule), Attempt(me, attempt), f);
      cooldown, reply := r.0, r.1;
      RecordAct(me, f, before, CoolStep(cfg, before, me, before.actors[me], f));
    }

    /** L3: insert the alarm unless the unique index meets a row. `None` stands for an error. */
    method Create(me: nat, ev: Event, attempt: nat, rule: int, f: Fault) returns (fate: Option<Fate>)
      requires Valid() && me in actors && actors[me].pc.Store?
      requires actors[me].msg.event == Some(ev) && actors[me].attempt == attempt
      requires |actors[me].fates| < |actors[me].pc.rules| && actors[me].pc.rules[|actors[me].fates|] == rule
      modifies this
      ensures Valid() && OnlyMoved(me)
      ensures dedup == old(dedup) && cooldown == old(cooldown) && deadLetters == old(deadLetters)
      ensures rows ==
        if f.TakesEffect() && (forall r :: r in old(rows) ==> r.rule != rule || r.request != ev.id)
        then old(rows) + [Row(rule, ev.id, ev.tenant, ev.device)] else old(rows)
      ensures fate == if !f.Reports() then None
        else if HasRow(old(rows), rule, ev.id) then Some(AlreadyStored)
        else Some(Stored)
      ensures fate.Some? ==> HasRow(rows, rule, ev.id)
      ensures var a := old(actors)[me];
        actors[me] == if fate.None? then a.(pc := Release)
          else a.(pc := Cool(a.pc.rules), fates := a.fates + [fate.value])
    {
      ghost var before := View();
      ghost var after := StoreStep(before, me, before.actors[me], f);
      RowsKept(rows, RowOf(ev, rule), f, rule, ev.id);
      var present := HasRow(rows, rule, ev.id);
      if f.TakesEffect() && !present {
        rows := rows + [RowOf(ev, rule)];
      }
      fate := if f.Reports() then Some(if present then AlreadyStored else Stored) else None;
      RecordAct(me, f, before, after);
    }

    /** The loop over the drafts turns to its next store call, or ends. */
    ghost method NextDraft(me: nat)
      requires Valid() && me in actors && actors[me].pc.Cool? && actors[me].HasEvent()
      requires |actors[me].fates| <= |actors[me].pc.rules|
      requires |actors[me].fates| == |actors[me].pc.rules| || !cfg.cooldown
      modifies this`actors, this`leaked, this`orphans, this`run
      ensures Valid() && OnlyMoved(me)
      ensures var a := old(actors)[me];
        actors[me] == a.(pc :=
          if |a.fates| == |a.pc.rules| then Returned(Handled(a.pc.rules, a.fates)) else Store(a.pc.rules))
    {
      RecordAct(me, NoFault, View(), CoolStep(cfg, View(), me, actors[me], NoFault));
    }

    /** Whether draft `rule` of `ev` has a row once an undisturbed call that got past L1 returns
        nil: it had one before, or nobody held its cooldown key. */
    ghost predicate WillStore(ev: Event, rule: int, rows: seq<Row>, cooldown: map<CooldownKey, Attempt>)
    {
      HasRow(rows, rule, ev.id) || !cfg.cooldown || KeyOf(ev, rule) !in cooldown
    }

    /** Deal with one draft: nil, or the call failed and the claim was given back. */
    method HandleDraft(me: nat, ev: Event, attempt: nat, rules: seq<int>, n: nat, env: Env) returns (ok: bool)
      requires Valid() && me in actors && actors[me].pc == Cool(rules) && |actors[me].fates| == n < |rules|
      requires actors[me].msg.event == Some(ev) && actors[me].attempt == attempt
      modifies this
      ensures Valid() && OnlyMoved(me)
      ensures deadLetters == old(deadLetters)
      ensures rows == old(rows) || rows == old(rows) + [RowOf(ev, rules[n])]
      ensures ok ==>
        && dedup == old(dedup)
        && (exists v :: actors[me] == old(actors)[me].(fates := old(actors)[me].fates + [v]))
        && (HasRow(rows, rules[n], ev.id) <==> WillStore(ev, rules[n], old(rows), old(cooldown)))
        && (forall k :: k != KeyOf(ev, rules[n]) ==> (k in cooldown <==> k in old(cooldown)))
      ensures !ok ==> actors[me] == old(actors)[me].(pc := Failed(Retryable))
      ensures ok <==> ((!cfg.cooldown || env.cool(n).NoFault?)
                       && (env.store(n).NoFault? || (cfg.cooldown && KeyOf(ev, rules[n]) in old(cooldown))))
    {
      ghost var a := actors[me];
      if cfg.cooldown {
        var reply := TryAcquire(me, ev, attempt, rules[n], env.cool(n));
        if reply.Unavailable? {
          ReleaseDedupKey(me, ev, env.release);
          return false;
        }
        if reply.present {
          assert actors[me] == a.(fates := a.fates + [Suppressed]);
          return true;
        }
      } else {
        NextDraft(me);
      }
      var fate := Create(me, ev, attempt, rules[n], env.store(n));
      if fate.None? {
        ReleaseDedupKey(me, ev, env.release);
        return false;
      }
      assert actors[me] == a.(fates := a.fates + [fate.value]);
      return true;
    }

    /** The loop over the drafts of a claimed event. */
    method HandleDrafts(me: nat, ev: Event, attempt: nat, rules: seq<int>, env: Env) returns (ok: bool)
      requires Valid() && me in actors && actors[me].pc == Cool(rules) && actors[me].fates == []
      requires actors[me].msg.event == Some(ev) && actors[me].attempt == attempt
      requires Distinct(rules)
      modifies this
      ensures Valid() && OnlyMoved(me) && deadLetters == old(deadLetters)
      ensures ok ==>
        && dedup == old(dedup)
        && (exists fates :: actors[me] == old(actors)[me].(fates := fates, pc := Returned(Handled(rules, fates))))
        && forall r :: r in rules ==> (HasRow(rows, r, ev.id) <==> WillStore(ev, r, old(rows), old(cooldown)))
      ensures !ok ==>
        exists fates :: actors[me] == old(actors)[me].(fates := fates, pc := Failed(Retryable))
      ensures env.Healthy(|rules|) ==> ok
    {
      ghost var a := actors[me];
      var n := 0;
      while n < |rules|
        invariant 0 <= n <= |rules|
        invariant Valid() && OnlyMoved(me) && deadLetters == old(deadLetters)
        invariant dedup == old(dedup)
        invariant me in actors && |actors[me].fates| == n && actors[me] == a.(fates := actors[me].fates)
        invariant forall i :: 0 <= i < n ==>
          (HasRow(rows, rules[i], ev.id) <==> WillStore(ev, rules[i], old(rows), old(cooldown)))
        invariant forall i :: n <= i < |rules| ==>
          (HasRow(rows, rules[i], ev.id) <==> HasRow(old(rows), rules[i], ev.id))
          && (KeyOf(ev, rules[i]) in cooldown <==> KeyOf(ev, rules[i]) in old(cooldown))
      {
        ok := HandleDraft(me, ev, attempt, rules, n, env);
        if !ok {
          return false;
        }
        n := n + 1;
      }
      NextDraft(me);
      return true;
    }

    predicate MissingTenant(ev: Event) { ev.tenant <= 0 && cfg.rejectMissingTenant && cfg.deadLetters }

    /** The event has drafts to deal with. */
    predicate Drafted(msg: Message, env: Env) {
      msg.event.Some? && env.evaluation.Drafts? && env.evaluation.rules != []
    }

    /** No attempt can succeed: the payload does not parse, or the event belongs to nobody. */
    predicate IsMalformed(msg: Message, env: Env) {
      msg.event.None? || (Drafted(msg, env) && cfg.storage && MissingTenant(msg.event.value))
    }

    /** The attempt gets as far as the L1 check. */
    predicate Claims(msg: Message, env: Env) {
      Drafted(msg, env) && cfg.storage && !MissingTenant(msg.event.value)
    }

    /** Nothing stands in the way of an attempt. */
    predicate Smooth(msg: Message, env: Env) {
      && msg.event.Some? && env.evaluation.Drafts?
      && (env.evaluation.rules == [] ||
            (cfg.storage && !MissingTenant(msg.event.value) && env.Healthy(|env.evaluation.rules|)))
    }

    /** Handle one message. `None` is the nil that commits the offset.

        The last clause is the exact accounting of an undisturbed call that went through all its
        drafts: a draft is stored if and only if it was stored before or its cooldown key was
        free before the call. */
    method HandleDeviceEvent(me: nat, msg: Message, attempt: nat, env: Env)
      returns (err: Option<Failure>)
      requires Valid() && me in actors && actors[me].pc == Evaluate
      requires actors[me].msg == msg && actors[me].attempt == attempt
      requires env.Sensible()
      modifies this
      ensures Valid() && OnlyMoved(me) && deadLetters == old(deadLetters)
      ensures actors[me].msg == msg && actors[me].attempt == attempt && actors[me].kind == old(actors)[me].kind
      ensures err.None? ==>
        actors[me].pc.Returned? && actors[me].pc.outcome.Commits() && !actors[me].pc.outcome.Buried?
      ensures err.Some? ==> actors[me].pc == Failed(err.value)
      ensures err == Some(Malformed) <==> IsMalformed(msg, env)
      ensures msg.event.Some? && env.evaluation.EvalError? ==> err == Some(Retryable)
      ensures Drafted(msg, env) && !cfg.storage ==> err == Some(Retryable)
      ensures Claims(msg, env) && !env.claim.Reports() ==> err == Some(Retryable)
      ensures Smooth(msg, env) ==> err.None?
      ensures actors[me].pc == Returned(NoDrafts) <==> msg.event.Some? && env.evaluation == Drafts([])
      ensures actors[me].pc == Returned(AlreadySeen) <==>
        Claims(msg, env) && env.claim.Reports() && msg.event.value.id in old(dedup)
      ensures actors[me].pc.Returned? && actors[me].pc.outcome.Handled? ==>
        && msg.event.Some? && env.evaluation.Drafts?
        && actors[me].pc.outcome.rules == env.evaluation.rules
        && msg.event.value.id !in old(dedup) && msg.event.value.id in dedup
        && forall r :: r in env.evaluation.rules ==>
          (HasRow(rows, r, msg.event.value.id) <==> WillStore(msg.event.value, r, old(rows), old(cooldown)))
    {
      Think(me, env.evaluation, false);
      if msg.event.None? {
        return Some(Malformed);
      }
      var ev := msg.event.value;
      if env.evaluation.EvalError? {
        return Some(Retryable);
      }
      var rules := env.evaluation.rules;
      if rules == [] {
        return None;
      }
      if !cfg.storage {
        return Some(Retryable);
      }
      if MissingTenant(ev) {
        return Some(Malformed);
      }
      var reply := Seen(me, ev, attempt, env.claim);
      if reply.Unavailable? {
        return Some(Retryable);
      }
      if reply.present {
        return None;
      }
      var ok := HandleDrafts(me, ev, attempt, rules, env);
      return if ok then None else Some(Retryable);
    }

    /** A new consumer, or a new replay, of `msg`. */
    ghost method Begin(me: nat, kind: Kind, msg: Message)
      requires Valid() && me !in actors && (kind.Replay? ==> msg in deadLetters)
      modifies this`actors, this`leaked, this`orphans, this`run
      ensures Valid() && OnlyMoved(me)
      ensures actors[me] == Actor(kind, msg, 0, if kind.Replay? then Clear else Evaluate, [])
    {
      RunKeepsInv(cfg, INIT, run);
      Record(Spawn(me, kind, msg), Apply(cfg, View(), Spawn(me, kind, msg)), View());
    }

    /** Write the dead letter; an error keeps the offset uncommitted. */
    method RecordDeadLetter(me: nat, msg: Message, f: Fault) returns (ok: bool)
      requires Valid() && me in actors && actors[me].pc.Bury? && actors[me].msg == msg
      modifies this
      ensures Valid() && OnlyMoved(me)
      ensures dedup == old(dedup) && cooldown == old(cooldown) && rows == old(rows)
      ensures deadLetters == if cfg.deadLetters && f.TakesEffect() then old(deadLetters) + [msg] else old(deadLetters)
      ensures ok <==> cfg.deadLetters && f.Reports()
      ensures actors[me] == old(actors)[me].(pc := Returned(if ok then Buried else Rejected))
    {
      ghost var before := View();
      if cfg.deadLetters {
        if f.TakesEffect() {
          deadLetters := deadLetters + [msg];
        }
        ok := f.Reports();
      } else {
        ok := false;
      }
      RecordAct(me, f, before, BuryStep(cfg, before, me, before.actors[me], f));
    }

    /** The commit accounting of runs, for the present state. */
    lemma Accounting(me: nat)
      requires Valid() && me in actors
      ensures actors[me].attempt + 1 <= 4
      ensures actors[me].pc == Returned(Buried) && !Hopeless(cfg, actors[me].msg) ==> actors[me].attempt + 1 == 4
      ensures actors[me].msg.event.None? ==> actors[me].attempt == 0
      ensures actors[me].pc.Returned? && actors[me].pc.outcome.Commits() ==>
        Settled(cfg, View(), actors[me]) && (actors[me].msg.event.None? ==> actors[me].msg in deadLetters)
    {
      CommitAccounting(cfg, run, me);
    }

    /** Nothing before attempt `n` ends the retries but a success. */
    ghost predicate Reached(msg: Message, envs: nat -> Env, n: nat) {
      forall m: nat :: m < n ==> !IsMalformed(msg, envs(m)) && !envs(m).cancelled
    }

    ghost predicate NoneSmooth(msg: Message, envs: nat -> Env, n: nat) {
      forall m: nat :: m < n ==> !Smooth(msg, envs(m))
    }

    /** One of the four attempts is smooth, and nothing before it ends the retries. */
    ghost predicate SomeSmooth(msg: Message, envs: nat -> Env) {
      exists n: nat :: n < 4 && Smooth(msg, envs(n)) && Reached(msg, envs, n)
    }

    /** One of the three waits is cancelled. */
    ghost predicate SomeCancelled(envs: nat -> Env) { exists n: nat :: n < 3 && envs(n).cancelled }

    /** Consumer `me` is about to evaluate `msg` for this attempt. */
    ghost predicate AtTry(me: nat, msg: Message, attempt: nat)
      reads this
    {
      && me in actors && actors[me].kind.Consumer? && actors[me].msg == msg
      && actors[me].attempt == attempt <= 3 && actors[me].pc == Evaluate
    }

    /** How the retries end: with a nil return, a cancelled wait, or a failure to bury, which comes after
        the fourth attempt or a malformed one. */
    ghost predicate Ended(me: nat, msg: Message, envs: nat -> Env, end: End)
      reads this
    {
      && me in actors && actors[me].msg == msg
      && (match end
          case Done => actors[me].pc.Returned? && actors[me].pc.outcome.Commits() && !actors[me].pc.outcome.Buried?
          case GiveUp =>
            actors[me].pc == Bury && (actors[me].attempt == 3 || IsMalformed(msg, envs(actors[me].attempt)))
          case Cancelled => actors[me].pc == Returned(Rejected) && SomeCancelled(envs))
      && (IsMalformed(msg, envs(0)) ==> end.GiveUp? && actors[me].attempt == 0)
      && (SomeSmooth(msg, envs) ==> end.Done?)
    }

    /** What one attempt and the wait after it come to; `None` is a retry. */
    ghost predicate Tried(me: nat, msg: Message, attempt: nat, env: Env, ended: Option<End>)
      reads this
    {
      && me in actors && actors[me].msg == msg
      && (match ended
          case None => AtTry(me, msg, attempt + 1) && attempt < 3 && !IsMalformed(msg, env) && !env.cancelled
          case Some(Done) =>
            actors[me].pc.Returned? && actors[me].pc.outcome.Commits() && !actors[me].pc.outcome.Buried?
          case Some(GiveUp) =>
            actors[me].pc == Bury && actors[me].attempt == attempt && (attempt == 3 || IsMalformed(msg, env))
          case Some(Cancelled) => actors[me].pc == Returned(Rejected) && attempt < 3 && env.cancelled)
      && (Smooth(msg, env) ==> ended == Some(Done))
      && (IsMalformed(msg, env) ==> ended == Some(GiveUp))
    }

    /** One attempt and the wait after it. */
    method TryOnce(me: nat, msg: Message, attempt: nat, env: Env) returns (ended: Option<End>)
      requires Valid() && AtTry(me, msg, attempt) && env.Sensible()
      modifies this
      ensures Valid() && OnlyMoved(me) && deadLetters == old(deadLetters)
      ensures Tried(me, msg, attempt, env, ended)
    {
      var err := HandleDeviceEvent(me, msg, attempt, env);
      if err.None? {
        return Some(Done);
      }
      Think(me, EvalError, env.cancelled);
      if err.value.Malformed? || attempt >= MAX_RETRIES {
        return Some(GiveUp);
      }
      return if env.cancelled then Some(Cancelled) else None;
    }

    /** The retries end as their last attempt does. */
    lemma AfterTry(me: nat, msg: Message, envs: nat -> Env, n: nat, ended: Option<End>)
      requires Reached(msg, envs, n) && NoneSmooth(msg, envs, n) && Tried(me, msg, n, envs(n), ended)
      ensures ended.None? ==> AtTry(me, msg, n + 1) && Reached(msg, envs, n + 1) && NoneSmooth(msg, envs, n + 1)
      ensures ended.Some? ==> Ended(me, msg, envs, ended.value)
    {
      if k: nat :| k < 4 && Smooth(msg, envs(k)) && Reached(msg, envs, k) {
        assert k >= n;
        assert k == n || (!IsMalformed(msg, envs(n)) && !envs(n).cancelled);
      }
    }

    /** The retry loop. */
    method Attempts(me: nat, msg: Message, envs: nat -> Env) returns (end: End)
      requires Valid() && AtTry(me, msg, 0)
      requires forall n: nat :: envs(n).Sensible()
      modifies this
      ensures Valid() && OnlyMoved(me) && deadLetters == old(deadLetters)
      ensures Ended(me, msg, envs, end)
    {
      var attempt := 0;
      while true
        invariant Valid() && OnlyMoved(me) && deadLetters == old(deadLetters)
        invariant AtTry(me, msg, attempt)
        invariant Reached(msg, envs, attempt) && NoneSmooth(msg, envs, attempt)
        decreases MAX_RETRIES - attempt
      {
        var ended := TryOnce(me, msg, attempt, envs(attempt));
        AfterTry(me, msg, envs, attempt, ended);
        if ended.Some? {
          return ended.value;
        }
        attempt := attempt + 1;
      }
    }

    /** The consumer entry point: at most four attempts, then the dead letter. `committed` is the nil
        return that commits the offset; `envs(n)` is what attempt `n` meets. It fails to commit only if
        a wait is cancelled or the dead letter cannot be written. If any of the four attempts is smooth,
        and none before it is malformed or followed by a cancelled wait, it commits without one. */
    method HandleWithDeadLetter(me: nat, msg: Message, envs: nat -> Env, bury: Fault) returns (committed: bool)
      requires Valid() && me !in actors
      requires forall n: nat :: envs(n).Sensible()
      modifies this
      ensures Valid() && OnlyMoved(me) && actors[me].msg == msg && actors[me].pc.Returned?
      ensures committed <==> actors[me].pc.outcome.Commits()
      ensures committed ==> Settled(cfg, View(), actors[me])
      ensures committed && msg.event.None? ==> msg in deadLetters
      ensures actors[me].attempt + 1 <= 4 && (msg.event.None? ==> actors[me].attempt == 0)
      ensures deadLetters == old(deadLetters) || deadLetters == old(deadLetters) + [msg]
      ensures committed ==> (actors[me].pc.outcome.Buried? <==> deadLetters == old(deadLetters) + [msg])
      ensures !committed ==>
        !cfg.deadLetters || !bury.Reports() || SomeCancelled(envs)
      ensures SomeSmooth(msg, envs) ==> committed && deadLetters == old(deadLetters)
      ensures committed && actors[me].pc.outcome.Buried? && !Hopeless(cfg, msg) ==> actors[me].attempt + 1 == 4
    {
      Begin(me, Consumer, msg);
      var end := Attempts(me, msg, envs);
      committed := end.Done?;
      if end.GiveUp? {
        committed := RecordDeadLetter(me, msg, bury);
      }
      Accounting(me);
    }

    /** Replay a dead letter: clear the L1 key, then one attempt. */
    method ReplayDeadLetter(me: nat, msg: Message, clear: Fault, env: Env) returns (ok: bool)
      requires Valid() && me !in actors && msg in deadLetters
      requires env.Sensible()
      modifies this
      ensures Valid() && OnlyMoved(me) && actors[me].msg == msg && actors[me].attempt == 0
      ensures deadLetters == old(deadLetters)
      ensures ok ==> Settled(cfg, View(), actors[me]) && msg.event.Some?
      ensures !ok ==> actors[me].pc == Returned(Rejected)
      ensures Smooth(msg, env) ==> ok
    {
      Begin(me, Replay, msg);
      if msg.event.Some? {
        ReleaseDedupKey(me, msg.event.value, clear);
      } else {
        Think(me, EvalError, false);
      }
      var err := HandleDeviceEvent(me, msg, 0, env);
      if err.None? {
        Accounting(me);
        return true;
      }
      Think(me, EvalError, false);
      return false;
    }
  }
}
