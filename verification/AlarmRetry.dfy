/** The retry of an alarm event after one lost call, with the evaluations that the rule engine makes of
    it: the first one changes the windows that the second one sees.
  */
module AlarmRetry {
  import opened Options
  import opened KeyStore
  import opened AlarmProtocol
  import opened AlarmTheorems
  import opened AlarmScene
  import RuleEngine
  import RuleFallback

  // ----- Evaluations of the engine

  function RuleIds(drafts: seq<RuleEngine.Draft>): (ids: seq<int>)
    ensures |ids| == |drafts| && forall i :: 0 <= i < |ids| ==> ids[i] == drafts[i].rule
  {
    if drafts == [] then [] else RuleIds(drafts[..|drafts| - 1]) + [drafts[|drafts| - 1].rule]
  }

  function EvaluationOf(s: RuleEngine.State): Evaluation {
    if s.failed then EvalError else Drafts(RuleIds(s.drafts))
  }

  /** The event of the protocol as the engine sees it. */
  predicate SameEvent(ev: AlarmProtocol.Event, e: RuleEngine.Event) {
    ev.tenant == e.tenant && ev.device == e.device && ev.kind == e.kind && (ev.id.Given? ==> ev.id.request == e.id)
  }

  /** The first and the second evaluation of one event, both without a fault. */
  datatype Twice = Twice(env: RuleEngine.Env, env': RuleEngine.Env, e: RuleEngine.Event, w: RuleEngine.Windows,
                         rules: seq<RuleEngine.Rule>)
  {
    ghost predicate Valid() {
      && RuleEngine.DistinctIds(rules)
      && RuleEngine.SameAnswers(env, env')
      && (forall id :: env'.fault(id).NoFault?)
      && !RuleEngine.AnyFails(env, e, w, rules)
    }

    function First(): RuleEngine.State { RuleEngine.Run(env, e, w, rules) }

    function Second(): RuleEngine.State { RuleEngine.Run(env', e, First().windows, rules) }

    /** The rule has a draft at first. */
    predicate Due(r: RuleEngine.Rule) { RuleEngine.Alone(env, e, w, r).Hit? }
  }

  /** Some rule with this id has a draft by itself. */
  ghost predicate DueId(env: RuleEngine.Env, e: RuleEngine.Event, w: RuleEngine.Windows, rules: seq<RuleEngine.Rule>,
                        id: int)
  {
    exists r :: r in rules && r.id == id && RuleEngine.Alone(env, e, w, r).Hit?
  }

  lemma DueIdSnoc(env: RuleEngine.Env, e: RuleEngine.Event, w: RuleEngine.Windows, front: seq<RuleEngine.Rule>,
                  r: RuleEngine.Rule, id: int)
    ensures DueId(env, e, w, front + [r], id) <==>
      DueId(env, e, w, front, id) || (r.id == id && RuleEngine.Alone(env, e, w, r).Hit?)
  {
    if DueId(env, e, w, front, id) {
      var o :| o in front && o.id == id && RuleEngine.Alone(env, e, w, o).Hit?;
      assert o in front + [r];
    }
    assert r in front + [r];
  }

  lemma RuleIdsSnoc(drafts: seq<RuleEngine.Draft>, d: RuleEngine.Draft)
    ensures RuleIds(drafts + [d]) == RuleIds(drafts) + [d.rule]
  {
    assert (drafts + [d])[..|drafts|] == drafts;
  }

  lemma {:induction false} OwnDrafts(env: RuleEngine.Env, e: RuleEngine.Event, w: RuleEngine.Windows,
                                     rules: seq<RuleEngine.Rule>, id: int)
    ensures id in RuleIds(RuleEngine.Own(env, e, w, rules)) <==> DueId(env, e, w, rules, id)
  {
    if rules != [] {
      var front, r := rules[..|rules| - 1], rules[|rules| - 1];
      OwnDrafts(env, e, w, front, id);
      DueIdSnoc(env, e, w, front, r, id);
      assert rules == front + [r];
      var own, j := RuleEngine.Own(env, e, w, front), RuleEngine.Alone(env, e, w, r);
      if j.Hit? {
        RuleIdsSnoc(own, RuleEngine.Draft(r.id, j.hits));
      } else {
        assert own + [] == own;
      }
    }
  }

  /** Rules with different ids: the one with this id. */
  lemma DueIdIsOwn(env: RuleEngine.Env, e: RuleEngine.Event, w: RuleEngine.Windows, rules: seq<RuleEngine.Rule>, i: nat)
    requires RuleEngine.DistinctIds(rules) && i < |rules|
    ensures DueId(env, e, w, rules, rules[i].id) <==> RuleEngine.Alone(env, e, w, rules[i]).Hit?
  {
    assert rules[i] in rules;
    forall r | r in rules && r.id == rules[i].id ensures r == rules[i] {
    }
  }

  /** Without faults, and however late, the second evaluation yields the drafts of the first one but for
      those of the rules that have spent their windows. */
  lemma SecondYieldsUnspent(t: Twice, i: nat)
    requires t.Valid() && i < |t.rules|
    ensures !t.First().failed && !t.Second().failed
    ensures t.rules[i].id in RuleIds(t.First().drafts) <==> t.Due(t.rules[i])
    ensures t.rules[i].id in RuleIds(t.Second().drafts) <==> t.Due(t.rules[i]) && !RuleEngine.Spends(t.rules[i])
  {
    var after := t.First().windows;
    RuleEngine.RulesAreIndependent(t.env, t.e, t.w, t.rules);
    forall k | 0 <= k < |t.rules| ensures SecondAlone(t, k) {
      assert t.rules[k] in t.rules;
      UnspentAlone(t, k);
    }
    assert !RuleEngine.AnyFails(t.env', t.e, after, t.rules) by {
      forall r | r in t.rules ensures !RuleEngine.Alone(t.env', t.e, after, r).Fails? {
        var k :| 0 <= k < |t.rules| && t.rules[k] == r;
        assert SecondAlone(t, k);
      }
    }
    RuleEngine.RulesAreIndependent(t.env', t.e, after, t.rules);
    OwnDrafts(t.env, t.e, t.w, t.rules, t.rules[i].id);
    OwnDrafts(t.env', t.e, after, t.rules, t.rules[i].id);
    DueIdIsOwn(t.env, t.e, t.w, t.rules, i);
    DueIdIsOwn(t.env', t.e, after, t.rules, i);
    assert SecondAlone(t, i);
  }

  ghost predicate SecondAlone(t: Twice, k: nat)
    requires k < |t.rules|
  {
    var j := RuleEngine.Alone(t.env', t.e, t.First().windows, t.rules[k]);
    !j.Fails? && (j.Hit? <==> t.Due(t.rules[k]) && !RuleEngine.Spends(t.rules[k]))
  }

  lemma UnspentAlone(t: Twice, k: nat)
    requires t.Valid() && k < |t.rules|
    ensures SecondAlone(t, k)
  {
    forall n | 0 <= n < |t.rules| ensures !RuleEngine.Alone(t.env, t.e, t.w, t.rules[n]).Fails? {
      assert t.rules[n] in t.rules;
    }
    var r := t.rules[k];
    var key := RuleEngine.KeyAt(t.w, RuleEngine.WindowKey(r.id, t.e.device));
    RuleEngine.RetryYieldsDraftIff(t.env, t.env', t.e, t.w, t.rules, k, |t.rules|);
    RuleEngine.WindowAfterRun(t.env, t.e, t.w, t.rules, k, |t.rules|);
    RuleEngine.JudgedAgain(t.env, t.env', t.e, r, key);
    RuleEngine.NotFailingIsFaultFree(t.env, t.e, r, key);
  }

  // ----- The alarms that survive one lost call

  lemma DistinctDrafts(env: RuleEngine.Env, e: RuleEngine.Event, w: RuleEngine.Windows, rules: seq<RuleEngine.Rule>)
    requires RuleEngine.DistinctIds(rules) && !RuleEngine.Run(env, e, w, rules).failed
    ensures Distinct(RuleIds(RuleEngine.Run(env, e, w, rules).drafts))
  {
    RuleEngine.RulesAreIndependent(env, e, w, rules);
    RuleEngine.DraftsAreDistinct(env, e, w, rules);
  }

  lemma EvaluationsAreDrafts(t: Twice)
    requires t.Valid() && exists r :: r in t.rules && t.Due(r)
    ensures !t.First().failed && !t.Second().failed && RuleIds(t.First().drafts) != []
    ensures Distinct(RuleIds(t.First().drafts)) && Distinct(RuleIds(t.Second().drafts))
  {
    var due :| due in t.rules && t.Due(due);
    var d :| 0 <= d < |t.rules| && t.rules[d] == due;
    SecondYieldsUnspent(t, d);
    DistinctDrafts(t.env, t.e, t.w, t.rules);
    DistinctDrafts(t.env', t.e, t.First().windows, t.rules);
  }

  /** The scene in which the consumer gets these evaluations. */
  function SceneOf(cfg: Config, msg: Message, t: Twice, place: Place, fault: Fault): Scene {
    Scene(cfg, msg, RuleIds(t.First().drafts), RuleIds(t.Second().drafts), place, fault)
  }

  /** Rule `i` had draft `p` at first. */
  ghost predicate Drafted(t: Twice, i: nat, p: nat) {
    i < |t.rules| && p < |t.First().drafts| && t.First().drafts[p].rule == t.rules[i].id
  }

  /** The draft is stored in the end: the first attempt stored it, or the second one has it again and does
      not meet a cooldown key that the first one took for it. */
  predicate Survives(sc: Scene, r: RuleEngine.Rule, p: nat) {
    sc.StoredAtFirst(p) || (!RuleEngine.Spends(r) && !(sc.cfg.cooldown && sc.TakenAtFirst(p)))
  }

  /** Exactly the drafts that survive have a row. */
  ghost predicate RowsAreSurvivors(sc: Scene, t: Twice, w: World)
    requires sc.msg.event.Some?
  {
    forall i: nat, p: nat :: Drafted(t, i, p) ==>
      (HasRow(w.rows, t.rules[i].id, sc.msg.event.value.id) <==> Survives(sc, t.rules[i], p))
  }

  ghost predicate NoneSurvives(sc: Scene, t: Twice) {
    forall i: nat, p: nat :: Drafted(t, i, p) ==> !Survives(sc, t.rules[i], p)
  }

  /** Accounting of one lost call, whichever it is of the L1 claim, the cooldowns and the inserts of the
      first attempt, with all else heard: the L1 key is given back, the retry commits, no dead letter is
      written and no key is orphaned, and exactly the drafts that survive have a row. */
  lemma OneLostCall(cfg: Config, msg: Message, t: Twice, place: Place, fault: Fault)
    returns (run: seq<Action>, w: World)
    requires cfg.storage && msg.event.Some? && msg.event.value.tenant > 0 && SameEvent(msg.event.value, t.e)
    requires t.Valid() && (exists r :: r in t.rules && t.Due(r)) && SceneOf(cfg, msg, t, place, fault).Fits()
    ensures Exec(cfg, INIT, run) == Some(w) && Scripted(SceneOf(cfg, msg, t, place, fault), run)
    ensures w.actors.Keys == {0} && w.actors[0].pc.Returned? && w.actors[0].pc.outcome.Commits()
    ensures w.deadLetters == [] && w.orphans == {}
    ensures RowsAreSurvivors(SceneOf(cfg, msg, t, place, fault), t, w)
    ensures Loses(cfg, run, msg) <==> NoneSurvives(SceneOf(cfg, msg, t, place, fault), t)
  {
    EvaluationsAreDrafts(t);
    run, w := Ends(SceneOf(cfg, msg, t, place, fault));
    SurvivorsHaveRows(SceneOf(cfg, msg, t, place, fault), t, w);
    NoRowsIff(SceneOf(cfg, msg, t, place, fault), t, w);
  }

  /** The rows of the scene, as its end tells them. */
  ghost predicate RowsOf(sc: Scene, w: World)
    requires sc.msg.event.Some?
  {
    && (forall row :: row in w.rows ==> row.request == sc.msg.event.value.id)
    && (forall r :: HasRow(w.rows, r, sc.msg.event.value.id) <==>
          r in sc.StoredRules() || (r in sc.second && !(sc.cfg.cooldown && r in sc.TakenRules())))
  }

  lemma SurvivorsHaveRows(sc: Scene, t: Twice, w: World)
    requires t.Valid() && sc == SceneOf(sc.cfg, sc.msg, t, sc.place, sc.fault) && sc.Valid() && RowsOf(sc, w)
    ensures RowsAreSurvivors(sc, t, w)
  {
    forall i: nat, p: nat | Drafted(t, i, p)
      ensures HasRow(w.rows, t.rules[i].id, sc.msg.event.value.id) <==> Survives(sc, t.rules[i], p)
    {
      RuleSurvives(sc, t, i, p);
    }
  }

  /** What the scene says of the rule of one draft. */
  lemma RuleSurvives(sc: Scene, t: Twice, i: nat, p: nat)
    requires t.Valid() && sc == SceneOf(sc.cfg, sc.msg, t, sc.place, sc.fault) && sc.Valid() && Drafted(t, i, p)
    ensures var id := t.rules[i].id;
      (id in sc.StoredRules() || (id in sc.second && !(sc.cfg.cooldown && id in sc.TakenRules())))
      <==> Survives(sc, t.rules[i], p)
  {
    var id := t.rules[i].id;
    SecondYieldsUnspent(t, i);
    assert sc.first[p] == id && id in sc.first;
    forall q | 0 <= q < |sc.first| && sc.first[q] == id ensures q == p {
    }
  }

  lemma NoRowsIff(sc: Scene, t: Twice, w: World)
    requires t.Valid() && sc == SceneOf(sc.cfg, sc.msg, t, sc.place, sc.fault) && sc.Valid() && RowsOf(sc, w)
    requires !t.First().failed && !t.Second().failed
    ensures w.rows == [] <==> NoneSurvives(sc, t)
  {
    if w.rows == [] {
      forall i: nat, p: nat | Drafted(t, i, p) ensures !Survives(sc, t.rules[i], p) {
        RuleSurvives(sc, t, i, p);
      }
    } else {
      var row := w.rows[0];
      assert row in w.rows;
      assert HasRow(w.rows, row.rule, sc.msg.event.value.id);
      var i, p := DraftOfRow(sc, t, row.rule);
      RuleSurvives(sc, t, i, p);
    }
  }

  /** Every stored rule had a draft at first. */
  lemma DraftOfRow(sc: Scene, t: Twice, id: int) returns (i: nat, p: nat)
    requires t.Valid() && sc == SceneOf(sc.cfg, sc.msg, t, sc.place, sc.fault) && sc.Valid()
    requires (id in sc.StoredRules() || id in sc.second) && !t.First().failed && !t.Second().failed
    ensures Drafted(t, i, p) && t.rules[i].id == id
  {
    i := RuleOfDraft(t, id);
    SecondYieldsUnspent(t, i);
    p :| 0 <= p < |sc.first| && sc.first[p] == id;
  }

  /** The rule of a draft of either evaluation. */
  lemma RuleOfDraft(t: Twice, id: int) returns (i: nat)
    requires t.Valid() && (id in RuleIds(t.First().drafts) || id in RuleIds(t.Second().drafts))
    requires !t.First().failed && !t.Second().failed
    ensures i < |t.rules| && t.rules[i].id == id
  {
    RuleEngine.RulesAreIndependent(t.env, t.e, t.w, t.rules);
    RuleEngine.RulesAreIndependent(t.env', t.e, t.First().windows, t.rules);
    OwnDrafts(t.env, t.e, t.w, t.rules, id);
    OwnDrafts(t.env', t.e, t.First().windows, t.rules, id);
    var r :| r in t.rules && r.id == id;
    i :| 0 <= i < |t.rules| && t.rules[i] == r;
  }

  ghost predicate AllStored(t: Twice, w: World, id: EventId) {
    forall i: nat, p: nat :: Drafted(t, i, p) ==> HasRow(w.rows, t.rules[i].id, id)
  }

  ghost predicate NoneSpendsFrom(t: Twice, n: nat) {
    forall i: nat, p: nat :: Drafted(t, i, p) && p >= n ==> !RuleEngine.Spends(t.rules[i])
  }

  /** Is a retry safe after the L1 key is released? The insert of draft `n` is lost before it takes effect.
      Every draft has its row in the end if and only if there is no cooldown component, whose key the
      first attempt has kept, and no rule from draft `n` on has spent its window. */
  lemma RetryAfterReleaseIsSafeIff(cfg: Config, msg: Message, t: Twice, n: nat) returns (run: seq<Action>, w: World)
    requires cfg.storage && msg.event.Some? && msg.event.value.tenant > 0 && SameEvent(msg.event.value, t.e)
    requires t.Valid() && (exists r :: r in t.rules && t.Due(r)) && n < |t.First().drafts|
    ensures Exec(cfg, INIT, run) == Some(w) && Scripted(SceneOf(cfg, msg, t, AtStore(n), Lost), run)
    ensures w.actors.Keys == {0} && w.actors[0].pc.Returned? && w.actors[0].pc.outcome.Commits()
    ensures w.deadLetters == [] && w.orphans == {}
    ensures AllStored(t, w, msg.event.value.id) <==> !cfg.cooldown && NoneSpendsFrom(t, n)
  {
    run, w := OneLostCall(cfg, msg, t, AtStore(n), Lost);
    EvaluationsAreDrafts(t);
    var i := RuleOfDraft(t, RuleIds(t.First().drafts)[n]);
    assert Drafted(t, i, n);
  }

  // ----- A rule table that cannot be read

  /** If the engine cannot tell its rules, the event is answered by the built-in rule alone. Its offset is
      then committed at once, with nothing stored, if and only if that rule is disabled or does not match. */
  lemma UnreadableTableLosesEventIff(cfg: Config, msg: Message, e: RuleEngine.Event, disabled: bool)
    requires msg.event.Some? && SameEvent(msg.event.value, e)
    ensures var drafts := RuleIds(RuleFallback.Fallback(disabled, e));
      var run := [Spawn(0, Consumer, msg), Act(0, NoFault, Drafts(drafts), false)];
      && Exec(cfg, INIT, run).Some?
      && (Loses(cfg, run, msg) <==> disabled || !RuleFallback.MatchesIntrusion(e))
  {
    var drafts := RuleIds(RuleFallback.Fallback(disabled, e));
    var run := [Spawn(0, Consumer, msg), Act(0, NoFault, Drafts(drafts), false)];
    var w := Extend(cfg, [], INIT, run[0]);
    assert [] + [run[0]] == run[..1];
    w := Extend(cfg, run[..1], w, run[1]);
    assert run[..1] + [run[1]] == run;
  }
}
