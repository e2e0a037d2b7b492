/** One consumer, one message, one lost call: the first attempt of a message fails because a single call
    to a store is lost, and the second attempt meets no fault at all.
  */
module AlarmScene {
  import opened Options
  import opened KeyStore
  import opened AlarmProtocol
  import opened AlarmTheorems

  /** The call that is lost: the L1 claim, or the cooldown or the insert of draft `n`. */
  datatype Place = AtClaim | AtCool(n: nat) | AtStore(n: nat)

  /** `first` and `second` are what the two evaluations yield. */
  datatype Scene = Scene(cfg: Config, msg: Message, first: seq<int>, second: seq<int>, place: Place, fault: Fault) {
    predicate Valid() {
      && cfg.storage && msg.event.Some? && msg.event.value.tenant > 0
      && first != [] && Distinct(first) && Distinct(second)
      && Fits()
    }

    /** The call is one that the first attempt makes, and it is lost before or after it takes effect. Of a
        claim only the first is meant here: the retry takes the other for a duplicate. */
    predicate Fits() {
      !fault.NoFault? &&
      match place
      case AtClaim => fault.Lost?
      case AtCool(n) => cfg.cooldown && n < |first|
      case AtStore(n) => n < |first|
    }

    predicate Strikes(a: Actor) {
      a.attempt == 0 &&
      match place
      case AtClaim => a.pc.Claim?
      case AtCool(n) => a.pc.Cool? && |a.fates| == n
      case AtStore(n) => a.pc.Store? && |a.fates| == n
    }

    /** The only thing that happens next. */
    function Scheduled(w: World): Action {
      if 0 !in w.actors then Spawn(0, Consumer, msg)
      else
        var a := w.actors[0];
        Act(0, if Strikes(a) then fault else NoFault, Drafts(if a.attempt == 0 then first else second), false)
    }

    /** The first attempt stored draft `p`. */
    predicate StoredAtFirst(p: nat) {
      match place
      case AtClaim => false
      case AtCool(n) => p < n
      case AtStore(n) => p < n || (p == n && fault.Late?)
    }

    /** The first attempt took the cooldown key of draft `p`. */
    predicate TakenAtFirst(p: nat) {
      match place
      case AtClaim => false
      case AtCool(n) => p < n || (p == n && fault.Late?)
      case AtStore(n) => p <= n
    }

    function StoredRules(): set<int> { set p | 0 <= p < |first| && StoredAtFirst(p) :: first[p] }

    function TakenRules(): set<int> { set p | 0 <= p < |first| && TakenAtFirst(p) :: first[p] }
  }

  /** All of the run is as scheduled. */
  ghost predicate Scripted(sc: Scene, run: seq<Action>) {
    run == [] ||
    var last := |run| - 1;
    && Scripted(sc, run[..last])
    && Exec(sc.cfg, INIT, run[..last]).Some?
    && run[last] == sc.Scheduled(Exec(sc.cfg, INIT, run[..last]).value)
  }

  /** The consumer is where it is said to be, `stored` are the rules with a row and `taken` those with a
      cooldown key; nothing else happened. */
  ghost predicate At(sc: Scene, w: World, attempt: nat, pc: Pc, n: nat, stored: set<int>, taken: set<int>)
    requires sc.msg.event.Some?
  {
    && w.actors.Keys == {0}
    && w.actors[0] == Actor(Consumer, sc.msg, attempt, pc, w.actors[0].fates) && |w.actors[0].fates| == n
    && w.deadLetters == [] && w.orphans == {}
    && (forall row :: row in w.rows ==> row.request == sc.msg.event.value.id)
    && (forall r :: HasRow(w.rows, r, sc.msg.event.value.id) <==> r in stored)
    && (forall r :: KeyOf(sc.msg.event.value, r) in w.cooldown <==> sc.cfg.cooldown && r in taken)
  }

  // ----- Single steps

  lemma CoolStepAt(sc: Scene, w: World, attempt: nat, rules: seq<int>, n: nat, stored: set<int>, taken: set<int>,
                   f: Fault)
    requires sc.msg.event.Some? && At(sc, w, attempt, Cool(rules), n, stored, taken) && n < |rules|
    ensures var w' := CoolStep(sc.cfg, w, 0, w.actors[0], f);
      && w'.dedup == w.dedup
      && (f.NoFault? ==>
            if sc.cfg.cooldown && rules[n] in taken then At(sc, w', attempt, Cool(rules), n + 1, stored, taken)
            else At(sc, w', attempt, Store(rules), n, stored, taken + {rules[n]}))
      && (sc.cfg.cooldown && f.Lost? ==> At(sc, w', attempt, Release, n, stored, taken))
      && (sc.cfg.cooldown && f.Late? ==> At(sc, w', attempt, Release, n, stored, taken + {rules[n]}))
  {
  }

  lemma InsertedRow(rows: seq<Row>, row: Row, f: Fault, r: int, id: EventId)
    ensures HasRow(Insert(rows, row, f), r, id) <==>
      HasRow(rows, r, id) || (f.TakesEffect() && r == row.rule && id == row.request)
  {
    RowsKept(rows, row, f, r, id);
    RowsKept(rows, row, f, row.rule, row.request);
  }

  lemma StoreStepAt(sc: Scene, w: World, attempt: nat, rules: seq<int>, n: nat, stored: set<int>, taken: set<int>,
                    f: Fault)
    requires sc.msg.event.Some? && At(sc, w, attempt, Store(rules), n, stored, taken) && n < |rules|
    ensures var w' := StoreStep(w, 0, w.actors[0], f);
      && w'.dedup == w.dedup
      && (f.NoFault? ==> At(sc, w', attempt, Cool(rules), n + 1, stored + {rules[n]}, taken))
      && (f.Lost? ==> At(sc, w', attempt, Release, n, stored, taken))
      && (f.Late? ==> At(sc, w', attempt, Release, n, stored + {rules[n]}, taken))
  {
    var ev := sc.msg.event.value;
    forall r ensures HasRow(Insert(w.rows, RowOf(ev, rules[n]), f), r, ev.id) <==>
      HasRow(w.rows, r, ev.id) || (f.TakesEffect() && r == rules[n])
    {
      InsertedRow(w.rows, RowOf(ev, rules[n]), f, r, ev.id);
    }
  }

  lemma ReleaseStepAt(sc: Scene, w: World, attempt: nat, n: nat, stored: set<int>, taken: set<int>)
    requires sc.msg.event.Some? && At(sc, w, attempt, Release, n, stored, taken)
    ensures var w' := ReleaseStep(w, 0, w.actors[0], NoFault);
      sc.msg.event.value.id !in w'.dedup && At(sc, w', attempt, Failed(Retryable), n, stored, taken)
  {
  }

  lemma ClaimStepAt(sc: Scene, w: World, attempt: nat, rules: seq<int>, n: nat, stored: set<int>, taken: set<int>,
                    f: Fault)
    requires sc.msg.event.Some? && At(sc, w, attempt, Claim(rules), n, stored, taken)
    requires sc.msg.event.value.id !in w.dedup
    ensures var w' := ClaimStep(w, 0, w.actors[0], f);
      && (f.NoFault? ==> At(sc, w', attempt, Cool(rules), 0, stored, taken))
      && (f.Lost? ==> sc.msg.event.value.id !in w'.dedup && At(sc, w', attempt, Failed(Retryable), 0, stored, taken))
  {
  }

  // ----- Runs

  /** The scheduled action. */
  lemma Go(sc: Scene, run: seq<Action>, w: World) returns (run': seq<Action>, w': World)
    requires Exec(sc.cfg, INIT, run) == Some(w) && Scripted(sc, run) && CanStep(sc.cfg, w, sc.Scheduled(w))
    ensures w' == Apply(sc.cfg, w, sc.Scheduled(w))
    ensures Exec(sc.cfg, INIT, run') == Some(w') && Scripted(sc, run')
  {
    run' := run + [sc.Scheduled(w)];
    w' := Extend(sc.cfg, run, w, sc.Scheduled(w));
    assert run'[..|run|] == run;
  }

  /** The scheduled step of the consumer. */
  lemma GoStep(sc: Scene, run: seq<Action>, w: World) returns (run': seq<Action>, w': World)
    requires sc.Valid() && Exec(sc.cfg, INIT, run) == Some(w) && Scripted(sc, run)
    requires w.actors.Keys == {0} && Shaped(w.actors[0]) && !w.actors[0].pc.Returned?
    ensures var a := sc.Scheduled(w);
      w' == ActStep(sc.cfg, w, 0, w.actors[0], a.fault, a.evaluation, false)
    ensures Exec(sc.cfg, INIT, run') == Some(w') && Scripted(sc, run')
  {
    run', w' := Go(sc, run, w);
  }

  /** One draft without a fault: suppressed by its own key, or stored. */
  lemma ServeOne(sc: Scene, run: seq<Action>, w: World, attempt: nat, rules: seq<int>, n: nat,
                 stored: set<int>, taken: set<int>)
    returns (run': seq<Action>, w': World, stored': set<int>, taken': set<int>)
    requires sc.Valid() && Exec(sc.cfg, INIT, run) == Some(w) && Scripted(sc, run)
    requires At(sc, w, attempt, Cool(rules), n, stored, taken) && n < |rules|
    requires attempt == 0 ==> !sc.place.AtClaim? && n < sc.place.n
    ensures Exec(sc.cfg, INIT, run') == Some(w') && Scripted(sc, run')
    ensures At(sc, w', attempt, Cool(rules), n + 1, stored', taken')
    ensures stored' == if sc.cfg.cooldown && rules[n] in taken then stored else stored + {rules[n]}
    ensures taken' == taken + {rules[n]}
  {
    CoolStepAt(sc, w, attempt, rules, n, stored, taken, NoFault);
    run', w' := GoStep(sc, run, w);
    stored', taken' := stored, taken + {rules[n]};
    if sc.cfg.cooldown && rules[n] in taken {
      assert taken' == taken;
    } else {
      StoreStepAt(sc, w', attempt, rules, n, stored, taken', NoFault);
      run', w' := GoStep(sc, run', w');
      stored' := stored + {rules[n]};
    }
  }

  /** What one more rule adds to those before it. */
  lemma PrefixNext(rules: seq<int>, n: nat)
    requires Distinct(rules) && n < |rules|
    ensures rules[n] !in rules[..n]
    ensures forall r :: r in rules[..n + 1] <==> r in rules[..n] || r == rules[n]
  {
    assert rules[..n + 1] == rules[..n] + [rules[n]];
  }

  lemma {:induction false} ServeUpTo(sc: Scene, run: seq<Action>, w: World, attempt: nat, rules: seq<int>, m: nat,
                                     stored: set<int>, taken: set<int>)
    returns (run': seq<Action>, w': World, stored': set<int>, taken': set<int>)
    requires sc.Valid() && Exec(sc.cfg, INIT, run) == Some(w) && Scripted(sc, run) && Distinct(rules)
    requires At(sc, w, attempt, Cool(rules), 0, stored, taken) && m <= |rules|
    requires attempt == 0 ==> !sc.place.AtClaim? && m <= sc.place.n
    ensures Exec(sc.cfg, INIT, run') == Some(w') && Scripted(sc, run')
    ensures At(sc, w', attempt, Cool(rules), m, stored', taken')
    ensures forall r :: r in stored' <==> r in stored || (r in rules[..m] && !(sc.cfg.cooldown && r in taken))
    ensures forall r :: r in taken' <==> r in taken || r in rules[..m]
  {
    if m == 0 {
      run', w', stored', taken' := run, w, stored, taken;
    } else {
      var before, had;
      run', w', before, had := ServeUpTo(sc, run, w, attempt, rules, m - 1, stored, taken);
      run', w', stored', taken' := ServeOne(sc, run', w', attempt, rules, m - 1, before, had);
      PrefixNext(rules, m - 1);
    }
  }

  /** Up to the claim of the first attempt. */
  lemma Opens(sc: Scene) returns (run: seq<Action>, w: World)
    requires sc.Valid()
    ensures Exec(sc.cfg, INIT, run) == Some(w) && Scripted(sc, run)
    ensures At(sc, w, 0, Claim(sc.first), 0, {}, {}) && sc.msg.event.value.id !in w.dedup
  {
    run, w := [], INIT;
    run, w := Go(sc, run, w);
    assert w == INIT.(actors := map[0 := Actor(Consumer, sc.msg, 0, Evaluate, [])]);
    run, w := GoStep(sc, run, w);
    assert forall r :: !HasRow([], r, sc.msg.event.value.id);
  }

  /** The struck attempt, up to its failure. */
  lemma Struck(sc: Scene) returns (run: seq<Action>, w: World, n: nat)
    requires sc.Valid()
    ensures Exec(sc.cfg, INIT, run) == Some(w) && Scripted(sc, run)
    ensures At(sc, w, 0, Failed(Retryable), n, sc.StoredRules(), sc.TakenRules()) && sc.msg.event.value.id !in w.dedup
  {
    run, w := Opens(sc);
    ClaimStepAt(sc, w, 0, sc.first, 0, {}, {}, if sc.place.AtClaim? then Lost else NoFault);
    run, w := GoStep(sc, run, w);
    if sc.place.AtClaim? {
      n := 0;
      assert sc.StoredRules() == {} && sc.TakenRules() == {};
    } else {
      n := sc.place.n;
      run, w := StrikesDraft(sc, run, w);
    }
  }

  lemma StrikesDraft(sc: Scene, run: seq<Action>, w: World) returns (run': seq<Action>, w': World)
    requires sc.Valid() && !sc.place.AtClaim?
    requires Exec(sc.cfg, INIT, run) == Some(w) && Scripted(sc, run) && At(sc, w, 0, Cool(sc.first), 0, {}, {})
    ensures Exec(sc.cfg, INIT, run') == Some(w') && Scripted(sc, run')
    ensures At(sc, w', 0, Failed(Retryable), sc.place.n, sc.StoredRules(), sc.TakenRules())
    ensures sc.msg.event.value.id !in w'.dedup
  {
    var stored, taken;
    run', w', stored, taken := ServeUpTo(sc, run, w, 0, sc.first, sc.place.n, {}, {});
    FirstRules(sc, stored, taken);
    run', w' := StrikesNow(sc, run', w', stored, taken);
    run', w' := Releases(sc, run', w');
  }

  lemma Releases(sc: Scene, run: seq<Action>, w: World) returns (run': seq<Action>, w': World)
    requires sc.Valid() && !sc.place.AtClaim? && Exec(sc.cfg, INIT, run) == Some(w) && Scripted(sc, run)
    requires At(sc, w, 0, Release, sc.place.n, sc.StoredRules(), sc.TakenRules())
    ensures Exec(sc.cfg, INIT, run') == Some(w') && Scripted(sc, run')
    ensures At(sc, w', 0, Failed(Retryable), sc.place.n, sc.StoredRules(), sc.TakenRules())
    ensures sc.msg.event.value.id !in w'.dedup
  {
    ReleaseStepAt(sc, w, 0, sc.place.n, sc.StoredRules(), sc.TakenRules());
    run', w' := GoStep(sc, run, w);
  }

  lemma StrikesNow(sc: Scene, run: seq<Action>, w: World, stored: set<int>, taken: set<int>)
    returns (run': seq<Action>, w': World)
    requires sc.Valid() && !sc.place.AtClaim? && AfterStrike(sc, stored, taken)
    requires Exec(sc.cfg, INIT, run) == Some(w) && Scripted(sc, run)
    requires At(sc, w, 0, Cool(sc.first), sc.place.n, stored, taken)
    ensures Exec(sc.cfg, INIT, run') == Some(w') && Scripted(sc, run')
    ensures At(sc, w', 0, Release, sc.place.n, sc.StoredRules(), sc.TakenRules())
  {
    if sc.place.AtCool? {
      CoolStepAt(sc, w, 0, sc.first, sc.place.n, stored, taken, sc.fault);
      run', w' := GoStep(sc, run, w);
    } else {
      run', w' := StrikesInsert(sc, run, w, stored, taken);
    }
  }

  lemma StrikesInsert(sc: Scene, run: seq<Action>, w: World, stored: set<int>, taken: set<int>)
    returns (run': seq<Action>, w': World)
    requires sc.Valid() && sc.place.AtStore? && AfterStrike(sc, stored, taken)
    requires Exec(sc.cfg, INIT, run) == Some(w) && Scripted(sc, run)
    requires At(sc, w, 0, Cool(sc.first), sc.place.n, stored, taken)
    ensures Exec(sc.cfg, INIT, run') == Some(w') && Scripted(sc, run')
    ensures At(sc, w', 0, Release, sc.place.n, sc.StoredRules(), sc.TakenRules())
  {
    var n := sc.place.n;
    CoolStepAt(sc, w, 0, sc.first, n, stored, taken, NoFault);
    run', w' := GoStep(sc, run, w);
    assert At(sc, w', 0, Store(sc.first), n, stored, taken + {sc.first[n]});
    StoreStepAt(sc, w', 0, sc.first, n, stored, taken + {sc.first[n]}, sc.fault);
    run', w' := GoStep(sc, run', w');
  }

  /** The rules of the first attempt, given those before the struck draft. */
  ghost predicate AfterStrike(sc: Scene, stored: set<int>, taken: set<int>)
    requires sc.Valid() && !sc.place.AtClaim?
  {
    var own := {sc.first[sc.place.n]};
    && sc.first[sc.place.n] !in taken
    && sc.StoredRules() == (if sc.place.AtStore? && sc.fault.Late? then stored + own else stored)
    && sc.TakenRules() == (if sc.place.AtStore? || sc.fault.Late? then taken + own else taken)
  }

  lemma FirstRules(sc: Scene, stored: set<int>, taken: set<int>)
    requires sc.Valid() && !sc.place.AtClaim?
    requires forall r :: r in stored <==> r in sc.first[..sc.place.n]
    requires forall r :: r in taken <==> r in sc.first[..sc.place.n]
    ensures AfterStrike(sc, stored, taken)
  {
    var n, rules := sc.place.n, sc.first;
    PrefixNext(rules, n);
    InPrefix(rules, n);
    forall r ensures r in sc.StoredRules() <==> r in stored || (r == rules[n] && sc.StoredAtFirst(n)) {
      if r in sc.StoredRules() {
        var p :| 0 <= p < |rules| && sc.StoredAtFirst(p) && rules[p] == r;
        assert p < n ==> rules[p] in rules[..n];
      }
      if r in stored {
        var p: nat :| p < n && rules[p] == r;
        assert sc.StoredAtFirst(p) && rules[p] in sc.StoredRules();
      }
    }
    forall r ensures r in sc.TakenRules() <==> r in taken || (r == rules[n] && sc.TakenAtFirst(n)) {
      if r in sc.TakenRules() {
        var p :| 0 <= p < |rules| && sc.TakenAtFirst(p) && rules[p] == r;
        assert p < n ==> rules[p] in rules[..n];
      }
      if r in taken {
        var p: nat :| p < n && rules[p] == r;
        assert sc.TakenAtFirst(p) && rules[p] in sc.TakenRules();
      }
    }
    assert sc.StoredRules() == if sc.StoredAtFirst(n) then stored + {rules[n]} else stored;
    assert sc.TakenRules() == if sc.TakenAtFirst(n) then taken + {rules[n]} else taken;
  }

  lemma InPrefix(rules: seq<int>, n: nat)
    requires n <= |rules|
    ensures forall r :: r in rules[..n] ==> exists p :: 0 <= p < n && rules[p] == r
    ensures forall p :: 0 <= p < n ==> rules[p] in rules[..n]
  {
    forall p | 0 <= p < n ensures rules[p] in rules[..n] {
      assert rules[..n][p] == rules[p];
    }
  }

  /** How the scene ends: the retry commits, and the rules with a row are those that the first attempt
      stored, and those of the second evaluation whose cooldown keys the first one did not take. */
  lemma Ends(sc: Scene) returns (run: seq<Action>, w: World)
    requires sc.Valid()
    ensures Exec(sc.cfg, INIT, run) == Some(w) && Scripted(sc, run)
    ensures w.actors.Keys == {0} && w.actors[0].msg == sc.msg && w.actors[0].kind.Consumer?
    ensures w.actors[0].pc.Returned? && (w.actors[0].pc.outcome.NoDrafts? || w.actors[0].pc.outcome.Handled?)
    ensures w.deadLetters == [] && w.orphans == {}
    ensures forall row :: row in w.rows ==> row.request == sc.msg.event.value.id
    ensures forall r :: HasRow(w.rows, r, sc.msg.event.value.id) <==>
      r in sc.StoredRules() || (r in sc.second && !(sc.cfg.cooldown && r in sc.TakenRules()))
  {
    var n;
    run, w, n := Struck(sc);
    run, w := GoStep(sc, run, w);
    assert At(sc, w, 1, Evaluate, n, sc.StoredRules(), sc.TakenRules());
    run, w := GoStep(sc, run, w);
    if sc.second == [] {
      assert At(sc, w, 1, Returned(NoDrafts), n, sc.StoredRules(), sc.TakenRules());
    } else {
      var stored, taken;
      run, w, stored, taken := Retries(sc, run, w, n);
    }
  }

  lemma Retries(sc: Scene, run: seq<Action>, w: World, n: nat)
    returns (run': seq<Action>, w': World, stored: set<int>, taken: set<int>)
    requires sc.Valid() && Exec(sc.cfg, INIT, run) == Some(w) && Scripted(sc, run)
    requires At(sc, w, 1, Claim(sc.second), n, sc.StoredRules(), sc.TakenRules())
    requires sc.msg.event.value.id !in w.dedup
    ensures Exec(sc.cfg, INIT, run') == Some(w') && Scripted(sc, run')
    ensures 0 in w'.actors && w'.actors[0].pc.Returned? && w'.actors[0].pc.outcome.Handled?
    ensures At(sc, w', 1, w'.actors[0].pc, |sc.second|, stored, taken)
    ensures forall r :: r in stored <==>
      r in sc.StoredRules() || (r in sc.second && !(sc.cfg.cooldown && r in sc.TakenRules()))
  {
    ClaimStepAt(sc, w, 1, sc.second, n, sc.StoredRules(), sc.TakenRules(), NoFault);
    run', w' := GoStep(sc, run, w);
    run', w', stored, taken := ServeUpTo(sc, run', w', 1, sc.second, |sc.second|, sc.StoredRules(), sc.TakenRules());
    assert sc.second[..|sc.second|] == sc.second;
    run', w' := GoStep(sc, run', w');
  }
}
