/** The rule engine: which alarms one event raises, over a cached list of rules and the window
    counters of the store.
  */
module RuleEngine {
  import opened KeyStore
  import SlidingWindow

  // ----- Conditions

  /** A condition and what it says of the event at hand; `Broken` is an evaluation error. */
  datatype Condition = Condition(text: string)

  datatype Answer = Yes | No | Broken

  datatype Logic = And | Or | Other

  /** An answer that ends the walk over the conditions. */
  predicate Decisive(logic: Logic, a: Answer) {
    a.Broken? || (logic.Or? && a.Yes?) || (logic.And? && a.No?)
  }

  /** The first decisive answer, else what the logic says of none. */
  function Walk(logic: Logic, answers: seq<Answer>): Answer {
    if answers == [] then (if logic.And? then Yes else No)
    else if Decisive(logic, answers[0]) then answers[0]
    else Walk(logic, answers[1..])
  }

  /** No conditions at all match everything, whatever the logic. */
  function Verdict(logic: Logic, answers: seq<Answer>): Answer {
    if answers == [] then Yes else Walk(logic, answers)
  }

  lemma {:induction false} WalkMeans(logic: Logic, answers: seq<Answer>)
    requires Broken !in answers
    ensures Walk(logic, answers) ==
      match logic
      case And => if No in answers then No else Yes
      case Or => if Yes in answers then Yes else No
      case Other => No
  {
    if answers != [] {
      assert answers == [answers[0]] + answers[1..];
      WalkMeans(logic, answers[1..]);
    }
  }

  lemma {:induction false} WalkBreaksIff(logic: Logic, answers: seq<Answer>)
    ensures Walk(logic, answers).Broken? <==>
      exists i :: 0 <= i < |answers| && answers[i].Broken? && Undecided(logic, answers, i)
  {
    if answers != [] {
      var rest := answers[1..];
      WalkBreaksIff(logic, rest);
      if Decisive(logic, answers[0]) {
        assert answers[0].Broken? ==> Undecided(logic, answers, 0);
      } else {
        if i :| 0 <= i < |rest| && rest[i].Broken? && Undecided(logic, rest, i) {
          assert answers[i + 1].Broken? && Undecided(logic, answers, i + 1);
        }
        if i :| 0 <= i < |answers| && answers[i].Broken? && Undecided(logic, answers, i) {
          forall j | 0 <= j < i - 1 ensures !Decisive(logic, rest[j]) {
            assert rest[j] == answers[j + 1];
          }
          assert rest[i - 1].Broken? && Undecided(logic, rest, i - 1);
        }
      }
    }
  }

  predicate Undecided(logic: Logic, answers: seq<Answer>, n: nat)
    requires n <= |answers|
  {
    forall j :: 0 <= j < n ==> !Decisive(logic, answers[j])
  }

  /** Without errors the conditions are all, any or (for a logic that is neither) never; with one,
      it shows if and only if no earlier condition decides. */
  lemma VerdictMeans(logic: Logic, answers: seq<Answer>)
    requires answers != []
    ensures Broken !in answers ==> (Verdict(logic, answers).Yes? <==>
      (logic.And? && No !in answers) || (logic.Or? && Yes in answers))
    ensures Verdict(logic, answers).Broken? <==>
      exists i :: 0 <= i < |answers| && answers[i].Broken? && Undecided(logic, answers, i)
  {
    WalkBreaksIff(logic, answers);
    if Broken !in answers {
      WalkMeans(logic, answers);
    }
  }

  // ----- Rules and events

  datatype Kind =
    | NoSpec
    | Conditions(logic: Logic, conditions: seq<Condition>)
    | TimeWindow(matching: seq<Condition>, specSec: int, ruleSec: int, threshold: int)
    | OtherKind

  datatype Event = Event(id: string, tenant: int, kind: string, deviceType: string, device: string, area: int)

  /** Zero and the empty string limit nothing. `matching` of a window rule has at most one element. */
  datatype Rule = Rule(id: int, tenant: int, eventKind: string, deviceType: string, device: string, area: int,
                       kind: Kind)
  {
    predicate AppliesTo(e: Event) {
      && (tenant == 0 || tenant == e.tenant)
      && (eventKind == "" || eventKind == e.kind)
      && (deviceType == "" || e.deviceType == "" || deviceType == e.deviceType)
      && (device == "" || device == "*" || device == e.device)
      && (area == 0 || area == e.area)
    }
  }

  datatype WindowKey = WindowKey(rule: int, device: string)

  type Windows = map<WindowKey, SlidingWindow.Key>

  function KeyAt(w: Windows, k: WindowKey): SlidingWindow.Key {
    if k in w then w[k] else SlidingWindow.Absent
  }

  /** What the surroundings do during one evaluation: the answer of each condition, and for each
      rule the time and the fault of its call to the store. `counters` is false if there is no store. */
  datatype Env = Env(answer: Condition -> Answer, now: int -> int, fault: int -> Fault, counters: bool)

  /** The outcome of one rule. */
  datatype Judgement = Skip | Hit(hits: nat) | Fails

  function Answers(answer: Condition -> Answer, conditions: seq<Condition>): (r: seq<Answer>)
    ensures |r| == |conditions| && forall i :: 0 <= i < |r| ==> r[i] == answer(conditions[i])
  {
    if conditions == [] then [] else [answer(conditions[0])] + Answers(answer, conditions[1..])
  }

  function JudgeWindow(env: Env, e: Event, r: Rule, key: SlidingWindow.Key): (SlidingWindow.Key, Judgement)
    requires r.kind.TimeWindow?
  {
    var c := SlidingWindow.RuleConfig(r.kind.specSec, r.kind.ruleSec, r.kind.threshold);
    var (key', hits) := SlidingWindow.Script(c, key, env.now(r.id), e.id);
    var f := env.fault(r.id);
    (if f.TakesEffect() then key' else key,
     if !f.NoFault? then Fails else if hits > 0 then Hit(hits) else Skip)
  }

  /** The rule gets as far as its window: it applies, and the event matches what the window counts. */
  predicate AsksWindow(env: Env, e: Event, r: Rule) {
    && r.AppliesTo(e) && r.kind.TimeWindow? && env.counters
    && Verdict(And, Answers(env.answer, r.kind.matching)).Yes?
  }

  /** The outcome of a rule that does not. */
  function WithoutWindow(env: Env, e: Event, r: Rule): Judgement {
    if !r.AppliesTo(e) then Skip
    else
      match r.kind
      case NoSpec => Skip
      case OtherKind => Skip
      case Conditions(logic, conditions) => OfVerdict(Verdict(logic, Answers(env.answer, conditions)))
      case TimeWindow(matching, _, _, _) =>
        if env.counters && Verdict(And, Answers(env.answer, matching)).Broken? then Fails else Skip
  }

  function OfVerdict(a: Answer): Judgement {
    match a case Yes => Hit(0) case No => Skip case Broken => Fails
  }

  /** One rule by itself: what becomes of its window key, and the outcome. */
  function Judge(env: Env, e: Event, r: Rule, key: SlidingWindow.Key): (SlidingWindow.Key, Judgement) {
    if AsksWindow(env, e, r) then JudgeWindow(env, e, r, key) else (key, WithoutWindow(env, e, r))
  }

  datatype Draft = Draft(rule: int, hits: nat)

  /** The windows and drafts after some rules, and whether one of them failed. */
  datatype State = State(windows: Windows, drafts: seq<Draft>, failed: bool)

  function Step(env: Env, e: Event, s: State, r: Rule): State {
    if s.failed then s
    else
      var k := WindowKey(r.id, e.device);
      var (key', j) := Judge(env, e, r, KeyAt(s.windows, k));
      State(if key' == KeyAt(s.windows, k) then s.windows else s.windows[k := key'],
            if j.Hit? then s.drafts + [Draft(r.id, j.hits)] else s.drafts,
            j.Fails?)
  }

  /** The rules one after the other, up to the first that fails. */
  function Run(env: Env, e: Event, w: Windows, rules: seq<Rule>): State {
    if rules == [] then State(w, [], false)
    else Step(env, e, Run(env, e, w, rules[..|rules| - 1]), rules[|rules| - 1])
  }

  // ----- The rules do not influence each other

  /** Rules are rows with a primary key. */
  predicate DistinctIds(rules: seq<Rule>) {
    forall i, j :: 0 <= i < j < |rules| ==> rules[i].id != rules[j].id
  }

  function Alone(env: Env, e: Event, w: Windows, r: Rule): Judgement {
    Judge(env, e, r, KeyAt(w, WindowKey(r.id, e.device))).1
  }

  /** The drafts of each rule by itself, in the order of the rules. */
  function Own(env: Env, e: Event, w: Windows, rules: seq<Rule>): seq<Draft> {
    if rules == [] then []
    else
      var r := rules[|rules| - 1];
      var j := Alone(env, e, w, r);
      Own(env, e, w, rules[..|rules| - 1]) + if j.Hit? then [Draft(r.id, j.hits)] else []
  }

  predicate AnyFails(env: Env, e: Event, w: Windows, rules: seq<Rule>) {
    exists r :: r in rules && Alone(env, e, w, r).Fails?
  }

  /** The windows of rules that have not had their turn are untouched. */
  lemma {:induction false} OthersUntouched(env: Env, e: Event, w: Windows, rules: seq<Rule>, k: WindowKey)
    requires k.device != e.device || forall r :: r in rules ==> r.id != k.rule
    ensures KeyAt(Run(env, e, w, rules).windows, k) == KeyAt(w, k)
  {
    if rules != [] {
      OthersUntouched(env, e, w, rules[..|rules| - 1], k);
      assert rules[|rules| - 1] in rules;
    }
  }

  /** Each rule is judged as if it were the only one. The evaluation fails if and only if a rule
      fails by itself, and otherwise yields what each one yields by itself. */
  lemma {:induction false} RulesAreIndependent(env: Env, e: Event, w: Windows, rules: seq<Rule>)
    requires DistinctIds(rules)
    ensures Run(env, e, w, rules).failed <==> AnyFails(env, e, w, rules)
    ensures !Run(env, e, w, rules).failed ==> Run(env, e, w, rules).drafts == Own(env, e, w, rules)
  {
    if rules != [] {
      var front, r := rules[..|rules| - 1], rules[|rules| - 1];
      assert rules == front + [r];
      RulesAreIndependent(env, e, w, front);
      forall o | o in front ensures o.id != r.id {
      }
      OthersUntouched(env, e, w, front, WindowKey(r.id, e.device));
      assert AnyFails(env, e, w, rules) <==> AnyFails(env, e, w, front) || Alone(env, e, w, r).Fails? by {
        assert r in rules;
        if AnyFails(env, e, w, front) {
          var o :| o in front && Alone(env, e, w, o).Fails?;
          assert o in rules;
        }
      }
    }
  }

  /** The drafts of an event have distinct rules, each of which applies to it. */
  lemma {:induction false} DraftsAreDistinct(env: Env, e: Event, w: Windows, rules: seq<Rule>)
    requires DistinctIds(rules)
    ensures var ds := Own(env, e, w, rules);
      && (forall d :: d in ds ==> exists r :: r in rules && r.id == d.rule && r.AppliesTo(e))
      && (forall i, j :: 0 <= i < j < |ds| ==> ds[i].rule != ds[j].rule)
  {
    if rules != [] {
      var front, r := rules[..|rules| - 1], rules[|rules| - 1];
      assert rules == front + [r];
      DraftsAreDistinct(env, e, w, front);
      forall o | o in front ensures o.id != r.id {
      }
      var own := Own(env, e, w, front);
      forall d | d in own ensures d.rule != r.id {
        var o :| o in front && o.id == d.rule && o.AppliesTo(e);
      }
      forall d | d in Own(env, e, w, rules) ensures exists o :: o in rules && o.id == d.rule && o.AppliesTo(e) {
        if d in own {
          var o :| o in front && o.id == d.rule && o.AppliesTo(e);
          assert o in rules;
        } else {
          assert r in rules && r.id == d.rule && r.AppliesTo(e);
        }
      }
    }
  }

  // ----- Which rules raise an alarm

  /** The event is none of the rule's: of another tenant, kind, device type (if it tells one), device or
      area than the rule is limited to. */
  predicate OutOfScope(r: Rule, e: Event) {
    || (r.tenant != 0 && e.tenant != r.tenant)
    || (r.eventKind != "" && e.kind != r.eventKind)
    || (r.deviceType != "" && e.deviceType != "" && e.deviceType != r.deviceType)
    || (r.device != "" && r.device != "*" && e.device != r.device)
    || (r.area != 0 && e.area != r.area)
  }

  /** Such a rule raises nothing, never fails, and leaves its window alone. */
  lemma OutOfScopeIsSilent(env: Env, e: Event, r: Rule, key: SlidingWindow.Key)
    requires OutOfScope(r, e)
    ensures Judge(env, e, r, key) == (key, Skip)
  {
  }

  /** The same in an evaluation of many rules: no draft of it, and its window as it was. */
  lemma OutOfScopeYieldsNothing(env: Env, e: Event, w: Windows, rules: seq<Rule>, i: nat)
    requires DistinctIds(rules) && i < |rules| && OutOfScope(rules[i], e)
    ensures forall d :: d in Own(env, e, w, rules) ==> d.rule != rules[i].id
    ensures var k := WindowKey(rules[i].id, e.device); KeyAt(Run(env, e, w, rules).windows, k) == KeyAt(w, k)
  {
    OutOfScopeIsSilent(env, e, rules[i], KeyAt(w, WindowKey(rules[i].id, e.device)));
    WindowUntouched(env, e, w, rules, i);
    NoOwnDraft(env, e, w, rules, i);
  }

  lemma {:induction false} NoOwnDraft(env: Env, e: Event, w: Windows, rules: seq<Rule>, i: nat)
    requires DistinctIds(rules) && i < |rules| && !Alone(env, e, w, rules[i]).Hit?
    ensures forall d :: d in Own(env, e, w, rules) ==> d.rule != rules[i].id
  {
    var n := |rules| - 1;
    if i < n {
      NoOwnDraft(env, e, w, rules[..n], i);
      assert rules[n].id != rules[i].id;
    } else {
      DraftsAreDistinct(env, e, w, rules[..n]);
      forall d | d in Own(env, e, w, rules[..n]) ensures d.rule != rules[n].id {
        var o :| o in rules[..n] && o.id == d.rule;
        var k :| 0 <= k < n && rules[..n][k] == o;
        assert rules[k].id != rules[n].id;
      }
    }
  }

  lemma {:induction false} WindowUntouched(env: Env, e: Event, w: Windows, rules: seq<Rule>, i: nat)
    requires DistinctIds(rules) && i < |rules| && OutOfScope(rules[i], e)
    ensures var k := WindowKey(rules[i].id, e.device); KeyAt(Run(env, e, w, rules).windows, k) == KeyAt(w, k)
  {
    var n := |rules| - 1;
    var k := WindowKey(rules[i].id, e.device);
    if i < n {
      WindowUntouched(env, e, w, rules[..n], i);
      assert rules[n].id != rules[i].id;
    } else {
      forall o | o in rules[..n] ensures o.id != rules[n].id {
        var j :| 0 <= j < n && rules[..n][j] == o;
        assert rules[j].id != rules[n].id;
      }
      OthersUntouched(env, e, w, rules[..n], k);
      OutOfScopeIsSilent(env, e, rules[n], KeyAt(w, k));
    }
  }

  /** Exactly when a rule raises an alarm by itself: the event is in its scope, and its conditions hold or
      its window is full. */
  lemma RaisesIff(env: Env, e: Event, w: Windows, r: Rule)
    ensures OutOfScope(r, e) ==> !Alone(env, e, w, r).Hit?
    ensures !OutOfScope(r, e) ==> (Alone(env, e, w, r).Hit? <==> Triggers(env, e, w, r))
    ensures Alone(env, e, w, r).Hit? ==>
      Alone(env, e, w, r).hits == if r.kind.TimeWindow? then Counted(env, e, w, r) else 0
  {
    match r.kind
    case Conditions(logic, cs) => WalkYesIff(logic, Answers(env.answer, cs));
    case TimeWindow(cs, _, _, _) => WalkYesIff(And, Answers(env.answer, cs));
    case _ =>
  }

  /** The conditions of the rule hold, or its window is full. */
  predicate Triggers(env: Env, e: Event, w: Windows, r: Rule) {
    match r.kind
    case NoSpec => false
    case OtherKind => false
    case Conditions(logic, cs) =>
      || cs == []
      || (logic.And? && forall i :: 0 <= i < |cs| ==> env.answer(cs[i]).Yes?)
      || (logic.Or? && exists i :: 0 <= i < |cs| && env.answer(cs[i]).Yes? && AllNo(env, cs, i))
    case TimeWindow(cs, _, _, _) =>
      && env.counters && env.fault(r.id).NoFault?
      && (forall i :: 0 <= i < |cs| ==> env.answer(cs[i]).Yes?)
      && Counted(env, e, w, r) > 0
  }

  /** What the script replies to the event on the window of the rule for this device. */
  function Counted(env: Env, e: Event, w: Windows, r: Rule): nat
    requires r.kind.TimeWindow?
  {
    var c := SlidingWindow.RuleConfig(r.kind.specSec, r.kind.ruleSec, r.kind.threshold);
    SlidingWindow.Script(c, KeyAt(w, WindowKey(r.id, e.device)), env.now(r.id), e.id).1
  }

  predicate AllNo(env: Env, cs: seq<Condition>, n: nat)
    requires n <= |cs|
  {
    forall i :: 0 <= i < n ==> env.answer(cs[i]).No?
  }

  lemma {:induction false} WalkYesIff(logic: Logic, answers: seq<Answer>)
    ensures Walk(logic, answers).Yes? <==>
      || (logic.And? && forall i :: 0 <= i < |answers| ==> answers[i].Yes?)
      || (logic.Or? && exists i :: 0 <= i < |answers| && answers[i].Yes? && forall j :: 0 <= j < i ==> answers[j].No?)
  {
    if answers != [] {
      var rest := answers[1..];
      WalkYesIff(logic, rest);
      assert forall i :: 0 <= i < |rest| ==> rest[i] == answers[i + 1];
      if logic.Or? && answers[0].No? {
        if i :| 0 <= i < |rest| && rest[i].Yes? && forall j :: 0 <= j < i ==> rest[j].No? {
          assert answers[i + 1].Yes? && forall j :: 0 <= j < i + 1 ==> answers[j].No?;
        }
        if i :| 0 <= i < |answers| && answers[i].Yes? && forall j :: 0 <= j < i ==> answers[j].No? {
          assert rest[i - 1].Yes? && forall j :: 0 <= j < i - 1 ==> rest[j].No?;
        }
      }
    }
  }

  /** Limits of the one rule are those of the other, or lifted, or met by the event. */
  predicate Wider(r': Rule, r: Rule, e: Event) {
    && r'.id == r.id && r'.kind == r.kind
    && (r'.tenant == r.tenant || r'.tenant == 0 || r'.tenant == e.tenant)
    && (r'.eventKind == r.eventKind || r'.eventKind == "" || r'.eventKind == e.kind)
    && (r'.deviceType == r.deviceType || r'.deviceType == "" || e.deviceType == "" || r'.deviceType == e.deviceType)
    && (r'.device == r.device || r'.device == "" || r'.device == "*" || r'.device == e.device)
    && (r'.area == r.area || r'.area == 0 || r'.area == e.area)
  }

  /** Lifting a limit, or meeting it, never removes a draft; and a rule without limits and conditions
      raises an alarm for every event. */
  lemma LiftingKeepsDraft(env: Env, e: Event, w: Windows, r: Rule, r': Rule, logic: Logic, id: int)
    requires Wider(r', r, e)
    ensures Alone(env, e, w, r).Hit? ==> Alone(env, e, w, r') == Alone(env, e, w, r)
    ensures Alone(env, e, w, Rule(id, 0, "", "", "", 0, Conditions(logic, []))) == Hit(0)
  {
    if Alone(env, e, w, r).Hit? {
      RaisesIff(env, e, w, r);
    }
  }

  // ----- What a second evaluation of the event yields

  /** Rule `j` is the first that fails, or none does if it is the length. */
  predicate FirstFailing(env: Env, e: Event, w: Windows, rules: seq<Rule>, j: nat) {
    && j <= |rules|
    && (j < |rules| ==> Alone(env, e, w, rules[j]).Fails?)
    && (forall k :: 0 <= k < j ==> !Alone(env, e, w, rules[k]).Fails?)
  }

  lemma {:induction false} FailureStays(env: Env, e: Event, w: Windows, rules: seq<Rule>, n: nat)
    requires n <= |rules| && Run(env, e, w, rules[..n]).failed
    ensures Run(env, e, w, rules) == Run(env, e, w, rules[..n])
    decreases |rules|
  {
    if n < |rules| {
      var front := rules[..|rules| - 1];
      assert front[..n] == rules[..n];
      FailureStays(env, e, w, front, n);
    } else {
      assert rules[..n] == rules;
    }
  }

  /** Every rule up to the first failing one leaves its window as it does by itself. */
  lemma {:induction false} WindowOfReached(env: Env, e: Event, w: Windows, rules: seq<Rule>, i: nat)
    requires DistinctIds(rules) && i < |rules|
    requires forall k :: 0 <= k < |rules| - 1 ==> !Alone(env, e, w, rules[k]).Fails?
    ensures var k := WindowKey(rules[i].id, e.device);
      KeyAt(Run(env, e, w, rules).windows, k) == Judge(env, e, rules[i], KeyAt(w, k)).0
  {
    var n := |rules| - 1;
    var front := rules[..n];
    RulesAreIndependent(env, e, w, front);
    assert !AnyFails(env, e, w, front);
    if i < n {
      WindowOfReached(env, e, w, front, i);
      assert rules[i].id != rules[n].id;
    } else {
      forall o | o in front ensures o.id != rules[n].id {
      }
      OthersUntouched(env, e, w, front, WindowKey(rules[n].id, e.device));
    }
  }

  /** The windows after an evaluation: changed up to the first failing rule, untouched beyond. */
  lemma WindowAfterRun(env: Env, e: Event, w: Windows, rules: seq<Rule>, i: nat, j: nat)
    requires DistinctIds(rules) && i < |rules| && FirstFailing(env, e, w, rules, j)
    ensures var k := WindowKey(rules[i].id, e.device);
      KeyAt(Run(env, e, w, rules).windows, k) == if i <= j then Judge(env, e, rules[i], KeyAt(w, k)).0 else KeyAt(w, k)
  {
    if j == |rules| {
      WindowOfReached(env, e, w, rules, i);
    } else {
      var reached := rules[..j + 1];
      assert rules[j] in reached by {
        assert reached[j] == rules[j];
      }
      RulesAreIndependent(env, e, w, reached);
      FailureStays(env, e, w, rules, j + 1);
      if i <= j {
        WindowOfReached(env, e, w, reached, i);
      } else {
        forall o | o in reached ensures o.id != rules[i].id {
        }
        OthersUntouched(env, e, w, reached, WindowKey(rules[i].id, e.device));
      }
    }
  }

  /** Conditions say the same of the same event. */
  ghost predicate SameAnswers(env: Env, env': Env) {
    env'.answer == env.answer && env'.counters == env.counters
  }

  function NoFaults(env: Env): Env { env.(fault := _ => NoFault) }

  /** A rule whose window is deleted by a trigger, and does not trigger again at once. */
  predicate Spends(r: Rule) { r.kind.TimeWindow? && r.kind.threshold >= 2 }

  /** The script, run again on what it has left: it triggers again only if one event is enough. */
  lemma ScriptAgain(c: SlidingWindow.Config, key: SlidingWindow.Key, now: int, now': int, member: string)
    requires c.Valid()
    ensures var (key', hits) := SlidingWindow.Script(c, key, now, member);
      SlidingWindow.Script(c, key', now', member).1 > 0 <==> hits > 0 && c.threshold == 1
  {
    var scores := SlidingWindow.Trimmed(c, key, now, member);
    var (key', hits) := SlidingWindow.Script(c, key, now, member);
    var again := SlidingWindow.Trimmed(c, key', now', member);
    assert member in scores && member in again;
    SlidingWindow.SameSize(scores);
    SlidingWindow.SameSize(again);
    SlidingWindow.Subset({member}, scores.Keys);
    SlidingWindow.Subset({member}, again.Keys);
    if hits > 0 {
      assert again.Keys == {member};
    } else {
      SlidingWindow.Subset(again.Keys, scores.Keys);
    }
  }

  /** The window of one rule, asked twice for the same event, the second time without a fault. */
  lemma WindowJudgedAgain(env: Env, env': Env, e: Event, r: Rule, key: SlidingWindow.Key)
    requires r.kind.TimeWindow? && env'.fault(r.id).NoFault?
    ensures var (key', j) := JudgeWindow(env, e, r, key);
      && (env.fault(r.id).TakesEffect() ==>
            (JudgeWindow(env', e, r, key').1.Hit? <==> JudgeWindow(NoFaults(env), e, r, key).1.Hit? && !Spends(r)))
      && (!env.fault(r.id).TakesEffect() ==> key' == key)
      && !JudgeWindow(env', e, r, key').1.Fails? && (j.Fails? <==> !env.fault(r.id).NoFault?)
  {
    var c := SlidingWindow.RuleConfig(r.kind.specSec, r.kind.ruleSec, r.kind.threshold);
    ScriptAgain(c, key, env.now(r.id), env'.now(r.id), e.id);
  }

  lemma AskedAlike(env: Env, env': Env, e: Event, r: Rule)
    requires SameAnswers(env, env')
    ensures AsksWindow(env', e, r) == AsksWindow(env, e, r) && WithoutWindow(env', e, r) == WithoutWindow(env, e, r)
  {
  }

  /** One rule, judged twice for the same event, the second time without a fault. */
  lemma JudgedAgain(env: Env, env': Env, e: Event, r: Rule, key: SlidingWindow.Key)
    requires SameAnswers(env, env') && env'.fault(r.id).NoFault?
    ensures var (key', j) := Judge(env, e, r, key);
      && (!j.Fails? || env.fault(r.id).TakesEffect() ==>
            (Judge(env', e, r, key').1.Hit? <==> Judge(NoFaults(env), e, r, key).1.Hit? && !Spends(r)))
      && (j.Fails? && !env.fault(r.id).TakesEffect() ==> key' == key)
      && (!j.Fails? ==> !Judge(env', e, r, key').1.Fails?)
  {
    if AsksWindow(env, e, r) {
      WindowJudgedAgain(env, env', e, r, key);
    } else {
      AskedAlike(env, env', e, r);
      AskedAlike(env, NoFaults(env), e, r);
      assert r.kind.TimeWindow? ==> !WithoutWindow(env, e, r).Hit?;
    }
  }

  lemma HitNeedsNoFault(env: Env, env': Env, e: Event, r: Rule, key: SlidingWindow.Key)
    requires SameAnswers(env, env') && env'.fault(r.id).NoFault? && env'.now(r.id) == env.now(r.id)
    requires Judge(env, e, r, key).1.Hit?
    ensures Judge(env', e, r, key) == Judge(env, e, r, key)
  {
  }

  /** Where a rule does not fail, the faults at hand do not matter. */
  lemma NotFailingIsFaultFree(env: Env, e: Event, r: Rule, key: SlidingWindow.Key)
    requires !Judge(env, e, r, key).1.Fails?
    ensures Judge(NoFaults(env), e, r, key) == Judge(env, e, r, key)
  {
  }

  /** The draft of rule `i` when the event is evaluated again, at any later time and without a fault.
      `j` is the first rule that failed at first, if any. If the rule had its turn, and its store call
      took effect, the draft is there again if and only if it was due at first and the rule does not
      spend its window. Otherwise the first evaluation makes no difference to the second. */
  lemma RetryYieldsDraftIff(env: Env, env': Env, e: Event, w: Windows, rules: seq<Rule>, i: nat, j: nat)
    requires DistinctIds(rules) && i < |rules| && FirstFailing(env, e, w, rules, j)
    requires SameAnswers(env, env') && env'.fault(rules[i].id).NoFault?
    ensures var r := rules[i]; var after := Run(env, e, w, rules).windows;
      if i < j || (i == j && env.fault(r.id).TakesEffect())
      then Alone(env', e, after, r).Hit? <==> Alone(NoFaults(env), e, w, r).Hit? && !Spends(r)
      else Alone(env', e, after, r) == Alone(env', e, w, r)
  {
    WindowAfterRun(env, e, w, rules, i, j);
    JudgedAgain(env, env', e, rules[i], KeyAt(w, WindowKey(rules[i].id, e.device)));
  }

  /** A failing rule loses the alarms of the others: the evaluation yields nothing, and the draft of a
      rule that was due comes with the next evaluation if and only if the rule comes after the failing
      one or does not spend its window. */
  lemma FailureSpendsWindow(env: Env, env': Env, e: Event, w: Windows, rules: seq<Rule>, i: nat, j: nat)
    requires DistinctIds(rules) && i < |rules| && j < |rules| && FirstFailing(env, e, w, rules, j)
    requires SameAnswers(env, env') && env'.fault(rules[i].id).NoFault? && env'.now(rules[i].id) == env.now(rules[i].id)
    requires Alone(env, e, w, rules[i]).Hit?
    ensures Run(env, e, w, rules).failed
    ensures Alone(env', e, Run(env, e, w, rules).windows, rules[i]).Hit? <==> i > j || !Spends(rules[i])
  {
    assert rules[j] in rules;
    RulesAreIndependent(env, e, w, rules);
    RetryYieldsDraftIff(env, env', e, w, rules, i, j);
    HitNeedsNoFault(env, env', e, rules[i], KeyAt(w, WindowKey(rules[i].id, e.device)));
    HitNeedsNoFault(env, NoFaults(env), e, rules[i], KeyAt(w, WindowKey(rules[i].id, e.device)));
  }

  // ----- The engine

  /** `table` is what the rule table lists at each time. The engine keeps a list for a while. */
  class Engine {
    const ttl: int
    var cached: seq<Rule>
    var cachedAt: int
    var cacheLoad: bool
    ghost var invalidatedAt: int

    ghost predicate Valid(table: int -> seq<Rule>)
      reads this
    {
      cacheLoad ==> cached == table(cachedAt) && invalidatedAt <= cachedAt
    }

    /** The list can be used without asking the table. */
    predicate Fresh(now: int)
      reads this
    {
      cacheLoad && ttl > 0 && now - cachedAt < ttl
    }

    /** The list that is used if one can be had. */
    function Current(table: int -> seq<Rule>, now: int): seq<Rule>
      reads this
    {
      if Fresh(now) then cached else table(now)
    }

    constructor (ttl: int, ghost table: int -> seq<Rule>, ghost now: int)
      ensures Valid(table) && invalidatedAt == now && this.ttl == ttl
    {
      this.ttl := ttl;
      cached, cachedAt, cacheLoad := [], 0, false;
      invalidatedAt := now;
    }

    /** Forget the list: no later evaluation uses rules listed before now. */
    method Invalidate(ghost table: int -> seq<Rule>, ghost now: int)
      requires Valid(table)
      modifies this
      ensures Valid(table) && !cacheLoad && invalidatedAt == now
    {
      cached, cachedAt, cacheLoad := [], 0, false;
      invalidatedAt := now;
    }

    /** The rules to use: as listed at most a ttl ago, and not before the last invalidation. It
        fails exactly if the table is needed and cannot be read, and then forgets nothing. */
    method Snapshot(table: int -> seq<Rule>, now: int, up: bool) returns (rules: seq<Rule>, ok: bool)
      requires Valid(table) && invalidatedAt <= now
      modifies this
      ensures Valid(table) && invalidatedAt == old(invalidatedAt)
      ensures ok ==> exists t :: t >= invalidatedAt && (t == now || now - t < ttl) && rules == table(t)
      ensures ok <==> up || old(cacheLoad && ttl > 0 && now - cachedAt < ttl)
      ensures ok ==> rules == if old(cacheLoad && ttl > 0 && now - cachedAt < ttl) then old(cached) else table(now)
      ensures ok && !old(cacheLoad && ttl > 0 && now - cachedAt < ttl) ==>
        cached == table(now) && cachedAt == now && cacheLoad
      ensures !ok ==> cached == old(cached) && cachedAt == old(cachedAt) && cacheLoad == old(cacheLoad)
      ensures ttl <= 0 && ok ==> up && rules == table(now)
    {
      if Fresh(now) {
        assert cached == table(cachedAt);
        return cached, true;
      }
      if !up {
        return cached, false;
      }
      cached, cachedAt, cacheLoad := table(now), now, true;
      assert cached == table(now);
      return cached, true;
    }

    /** Whether there are rules to evaluate; a table that cannot be read counts as empty. */
    method HasRules(table: int -> seq<Rule>, now: int, up: bool) returns (has: bool)
      requires Valid(table) && invalidatedAt <= now
      modifies this
      ensures Valid(table) && invalidatedAt == old(invalidatedAt)
      ensures has <==> (up || old(Fresh(now))) && old(Current(table, now)) != []
    {
      var rules, ok := Snapshot(table, now, up);
      has := ok && |rules| > 0;
    }

    /** The drafts that an event raises: those of each rule by itself, over rules that are recent. It
        fails if the rules cannot be read or if any of them fails. */
    method Evaluate(env: Env, e: Event, store: WindowStore, table: int -> seq<Rule>, now: int, up: bool)
      returns (drafts: seq<Draft>, ok: bool)
      requires Valid(table) && invalidatedAt <= now && forall t :: DistinctIds(table(t))
      modifies this, store
      ensures Valid(table) && invalidatedAt == old(invalidatedAt)
      ensures (exists t :: t >= invalidatedAt && (t == now || now - t < ttl)
                 && Evaluated(env, e, old(store.windows), table(t), store.windows, drafts, ok))
              || (!up && !old(Fresh(now)) && !ok && drafts == [] && store.windows == old(store.windows))
    {
      drafts := [];
      var rules;
      rules, ok := Snapshot(table, now, up);
      if !ok {
        return;
      }
      drafts, ok := store.RunRules(env, e, rules);
    }
  }

  /** The result of an evaluation: all or nothing, with what happens to the windows either way. */
  ghost predicate Evaluated(env: Env, e: Event, w: Windows, rules: seq<Rule>, w': Windows, drafts: seq<Draft>, ok: bool)
  {
    && (ok <==> !AnyFails(env, e, w, rules))
    && drafts == (if ok then Own(env, e, w, rules) else [])
    && w' == Run(env, e, w, rules).windows
  }

  lemma RunEvaluates(env: Env, e: Event, w: Windows, rules: seq<Rule>)
    requires DistinctIds(rules)
    ensures var s := Run(env, e, w, rules);
      Evaluated(env, e, w, rules, s.windows, if s.failed then [] else s.drafts, !s.failed)
  {
    RulesAreIndependent(env, e, w, rules);
  }

  /** The window counters in the store. */
  class WindowStore {
    var windows: Windows

    constructor ()
      ensures windows == map[]
    {
      windows := map[];
    }

    /** The rules one after the other, up to the first that fails; a failure drops all drafts. */
    method RunRules(env: Env, e: Event, rules: seq<Rule>) returns (drafts: seq<Draft>, ok: bool)
      requires DistinctIds(rules)
      modifies this
      ensures Evaluated(env, e, old(windows), rules, windows, drafts, ok)
    {
      drafts := [];
      ghost var w := windows;
      for n := 0 to |rules|
        invariant State(windows, drafts, false) == Run(env, e, w, rules[..n])
      {
        assert rules[..n + 1][..n] == rules[..n];
        var j := JudgeRule(env, e, rules[n]);
        if j.Fails? {
          FailureStays(env, e, w, rules, n + 1);
          RunEvaluates(env, e, w, rules);
          return [], false;
        }
        if j.Hit? {
          drafts := drafts + [Draft(rules[n].id, j.hits)];
        }
      }
      assert rules[..|rules|] == rules;
      RunEvaluates(env, e, w, rules);
      ok := true;
    }

    method JudgeRule(env: Env, e: Event, r: Rule) returns (j: Judgement)
      modifies this
      ensures j == Judge(env, e, r, KeyAt(old(windows), WindowKey(r.id, e.device))).1
      ensures forall drafts :: State(windows, if j.Hit? then drafts + [Draft(r.id, j.hits)] else drafts, j.Fails?)
                            == Step(env, e, State(old(windows), drafts, false), r)
    {
      var k := WindowKey(r.id, e.device);
      var key := KeyAt(windows, k);
      var (key', verdict) := Judge(env, e, r, key);
      if key' != key {
        windows := windows[k := key'];
      }
      j := verdict;
    }
  }
}
