/** The circuit breaker at the grain of its atomic loads, stores, additions and swaps. Any number of
    requests are handled at once: each asks, and one that is admitted is forwarded and then records
    its result, under the time at which it began.
  */
module BreakerRaces {
  import opened Options
  import opened Breaker

  /** The next atomic operation of a request; `Admitted` is one that is being forwarded. */
  datatype Pc =
    | AskLoad(now: int)
    | AskCheck(now: int)
    | AskSwap(now: int, seen: int)
    | WinZero
    | WinClose
    | LoseLoad(now: int)
    | LoseAdd(now: int)
    | LoseStamp(now: int)
    | LoseOpen
    | ProbeStamp(now: int)
    | ProbeOpen
    | Admitted(now: int)
    | Rejected
    | Finished
  {
    /** There is no operation to make. */
    predicate Rests() { Admitted? || Rejected? || Finished? }

    /** A call of `record` that has begun to write and has not ended. */
    predicate Recording() {
      WinClose? || LoseAdd? || LoseStamp? || LoseOpen? || ProbeStamp? || ProbeOpen?
    }
  }

  datatype World = World(s: State, calls: map<nat, Pc>)

  datatype Action = Begin(id: nat, now: int) | Step(id: nat) | Report(id: nat, success: bool)

  const INIT := World(INITIAL, map[])

  predicate Enabled(w: World, a: Action) {
    match a
    case Begin(id, _) => id !in w.calls
    case Step(id) => id in w.calls && !w.calls[id].Rests()
    case Report(id, _) => id in w.calls && w.calls[id].Admitted?
  }

  function Operation(s: State, pc: Pc): (State, Pc) {
    match pc
    case AskLoad(now) =>
      (s, match s.mode case Closed => Admitted(now) case Open => AskCheck(now) case HalfOpen => Rejected)
    case AskCheck(now) => (s, if now - s.openedAt >= COOLDOWN then AskSwap(now, s.openedAt) else Rejected)
    case AskSwap(now, _) => if s.mode.Open? then (s.(mode := HalfOpen), Admitted(now)) else (s, Rejected)
    case WinZero => (s.(failCount := 0), WinClose)
    case WinClose => (s.(mode := Closed), Finished)
    case LoseLoad(now) => (s, if s.mode.HalfOpen? then ProbeStamp(now) else LoseAdd(now))
    case LoseAdd(now) =>
      (s.(failCount := s.failCount + 1), if s.failCount + 1 >= THRESHOLD then LoseStamp(now) else Finished)
    case LoseStamp(now) => (s.(openedAt := now), LoseOpen)
    case LoseOpen => (s.(mode := Open), Finished)
    case ProbeStamp(now) => (s.(openedAt := now), ProbeOpen)
    case ProbeOpen => (s.(mode := Open), Finished)
    case _ => (s, pc)
  }

  function Apply(w: World, a: Action): World
    requires Enabled(w, a)
  {
    match a
    case Begin(id, now) => w.(calls := w.calls[id := AskLoad(now)])
    case Report(id, success) => w.(calls := w.calls[id := if success then WinZero else LoseLoad(w.calls[id].now)])
    case Step(id) =>
      var (s, pc) := Operation(w.s, w.calls[id]);
      World(s, w.calls[id := pc])
  }

  ghost function Exec(w: World, run: seq<Action>): Option<World> {
    if run == [] then Some(w)
    else
      var last := |run| - 1;
      match Exec(w, run[..last])
      case None => None
      case Some(u) => if Enabled(u, run[last]) then Some(Apply(u, run[last])) else None
  }

  // ----- A call that runs alone

  /** The state and the verdict of a call none of whose operations is interrupted. */
  function Alone(s: State, pc: Pc, fuel: nat): (State, Pc)
    decreases fuel
  {
    if pc.Rests() || fuel == 0 then (s, pc) else var (s', pc') := Operation(s, pc); Alone(s', pc', fuel - 1)
  }

  /** Uninterrupted calls are the atomic `Allow` and `Record`. */
  lemma AloneIsAtomic(s: State, now: int)
    ensures Alone(s, AskLoad(now), 4) == (Allow(s, now).0, if Allow(s, now).1 then Admitted(now) else Rejected)
    ensures Alone(s, WinZero, 4) == (Record(s, true, now), Finished)
    ensures Alone(s, LoseLoad(now), 4) == (Record(s, false, now), Finished)
  {
  }

  // ----- What survives any interleaving of asks

  /** A probe about to be swapped in saw a cooldown that was over. */
  ghost predicate SwapsSeen(w: World) {
    forall id :: id in w.calls && w.calls[id].AskSwap? ==> w.calls[id].now - w.calls[id].seen >= COOLDOWN
  }

  lemma {:induction false} SwapsSawCooldownOver(run: seq<Action>)
    requires Exec(INIT, run).Some?
    ensures SwapsSeen(Exec(INIT, run).value)
  {
    if run != [] {
      SwapsSawCooldownOver(run[..|run| - 1]);
    }
  }

  /** A probe respects the cooldown unless `openedAt` was overwritten between the check and the
      swap. */
  lemma ProbeRespectsCooldownUnlessOverwritten(run: seq<Action>, id: nat)
    requires Exec(INIT, run).Some?
    requires var w := Exec(INIT, run).value; id in w.calls && w.calls[id].AskSwap? && w.calls[id].seen == w.s.openedAt
    ensures var w := Exec(INIT, run).value; w.calls[id].now - w.s.openedAt >= COOLDOWN
  {
    SwapsSawCooldownOver(run);
  }

  /** Calls of `record` do not overlap: none begins to write while another has not ended. */
  ghost predicate SerialRecords(w: World) {
    forall i, j :: i in w.calls && j in w.calls && w.calls[i].Recording() && w.calls[j].Recording() ==> i == j
  }

  ghost predicate SerialRun(run: seq<Action>) {
    forall n :: 0 <= n <= |run| && Exec(INIT, run[..n]).Some? ==> SerialRecords(Exec(INIT, run[..n]).value)
  }

  /** What the position of a record says of the fields. */
  ghost predicate Agrees(s: State, pc: Pc) {
    match pc
    case WinClose => s.failCount == 0
    case LoseAdd(_) => s.mode.Closed? <==> s.failCount < THRESHOLD
    case LoseStamp(_) => s.failCount >= THRESHOLD
    case LoseOpen => s.failCount >= THRESHOLD
    case ProbeStamp(_) => s.failCount >= THRESHOLD && !s.mode.Closed?
    case ProbeOpen => s.failCount >= THRESHOLD && !s.mode.Closed?
    case _ => true
  }

  ghost predicate NoRecord(w: World) {
    forall id :: id in w.calls ==> !w.calls[id].Recording()
  }

  ghost predicate FieldsAgree(w: World) {
    && (forall id :: id in w.calls ==> Agrees(w.s, w.calls[id]))
    && (NoRecord(w) ==> (w.s.mode.Closed? <==> w.s.failCount < THRESHOLD))
  }

  /** A step of a call that is not recording, and does not begin to, keeps the agreement. */
  lemma AskKeepsAgreement(w: World, id: nat)
    requires FieldsAgree(w) && Enabled(w, Step(id))
    requires !w.calls[id].Recording() && !Apply(w, Step(id)).calls[id].Recording()
    ensures FieldsAgree(Apply(w, Step(id)))
  {
    var w' := Apply(w, Step(id));
    forall n | n in w'.calls ensures Agrees(w'.s, w'.calls[n]) {
      assert n != id ==> Agrees(w.s, w.calls[n]);
    }
    if NoRecord(w') {
      forall n | n in w.calls ensures !w.calls[n].Recording() {
        assert n != id ==> w'.calls[n] == w.calls[n];
      }
    }
  }

  /** A step of the only recording call keeps the agreement. */
  lemma RecordKeepsAgreement(w: World, id: nat)
    requires FieldsAgree(w) && Enabled(w, Step(id))
    requires forall n :: n in w.calls && n != id ==> !w.calls[n].Recording()
    ensures FieldsAgree(Apply(w, Step(id)))
  {
    var w' := Apply(w, Step(id));
    assert Agrees(w.s, w.calls[id]);
    assert !w.calls[id].Recording() ==> NoRecord(w);
    forall n | n in w'.calls ensures Agrees(w'.s, w'.calls[n]) {
      if n != id {
        assert w'.calls[n] == w.calls[n];
      }
    }
    if NoRecord(w') {
      assert !w'.calls[id].Recording();
    }
  }

  lemma StepKeepsAgreement(w: World, a: Action)
    requires FieldsAgree(w) && SerialRecords(w) && Enabled(w, a) && SerialRecords(Apply(w, a))
    ensures FieldsAgree(Apply(w, a))
  {
    var w' := Apply(w, a);
    match a
    case Begin(id, _) =>
      if NoRecord(w') {
        forall n | n in w.calls ensures !w.calls[n].Recording() {
          assert w'.calls[n] == w.calls[n];
        }
      }
    case Report(id, _) =>
      if NoRecord(w') {
        forall n | n in w.calls ensures !w.calls[n].Recording() {
          assert n != id ==> w'.calls[n] == w.calls[n];
        }
      }
    case Step(id) =>
      if w.calls[id].Recording() {
        RecordKeepsAgreement(w, id);
      } else if w'.calls[id].Recording() {
        forall n | n in w.calls && n != id ensures !w.calls[n].Recording() {
          assert w'.calls[n] == w.calls[n];
        }
        RecordKeepsAgreement(w, id);
      } else {
        AskKeepsAgreement(w, id);
      }
  }

  /** If records do not overlap, then however asks interleave with them the breaker is closed
      exactly when fewer than five failures are counted, as soon as no record is under way. */
  lemma {:induction false} SerialRecordsAgree(run: seq<Action>)
    requires Exec(INIT, run).Some? && SerialRun(run)
    ensures FieldsAgree(Exec(INIT, run).value)
  {
    if run != [] {
      var front := run[..|run| - 1];
      assert SerialRun(front) by {
        forall n | 0 <= n <= |front| && Exec(INIT, front[..n]).Some?
          ensures SerialRecords(Exec(INIT, front[..n]).value)
        {
          assert front[..n] == run[..n];
        }
      }
      SerialRecordsAgree(front);
      assert run[..|run|] == run && front[..|front|] == front;
      StepKeepsAgreement(Exec(INIT, front).value, run[|run| - 1]);
    }
  }

  // ----- What any interleaving keeps

  /** The operation that an action makes, if it is a step. */
  function Operating(w: World, a: Action): Option<Pc> {
    if a.Step? && a.id in w.calls then Some(w.calls[a.id]) else None
  }

  /** The latest store of the mode: closed or open, and whether fewer than five failures were counted
      then. At first the breaker is closed and there are none. */
  datatype Store = Store(closed: bool, low: bool) {
    predicate Fits() { closed <==> low }
  }

  ghost function LatestStore(run: seq<Action>): Store {
    if run == [] then Store(true, true)
    else
      var front, a := run[..|run| - 1], run[|run| - 1];
      var w := Exec(INIT, front);
      var pc := if w.Some? then Operating(w.value, a) else None;
      if pc == Some(WinClose) then Store(true, w.value.s.failCount < THRESHOLD)
      else if pc == Some(LoseOpen) || pc == Some(ProbeOpen) then Store(false, w.value.s.failCount < THRESHOLD)
      else LatestStore(front)
  }

  /** Where the count has crossed the threshold since the latest store, a call is about to store again. */
  ghost predicate StoreTold(w: World, last: Store) {
    && (w.s.mode.Closed? <==> last.closed)
    && (last.low && w.s.failCount >= THRESHOLD ==> exists id :: id in w.calls && Opening(w.calls[id]))
    && (!last.low && w.s.failCount < THRESHOLD ==> exists id :: id in w.calls && w.calls[id].WinClose?)
  }

  predicate Opening(pc: Pc) { pc.LoseStamp? || pc.LoseOpen? }

  lemma OthersStay(w: World, w': World, id: nat)
    requires w'.calls.Keys == w.calls.Keys + {id} && forall n :: n in w.calls && n != id ==> w'.calls[n] == w.calls[n]
    requires id in w.calls ==> !Opening(w.calls[id]) || Opening(w'.calls[id])
    requires id in w.calls ==> !w.calls[id].WinClose?
    ensures (exists n :: n in w.calls && Opening(w.calls[n])) ==> exists n :: n in w'.calls && Opening(w'.calls[n])
    ensures (exists n :: n in w.calls && w.calls[n].WinClose?) ==> exists n :: n in w'.calls && w'.calls[n].WinClose?
  {
    if n :| n in w.calls && Opening(w.calls[n]) {
      assert n in w'.calls && Opening(w'.calls[n]);
    }
    if n :| n in w.calls && w.calls[n].WinClose? {
      assert n in w'.calls && w'.calls[n].WinClose?;
    }
  }

  lemma {:induction false} StoreIsTold(run: seq<Action>)
    requires Exec(INIT, run).Some?
    ensures StoreTold(Exec(INIT, run).value, LatestStore(run))
  {
    if run != [] {
      var front, a := run[..|run| - 1], run[|run| - 1];
      StoreIsTold(front);
      var w := Exec(INIT, front).value;
      var w' := Apply(w, a);
      var pc := Operating(w, a);
      if pc == Some(WinClose) || pc == Some(LoseOpen) || pc == Some(ProbeOpen) {
        assert w'.s.failCount == w.s.failCount;
      } else {
        OthersStay(w, w', a.id);
      }
    }
  }

  /** Exactly when mode and count agree, in every interleaving of any calls, as soon as no record is
      under way: if and only if the latest store of the mode fitted the count, that is, closed it with
      fewer than five failures counted or opened it with five. */
  lemma AgreeIffLatestStoreFits(run: seq<Action>)
    requires Exec(INIT, run).Some? && NoRecord(Exec(INIT, run).value)
    ensures var s := Exec(INIT, run).value.s;
      (s.mode.Closed? <==> s.failCount < THRESHOLD) <==> LatestStore(run).Fits()
  {
    StoreIsTold(run);
  }

  /** The time of the last stamp since call `id` checked the cooldown. */
  ghost function StampedSince(run: seq<Action>, id: nat): Option<int> {
    if run == [] then None
    else
      var front, a := run[..|run| - 1], run[|run| - 1];
      var w := Exec(INIT, front);
      var pc := if w.Some? then Operating(w.value, a) else None;
      match pc
      case Some(LoseStamp(t)) => Some(t)
      case Some(ProbeStamp(t)) => Some(t)
      case Some(AskCheck(_)) => if a.id == id then None else StampedSince(front, id)
      case _ => StampedSince(front, id)
  }

  lemma {:induction false} StampsTold(run: seq<Action>, id: nat)
    requires Exec(INIT, run).Some? && id in Exec(INIT, run).value.calls && Exec(INIT, run).value.calls[id].AskSwap?
    ensures var w := Exec(INIT, run).value;
      w.s.openedAt == match StampedSince(run, id) case None => w.calls[id].seen case Some(t) => t
  {
    if run != [] {
      var front, a := run[..|run| - 1], run[|run| - 1];
      var w := Exec(INIT, front).value;
      if id in w.calls && w.calls[id].AskSwap? {
        StampsTold(front, id);
      }
    }
  }

  /** Exactly when the swap of an open breaker lets a request through before the cooldown is over, in
      every interleaving: a failure was stamped since its check, less than a cooldown before it began. */
  lemma ProbeBreaksCooldownIffStamped(run: seq<Action>, id: nat)
    requires Exec(INIT, run).Some?
    requires var w := Exec(INIT, run).value; id in w.calls && w.calls[id].AskSwap? && w.s.mode.Open?
    ensures var w := Exec(INIT, run).value;
      && Enabled(w, Step(id)) && Apply(w, Step(id)).calls[id].Admitted?
      && (w.calls[id].now - w.s.openedAt < COOLDOWN <==>
            StampedSince(run, id).Some? && w.calls[id].now - StampedSince(run, id).value < COOLDOWN)
  {
    SwapsSawCooldownOver(run);
    StampsTold(run, id);
  }

  // ----- What does not

  lemma Next(run: seq<Action>, w: World, a: Action) returns (run': seq<Action>, w': World)
    requires Exec(INIT, run) == Some(w) && Enabled(w, a)
    ensures w' == Apply(w, a) && Exec(INIT, run') == Some(w')
  {
    run' := run + [a];
    w' := Apply(w, a);
    assert run'[..|run|] == run;
  }

  /** One operation of call `id`, the others being as in `others`. */
  lemma Move(run: seq<Action>, s: State, others: map<nat, Pc>, id: nat, pc: Pc) returns (run': seq<Action>)
    requires Exec(INIT, run) == Some(World(s, others[id := pc])) && !pc.Rests()
    ensures Exec(INIT, run') == Some(World(Operation(s, pc).0, others[id := Operation(s, pc).1]))
  {
    var w;
    run', w := Next(run, World(s, others[id := pc]), Step(id));
    assert others[id := pc][id := Operation(s, pc).1] == others[id := Operation(s, pc).1];
  }

  /** A request asks while the breaker is closed. */
  lemma Ask(run: seq<Action>, w: World, id: nat, now: int) returns (run': seq<Action>)
    requires Exec(INIT, run) == Some(w) && id !in w.calls && w.s.mode.Closed?
    ensures Exec(INIT, run') == Some(World(w.s, w.calls[id := Admitted(now)]))
  {
    var w';
    run', w' := Next(run, w, Begin(id, now));
    run' := Move(run', w.s, w.calls, id, AskLoad(now));
  }

  /** An admitted request begins to record its result. */
  lemma Tell(run: seq<Action>, s: State, others: map<nat, Pc>, id: nat, now: int, success: bool)
    returns (run': seq<Action>)
    requires Exec(INIT, run) == Some(World(s, others[id := Admitted(now)]))
    ensures Exec(INIT, run') == Some(World(s, others[id := if success then WinZero else LoseLoad(now)]))
  {
    var first := if success then WinZero else LoseLoad(now);
    var w';
    run', w' := Next(run, World(s, others[id := Admitted(now)]), Report(id, success));
    assert others[id := Admitted(now)][id := first] == others[id := first];
  }

  /** A request is admitted by the closed breaker, fails and begins to record it, at time 0. */
  lemma AskAndLose(run: seq<Action>, w: World, id: nat) returns (run': seq<Action>)
    requires Exec(INIT, run) == Some(w) && id !in w.calls && w.s.mode.Closed?
    ensures Exec(INIT, run') == Some(World(w.s, w.calls[id := LoseAdd(0)]))
  {
    run' := Ask(run, w, id, 0);
    run' := Tell(run', w.s, w.calls, id, 0, false);
    run' := Move(run', w.s, w.calls, id, LoseLoad(0));
  }

  /** One more counted failure, below the threshold. */
  lemma Fail(run: seq<Action>, w: World, id: nat) returns (run': seq<Action>, w': World)
    requires Exec(INIT, run) == Some(w) && id !in w.calls && w.s.mode.Closed? && w.s.failCount + 1 < THRESHOLD
    ensures Exec(INIT, run') == Some(w')
    ensures w' == World(w.s.(failCount := w.s.failCount + 1), w.calls[id := Finished])
  {
    run' := AskAndLose(run, w, id);
    run' := Move(run', w.s, w.calls, id, LoseAdd(0));
    w' := World(w.s.(failCount := w.s.failCount + 1), w.calls[id := Finished]);
  }

  /** The failure that trips the breaker, at time 0. */
  lemma Trip(run: seq<Action>, w: World, id: nat) returns (run': seq<Action>, w': World)
    requires Exec(INIT, run) == Some(w) && id !in w.calls && w.s.mode.Closed? && w.s.failCount + 1 == THRESHOLD
    ensures Exec(INIT, run') == Some(w')
    ensures w' == World(State(Open, THRESHOLD, 0), w.calls[id := Finished])
  {
    run' := AskAndLose(run, w, id);
    run' := Move(run', w.s, w.calls, id, LoseAdd(0));
    var s := w.s.(failCount := THRESHOLD);
    run' := Move(run', s, w.calls, id, LoseStamp(0));
    run' := Move(run', s.(openedAt := 0), w.calls, id, LoseOpen);
    w' := World(State(Open, THRESHOLD, 0), w.calls[id := Finished]);
  }

  /** Requests 1 to 4 fail one after the other. */
  lemma FourFailures(run: seq<Action>, w: World) returns (run': seq<Action>, w': World)
    requires Exec(INIT, run) == Some(w) && w.s == INITIAL && forall id :: 1 <= id <= 4 ==> id !in w.calls
    ensures Exec(INIT, run') == Some(w')
    ensures w' == World(INITIAL.(failCount := 4),
                        w.calls + map[1 := Finished, 2 := Finished, 3 := Finished, 4 := Finished])
  {
    run', w' := Fail(run, w, 1);
    run', w' := Fail(run', w', 2);
    run', w' := Fail(run', w', 3);
    run', w' := Fail(run', w', 4);
  }

  /** Requests 1 to 5 fail one after the other. */
  lemma FiveFailures(run: seq<Action>, w: World) returns (run': seq<Action>, w': World)
    requires Exec(INIT, run) == Some(w) && w.s == INITIAL && forall id :: 1 <= id <= 5 ==> id !in w.calls
    ensures Exec(INIT, run') == Some(w')
    ensures w' == World(State(Open, THRESHOLD, 0),
                        w.calls + map[1 := Finished, 2 := Finished, 3 := Finished, 4 := Finished, 5 := Finished])
  {
    run', w' := FourFailures(run, w);
    run', w' := Trip(run', w', 5);
    assert w'.calls == w.calls + map[1 := Finished, 2 := Finished, 3 := Finished, 4 := Finished, 5 := Finished];
  }

  /** A success that overlaps five failures closes the breaker they have just tripped: it ends
      closed with five failures counted. */
  lemma OverlapClosesWithFiveFailures() returns (run: seq<Action>, w: World)
    ensures Exec(INIT, run) == Some(w)
    ensures w.s.mode.Closed? && w.s.failCount == THRESHOLD
    ensures forall id :: id in w.calls ==> !w.calls[id].Recording()
  {
    run := Ask([], INIT, 0, 0);
    run := Tell(run, INITIAL, map[], 0, 0, true);
    run := Move(run, INITIAL, map[], 0, WinZero);
    run, w := FiveFailures(run, World(INITIAL, map[0 := WinClose]));
    run, w := Next(run, w, Step(0));
  }

  /** A failure reaches the threshold, a success closes the breaker and clears the count, and then the
      failure opens it: it ends open with no failure counted. */
  lemma OverlapOpensWithoutFailures() returns (run: seq<Action>, w: World)
    ensures Exec(INIT, run) == Some(w)
    ensures w.s.mode.Open? && w.s.failCount == 0
    ensures forall id :: id in w.calls ==> !w.calls[id].Recording()
  {
    run, w := FourFailures([], INIT);
    var s, done := w.s.(failCount := THRESHOLD), w.calls;
    run := AskAndLose(run, w, 5);
    run := Move(run, w.s, done, 5, LoseAdd(0));
    run := Ask(run, World(s, done[5 := LoseStamp(0)]), 0, 0);
    run := SuccessInBetween(run, s, done[5 := LoseStamp(0)]);
    var others := done[0 := Finished];
    assert done[5 := LoseStamp(0)][0 := Finished] == others[5 := LoseStamp(0)];
    run := OpensLate(run, State(Closed, 0, 0), others);
    w := World(State(Open, 0, 0), others[5 := Finished]);
  }

  lemma OpensLate(run: seq<Action>, s: State, others: map<nat, Pc>) returns (run': seq<Action>)
    requires Exec(INIT, run) == Some(World(s, others[5 := LoseStamp(0)]))
    ensures Exec(INIT, run') == Some(World(s.(openedAt := 0, mode := Open), others[5 := Finished]))
  {
    run' := Move(run, s, others, 5, LoseStamp(0));
    run' := Move(run', s.(openedAt := 0), others, 5, LoseOpen);
  }

  lemma SuccessInBetween(run: seq<Action>, s: State, calls: map<nat, Pc>) returns (run': seq<Action>)
    requires Exec(INIT, run) == Some(World(s, calls[0 := Admitted(0)]))
    ensures Exec(INIT, run') == Some(World(s.(failCount := 0, mode := Closed), calls[0 := Finished]))
  {
    run' := Tell(run, s, calls, 0, 0, true);
    run' := Move(run', s, calls, 0, WinZero);
    run' := Move(run', s.(failCount := 0), calls, 0, WinClose);
  }

  /** Two requests see the cooldown over. One probes and fails, which starts a new cooldown; the
      other then swaps the open breaker to half-open and is let through in the middle of it. */
  lemma StaleCheckAdmitsDuringCooldown() returns (run: seq<Action>, w: World, id: nat, now: int)
    ensures Exec(INIT, run) == Some(w)
    ensures id in w.calls && w.calls[id] == AskSwap(now, 0) && Enabled(w, Step(id))
    ensures w.s.mode.Open? && now - w.s.openedAt < COOLDOWN
    ensures Apply(w, Step(id)).calls[id].Admitted?
  {
    id, now := 6, COOLDOWN;
    run, w := [], INIT;
    run, w := FiveFailures(run, w);
    run, w := Next(run, w, Begin(6, COOLDOWN));
    run, w := Next(run, w, Step(6));
    run, w := Next(run, w, Step(6));
    run, w := ProbeFails(run, w);
  }

  /** Request 7 probes at the end of the cooldown and fails. */
  lemma ProbeFails(run: seq<Action>, w: World) returns (run': seq<Action>, w': World)
    requires Exec(INIT, run) == Some(w) && w.s == State(Open, THRESHOLD, 0) && 7 !in w.calls
    ensures Exec(INIT, run') == Some(w') && w' == World(State(Open, THRESHOLD, COOLDOWN), w.calls[7 := Finished])
  {
    run' := Probe(run, w);
    run' := LoseProbe(run', w.calls);
    w' := World(State(Open, THRESHOLD, COOLDOWN), w.calls[7 := Finished]);
  }

  lemma Probe(run: seq<Action>, w: World) returns (run': seq<Action>)
    requires Exec(INIT, run) == Some(w) && w.s == State(Open, THRESHOLD, 0) && 7 !in w.calls
    ensures Exec(INIT, run') == Some(World(State(HalfOpen, THRESHOLD, 0), w.calls[7 := Admitted(COOLDOWN)]))
  {
    var w';
    run', w' := Next(run, w, Begin(7, COOLDOWN));
    run' := Move(run', w.s, w.calls, 7, AskLoad(COOLDOWN));
    run' := Move(run', w.s, w.calls, 7, AskCheck(COOLDOWN));
    run' := Move(run', w.s, w.calls, 7, AskSwap(COOLDOWN, 0));
  }

  lemma LoseProbe(run: seq<Action>, others: map<nat, Pc>) returns (run': seq<Action>)
    requires Exec(INIT, run) == Some(World(State(HalfOpen, THRESHOLD, 0), others[7 := Admitted(COOLDOWN)]))
    ensures Exec(INIT, run') == Some(World(State(Open, THRESHOLD, COOLDOWN), others[7 := Finished]))
  {
    var s := State(HalfOpen, THRESHOLD, 0);
    run' := Tell(run, s, others, 7, COOLDOWN, false);
    run' := Move(run', s, others, 7, LoseLoad(COOLDOWN));
    run' := Move(run', s, others, 7, ProbeStamp(COOLDOWN));
    run' := Move(run', s.(openedAt := COOLDOWN), others, 7, ProbeOpen);
  }
}
