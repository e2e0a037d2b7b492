/** The circuit breaker of one upstream route, with `allow` and `record` as atomic steps. Its
    three fields are compared with a description that only looks at the history of calls.
  */
module Breaker {

  const THRESHOLD: int := 5

  /** Ten seconds, in nanoseconds. */
  const COOLDOWN: int := 10_000_000_000

  datatype Mode = Closed | Open | HalfOpen

  datatype State = State(mode: Mode, failCount: int, openedAt: int)

  const INITIAL := State(Closed, 0, 0)

  function Allow(s: State, now: int): (r: (State, bool)) {
    match s.mode
    case Closed => (s, true)
    case Open => if now - s.openedAt >= COOLDOWN then (s.(mode := HalfOpen), true) else (s, false)
    case HalfOpen => (s, false)
  }

  function Record(s: State, success: bool, now: int): State {
    if success then State(Closed, 0, s.openedAt)
    else if s.mode.HalfOpen? then s.(mode := Open, openedAt := now)
    else if s.failCount + 1 >= THRESHOLD then State(Open, s.failCount + 1, now)
    else s.(failCount := s.failCount + 1)
  }

  // ----- The history

  datatype Call = Asked(now: int) | Recorded(success: bool, now: int)

  function Front(h: seq<Call>): seq<Call>
    requires h != []
  {
    h[..|h| - 1]
  }

  function Last(h: seq<Call>): Call
    requires h != []
  {
    h[|h| - 1]
  }

  /** The failures recorded since the last success. */
  function Failures(h: seq<Call>): nat {
    if h == [] then 0
    else match Last(h)
      case Asked(_) => Failures(Front(h))
      case Recorded(success, _) => if success then 0 else Failures(Front(h)) + 1
  }

  predicate Tripped(h: seq<Call>) { Failures(h) >= THRESHOLD }

  /** The time that came with the latest failure; 0 without one. */
  function LatestFailure(h: seq<Call>): int {
    if h == [] then 0
    else match Last(h)
      case Recorded(false, now) => now
      case _ => LatestFailure(Front(h))
  }

  /** A probe was let through since the latest recorded result. */
  predicate Probing(h: seq<Call>) {
    h != [] &&
    match Last(h)
    case Recorded(_, _) => false
    case Asked(now) => Probing(Front(h)) || (Tripped(h) && now - LatestFailure(h) >= COOLDOWN)
  }

  /** Whether a request that asks now is let through. */
  predicate Admits(h: seq<Call>, now: int) {
    !Tripped(h) || (!Probing(h) && now - LatestFailure(h) >= COOLDOWN)
  }

  function StateAfter(h: seq<Call>): State {
    if h == [] then INITIAL
    else match Last(h)
      case Asked(now) => Allow(StateAfter(Front(h)), now).0
      case Recorded(success, now) => Record(StateAfter(Front(h)), success, now)
  }

  /** The fields as functions of the history: closed exactly with fewer than five failures since
      the last success, half-open exactly while a probe is out, opened at the latest failure. */
  ghost predicate Describes(h: seq<Call>, s: State) {
    && (s.mode.Closed? <==> !Tripped(h))
    && (s.mode.HalfOpen? <==> Tripped(h) && Probing(h))
    && (s.failCount >= THRESHOLD <==> Tripped(h))
    && (!Tripped(h) ==> s.failCount == Failures(h))
    && (Tripped(h) ==> s.openedAt == LatestFailure(h))
  }

  lemma {:induction false} HistoryDescribesState(h: seq<Call>)
    ensures Describes(h, StateAfter(h))
  {
    if h != [] {
      HistoryDescribesState(Front(h));
      var before := StateAfter(Front(h));
      match Last(h)
      case Asked(now) =>
        assert Failures(h) == Failures(Front(h)) && LatestFailure(h) == LatestFailure(Front(h));
        assert before.mode.Closed? ==> !Probing(h) || !Tripped(h);
      case Recorded(success, now) =>
        assert !Probing(h);
    }
  }

  /** Exactly when a request is let through. */
  lemma AllowsIffAdmitted(h: seq<Call>, now: int)
    ensures Allow(StateAfter(h), now).1 <==> Admits(h, now)
  {
    HistoryDescribesState(h);
  }

  /** The same in numbers: five failures and ten seconds. */
  lemma AdmissionInNumbers(h: seq<Call>, now: int)
    ensures Allow(StateAfter(h), now).1 <==>
      Failures(h) < 5 || (!Probing(h) && now - LatestFailure(h) >= 10_000_000_000)
  {
    AllowsIffAdmitted(h, now);
  }

  /** The two redundant fields agree: not closed exactly when five failures are counted. */
  lemma NotClosedIffFiveFailures(h: seq<Call>)
    ensures !StateAfter(h).mode.Closed? <==> StateAfter(h).failCount >= THRESHOLD
    ensures !StateAfter(h).mode.Closed? <==> Failures(h) >= THRESHOLD
  {
    HistoryDescribesState(h);
  }

  /** While a probe is out nobody else is let through, however many ask and whenever. */
  lemma {:induction false} OneProbeOnly(h: seq<Call>, probe: int, more: seq<int>, now: int)
    requires Tripped(h) && Admits(h, probe)
    ensures !Admits(h + [Asked(probe)] + Asks(more), now)
    decreases |more|
  {
    var asked := h + [Asked(probe)];
    assert Front(asked) == h;
    assert LatestFailure(asked) == LatestFailure(h) && Tripped(asked) && Probing(asked);
    AsksKeepProbing(asked, more);
  }

  function Asks(times: seq<int>): seq<Call> {
    seq(|times|, i requires 0 <= i < |times| => Asked(times[i]))
  }

  lemma {:induction false} AsksKeepProbing(h: seq<Call>, more: seq<int>)
    requires Tripped(h) && Probing(h)
    ensures Tripped(h + Asks(more)) && Probing(h + Asks(more))
  {
    if more == [] {
      assert h + Asks(more) == h;
    } else {
      var front := more[..|more| - 1];
      AsksKeepProbing(h, front);
      assert Front(h + Asks(more)) == h + Asks(front);
    }
  }

  /** The time of a result is that of the start of the request. So a trip at wall-clock time
      `end` by a request that began at `start` turns the next request at `end` away if and only
      if the failing request took less than the cooldown. */
  lemma TripRejectsIffRequestWasShort(h: seq<Call>, start: int, end: int)
    requires Failures(h) + 1 >= THRESHOLD
    ensures !Admits(h + [Recorded(false, start)], end) <==> end - start < COOLDOWN
  {
    var tripped := h + [Recorded(false, start)];
    assert Front(tripped) == h;
  }

  // ----- The object

  class CircuitBreaker {
    var state: Mode
    var failCount: int
    var openedAt: int
    ghost var history: seq<Call>

    ghost function View(): State
      reads this
    {
      State(state, failCount, openedAt)
    }

    ghost predicate Valid()
      reads this
    {
      View() == StateAfter(history)
    }

    constructor ()
      ensures Valid() && history == []
    {
      state, failCount, openedAt := Closed, 0, 0;
      history := [];
    }

    method Allow(now: int) returns (ok: bool)
      requires Valid()
      modifies this
      ensures Valid() && history == old(history) + [Asked(now)]
      ensures ok <==> Admits(old(history), now)
    {
      AllowsIffAdmitted(history, now);
      history := history + [Asked(now)];
      assert Front(history) == old(history);
      match state {
        case Closed => return true;
        case Open =>
          if now - openedAt >= COOLDOWN {
            state := HalfOpen;
            return true;
          }
          return false;
        case HalfOpen => return false;
      }
    }

    method Record(success: bool, now: int)
      requires Valid()
      modifies this
      ensures Valid() && history == old(history) + [Recorded(success, now)]
    {
      history := history + [Recorded(success, now)];
      assert Front(history) == old(history);
      if success {
        failCount, state := 0, Closed;
        return;
      }
      if state == HalfOpen {
        openedAt, state := now, Open;
        return;
      }
      failCount := failCount + 1;
      if failCount >= THRESHOLD {
        openedAt, state := now, Open;
      }
    }

    /** One request: turned away, or forwarded and its status recorded under its start time. A
        missing status counts as a failure. */
    method Handle(now: int, status: int) returns (forwarded: bool)
      requires Valid()
      modifies this
      ensures Valid() && (forwarded <==> Admits(old(history), now))
      ensures history == old(history) + [Asked(now)]
        + if forwarded then [Recorded(0 < status < 500, now)] else []
    {
      forwarded := Allow(now);
      if forwarded {
        Record(0 < status < 500, now);
      }
    }
  }
}
