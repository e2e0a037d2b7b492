/** The sliding-window counter of a time-window rule: a sorted set that is trimmed, extended,
    counted and, when it reaches the threshold, deleted in one atomic script. It is compared with
    the plain list of all events.
  */
module SlidingWindow {

  /** Milliseconds, except for the threshold. */
  datatype Config = Config(window: int, ttl: int, threshold: int) {
    predicate Valid() { 0 < window < ttl && threshold >= 1 }
  }

  /** The window of a rule: the condition's own, else the rule's column, else a minute; the key
      lives a minute longer. A threshold below one counts as one. */
  function RuleConfig(specSec: int, ruleSec: int, threshold: int): (c: Config)
    ensures c.Valid()
    ensures specSec > 0 ==> c.window == specSec * 1000
    ensures specSec <= 0 && ruleSec > 0 ==> c.window == ruleSec * 1000
    ensures specSec <= 0 && ruleSec <= 0 ==> c.window == 60_000
    ensures threshold >= 1 ==> c.threshold == threshold
    ensures threshold < 1 ==> c.threshold == 1
    ensures c.ttl == c.window + 60_000
  {
    var sec := if specSec > 0 then specSec else ruleSec;
    var window := if sec > 0 then sec * 1000 else 60_000;
    Config(window, window + 60_000, if threshold <= 0 then 1 else threshold)
  }

  datatype Key = Absent | ZSet(scores: map<string, int>, expireAt: int)

  function Scores(k: Key, now: int): map<string, int> {
    if k.ZSet? && now < k.expireAt then k.scores else map[]
  }

  /** What the script leaves in the sorted set before it counts. */
  function Trimmed(c: Config, k: Key, now: int, member: string): map<string, int> {
    (map x | x in Scores(k, now) && Scores(k, now)[x] > now - c.window :: Scores(k, now)[x])[member := now]
  }

  /** One run of the script; the second part is its reply, 0 for "not reached". */
  function Script(c: Config, k: Key, now: int, member: string): (r: (Key, nat)) {
    var scores := Trimmed(c, k, now, member);
    if |scores| >= c.threshold then (Absent, |scores|) else (ZSet(scores, now + c.ttl), 0)
  }

  // ----- The list of all events

  datatype Event = Event(time: int, member: string)

  predicate Ordered(events: seq<Event>) {
    forall i, j :: 0 <= i <= j < |events| ==> events[i].time <= events[j].time
  }

  function Last(events: seq<Event>): Event
    requires events != []
  {
    events[|events| - 1]
  }

  function Front(events: seq<Event>): seq<Event>
    requires events != []
  {
    events[..|events| - 1]
  }

  /** The distinct members of the events from `start` on that are newer than the window. */
  function Members(c: Config, events: seq<Event>, start: nat): set<string>
    requires events != []
  {
    set i | start <= i < |events| && events[i].time > Last(events).time - c.window :: events[i].member
  }

  /** Where the events that the last one may count begin: after the previous trigger. */
  function Start(c: Config, events: seq<Event>): (s: nat)
    requires events != []
    ensures s < |events|
    decreases |events|, 0
  {
    if |events| == 1 then 0
    else if Fires(c, Front(events)) then |events| - 1
    else Start(c, Front(events))
  }

  predicate Fires(c: Config, events: seq<Event>)
    requires events != []
    decreases |events|, 1
  {
    |Members(c, events, Start(c, events))| >= c.threshold
  }

  /** Where the events that the next one may count begin. */
  function NextStart(c: Config, events: seq<Event>): (s: nat)
    ensures s <= |events|
  {
    if events == [] then 0 else if Fires(c, events) then |events| else Start(c, events)
  }

  /** The key after the script has run for all events. */
  function KeyAfter(c: Config, events: seq<Event>): Key {
    if events == [] then Absent
    else Script(c, KeyAfter(c, Front(events)), Last(events).time, Last(events).member).0
  }

  // ----- Refinement

  /** The key holds the latest time of each member among the events from `s` on, unless that time
      is already too old to count, and expires a ttl after the last event. */
  ghost predicate Tracks(c: Config, k: Key, events: seq<Event>, s: nat) {
    s <= |events| &&
    match k
    case Absent => s == |events|
    case ZSet(scores, expireAt) =>
      && events != []
      && expireAt == Last(events).time + c.ttl
      && (forall x :: x in scores ==>
        exists i :: s <= i < |events| && events[i] == Event(scores[x], x))
      && (forall i :: s <= i < |events| ==>
        if events[i].member in scores then events[i].time <= scores[events[i].member]
        else events[i].time <= Last(events).time - c.window)
  }

  /** The script counts exactly the members of the list. */
  lemma CountIsMembers(c: Config, k: Key, before: seq<Event>, s: nat, e: Event)
    requires c.Valid() && Tracks(c, k, before, s) && Ordered(before + [e])
    ensures Trimmed(c, k, e.time, e.member).Keys == Members(c, before + [e], s)
  {
    var events, n := before + [e], |before|;
    var scores := Trimmed(c, k, e.time, e.member);
    forall x | x in scores ensures x in Members(c, events, s) {
      if x != e.member {
        var i :| s <= i < n && before[i] == Event(k.scores[x], x);
        assert events[i] == before[i];
      } else {
        assert events[n] == e;
      }
    }
    forall x | x in Members(c, events, s) ensures x in scores {
      var i :| s <= i <= n && events[i].time > e.time - c.window && events[i].member == x;
      if i < n {
        assert events[i] == before[i] && before[n - 1] == events[n - 1];
      }
    }
  }

  lemma TracksNext(c: Config, k: Key, before: seq<Event>, s: nat, e: Event)
    requires c.Valid() && Tracks(c, k, before, s) && Ordered(before + [e])
    ensures Tracks(c, ZSet(Trimmed(c, k, e.time, e.member), e.time + c.ttl), before + [e], s)
  {
    var events, n := before + [e], |before|;
    var scores := Trimmed(c, k, e.time, e.member);
    forall x | x in scores ensures exists i :: s <= i < |events| && events[i] == Event(scores[x], x) {
      if x == e.member {
        assert events[n] == Event(scores[x], x);
      } else {
        var i :| s <= i < n && before[i] == Event(k.scores[x], x);
        assert events[i] == Event(scores[x], x);
      }
    }
    forall i | s <= i < |events|
      ensures if events[i].member in scores then events[i].time <= scores[events[i].member]
              else events[i].time <= e.time - c.window
    {
      assert events[i].time <= events[n].time;
      if i < n {
        assert events[i] == before[i] && before[n - 1] == events[n - 1];
        assert events[i].time <= events[n - 1].time;
      }
    }
  }

  /** One event: the reply and the key that follow from where counting begins. */
  lemma ServeTracks(c: Config, k: Key, before: seq<Event>, s: nat, e: Event)
    requires c.Valid() && Tracks(c, k, before, s) && Ordered(before + [e])
    ensures var (k', reply) := Script(c, k, e.time, e.member); var n := |Members(c, before + [e], s)|;
      if n >= c.threshold then k' == Absent && reply == n else Tracks(c, k', before + [e], s) && reply == 0
  {
    CountIsMembers(c, k, before, s, e);
    SameSize(Trimmed(c, k, e.time, e.member));
    TracksNext(c, k, before, s, e);
  }

  lemma {:induction false} KeyTracks(c: Config, events: seq<Event>)
    requires c.Valid() && Ordered(events)
    ensures Tracks(c, KeyAfter(c, events), events, NextStart(c, events))
  {
    if events != [] {
      var before, e := Front(events), Last(events);
      KeyTracks(c, before);
      assert events == before + [e];
      var k, s := KeyAfter(c, before), NextStart(c, before);
      StartIsNextStart(c, events);
      ServeTracks(c, k, before, s, e);
      if Fires(c, events) {
        assert NextStart(c, events) == |events| && KeyAfter(c, events) == Absent;
      } else {
        assert NextStart(c, events) == s && Tracks(c, Script(c, k, e.time, e.member).0, events, s);
      }
    }
  }

  lemma StartIsNextStart(c: Config, events: seq<Event>)
    requires events != []
    ensures Start(c, events) == NextStart(c, Front(events))
  {
  }

  lemma SameSize(m: map<string, int>)
    ensures |m| == |m.Keys|
  {
  }

  /** Refinement: on every run the reply is the number of distinct members added since the last
      trigger and within the window, reported when it reaches the threshold. The life time of
      the key never shows. */
  lemma ReplyIsDistinctRecent(c: Config, before: seq<Event>, e: Event)
    requires c.Valid() && Ordered(before + [e])
    ensures var events := before + [e];
      Script(c, KeyAfter(c, before), e.time, e.member).1
      == if Fires(c, events) then |Members(c, events, Start(c, events))| else 0
  {
    var events := before + [e];
    assert Front(events) == before;
    assert Ordered(before) by {
      assert forall i :: 0 <= i < |before| ==> before[i] == events[i];
    }
    KeyTracks(c, before);
    StartIsNextStart(c, events);
    ServeTracks(c, KeyAfter(c, before), before, NextStart(c, before), e);
  }

  /** What one call to the script does, in terms of the list. */
  lemma Served(c: Config, before: seq<Event>, e: Event)
    requires c.Valid() && Ordered(before + [e])
    ensures var (k, reply) := Script(c, KeyAfter(c, before), e.time, e.member);
      && k == KeyAfter(c, before + [e])
      && (reply > 0 <==> Fires(c, before + [e]))
      && (reply > 0 ==> reply == |Members(c, before + [e], Start(c, before + [e]))|)
  {
    ReplyIsDistinctRecent(c, before, e);
    assert Front(before + [e]) == before;
  }

  // ----- What a trigger costs

  function Triggers(c: Config, events: seq<Event>): nat {
    if events == [] then 0 else Triggers(c, Front(events)) + if Fires(c, events) then 1 else 0
  }

  lemma {:induction false} MembersNeedEvents(c: Config, events: seq<Event>, start: nat, n: nat)
    requires events != [] && start <= n <= |events|
    ensures |set i | start <= i < n && events[i].time > Last(events).time - c.window :: events[i].member| <= n - start
  {
    var t := Last(events).time - c.window;
    var here := set i | start <= i < n && events[i].time > t :: events[i].member;
    if n > start {
      MembersNeedEvents(c, events, start, n - 1);
      var before := set i | start <= i < n - 1 && events[i].time > t :: events[i].member;
      assert here <= before + {events[n - 1].member};
      Subset(here, before + {events[n - 1].member});
    } else {
      assert here == {};
    }
  }

  lemma {:induction false} Subset<T>(a: set<T>, b: set<T>)
    requires a <= b
    ensures |a| <= |b|
  {
    if x :| x in a {
      Subset(a - {x}, b - {x});
    }
  }

  lemma {:induction false} TriggersUseEvents(c: Config, events: seq<Event>)
    requires c.Valid()
    ensures Triggers(c, events) * c.threshold <= NextStart(c, events)
  {
    if events != [] {
      TriggersUseEvents(c, Front(events));
      var s := NextStart(c, Front(events));
      assert Start(c, events) == s;
      if Fires(c, events) {
        MembersNeedEvents(c, events, s, |events|);
        assert Members(c, events, s) ==
          set i | s <= i < |events| && events[i].time > Last(events).time - c.window :: events[i].member;
        Distribute(Triggers(c, Front(events)), c.threshold);
      }
    }
  }

  lemma Distribute(n: int, t: int)
    ensures (n + 1) * t == n * t + t
  {
  }

  /** Each trigger consumes at least `threshold` events of its own: there are never more than
      one alarm per `threshold` events. */
  lemma TriggerBudget(c: Config, events: seq<Event>)
    requires c.Valid()
    ensures Triggers(c, events) * c.threshold <= |events|
  {
    TriggersUseEvents(c, events);
  }

  /** An event that follows a trigger counts alone: it triggers again if and only if the threshold is
      one. A retried message does not yield the draft it yielded at first, unless one event is enough. */
  lemma RetryAfterTriggerFiresIff(c: Config, events: seq<Event>, retry: Event)
    requires c.Valid() && events != [] && Fires(c, events)
    ensures Fires(c, events + [retry]) <==> c.threshold == 1
  {
    var all := events + [retry];
    assert Front(all) == events && all[|events|] == retry;
    assert Members(c, all, |events|) == {retry.member};
  }

  /** A redelivery before the trigger is not counted twice. */
  lemma RedeliveryCountsOnce(c: Config, events: seq<Event>, again: Event)
    requires c.Valid() && Ordered(events + [again]) && events != [] && !Fires(c, events)
    requires again.member in Members(c, events, Start(c, events))
    ensures !Fires(c, events + [again])
  {
    var all, s := events + [again], Start(c, events);
    assert Front(all) == events && all[|events| - 1] == events[|events| - 1];
    forall x | x in Members(c, all, s) ensures x in Members(c, events, s) {
      if x != again.member {
        var i :| s <= i < |all| && all[i].time > again.time - c.window && all[i].member == x;
        assert all[i] == events[i];
      }
    }
    Subset(Members(c, all, s), Members(c, events, s));
  }

  // ----- The counter

  class WindowCounter {
    const c: Config
    var key: Key
    ghost var events: seq<Event>

    ghost predicate Valid()
      reads this
    {
      c.Valid() && Ordered(events) && key == KeyAfter(c, events)
    }

    constructor (c: Config)
      requires c.Valid()
      ensures Valid() && events == [] && this.c == c
    {
      this.c := c;
      key, events := Absent, [];
    }

    /** Count `member` now; `triggered` tells whether the threshold is reached. */
    method Add(now: int, member: string) returns (triggered: bool, count: nat)
      requires Valid() && (events != [] ==> Last(events).time <= now)
      modifies this
      ensures Valid() && events == old(events) + [Event(now, member)]
      ensures triggered <==> Fires(c, events)
      ensures count == if triggered then |Members(c, events, Start(c, events))| else 0
    {
      ghost var before := events;
      count := Eval(now, member);
      triggered := count > 0;
      events := events + [Event(now, member)];
      Served(c, before, Event(now, member));
    }

    /** The script on the stored set. */
    method Eval(now: int, member: string) returns (count: nat)
      modifies this`key
      ensures (key, count) == Script(c, old(key), now, member)
    {
      var scores := Scores(key, now);
      scores := map x | x in scores && scores[x] > now - c.window :: scores[x];
      scores := scores[member := now];
      assert scores == Trimmed(c, key, now, member);
      count := |scores|;
      if count >= c.threshold {
        key := Absent;
      } else {
        key, count := ZSet(scores, now + c.ttl), 0;
      }
    }
  }
}
