/** Remote door opening as a transition system: any number of requests share the idempotency key
    store, the authorisation check and the device service.

    The device may open the door and still not be heard: `Reply` keeps what the caller learns
    apart from what the door did.
  */
module RemoteOpenProtocol {
  import opened Options
  import opened KeyStore

  datatype Key = Key(tenant: int, request: string)

  /** What the device service answers. */
  datatype Reply = Success | Failure | Timeout

  datatype Answer = Duplicate | Opened | Forbidden | OpenFailed | DedupUnavailable

  datatype Pc =
    | Check
    | Authorize
    | Sending
    | Denied
    | Failed
    | Done(answer: Answer)

  /** `key` is `None` for a request without an id, which is not deduplicated. */
  datatype Request = Request(key: Option<Key>, pc: Pc) {
    /** Between the claim of the key and the answer. */
    predicate Holds() { pc.Authorize? || pc.Sending? || pc.Denied? || pc.Failed? }

    predicate Confirmed() { pc == Done(Opened) }
  }

  /** `keys` records which request claimed each key, `opens` the requests for which the door opened,
      in order, and `silent` those among them whose caller was told of a failure; `orphans` are the
      requests that claimed a key without hearing of it, or could not give theirs back. No step of
      the program reads any of it. */
  datatype World = World(
    keys: map<Key, nat>,
    requests: map<nat, Request>,
    opens: seq<nat>,
    silent: seq<nat>,
    orphans: set<nat>)

  datatype Action =
    | Arrive(id: nat, key: Option<Key>)
    | Claim(id: nat, fault: Fault)
    | Decide(id: nat, allowed: bool)
    | Command(id: nat, reply: Reply, doorOpened: bool)
    | GiveBack(id: nat, fault: Fault)
    | Expire(expired: Key)

  const INIT := World(map[], map[], [], [], {})

  predicate At(w: World, id: nat, pc: Pc) { id in w.requests && w.requests[id].pc == pc }

  predicate Enabled(w: World, a: Action) {
    match a
    case Arrive(id, _) => id !in w.requests
    case Claim(id, _) => At(w, id, Check)
    case Decide(id, _) => At(w, id, Authorize)
    case Command(id, reply, door) => At(w, id, Sending) && (reply.Success? ==> door)
    case GiveBack(id, _) => At(w, id, Denied) || At(w, id, Failed)
    case Expire(_) => true
  }

  function Goto(w: World, id: nat, pc: Pc): World
    requires id in w.requests
  {
    w.(requests := w.requests[id := w.requests[id].(pc := pc)])
  }

  function ClaimStep(w: World, id: nat, f: Fault): World
    requires id in w.requests
  {
    match w.requests[id].key
    case None => Goto(w, id, Authorize)
    case Some(k) =>
      var (keys, reply) := SetIfAbsent(w.keys, k, id, f);
      var orphans := if f.Late? && k !in w.keys then {id} else {};
      Goto(w.(keys := keys, orphans := w.orphans + orphans), id,
           match reply
           case Unavailable => Done(DedupUnavailable)
           case Answer(true) => Done(Duplicate)
           case Answer(false) => Authorize)
  }

  function CommandStep(w: World, id: nat, reply: Reply, doorOpened: bool): World
    requires id in w.requests
  {
    Goto(w.(opens := if doorOpened then w.opens + [id] else w.opens,
            silent := if doorOpened && !reply.Success? then w.silent + [id] else w.silent), id,
         if reply.Success? then Done(Opened) else Failed)
  }

  function GiveBackStep(w: World, id: nat, f: Fault): World
    requires id in w.requests
  {
    var r := w.requests[id];
    var orphans := if f.Lost? && r.key.Some? then {id} else {};
    Goto(if r.key.Some? then w.(keys := Delete(w.keys, r.key.value, f), orphans := w.orphans + orphans) else w, id,
         Done(if r.pc.Denied? then Forbidden else OpenFailed))
  }

  function Apply(w: World, a: Action): World
    requires Enabled(w, a)
  {
    match a
    case Arrive(id, key) => w.(requests := w.requests[id := Request(key, Check)])
    case Claim(id, f) => ClaimStep(w, id, f)
    case Decide(id, allowed) => Goto(w, id, if allowed then Sending else Denied)
    case Command(id, reply, door) => CommandStep(w, id, reply, door)
    case GiveBack(id, f) => GiveBackStep(w, id, f)
    case Expire(k) => w.(keys := w.keys - {k})
  }

  predicate On(w: World, id: nat, k: Key) { id in w.requests && w.requests[id].key == Some(k) }

  ghost function Exec(w: World, run: seq<Action>): Option<World> {
    if run == [] then Some(w)
    else
      var last := |run| - 1;
      match Exec(w, run[..last])
      case None => None
      case Some(u) => if Enabled(u, run[last]) then Some(Apply(u, run[last])) else None
  }

  /** All of the run is within the time to live of `k`. Whatever fails, and whatever happens to other
      keys, is allowed. */
  predicate Unexpired(run: seq<Action>, k: Key) { Expire(k) !in run }

  // ----- Invariant

  /** A request that has key `k` in its hands: at work on it, or confirmed. */
  predicate Keeps(w: World, id: nat, k: Key) {
    On(w, id, k) && (w.requests[id].Holds() || w.requests[id].Confirmed())
  }

  predicate Orphan(w: World, id: nat, k: Key) { On(w, id, k) && id in w.orphans }

  /** Key `k` is claimed by a request that keeps it or is orphaned, every such request has it claimed,
      and no orphan keeps a key. */
  ghost predicate Inv(w: World, k: Key) {
    && (k in w.keys ==> Keeps(w, w.keys[k], k) || Orphan(w, w.keys[k], k))
    && (forall id :: Keeps(w, id, k) || Orphan(w, id, k) ==> k in w.keys && w.keys[k] == id)
    && (forall id :: id in w.orphans ==>
          id in w.requests && w.requests[id].pc in {Done(DedupUnavailable), Done(Forbidden), Done(OpenFailed)})
  }

  /** A move of one request keeps the invariant if it does so for that request: the key is in its hands
      or orphaned by it exactly if it is claimed by it, and nobody else's claim changes. */
  lemma MoveKeepsInv(w: World, w': World, id: nat, k: Key)
    requires Inv(w, k) && id in w.requests && id in w'.requests && w'.requests[id].key == w.requests[id].key
    requires w'.requests == w.requests[id := w'.requests[id]] && w.orphans <= w'.orphans <= w.orphans + {id}
    requires k in w'.keys ==>
      (k in w.keys && w'.keys[k] == w.keys[k] != id) || (w'.keys[k] == id && (Keeps(w', id, k) || Orphan(w', id, k)))
    requires k in w.keys && w.keys[k] != id ==> k in w'.keys && w'.keys[k] == w.keys[k]
    requires Keeps(w', id, k) || Orphan(w', id, k) ==> k in w'.keys && w'.keys[k] == id
    requires id in w'.orphans ==>
      w'.requests[id].pc in {Done(DedupUnavailable), Done(Forbidden), Done(OpenFailed)}
    ensures Inv(w', k)
  {
    forall n | n != id ensures Keeps(w', n, k) <==> Keeps(w, n, k)
      ensures Orphan(w', n, k) <==> Orphan(w, n, k)
    {
    }
    forall n | Keeps(w', n, k) || Orphan(w', n, k) ensures k in w'.keys && w'.keys[k] == n {
      if n != id {
        assert Keeps(w, n, k) || Orphan(w, n, k);
      }
    }
  }

  lemma ClaimKeepsInv(w: World, id: nat, f: Fault, k: Key)
    requires Inv(w, k) && At(w, id, Check)
    ensures Inv(ClaimStep(w, id, f), k)
  {
    assert !Keeps(w, id, k) && !Orphan(w, id, k);
    MoveKeepsInv(w, ClaimStep(w, id, f), id, k);
  }

  lemma GiveBackKeepsInv(w: World, id: nat, f: Fault, k: Key)
    requires Inv(w, k) && (At(w, id, Denied) || At(w, id, Failed))
    ensures Inv(GiveBackStep(w, id, f), k)
  {
    assert On(w, id, k) ==> Keeps(w, id, k);
    MoveKeepsInv(w, GiveBackStep(w, id, f), id, k);
  }

  /** A move that touches no key and keeps the request on its way. */
  lemma OnwardKeepsInv(w: World, w': World, id: nat, k: Key)
    requires Inv(w, k) && id in w.requests && w.requests[id].Holds()
    requires id in w'.requests && w'.requests[id].key == w.requests[id].key
    requires w'.requests[id].Holds() || w'.requests[id].Confirmed()
    requires w' == w.(requests := w.requests[id := w'.requests[id]], opens := w'.opens, silent := w'.silent)
    ensures Inv(w', k)
  {
    assert On(w, id, k) ==> Keeps(w, id, k);
    MoveKeepsInv(w, w', id, k);
  }

  lemma StepKeepsInv(w: World, a: Action, k: Key)
    requires Inv(w, k) && Enabled(w, a) && a != Expire(k)
    ensures Inv(Apply(w, a), k)
  {
    var w' := Apply(w, a);
    match a
    case Claim(id, f) => ClaimKeepsInv(w, id, f, k);
    case Decide(id, _) => OnwardKeepsInv(w, w', id, k);
    case Command(id, _, _) => OnwardKeepsInv(w, w', id, k);
    case GiveBack(id, f) => GiveBackKeepsInv(w, id, f, k);
    case _ =>
      forall n ensures Keeps(w', n, k) <==> Keeps(w, n, k)
        ensures Orphan(w', n, k) <==> Orphan(w, n, k)
      {
      }
  }

  lemma {:induction false} RunKeepsInv(run: seq<Action>, k: Key)
    requires Exec(INIT, run).Some? && Unexpired(run, k)
    ensures Inv(Exec(INIT, run).value, k)
  {
    if run != [] {
      var last := |run| - 1;
      RunKeepsInv(run[..last], k);
      StepKeepsInv(Exec(INIT, run[..last]).value, run[last], k);
    }
  }

  /** Expired or not, a key that is present was claimed by a request on it. */
  lemma {:induction false} KeysAreOwned(run: seq<Action>, k: Key)
    requires Exec(INIT, run).Some?
    ensures var w := Exec(INIT, run).value; k in w.keys ==> On(w, w.keys[k], k)
  {
    if run != [] {
      KeysAreOwned(run[..|run| - 1], k);
    }
  }

  // ----- What one key guarantees

  /** Under all faults at most one request on a key is past the check without an answer, at most one is
      ever confirmed, and never both at once. */
  lemma AtMostOne(run: seq<Action>, k: Key, i: nat, j: nat)
    requires Exec(INIT, run).Some? && Unexpired(run, k)
    requires Keeps(Exec(INIT, run).value, i, k) && Keeps(Exec(INIT, run).value, j, k)
    ensures i == j
  {
    RunKeepsInv(run, k);
  }

  ghost predicate Quiet(w: World, k: Key) {
    forall id :: id in w.requests && w.requests[id].key == Some(k) ==> !w.requests[id].Holds()
  }

  ghost predicate ConfirmedOpen(w: World, k: Key) {
    exists id :: id in w.requests && w.requests[id].key == Some(k) && w.requests[id].Confirmed()
  }

  /** A request on the key claimed it without hearing of it, or lost its release. */
  ghost predicate Orphaned(w: World, k: Key) { exists id :: Orphan(w, id, k) }

  /** With no request on the key at work, the key is present exactly when an open was confirmed or the
      key was orphaned, and never for both reasons. */
  lemma KeyMeansConfirmed(run: seq<Action>, k: Key)
    requires Exec(INIT, run).Some? && Unexpired(run, k) && Quiet(Exec(INIT, run).value, k)
    ensures var w := Exec(INIT, run).value;
      && (k in w.keys <==> ConfirmedOpen(w, k) || Orphaned(w, k))
      && !(ConfirmedOpen(w, k) && Orphaned(w, k))
  {
    RunKeepsInv(run, k);
    var w := Exec(INIT, run).value;
    ConfirmedKeeps(w, k);
    if k in w.keys {
      var h := w.keys[k];
      assert Keeps(w, h, k) ==> w.requests[h].Confirmed();
    }
  }

  lemma ConfirmedKeeps(w: World, k: Key)
    requires Inv(w, k)
    ensures ConfirmedOpen(w, k) ==> k in w.keys && Keeps(w, w.keys[k], k) && w.requests[w.keys[k]].Confirmed()
  {
    if ConfirmedOpen(w, k) {
      var h :| h in w.requests && w.requests[h].key == Some(k) && w.requests[h].Confirmed();
      assert Keeps(w, h, k);
    }
  }

  /** Who is told "duplicate" follows another request on the key: one still at work, one confirmed, or one
      that was orphaned. */
  lemma DuplicateFollowsAnother(run: seq<Action>, k: Key, id: nat, f: Fault)
    requires Exec(INIT, run).Some? && Unexpired(run, k) && Enabled(Exec(INIT, run).value, Claim(id, f))
    requires On(Exec(INIT, run).value, id, k)
    requires At(Apply(Exec(INIT, run).value, Claim(id, f)), id, Done(Duplicate))
    ensures var w := Exec(INIT, run).value;
      exists h :: h != id && On(w, h, k) && (w.requests[h].Holds() || w.requests[h].Confirmed() || h in w.orphans)
  {
    RunKeepsInv(run, k);
    var w := Exec(INIT, run).value;
    var h := w.keys[k];
    assert Keeps(w, h, k) || Orphan(w, h, k);
    assert On(w, h, k);
  }

  /** A duplicate is told "success". Under all faults that is true of the door at that moment if and
      only if no request on the key is still at work and the key was not orphaned. */
  lemma DuplicateAnswerTruthful(run: seq<Action>, k: Key, id: nat, f: Fault)
    requires Exec(INIT, run).Some? && Unexpired(run, k) && Enabled(Exec(INIT, run).value, Claim(id, f))
    requires On(Exec(INIT, run).value, id, k)
    requires At(Apply(Exec(INIT, run).value, Claim(id, f)), id, Done(Duplicate))
    ensures var w := Exec(INIT, run).value; ConfirmedOpen(w, k) <==> Quiet(w, k) && !Orphaned(w, k)
  {
    RunKeepsInv(run, k);
    var w := Exec(INIT, run).value;
    var h := w.keys[k];
    ConfirmedKeeps(w, k);
    if ConfirmedOpen(w, k) {
      forall n | n in w.requests && w.requests[n].key == Some(k) ensures !w.requests[n].Holds() {
        assert Keeps(w, n, k) ==> n == h;
      }
    } else if Keeps(w, h, k) {
      assert w.requests[h].Holds();
    } else {
      assert Orphan(w, h, k);
    }
  }

  // ----- The door

  /** How many of the listed requests are on key `k`. */
  ghost function CountOn(ids: seq<nat>, requests: map<nat, Request>, k: Key): nat {
    if ids == [] then 0
    else
      var last := |ids| - 1;
      CountOn(ids[..last], requests, k)
      + (if ids[last] in requests && requests[ids[last]].key == Some(k) then 1 else 0)
  }

  lemma {:induction false} CountDependsOnKeys(ids: seq<nat>, r: map<nat, Request>, r': map<nat, Request>, k: Key)
    requires forall id :: id in ids ==> id in r
    requires forall id :: id in r ==> id in r' && r'[id].key == r[id].key
    ensures CountOn(ids, r', k) == CountOn(ids, r, k)
  {
    if ids != [] {
      CountDependsOnKeys(ids[..|ids| - 1], r, r', k);
    }
  }

  /** The door opened once per silent open, and once more if an open was confirmed. */
  ghost predicate OpensMatch(w: World, k: Key) {
    && (forall id :: id in w.opens || id in w.silent ==> id in w.requests)
    && CountOn(w.opens, w.requests, k)
      == CountOn(w.silent, w.requests, k) + if ConfirmedOpen(w, k) then 1 else 0
  }

  /** Confirmation of a key depends on the one request that moved and on nobody else. */
  lemma ConfirmedFrame(w: World, w': World, id: nat, k: Key)
    requires w'.requests.Keys == w.requests.Keys + {id}
    requires forall n :: n in w.requests && n != id ==> w'.requests[n] == w.requests[n]
    requires id in w.requests ==> !w.requests[id].Confirmed()
    ensures ConfirmedOpen(w', k) <==>
      ConfirmedOpen(w, k) || (w'.requests[id].key == Some(k) && w'.requests[id].Confirmed())
  {
    if ConfirmedOpen(w, k) {
      var h :| h in w.requests && w.requests[h].key == Some(k) && w.requests[h].Confirmed();
      assert w'.requests[h] == w.requests[h];
    }
  }

  lemma CommandKeepsOpens(w: World, id: nat, reply: Reply, door: bool, k: Key)
    requires Inv(w, k) && Enabled(w, Command(id, reply, door)) && OpensMatch(w, k)
    ensures OpensMatch(CommandStep(w, id, reply, door), k)
  {
    var w' := CommandStep(w, id, reply, door);
    CountDependsOnKeys(w.opens, w.requests, w'.requests, k);
    CountDependsOnKeys(w.silent, w.requests, w'.requests, k);
    if door {
      assert w'.opens[..|w.opens|] == w.opens;
      if !reply.Success? {
        assert w'.silent[..|w.silent|] == w.silent;
      }
    }
    if reply.Success? && w.requests[id].key == Some(k) {
      assert Keeps(w, id, k) && w.keys[k] == id;
      ConfirmedKeeps(w, k);
      assert !ConfirmedOpen(w, k);
    }
    ConfirmedFrame(w, w', id, k);
  }

  lemma OtherKeepsOpens(w: World, a: Action, k: Key)
    requires Enabled(w, a) && !a.Command? && OpensMatch(w, k)
    ensures OpensMatch(Apply(w, a), k)
  {
    var w' := Apply(w, a);
    CountDependsOnKeys(w.opens, w.requests, w'.requests, k);
    CountDependsOnKeys(w.silent, w.requests, w'.requests, k);
    if !a.Expire? {
      ConfirmedFrame(w, w', a.id, k);
    }
  }

  lemma {:induction false} OpensAreAccounted(run: seq<Action>, k: Key)
    requires Exec(INIT, run).Some? && Unexpired(run, k)
    ensures OpensMatch(Exec(INIT, run).value, k)
  {
    if run != [] {
      var last := |run| - 1;
      OpensAreAccounted(run[..last], k);
      RunKeepsInv(run[..last], k);
      var w, a := Exec(INIT, run[..last]).value, run[last];
      if a.Command? {
        CommandKeepsOpens(w, a.id, a.reply, a.doorOpened, k);
      } else {
        OtherKeepsOpens(w, a, k);
      }
    }
  }

  /** Action `n` of the run is a command on key `k` that opens the door. */
  ghost predicate Opening(run: seq<Action>, k: Key, n: nat) {
    && n < |run| && run[n].Command? && run[n].doorOpened
    && Exec(INIT, run[..n]).Some? && On(Exec(INIT, run[..n]).value, run[n].id, k)
  }

  /** And its reply was a failure or a timeout. */
  ghost predicate Unheard(run: seq<Action>, k: Key, n: nat) { Opening(run, k, n) && !run[n].reply.Success? }

  lemma {:induction false} PrefixRuns(run: seq<Action>, n: nat)
    requires n <= |run| && Exec(INIT, run).Some?
    ensures Exec(INIT, run[..n]).Some?
    decreases |run|
  {
    if n < |run| {
      PrefixRuns(run[..|run| - 1], n);
      assert run[..|run| - 1][..n] == run[..n];
    } else {
      assert run[..n] == run;
    }
  }

  lemma EnabledAt(run: seq<Action>, n: nat)
    requires n < |run| && Exec(INIT, run).Some?
    ensures Exec(INIT, run[..n]).Some? && Enabled(Exec(INIT, run[..n]).value, run[n])
  {
    PrefixRuns(run, n + 1);
    assert run[..n + 1][..n] == run[..n];
  }

  lemma PrefixOpenings(run: seq<Action>, k: Key, m: nat)
    requires m <= |run|
    ensures forall n: nat :: n < m ==> (Opening(run[..m], k, n) <==> Opening(run, k, n))
  {
    forall n: nat | n < m ensures run[..m][..n] == run[..n] {
    }
  }

  /** A confirmed request stays so. */
  lemma {:induction false} ConfirmedStays(run: seq<Action>, n: nat, id: nat, k: Key)
    requires n <= |run| && Exec(INIT, run).Some? && Exec(INIT, run[..n]).Some?
    requires On(Exec(INIT, run[..n]).value, id, k) && Exec(INIT, run[..n]).value.requests[id].Confirmed()
    ensures On(Exec(INIT, run).value, id, k) && Exec(INIT, run).value.requests[id].Confirmed()
    decreases |run|
  {
    if n < |run| {
      assert run[..|run| - 1][..n] == run[..n];
      ConfirmedStays(run[..|run| - 1], n, id, k);
    } else {
      assert run[..n] == run;
    }
  }

  /** After a confirmed opening its request is confirmed, and stays so up to action `j`. */
  lemma HeardIsConfirmed(run: seq<Action>, k: Key, i: nat, j: nat)
    requires Exec(INIT, run).Some? && i < j <= |run| && Opening(run, k, i) && run[i].reply.Success?
    ensures Exec(INIT, run[..j]).Some?
    ensures var w := Exec(INIT, run[..j]).value; On(w, run[i].id, k) && w.requests[run[i].id].Confirmed()
  {
    PrefixRuns(run, i + 1);
    PrefixRuns(run, j);
    assert run[..i + 1][..i] == run[..i] && run[..j][..i + 1] == run[..i + 1];
    ConfirmedStays(run[..j], i + 1, run[i].id, k);
  }

  /** An opening that another one follows was not confirmed. */
  lemma FollowedIsUnheard(run: seq<Action>, k: Key, i: nat, j: nat)
    requires Exec(INIT, run).Some? && Unexpired(run, k)
    requires i < j && Opening(run, k, i) && Opening(run, k, j)
    ensures Unheard(run, k, i)
  {
    if run[i].reply.Success? {
      HeardIsConfirmed(run, k, i, j);
      PrefixRuns(run, j);
      EnabledAt(run, j);
      assert Keeps(Exec(INIT, run[..j]).value, run[j].id, k);
      AtMostOne(run[..j], k, run[i].id, run[j].id);
    }
  }

  ghost predicate AnyOpening(run: seq<Action>, k: Key) { exists n: nat :: Opening(run, k, n) }

  ghost predicate TwoOpenings(run: seq<Action>, k: Key) {
    exists i: nat, j: nat :: i < j && Opening(run, k, i) && Opening(run, k, j)
  }

  lemma AnyOpeningSnoc(run: seq<Action>, k: Key, front: seq<Action>, last: nat)
    requires |run| == last + 1 && front == run[..last]
    ensures AnyOpening(run, k) <==> AnyOpening(front, k) || Opening(run, k, last)
  {
    PrefixOpenings(run, k, last);
    if AnyOpening(front, k) {
      var n: nat :| Opening(front, k, n);
      assert Opening(run, k, n);
    }
  }

  lemma TwoOpeningsSnoc(run: seq<Action>, k: Key, front: seq<Action>, last: nat)
    requires |run| == last + 1 && front == run[..last]
    ensures TwoOpenings(run, k) <==> TwoOpenings(front, k) || (AnyOpening(front, k) && Opening(run, k, last))
  {
    PrefixOpenings(run, k, last);
    if TwoOpenings(front, k) {
      var i: nat, j: nat :| i < j && Opening(front, k, i) && Opening(front, k, j);
      assert Opening(run, k, i) && Opening(run, k, j);
    }
    if TwoOpenings(run, k) {
      var i: nat, j: nat :| i < j && Opening(run, k, i) && Opening(run, k, j);
      assert Opening(front, k, i);
      assert j < last ==> Opening(front, k, j);
    }
  }

  /** The doors that opened are counted by the openings of the run. */
  lemma {:induction false} OpensAreOpenings(run: seq<Action>, k: Key)
    requires Exec(INIT, run).Some?
    ensures var w := Exec(INIT, run).value;
      && (forall id :: id in w.opens ==> id in w.requests)
      && (CountOn(w.opens, w.requests, k) >= 1 <==> AnyOpening(run, k))
      && (CountOn(w.opens, w.requests, k) >= 2 <==> TwoOpenings(run, k))
  {
    if run != [] {
      var last: nat := |run| - 1;
      OpensAreOpenings(run[..last], k);
      AnyOpeningSnoc(run, k, run[..last], last);
      TwoOpeningsSnoc(run, k, run[..last], last);
      CountStep(Exec(INIT, run[..last]).value, run[last], k);
    }
  }

  lemma CountStep(w: World, a: Action, k: Key)
    requires Enabled(w, a) && forall id :: id in w.opens ==> id in w.requests
    ensures var w' := Apply(w, a);
      && (forall id :: id in w'.opens ==> id in w'.requests)
      && CountOn(w'.opens, w'.requests, k) == CountOn(w.opens, w.requests, k)
           + if a.Command? && a.doorOpened && On(w, a.id, k) then 1 else 0
  {
    var w' := Apply(w, a);
    CountDependsOnKeys(w.opens, w.requests, w'.requests, k);
    if a.Command? && a.doorOpened {
      assert w'.opens[..|w.opens|] == w.opens;
    }
  }

  /** Exactly when the door opens at most once for a key: no command that opens it fails or times out
      before another command opens it again. A confirmed opening is never followed by one. */
  lemma DoorOpensAtMostOnce(run: seq<Action>, k: Key)
    requires Exec(INIT, run).Some? && Unexpired(run, k)
    ensures var w := Exec(INIT, run).value;
      CountOn(w.opens, w.requests, k) <= 1 <==>
        forall i, j :: i < j && Unheard(run, k, i) ==> !Opening(run, k, j)
  {
    OpensAreOpenings(run, k);
    forall i, j | i < j && Opening(run, k, i) && Opening(run, k, j) ensures Unheard(run, k, i) {
      FollowedIsUnheard(run, k, i, j);
    }
  }

  // ----- Where the documentation promises more

  lemma Extend(run: seq<Action>, w: World, a: Action, k: Key) returns (run': seq<Action>, w': World)
    requires Exec(INIT, run) == Some(w) && Unexpired(run, k) && Enabled(w, a) && a != Expire(k)
    ensures w' == Apply(w, a) && Exec(INIT, run') == Some(w') && Unexpired(run', k)
  {
    run' := run + [a];
    w' := Apply(w, a);
    assert run'[..|run|] == run;
  }

  /** A false success: a duplicate is answered while the first request is at work, the first is
      then refused, and the door never opened for the key. */
  lemma DuplicateToldSuccessForNothing(k: Key) returns (run: seq<Action>, w: World)
    ensures Exec(INIT, run) == Some(w) && Unexpired(run, k)
    ensures At(w, 1, Done(Duplicate)) && w.requests[1].key == Some(k)
    ensures Quiet(w, k) && !ConfirmedOpen(w, k) && w.opens == []
  {
    run, w := [], INIT;
    run, w := Extend(run, w, Arrive(0, Some(k)), k);
    run, w := Extend(run, w, Claim(0, NoFault), k);
    run, w := Extend(run, w, Arrive(1, Some(k)), k);
    run, w := Extend(run, w, Claim(1, NoFault), k);
    run, w := Extend(run, w, Decide(0, false), k);
    run, w := Extend(run, w, GiveBack(0, NoFault), k);
  }

  /** An orphaned key: the claim takes effect and its reply is lost, and the retry is told success though
      nobody is at work and the door never opened. */
  lemma LateClaimToldSuccess(k: Key) returns (run: seq<Action>, w: World)
    ensures Exec(INIT, run) == Some(w) && Unexpired(run, k)
    ensures At(w, 0, Done(DedupUnavailable)) && At(w, 1, Done(Duplicate)) && On(w, 1, k)
    ensures Quiet(w, k) && !ConfirmedOpen(w, k) && w.opens == [] && Orphaned(w, k)
  {
    run, w := [], INIT;
    run, w := Extend(run, w, Arrive(0, Some(k)), k);
    run, w := Extend(run, w, Claim(0, Late), k);
    run, w := Extend(run, w, Arrive(1, Some(k)), k);
    run, w := Extend(run, w, Claim(1, NoFault), k);
    assert Orphan(w, 0, k);
  }

  /** The same after a refusal whose release is lost. */
  lemma LostReleaseToldSuccess(k: Key) returns (run: seq<Action>, w: World)
    ensures Exec(INIT, run) == Some(w) && Unexpired(run, k)
    ensures At(w, 0, Done(Forbidden)) && At(w, 1, Done(Duplicate)) && On(w, 1, k)
    ensures Quiet(w, k) && !ConfirmedOpen(w, k) && w.opens == [] && Orphaned(w, k)
  {
    run, w := [], INIT;
    run, w := Extend(run, w, Arrive(0, Some(k)), k);
    run, w := Extend(run, w, Claim(0, NoFault), k);
    run, w := Extend(run, w, Decide(0, false), k);
    assert w == World(map[k := 0], map[0 := Request(Some(k), Denied)], [], [], {});
    run, w := Extend(run, w, GiveBack(0, Lost), k);
    run, w := Extend(run, w, Arrive(1, Some(k)), k);
    run, w := Extend(run, w, Claim(1, NoFault), k);
    assert Orphan(w, 0, k);
  }

  /** Request 0 is sent, the door opens, the reply times out, and the key is given back. */
  lemma TimeoutReleasesKey(k: Key) returns (run: seq<Action>, w: World)
    ensures Exec(INIT, run) == Some(w) && Unexpired(run, k)
    ensures w == World(map[], map[0 := Request(Some(k), Done(OpenFailed))], [0], [0], {})
  {
    run, w := [], INIT;
    run, w := Extend(run, w, Arrive(0, Some(k)), k);
    run, w := Extend(run, w, Claim(0, NoFault), k);
    run, w := Extend(run, w, Decide(0, true), k);
    assert w == World(map[k := 0], map[0 := Request(Some(k), Sending)], [], [], {});
    run, w := Extend(run, w, Command(0, Timeout, true), k);
    run, w := Extend(run, w, GiveBack(0, NoFault), k);
    assert w.keys == map[];
  }

  /** A door opened twice: the device obeys but the reply times out, the key is given back and
      the retry opens the door again. */
  lemma TimeoutOpensDoorTwice(k: Key) returns (run: seq<Action>, w: World)
    ensures Exec(INIT, run) == Some(w) && Unexpired(run, k)
    ensures CountOn(w.opens, w.requests, k) == 2
  {
    run, w := TimeoutReleasesKey(k);
    run, w := Extend(run, w, Arrive(1, Some(k)), k);
    run, w := Extend(run, w, Claim(1, NoFault), k);
    run, w := Extend(run, w, Decide(1, true), k);
    assert w.opens == [0] && On(w, 0, k) && At(w, 1, Sending) && On(w, 1, k);
    run, w := Extend(run, w, Command(1, Success, true), k);
    assert w.opens == [0, 1] && w.opens[..1] == [0] && [0][..0] == [];
    assert CountOn([0], w.requests, k) == 1;
  }
}
