/** The token lock as a transition system: any number of clients with distinct tokens acquire,
    renew and release one key, whose lease runs out on the clock of the store.
  */
module LockProtocol {
  import opened Options
  import opened KeyStore

  /** The key: whose token it holds and until when, in milliseconds of the store's clock. */
  datatype Entry = Entry(token: nat, until: int)

  predicate Live(s: Option<Entry>, now: int) { s.Some? && now < s.value.until }

  predicate Holds(s: Option<Entry>, token: nat, now: int) { Live(s, now) && s.value.token == token }

  /** A renewal passes whole milliseconds on; an acquisition rounds a shorter lease up to one. */
  function RenewMs(expire: int): int {
    expire / 1_000_000
  }

  function AcquireMs(expire: int): (ms: int)
    ensures expire >= 1_000_000 ==> ms == expire / 1_000_000
    ensures 0 < expire < 1_000_000 ==> ms == 1
  {
    if RenewMs(expire) == 0 then 1 else RenewMs(expire)
  }

  // ----- The three commands. `true` means that the key was free, or held by the token.

  function SetNx(s: Option<Entry>, token: nat, ms: int, now: int, f: Fault): (r: (Option<Entry>, bool))
    ensures r.1 <==> !Live(s, now)
    ensures Live(s, now) ==> r.0 == s
  {
    (if !Live(s, now) && f.TakesEffect() then Some(Entry(token, now + ms)) else s, !Live(s, now))
  }

  /** Extend the lease of a matching token; a lease of no length deletes the key. */
  function RenewScript(s: Option<Entry>, token: nat, ms: int, now: int, f: Fault): (r: (Option<Entry>, bool))
    ensures r.1 <==> Holds(s, token, now)
    ensures !Holds(s, token, now) ==> r.0 == s
  {
    (if Holds(s, token, now) && f.TakesEffect() then (if ms > 0 then Some(Entry(token, now + ms)) else None) else s,
     Holds(s, token, now))
  }

  function UnlockScript(s: Option<Entry>, token: nat, now: int, f: Fault): (r: (Option<Entry>, bool))
    ensures r.1 <==> Holds(s, token, now)
    ensures !Holds(s, token, now) ==> r.0 == s
  {
    (if Holds(s, token, now) && f.TakesEffect() then None else s, Holds(s, token, now))
  }

  // ----- Runs

  /** Ownership of a token: from its acquisition until its lease ran out or was given up. `rank`
      numbers the acquisitions, `granted` is when the lease was last set. */
  datatype Lease = Lease(rank: nat, from: int, granted: int, until: int, expire: int)

  /** `leases` and `acquired`, the number of acquisitions, are history that no command reads. */
  datatype World = World(stored: Option<Entry>, now: int, leases: map<nat, Lease>, acquired: nat)

  datatype Action =
    | TryLock(token: nat, expire: int, fault: Fault)
    | Renew(token: nat, fault: Fault)
    | Unlock(token: nat, fault: Fault)
    | Tick(ms: nat)

  const INIT := World(None, 0, map[], 0)

  predicate Enabled(w: World, a: Action) {
    match a
    case TryLock(token, expire, _) => expire > 0 && token !in w.leases
    case Renew(token, _) => token in w.leases && w.leases[token].expire > 0
    case Unlock(token, _) => token in w.leases
    case Tick(_) => true
  }

  function Apply(w: World, a: Action): World
    requires Enabled(w, a)
  {
    match a
    case TryLock(token, expire, f) =>
      var s := SetNx(w.stored, token, AcquireMs(expire), w.now, f).0;
      if Live(w.stored, w.now) || !f.TakesEffect() then w
      else w.(stored := s, acquired := w.acquired + 1,
              leases := w.leases[token := Lease(w.acquired, w.now, w.now, w.now + AcquireMs(expire), expire)])
    case Renew(token, f) =>
      var s := RenewScript(w.stored, token, RenewMs(w.leases[token].expire), w.now, f).0;
      if Holds(w.stored, token, w.now) && f.TakesEffect() then
        w.(stored := s,
           leases := w.leases[token :=
             w.leases[token].(granted := w.now, until := w.now + RenewMs(w.leases[token].expire))])
      else w.(stored := s)
    case Unlock(token, f) =>
      var s := UnlockScript(w.stored, token, w.now, f).0;
      if Holds(w.stored, token, w.now) && f.TakesEffect() then
        w.(stored := s, leases := w.leases[token := w.leases[token].(until := w.now)])
      else w.(stored := s)
    case Tick(ms) => w.(now := w.now + ms)
  }

  ghost function Exec(w: World, run: seq<Action>): Option<World> {
    if run == [] then Some(w)
    else
      var last := |run| - 1;
      match Exec(w, run[..last])
      case None => None
      case Some(u) => if Enabled(u, run[last]) then Some(Apply(u, run[last])) else None
  }

  lemma ExecSnoc(run: seq<Action>, w: World, a: Action)
    requires Exec(INIT, run) == Some(w) && Enabled(w, a)
    ensures Exec(INIT, run + [a]) == Some(Apply(w, a))
  {
    assert (run + [a])[..|run|] == run;
  }

  ghost predicate LeaseOk(w: World, t: nat, l: Lease) {
    && l.rank < w.acquired && l.expire > 0
    && l.from <= l.granted <= w.now && l.from <= l.until
    && (w.now < l.until ==> w.stored == Some(Entry(t, l.until)))
  }

  ghost predicate Inv(w: World) {
    && (forall t :: t in w.leases ==> LeaseOk(w, t, w.leases[t]))
    && (forall t, u :: t in w.leases && u in w.leases && t != u ==>
      w.leases[t].rank != w.leases[u].rank
      && (w.leases[t].rank < w.leases[u].rank ==> w.leases[t].until <= w.leases[u].from))
    && (w.stored.Some? ==>
      && w.stored.value.token in w.leases
      && w.leases[w.stored.value.token].rank + 1 == w.acquired
      && w.leases[w.stored.value.token].until == w.stored.value.until)
  }

  lemma TryLockKeepsInv(w: World, token: nat, expire: int, f: Fault)
    requires Inv(w) && Enabled(w, TryLock(token, expire, f))
    ensures Inv(Apply(w, TryLock(token, expire, f)))
  {
    assert forall t :: t in w.leases ==> LeaseOk(w, t, w.leases[t]);
  }

  /** The lease of the token in the store may change its end at will, up to the present. */
  lemma HolderKeepsInv(w: World, w': World, token: nat, l: Lease)
    requires Inv(w) && Holds(w.stored, token, w.now) && token in w.leases
    requires w'.now == w.now && w'.acquired == w.acquired && w'.leases == w.leases[token := l]
    requires LeaseOk(w', token, l) && l.rank == w.leases[token].rank && l.from == w.leases[token].from
    requires w'.stored.Some? ==> w'.stored == Some(Entry(token, l.until))
    ensures Inv(w')
  {
    forall t | t in w'.leases && t != token ensures LeaseOk(w', t, w'.leases[t]) {
      assert LeaseOk(w, t, w.leases[t]);
    }
  }

  lemma RenewKeepsInv(w: World, token: nat, f: Fault)
    requires Inv(w) && Enabled(w, Renew(token, f))
    ensures Inv(Apply(w, Renew(token, f)))
  {
    if Holds(w.stored, token, w.now) && f.TakesEffect() {
      HolderKeepsInv(w, Apply(w, Renew(token, f)), token, Apply(w, Renew(token, f)).leases[token]);
    }
  }

  lemma UnlockKeepsInv(w: World, token: nat, f: Fault)
    requires Inv(w) && Enabled(w, Unlock(token, f))
    ensures Inv(Apply(w, Unlock(token, f)))
  {
    if Holds(w.stored, token, w.now) && f.TakesEffect() {
      HolderKeepsInv(w, Apply(w, Unlock(token, f)), token, Apply(w, Unlock(token, f)).leases[token]);
    }
  }

  lemma StepKeepsInv(w: World, a: Action)
    requires Inv(w) && Enabled(w, a)
    ensures Inv(Apply(w, a))
  {
    match a
    case TryLock(token, expire, f) => TryLockKeepsInv(w, token, expire, f);
    case Renew(token, f) => RenewKeepsInv(w, token, f);
    case Unlock(token, f) => UnlockKeepsInv(w, token, f);
    case Tick(_) =>
  }

  lemma {:induction false} RunKeepsInv(run: seq<Action>)
    requires Exec(INIT, run).Some?
    ensures Inv(Exec(INIT, run).value)
  {
    if run != [] {
      var last := |run| - 1;
      RunKeepsInv(run[..last]);
      StepKeepsInv(Exec(INIT, run[..last]).value, run[last]);
    }
  }

  // ----- Exclusion

  /** The ownership intervals of different tokens are disjoint, in the order of acquisition. */
  lemma OwnershipDisjoint(run: seq<Action>, t: nat, u: nat)
    requires Exec(INIT, run).Some?
    requires t != u && t in Exec(INIT, run).value.leases && u in Exec(INIT, run).value.leases
    ensures var l := Exec(INIT, run).value.leases;
      && l[t].rank != l[u].rank
      && (if l[t].rank < l[u].rank then l[t].until <= l[u].from else l[u].until <= l[t].from)
  {
    RunKeepsInv(run);
  }

  /** A token whose lease has time left is the one in the store, and it is the latest acquired:
      two clients never have time left at once. */
  lemma AtMostOneOwner(run: seq<Action>, t: nat, u: nat)
    requires Exec(INIT, run).Some?
    requires var w := Exec(INIT, run).value;
      && t in w.leases && w.now < w.leases[t].until
      && u in w.leases && w.now < w.leases[u].until
    ensures var w := Exec(INIT, run).value;
      t == u && w.stored == Some(Entry(t, w.leases[t].until)) && w.leases[t].rank + 1 == w.acquired
  {
    RunKeepsInv(run);
  }

  /** Whatever the store holds is the token of the latest acquisition. */
  lemma StoredIsLatest(run: seq<Action>, u: nat)
    requires Exec(INIT, run).Some? && Exec(INIT, run).value.stored.Some?
    requires u in Exec(INIT, run).value.leases
    ensures var w := Exec(INIT, run).value;
      w.stored.value.token in w.leases && w.leases[u].rank <= w.leases[w.stored.value.token].rank
  {
    RunKeepsInv(run);
  }

  /** A stale holder is harmless: once its lease has run out or passed to another, its renewal
      and its unlock change nothing in the store and report that the lock is not held. */
  lemma StaleHolderChangesNothing(run: seq<Action>, token: nat, f: Fault)
    requires Exec(INIT, run).Some?
    requires var w := Exec(INIT, run).value; token in w.leases && w.leases[token].until <= w.now
    ensures var w := Exec(INIT, run).value;
      && Enabled(w, Renew(token, f)) && Enabled(w, Unlock(token, f))
      && Apply(w, Renew(token, f)) == w && Apply(w, Unlock(token, f)) == w
      && !UnlockScript(w.stored, token, w.now, f).1
  {
    RunKeepsInv(run);
  }

  /** Between renewals: a lock that was never given up is held as long as less than the lease has
      passed since it was last granted. */
  lemma HeldBetweenRenewals(run: seq<Action>, token: nat)
    requires Exec(INIT, run).Some?
    requires forall i, f :: 0 <= i < |run| ==> run[i] != Unlock(token, f)
    requires var w := Exec(INIT, run).value;
      token in w.leases && w.now < w.leases[token].granted + RenewMs(w.leases[token].expire)
    ensures Holds(Exec(INIT, run).value.stored, token, Exec(INIT, run).value.now)
  {
    RunKeepsInv(run);
    UntilFollowsGrant(run, token);
  }

  lemma {:induction false} UntilFollowsGrant(run: seq<Action>, token: nat)
    requires Exec(INIT, run).Some? && token in Exec(INIT, run).value.leases
    requires forall i, f :: 0 <= i < |run| ==> run[i] != Unlock(token, f)
    ensures var l := Exec(INIT, run).value.leases[token];
      l.expire > 0 && l.until >= l.granted + RenewMs(l.expire)
  {
    if run != [] {
      var last := |run| - 1;
      if token in Exec(INIT, run[..last]).value.leases {
        UntilFollowsGrant(run[..last], token);
      }
    }
  }

  /** Exactly when a successful renewal keeps the lock: the lease is at least a millisecond.
      A shorter one makes the first renewal delete the key while the holder is told that it still
      has it, so that another client can acquire at once. */
  lemma RenewalKeepsLockIffWholeMillisecond(w: World, token: nat, other: nat, expire: int)
    requires token in w.leases && w.leases[token].expire > 0 && Holds(w.stored, token, w.now)
    requires other !in w.leases && expire > 0
    ensures var w' := Apply(w, Renew(token, NoFault));
      && RenewScript(w.stored, token, RenewMs(w.leases[token].expire), w.now, NoFault).1
      && (Holds(w'.stored, token, w'.now) <==> w.leases[token].expire >= 1_000_000)
      && (Holds(Apply(w', TryLock(other, expire, NoFault)).stored, other, w'.now) <==>
            w.leases[token].expire < 1_000_000)
  {
  }
}
