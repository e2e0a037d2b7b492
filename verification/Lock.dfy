/** The lock objects: `Locker` owns the key, a `Handle` is one successful acquisition.

    The locker records the commands it carries out. Its `run` is always a run of the transition
    system that ends in the present state, so that the theorems on exclusion apply to the objects.
  */
module Lock {
  import opened Options
  import opened KeyStore
  import opened LockProtocol

  datatype LockError = BadExpire | AlreadyAcquired | NotHeld | StoreError

  class Locker {
    var stored: Option<Entry>
    ghost var now: int
    ghost var leases: map<nat, Lease>
    ghost var acquired: nat
    ghost var run: seq<Action>

    ghost function View(): World
      reads this
    {
      World(stored, now, leases, acquired)
    }

    ghost predicate Valid()
      reads this
    {
      Exec(INIT, run) == Some(View())
    }

    constructor ()
      ensures Valid() && View() == INIT
    {
      stored, now, leases, acquired, run := None, 0, map[], 0, [];
    }

    /** What is recorded of a command at time `t`. */
    ghost method Record(t: int, a: Action, before: World)
      requires Exec(INIT, run) == Some(before) && t >= before.now
      requires Enabled(before.(now := t), a) && Apply(before.(now := t), a).stored == stored
      modifies this`now, this`leases, this`acquired, this`run
      ensures Valid() && View() == Apply(before.(now := t), a)
      ensures run == old(run) + [Tick(t - before.now), a]
    {
      ExecSnoc(run, before, Tick(t - before.now));
      ExecSnoc(run + [Tick(t - before.now)], before.(now := t), a);
      var w := Apply(before.(now := t), a);
      now, leases, acquired := w.now, w.leases, w.acquired;
      run := run + [Tick(t - before.now)] + [a];
    }

    /** Acquire without waiting. On success the key holds the token of the new handle, whose
        watchdog runs; otherwise a live key is left as it was. */
    method TryLock(token: nat, expire: int, t: int, f: Fault) returns (h: Handle?, err: Option<LockError>)
      requires Valid() && t >= now && token !in leases
      modifies this
      ensures Valid() && old(run) <= run && (expire > 0 ==> now == t)
      ensures err == if expire <= 0 then Some(BadExpire) else if !f.Reports() then Some(StoreError)
        else if old(stored.Some? && t < stored.value.until) then Some(AlreadyAcquired) else None
      ensures stored == if expire > 0 && !old(stored.Some? && t < stored.value.until) && f.TakesEffect()
        then Some(Entry(token, t + AcquireMs(expire))) else old(stored)
      ensures forall u :: u in old(leases) ==> u in leases && leases[u] == old(leases)[u]
      ensures h != null <==> err.None?
      ensures h != null ==>
        && fresh(h) && h.Valid() && h.l == this && h.token == token && h.expire == expire
        && h.watching && !h.unlocked && leases[token].until == t + AcquireMs(expire)
    {
      h := null;
      if expire <= 0 {
        return null, Some(BadExpire);
      }
      ghost var before := View();
      var r := SetNx(stored, token, AcquireMs(expire), t, f);
      stored := r.0;
      Record(t, LockProtocol.TryLock(token, expire, f), before);
      if !f.Reports() {
        return null, Some(StoreError);
      }
      if !r.1 {
        return null, Some(AlreadyAcquired);
      }
      h := new Handle(this, token, expire);
      err := None;
    }
  }

  class Handle {
    const l: Locker
    const token: nat
    const expire: int
    /** The watchdog goroutine is running. */
    var watching: bool
    /** `Unlock` has run; later calls do nothing. */
    var unlocked: bool

    /** The token was acquired from the locker. */
    ghost predicate Valid()
      reads this, l
    {
      l.Valid() && expire > 0 && token in l.leases && l.leases[token].expire == expire
    }

    /** The lease has time left. */
    ghost predicate Owns()
      reads this, l
    {
      token in l.leases && l.now < l.leases[token].until
    }

    constructor (l: Locker, token: nat, expire: int)
      requires l.Valid() && expire > 0 && token in l.leases && l.leases[token].expire == expire
      ensures Valid() && this.l == l && this.token == token && this.expire == expire && watching && !unlocked
    {
      this.l, this.token, this.expire := l, token, expire;
      watching, unlocked := true, false;
    }

    /** The key has this token, and has not expired. */
    predicate HoldsKey(t: int)
      reads this, l
    {
      l.stored.Some? && l.stored.value.token == token && t < l.stored.value.until
    }

    /** Release the lock, once. Only a key that still holds this token is deleted. */
    method Unlock(t: int, f: Fault) returns (err: Option<LockError>)
      requires Valid() && t >= l.now
      modifies this, l
      ensures Valid()
      ensures l.run == old(l.run)
        + if old(unlocked) then [] else [Tick(t - old(l.now)), LockProtocol.Unlock(token, f)]
      ensures unlocked && watching == (old(watching) && old(unlocked))
      ensures l.stored == if !old(unlocked) && old(HoldsKey(t)) && f.TakesEffect() then None
        else old(l.stored)
      ensures err == if old(unlocked) then None else if !f.Reports() then Some(StoreError)
        else if old(HoldsKey(t)) then None else Some(NotHeld)
    {
      if unlocked {
        return None;
      }
      unlocked, watching := true, false;
      ghost var before := l.View();
      var r := UnlockScript(l.stored, token, t, f);
      l.stored := r.0;
      l.Record(t, LockProtocol.Unlock(token, f), before);
      return if !f.Reports() then Some(StoreError) else if r.1 then None else Some(NotHeld);
    }

    /** One tick of the watchdog: it goes on only if the key still held this token, and then the
        lease starts anew. */
    method Watch(t: int, f: Fault)
      requires Valid() && t >= l.now
      modifies this, l
      ensures Valid() && l.run == old(l.run) + if old(watching) then [Tick(t - old(l.now)), Renew(token, f)] else []
      ensures unlocked == old(unlocked)
      ensures watching <==> old(watching) && f.Reports() && old(HoldsKey(t))
      ensures l.stored == if !old(watching) || !old(HoldsKey(t)) || !f.TakesEffect() then old(l.stored)
        else if expire >= 1_000_000 then Some(Entry(token, t + expire / 1_000_000)) else None
    {
      if !watching {
        return;
      }
      ghost var before := l.View();
      var r := RenewScript(l.stored, token, RenewMs(expire), t, f);
      l.stored := r.0;
      l.Record(t, Renew(token, f), before);
      watching := f.Reports() && r.1;
    }
  }

  /** Exclusion for the objects: two handles of a locker that both have time left are of one acquisition,
      the latest, and its token is in the store. */
  lemma HandlesExclude(a: Handle, b: Handle)
    requires a.Valid() && b.Valid() && a.l == b.l && a.Owns() && b.Owns()
    ensures a.token == b.token && Holds(a.l.stored, a.token, a.l.now)
    ensures a.l.leases[a.token].rank + 1 == a.l.acquired
  {
    AtMostOneOwner(a.l.run, a.token, b.token);
  }
}
