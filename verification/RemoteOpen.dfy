/** The remote-open handler in its imperative form, with its audit trail and access records. */
module RemoteOpen {
  import opened Options
  import opened KeyStore
  import opened RemoteOpenProtocol

  // ----- Authorisation

  /** What the permission table says of the operator and the door. */
  datatype Lookup = LookupError | NoPermission | Permission(validNow: bool)

  /** A permission decides alone; only without one, or if the table cannot be read, does the
      device allowlist decide. */
  function Authorized(configured: bool, lookup: Lookup, allowlist: set<string>, device: string): (ok: bool)
    ensures configured && lookup.Permission? ==> (ok <==> lookup.validNow)
    ensures !configured || !lookup.Permission? ==> (ok <==> device in allowlist)
    ensures ok ==> device in allowlist || (configured && lookup == Permission(true))
    ensures allowlist == {} ==> (ok <==> configured && lookup == Permission(true))
  {
    if configured && lookup.Permission? then lookup.validNow else device in allowlist
  }

  // ----- The handler

  datatype Result = ResultOk | ResultFail | ResultTimeout

  datatype AuditEntry = AuditEntry(tenant: int, operator: int, device: string, result: Result)

  datatype AccessRecord = AccessRecord(tenant: int, operator: int, device: string, ok: bool)

  /** A request that passed parameter validation. */
  datatype Params = Params(tenant: int, operator: int, device: string, request: string)

  /** What one request meets: the faults of the two calls to the key store, the permission lookup,
      the device's reply and what the door did, and whether the two log entries could be written. */
  datatype Env = Env(claim: Fault, lookup: Lookup, reply: RemoteOpenProtocol.Reply, door: bool, release: Fault,
                     auditOk: bool, recordOk: bool)
  {
    /** A door that is reported open is open. */
    predicate DoorOpens() { door || reply.Success? }

    function Result(): Result {
      match reply case Success => ResultOk case Failure => ResultFail case Timeout => ResultTimeout
    }
  }

  function KeyOf(p: Params, dedup: bool): Option<Key> {
    if p.request == "" || !dedup then None else Some(Key(p.tenant, p.request))
  }

  /** Two requests share a key exactly if they are deduplicated and have the same tenant and the same id,
      which is not empty. */
  lemma KeysSharedIff(p: Params, q: Params, dedup: bool)
    ensures KeyOf(p, dedup).Some? && KeyOf(p, dedup) == KeyOf(q, dedup) <==>
      dedup && p.tenant == q.tenant && p.request == q.request != ""
  {
  }

  class RemoteOpenService {
    const dedup: bool
    const permissions: bool
    const allowlist: set<string>
    var keys: map<Key, nat>
    var audit: seq<AuditEntry>
    var records: seq<AccessRecord>
    ghost var requests: map<nat, Request>
    ghost var opens: seq<nat>
    ghost var silent: seq<nat>
    ghost var orphans: set<nat>
    ghost var run: seq<Action>

    ghost function View(): World
      reads this
    {
      World(keys, requests, opens, silent, orphans)
    }

    ghost predicate Valid()
      reads this
    {
      Exec(INIT, run) == Some(View())
    }

    constructor (dedup: bool, permissions: bool, allowlist: set<string>)
      ensures Valid() && View() == INIT && audit == [] && records == []
      ensures this.dedup == dedup && this.permissions == permissions && this.allowlist == allowlist
    {
      this.dedup, this.permissions, this.allowlist := dedup, permissions, allowlist;
      keys, audit, records := map[], [], [];
      requests, opens, silent, orphans, run := map[], [], [], {}, [];
    }

    ghost method Record(a: Action, before: World)
      requires Exec(INIT, run) == Some(before) && Enabled(before, a)
      requires Apply(before, a).keys == keys
      modifies this`requests, this`opens, this`silent, this`orphans, this`run
      ensures Valid() && View() == Apply(before, a) && run == old(run) + [a]
    {
      var w := Apply(before, a);
      requests, opens, silent, orphans := w.requests, w.opens, w.silent, w.orphans;
      run := run + [a];
      assert run[..|run| - 1] == old(run);
    }

    /** The store after the key is given back, for a request that has one. */
    function Released(keys: map<Key, nat>, key: Option<Key>, f: Fault): map<Key, nat> {
      if key.Some? then Delete(keys, key.value, f) else keys
    }

    /** Claim the key of the request; `Answer(true)` means that it was accepted before. */
    method IsDuplicate(id: nat, key: Option<Key>, f: Fault) returns (reply: KeyStore.Reply)
      requires Valid() && At(View(), id, Check) && requests[id].key == key
      modifies this`keys, this`requests, this`opens, this`silent, this`orphans, this`run
      ensures Valid() && run == old(run) + [Claim(id, f)] && opens == old(opens)
      ensures (keys, reply) ==
        if key.Some? then SetIfAbsent(old(keys), key.value, id, f) else (old(keys), Answer(false))
      ensures requests == old(requests)[id := Request(key, match reply
        case Unavailable => Done(DedupUnavailable)
        case Answer(true) => Done(Duplicate)
        case Answer(false) => Authorize)]
    {
      ghost var before := View();
      if key.None? {
        reply := Answer(false);
      } else {
        var r := SetIfAbsent(keys, key.value, id, f);
        keys, reply := r.0, r.1;
      }
      Record(Claim(id, f), before);
    }

    method ReleaseDuplicate(id: nat, key: Option<Key>, f: Fault)
      requires Valid() && (At(View(), id, Denied) || At(View(), id, Failed)) && requests[id].key == key
      modifies this`keys, this`requests, this`opens, this`silent, this`orphans, this`run
      ensures Valid() && run == old(run) + [GiveBack(id, f)] && opens == old(opens)
      ensures keys == Released(old(keys), key, f)
      ensures requests == old(requests)[id := Request(key,
        Done(if old(requests)[id].pc.Denied? then Forbidden else OpenFailed))]
    {
      ghost var before := View();
      if key.Some? {
        keys := Delete(keys, key.value, f);
      }
      Record(GiveBack(id, f), before);
    }

    /** Send the command. The door may open whatever is answered, and does if success is. */
    method SendCommand(id: nat, env: Env) returns (result: Result)
      requires Valid() && At(View(), id, Sending)
      modifies this`requests, this`opens, this`silent, this`orphans, this`run
      ensures Valid() && run == old(run) + [Command(id, env.reply, env.DoorOpens())]
      ensures opens == if env.DoorOpens() then old(opens) + [id] else old(opens)
      ensures result == env.Result()
      ensures requests == old(requests)[id := Request(old(requests)[id].key,
        if result.ResultOk? then Done(Opened) else Failed)]
    {
      Record(Command(id, env.reply, env.DoorOpens()), View());
      result := env.Result();
    }

    /** Append to the audit trail and the access records; a failing write goes unnoticed. */
    method Log(p: Params, result: Result, env: Env)
      modifies this`audit, this`records
      ensures Logged(p, result, env)
    {
      if env.auditOk {
        audit := audit + [AuditEntry(p.tenant, p.operator, p.device, result)];
      }
      if env.recordOk {
        records := records + [AccessRecord(p.tenant, p.operator, p.device, result.ResultOk?)];
      }
    }

    /** Each log has one more entry with the true result, if it could be written. */
    twostate predicate Logged(p: Params, result: Result, env: Env)
      reads this
    {
      && audit == old(audit) + (if env.auditOk then [AuditEntry(p.tenant, p.operator, p.device, result)] else [])
      && records == old(records)
           + (if env.recordOk then [AccessRecord(p.tenant, p.operator, p.device, result.ResultOk?)] else [])
    }

    /** Send the command, log its result, and give the key back unless the device confirmed. */
    method Deliver(id: nat, p: Params, key: Option<Key>, env: Env) returns (answer: RemoteOpenProtocol.Answer)
      requires Valid() && At(View(), id, Sending) && requests[id].key == key
      modifies this
      ensures Valid() && requests == old(requests)[id := Request(key, Done(answer))]
      ensures opens == if env.DoorOpens() then old(opens) + [id] else old(opens)
      ensures answer == if env.reply.Success? then Opened else OpenFailed
      ensures keys == if env.reply.Success? then old(keys) else Released(old(keys), key, env.release)
      ensures Logged(p, env.Result(), env)
    {
      var result := SendCommand(id, env);
      Log(p, result, env);
      if !result.ResultOk? {
        ReleaseDuplicate(id, key, env.release);
        return OpenFailed;
      }
      return Opened;
    }

    /** The part after the claim. */
    method Perform(id: nat, p: Params, key: Option<Key>, env: Env) returns (answer: RemoteOpenProtocol.Answer)
      requires Valid() && At(View(), id, Authorize) && requests[id].key == key
      modifies this
      ensures Valid() && requests == old(requests)[id := Request(key, Done(answer))]
      ensures var allowed := Authorized(permissions, env.lookup, allowlist, p.device);
        && answer == (if !allowed then Forbidden else if env.reply.Success? then Opened else OpenFailed)
        && opens == (if allowed && env.DoorOpens() then old(opens) + [id] else old(opens))
        && keys == (if answer.Opened? then old(keys) else Released(old(keys), key, env.release))
        && Logged(p, if allowed then env.Result() else ResultFail, env)
    {
      var allowed := Authorized(permissions, env.lookup, allowlist, p.device);
      Record(Decide(id, allowed), View());
      if allowed {
        answer := Deliver(id, p, key, env);
      } else {
        Log(p, ResultFail, env);
        ReleaseDuplicate(id, key, env.release);
        answer := Forbidden;
      }
    }

    /** Every key in the store was claimed by a request of its tenant with its id. */
    lemma KeyHasOwner(k: Key)
      requires Valid() && k in keys
      ensures keys[k] in requests && requests[keys[k]].key == Some(k)
    {
      KeysAreOwned(run, k);
    }

    /** From the claim of the key to the answer. */
    method Process(id: nat, p: Params, key: Option<Key>, env: Env) returns (answer: RemoteOpenProtocol.Answer)
      requires Valid() && At(View(), id, Check) && requests[id].key == key
      modifies this
      ensures Valid() && requests == old(requests)[id := Request(key, Done(answer))]
      ensures answer ==
        if key.Some? && !env.claim.Reports() then DedupUnavailable
        else if key.Some? && key.value in old(keys) then Duplicate
        else if !Authorized(permissions, env.lookup, allowlist, p.device) then Forbidden
        else if env.reply.Success? then Opened else OpenFailed
      ensures opens == if (answer.Opened? || answer.OpenFailed?) && env.DoorOpens() then old(opens) + [id]
        else old(opens)
      ensures answer.Duplicate? || answer.DedupUnavailable? ==> audit == old(audit) && records == old(records)
      ensures answer.Forbidden? ==> Logged(p, ResultFail, env)
      ensures answer.Opened? || answer.OpenFailed? ==> Logged(p, env.Result(), env)
      ensures forall k :: key != Some(k) ==> (k in keys <==> k in old(keys))
      ensures key.Some? ==>
        (key.value in keys <==>
           match answer
           case Duplicate => true
           case DedupUnavailable => key.value in old(keys) || env.claim.TakesEffect()
           case Opened => true
           case _ => !env.release.TakesEffect())
    {
      var claimed := IsDuplicate(id, key, env.claim);
      if claimed.Unavailable? {
        return DedupUnavailable;
      }
      if claimed.present {
        return Duplicate;
      }
      answer := Perform(id, p, key, env);
    }

    /** Handle one request. Nothing is commanded or logged for a duplicate or without a verdict of
        the key store; nothing is commanded without authorisation; whatever was commanded is logged
        with its true result; and the key stays exactly if the device confirmed or the release
        never reached the store. A duplicate follows an earlier request of the same tenant with the
        same id, and no key but that of this tenant and id is touched. */
    method Open(id: nat, p: Params, env: Env) returns (answer: RemoteOpenProtocol.Answer)
      requires Valid() && id !in requests
      modifies this
      ensures Valid()
      ensures requests == old(requests)[id := Request(
        if dedup && p.request != "" then Some(Key(p.tenant, p.request)) else None, Done(answer))]
      ensures answer ==
        if dedup && p.request != "" && !env.claim.Reports() then DedupUnavailable
        else if dedup && p.request != "" && Key(p.tenant, p.request) in old(keys) then Duplicate
        else if !Authorized(permissions, env.lookup, allowlist, p.device) then Forbidden
        else if env.reply.Success? then Opened else OpenFailed
      ensures answer.Duplicate? ==>
        exists h :: h in old(requests) && old(requests)[h].key == Some(Key(p.tenant, p.request))
      ensures opens == if (answer.Opened? || answer.OpenFailed?) && (env.door || env.reply.Success?)
        then old(opens) + [id] else old(opens)
      ensures answer.Duplicate? || answer.DedupUnavailable? ==> audit == old(audit) && records == old(records)
      ensures answer.Forbidden? ==> Logged(p, ResultFail, env)
      ensures answer.Opened? || answer.OpenFailed? ==>
        match env.reply
        case Success => Logged(p, ResultOk, env)
        case Failure => Logged(p, ResultFail, env)
        case Timeout => Logged(p, ResultTimeout, env)
      ensures forall tenant, request :: tenant != p.tenant || request != p.request || !dedup || request == "" ==>
        (Key(tenant, request) in keys <==> Key(tenant, request) in old(keys))
      ensures dedup && p.request != "" ==>
        (Key(p.tenant, p.request) in keys <==>
           match answer
           case Duplicate => true
           case DedupUnavailable => Key(p.tenant, p.request) in old(keys) || env.claim.TakesEffect()
           case Opened => true
           case _ => !env.release.TakesEffect())
    {
      var key := KeyOf(p, dedup);
      if key.Some? && key.value in keys {
        KeyHasOwner(key.value);
      }
      Record(Arrive(id, key), View());
      answer := Process(id, p, key, env);
    }
  }
}
