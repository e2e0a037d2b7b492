/** Where the drafts of an event come from: the rule engine, or a rule that is built in and stands in
    for it.
  */
module RuleFallback {
  import opened RuleEngine

  const HARDCODED_RULE: int := 0

  /** An intrusion at a door; an event that does not tell its device type may be one. */
  predicate MatchesIntrusion(e: Event) {
    e.kind == "intrusion" && (e.deviceType == "" || e.deviceType == "access_control")
  }

  /** What is raised without the engine. */
  function Fallback(disabled: bool, e: Event): (drafts: seq<Draft>)
    ensures drafts == [Draft(0, 0)] || drafts == []
    ensures drafts != [] <==>
      !disabled && e.kind == "intrusion" && (e.deviceType == "access_control" || e.deviceType == "")
  {
    if disabled || !MatchesIntrusion(e) then [] else [Draft(HARDCODED_RULE, 0)]
  }

  /** One look at the rule table: when, and whether it can be read. */
  datatype Look = Look(now: int, up: bool)

  /** The engine is there, can tell its rules and has some. */
  predicate Consulted(engine: Engine?, table: int -> seq<Rule>, look: Look)
    reads engine
  {
    engine != null && (look.up || engine.Fresh(look.now)) && engine.Current(table, look.now) != []
  }

  /** The drafts of an event. Rules are looked for first and then evaluated, with a look at the table
      each. Only the second look and the rules can make it fail: a table that cannot be read at first
      is taken for an empty one, so that the event is answered by the built-in rule, or by nothing. */
  method EvaluateRules(engine: Engine?, disabled: bool, env: Env, e: Event, store: WindowStore,
                       table: int -> seq<Rule>, first: Look, second: Look)
    returns (drafts: seq<Draft>, ok: bool)
    requires engine != null ==> engine.Valid(table) && engine.invalidatedAt <= first.now <= second.now
    requires forall t :: DistinctIds(table(t))
    modifies engine, store
    ensures engine != null ==> engine.Valid(table) && engine.invalidatedAt == old(engine.invalidatedAt)
    ensures !old(Consulted(engine, table, first)) ==>
      ok && drafts == Fallback(disabled, e) && store.windows == old(store.windows)
    ensures engine != null && !first.up && !old(engine.Fresh(first.now)) ==> ok && drafts == Fallback(disabled, e)
    ensures old(Consulted(engine, table, first)) ==>
      || (exists t :: t >= engine.invalidatedAt && (t == second.now || second.now - t < engine.ttl)
            && Evaluated(env, e, old(store.windows), table(t), store.windows, drafts, ok))
      || (!second.up && !ok && drafts == [] && store.windows == old(store.windows))
  {
    if engine != null {
      var has := engine.HasRules(table, first.now, first.up);
      if has {
        drafts, ok := engine.Evaluate(env, e, store, table, second.now, second.up);
        return;
      }
    }
    return Fallback(disabled, e), true;
  }
}
