/** The shared key store behind message deduplication and cooldown windows.

    Every call may fail in two ways: the request never reached the store, or it took effect
    and only the reply was lost. Time to live is modelled by the transition systems that use
    this module, which let a key disappear at any moment.
  */
module KeyStore {

  datatype Fault = NoFault | Lost | Late {
    predicate TakesEffect() { this != Lost }
    predicate Reports() { this == NoFault }
  }

  /** What the caller of a store call learns. */
  datatype Reply = Answer(present: bool) | Unavailable

  /** Set-if-absent: `Answer(true)` means that the key was there already. */
  function SetIfAbsent<K, V>(m: map<K, V>, k: K, v: V, f: Fault): (r: (map<K, V>, Reply))
    ensures k in m ==> r.0 == m
    ensures k !in m && f.TakesEffect() ==> r.0 == m[k := v]
    ensures !f.TakesEffect() ==> r.0 == m
    ensures r.1 == if f.Reports() then Answer(k in m) else Unavailable
  {
    (if f.TakesEffect() && k !in m then m[k := v] else m,
     if f.Reports() then Answer(k in m) else Unavailable)
  }

  /** Delete; an absent key is not an error. */
  function Delete<K, V>(m: map<K, V>, k: K, f: Fault): (r: map<K, V>)
    ensures f.TakesEffect() ==> k !in r
    ensures forall x :: x in r ==> x in m && r[x] == m[x]
    ensures forall x :: x in m && (x != k || !f.TakesEffect()) ==> x in r
  {
    if f.TakesEffect() then m - {k} else m
  }
}
