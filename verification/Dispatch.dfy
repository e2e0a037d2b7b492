/** Who gets a work order: skill first, then nearness, then the lighter load. */
module Dispatch {
  import opened Options

  // ----- Zone codes such as A-3F-301

  predicate Cut(c: char) { c == '-' || c == '/' }

  /** Without leading and trailing dashes and slashes. */
  function Trim(s: string): string {
    if s == [] then s
    else if Cut(s[0]) then Trim(s[1..])
    else if Cut(s[|s| - 1]) then Trim(s[..|s| - 1])
    else s
  }

  /** What is cut off are dashes and slashes, and none is left at either end. */
  lemma {:induction false} TrimCuts(s: string) returns (i: nat, j: nat)
    ensures i <= j <= |s| && Trim(s) == s[i..j]
    ensures forall k :: 0 <= k < i || j <= k < |s| ==> s[k] == '-' || s[k] == '/'
    ensures i < j ==> s[i] !in {'-', '/'} && s[j - 1] !in {'-', '/'}
  {
    i, j := 0, |s|;
    if s != [] {
      if Cut(s[0]) {
        i, j := TrimCuts(s[1..]);
        assert s[1..][i..j] == s[i + 1..j + 1];
        i, j := i + 1, j + 1;
      } else if Cut(s[|s| - 1]) {
        i, j := TrimCuts(s[..|s| - 1]);
        assert s[..|s| - 1][i..j] == s[i..j];
      }
    }
  }

  /** Where the first dash is, or the length. */
  function DashAt(s: string): (i: nat)
    ensures i <= |s| && NoDash(s, i) && (i < |s| ==> s[i] == '-')
  {
    if s == [] || s[0] == '-' then 0 else 1 + DashAt(s[1..])
  }

  predicate NoDash(s: string, n: nat)
    requires n <= |s|
  {
    forall k :: 0 <= k < n ==> s[k] != '-'
  }

  function Split(s: string): (parts: seq<string>)
    ensures parts != []
  {
    var i := DashAt(s);
    if i == |s| then [s] else [s[..i]] + Split(s[i + 1..])
  }

  function Join(parts: seq<string>): string
    requires parts != []
  {
    if |parts| == 1 then parts[0] else parts[0] + "-" + Join(parts[1..])
  }

  /** Splitting loses nothing, and no part has a dash. */
  lemma {:induction false} JoinSplit(s: string)
    ensures Join(Split(s)) == s
    ensures forall p :: p in Split(s) ==> '-' !in p
  {
    var i := DashAt(s);
    if i < |s| {
      var rest := s[i + 1..];
      JoinSplit(rest);
      var parts := Split(s);
      assert parts == [s[..i]] + Split(rest) && parts[1..] == Split(rest);
      assert s == s[..i] + "-" + rest;
      assert '-' !in s[..i];
    }
  }

  lemma SplitFirst(p: string, rest: string)
    requires '-' !in p
    ensures Split(p + "-" + rest) == [p] + Split(rest)
  {
    var s := p + "-" + rest;
    assert NoDash(s, |p|) by {
      forall k | 0 <= k < |p| ensures s[k] != '-' {
        assert s[k] in p;
      }
    }
    assert s[|p|] == '-';
    DashIsAt(s, |p|);
    assert s[..|p|] == p && s[|p| + 1..] == rest;
  }

  /** It is the only way to cut at dashes. */
  lemma {:induction false} SplitJoin(parts: seq<string>)
    requires parts != [] && forall p :: p in parts ==> '-' !in p
    ensures Split(Join(parts)) == parts
  {
    assert parts[0] in parts && parts == [parts[0]] + parts[1..];
    if |parts| == 1 {
      assert NoDash(parts[0], |parts[0]|);
      DashIsAt(parts[0], |parts[0]|);
    } else {
      SplitJoin(parts[1..]);
      SplitFirst(parts[0], Join(parts[1..]));
    }
  }

  lemma DashIsAt(s: string, i: nat)
    requires i <= |s| && NoDash(s, i) && (i < |s| ==> s[i] == '-')
    ensures DashAt(s) == i
  {
    assert DashAt(s) < |s| ==> s[DashAt(s)] == '-';
  }

  function Parts(s: string): (parts: seq<string>)
    ensures parts != []
  {
    Split(Trim(s))
  }

  function FloorKey(s: string): string {
    var p := Parts(s);
    if |p| >= 2 then p[0] + "-" + p[1] else p[0]
  }

  function BuildingKey(s: string): string { Parts(s)[0] }

  /** A floor is in one building. */
  lemma FloorHasBuilding(a: string, b: string)
    requires FloorKey(a) == FloorKey(b)
    ensures BuildingKey(a) == BuildingKey(b)
  {
    FloorStartsWithBuilding(a);
    FloorStartsWithBuilding(b);
  }

  lemma FloorStartsWithBuilding(s: string)
    ensures var f, b := FloorKey(s), BuildingKey(s);
      DashAt(f) == |b| && f[..|b|] == b
  {
    JoinSplit(Trim(s));
    var f, b := FloorKey(s), BuildingKey(s);
    assert b in Parts(s);
    assert f[..|b|] == b;
    DashIsAt(f, |b|);
  }

  const FAR: int := 3

  function ZoneDistance(a: string, b: string): (d: int)
    ensures 0 <= d <= FAR
  {
    if a == "" || b == "" then 3
    else if a == b then 0
    else if FloorKey(a) == FloorKey(b) then 1
    else if BuildingKey(a) == BuildingKey(b) then 2
    else 3
  }

  /** The distance is an ultrametric, but for zones that are unknown: those are far from
      everything, from themselves too. */
  lemma ZonesFormUltrametric(a: string, b: string, c: string)
    ensures ZoneDistance(a, b) == ZoneDistance(b, a)
    ensures ZoneDistance(a, c) <= ZoneDistance(a, b) || ZoneDistance(a, c) <= ZoneDistance(b, c)
    ensures ZoneDistance(a, b) == 0 <==> a == b != ""
  {
    if FloorKey(a) == FloorKey(b) {
      FloorHasBuilding(a, b);
    }
    if FloorKey(b) == FloorKey(c) {
      FloorHasBuilding(b, c);
    }
  }

  /** Zones are on one floor exactly if the first two parts of their codes agree, or the only one. */
  lemma SameFloorIff(a: string, b: string)
    ensures FloorKey(a) == FloorKey(b) <==>
      var p, q := Parts(a), Parts(b);
      p[0] == q[0] && (|p| >= 2 <==> |q| >= 2) && (|p| >= 2 ==> p[1] == q[1])
  {
    FloorInParts(a);
    FloorInParts(b);
  }

  lemma FloorInParts(s: string)
    ensures var f, p := FloorKey(s), Parts(s);
      && DashAt(f) == |p[0]| && f[..|p[0]|] == p[0]
      && (|p| >= 2 <==> DashAt(f) < |f|)
      && (|p| >= 2 ==> f[|p[0]| + 1..] == p[1])
  {
    FloorStartsWithBuilding(s);
  }

  /** In the parts of the codes: the same zone, the same first two parts, the same first part. */
  lemma DistanceInParts(a: string, b: string)
    requires a != "" && b != ""
    ensures var p, q, d := Parts(a), Parts(b), ZoneDistance(a, b);
      && (d == 0 <==> a == b)
      && (d <= 1 <==> p[0] == q[0] && (|p| >= 2 <==> |q| >= 2) && (|p| >= 2 ==> p[1] == q[1]))
      && (d <= 2 <==> p[0] == q[0])
  {
    DistanceMeans(a, b);
    SameFloorIff(a, b);
  }

  /** Nested: to be at most so far is the same zone, the same floor or the same building. */
  lemma DistanceMeans(a: string, b: string)
    requires a != "" && b != ""
    ensures ZoneDistance(a, b) <= 1 <==> FloorKey(a) == FloorKey(b)
    ensures ZoneDistance(a, b) <= 2 <==> BuildingKey(a) == BuildingKey(b)
  {
    if FloorKey(a) == FloorKey(b) {
      FloorHasBuilding(a, b);
    }
  }

  // ----- Scores

  const LOAD_CAP: int := 99

  datatype Candidate = Candidate(id: int, name: string, zone: string, skills: seq<string>, load: int) {
    /** `norm` trims space and ignores case. A skill of blanks only is nobody's. */
    predicate HasSkill(norm: string -> string, skill: string) {
      norm(skill) != "" && exists i :: 0 <= i < |skills| && norm(skills[i]) == norm(skill)
    }
  }

  /** What a candidate is judged by. */
  datatype Rating = Rating(skill: bool, distance: int, load: int) {
    function Capped(): int { if load > LOAD_CAP then LOAD_CAP else load }

    function Score(): int {
      (if skill then 10000 else 0) + 100 * (FAR - distance) + (LOAD_CAP - Capped())
    }

    /** Skill, then distance, then load. */
    predicate BetterThan(o: Rating) {
      || (skill && !o.skill)
      || (skill == o.skill && distance < o.distance)
      || (skill == o.skill && distance == o.distance && Capped() < o.Capped())
    }

    predicate Valid() { 0 <= distance <= FAR }
  }

  function Explain(norm: string -> string, zone: string, skill: string, c: Candidate): (r: Rating)
    ensures r.Valid() && r.load == c.load
    ensures skill == "" ==> r.skill
  {
    Rating(skill == "" || c.HasSkill(norm, skill), ZoneDistance(zone, c.zone), c.load)
  }

  /** For loads that are not negative the sum orders as the three criteria do, one after the other. */
  lemma ScoreIsLexicographic(a: Rating, b: Rating)
    requires a.Valid() && b.Valid() && a.load >= 0 && b.load >= 0
    ensures a.Score() > b.Score() <==> a.BetterThan(b)
    ensures a.Score() == b.Score() <==> a.skill == b.skill && a.distance == b.distance && a.Capped() == b.Capped()
  {
  }

  /** And zero is the lowest bound on loads for which they do. It is no more than a remark on the weights:
      loads are counted in the database, so that no candidate has a negative one. */
  lemma LexicographicIff(least: int)
    ensures (forall a: Rating, b: Rating :: a.Valid() && b.Valid() && a.load >= least && b.load >= least ==>
               (a.Score() > b.Score() <==> a.BetterThan(b))) <==> least >= 0
  {
    if least < 0 {
      var near, idle := Rating(true, 1, LOAD_CAP), Rating(true, 2, -1);
      assert near.BetterThan(idle) && near.Score() <= idle.Score();
    }
  }

  // ----- The choice

  /** The first candidate with the highest score; nobody only if there is nobody. */
  predicate IsChoice(norm: string -> string, zone: string, skill: string, candidates: seq<Candidate>, k: nat) {
    && k < |candidates|
    && (forall j :: 0 <= j < |candidates| ==>
          Explain(norm, zone, skill, candidates[j]).Score() <= Explain(norm, zone, skill, candidates[k]).Score())
    && (forall j :: 0 <= j < k ==>
          Explain(norm, zone, skill, candidates[j]).Score() < Explain(norm, zone, skill, candidates[k]).Score())
  }

  method Pick(norm: string -> string, zone: string, skill: string, candidates: seq<Candidate>)
    returns (r: Option<Candidate>)
    ensures r.None? <==> candidates == []
    ensures r.Some? ==> exists k: nat :: IsChoice(norm, zone, skill, candidates, k) && r.value == candidates[k]
  {
    if |candidates| == 0 {
      return None;
    }
    var best, bestScore := candidates[0], Explain(norm, zone, skill, candidates[0]).Score();
    ghost var k: nat := 0;
    for n := 1 to |candidates|
      invariant k < n && best == candidates[k] && bestScore == Explain(norm, zone, skill, best).Score()
      invariant forall j :: 0 <= j < n ==> Explain(norm, zone, skill, candidates[j]).Score() <= bestScore
      invariant forall j :: 0 <= j < k ==> Explain(norm, zone, skill, candidates[j]).Score() < bestScore
    {
      var s := Explain(norm, zone, skill, candidates[n]).Score();
      if s > bestScore {
        best, bestScore, k := candidates[n], s, n;
      }
    }
    assert IsChoice(norm, zone, skill, candidates, k);
    r := Some(best);
  }

  /** There is one choice only. No other candidate is better in the order of skill, distance and
      load, and none before it is as good. Hence if anyone has the skill, so has the choice. */
  lemma ChoiceIsFirstOfBest(norm: string -> string, zone: string, skill: string, candidates: seq<Candidate>, k: nat,
                            j: nat)
    requires IsChoice(norm, zone, skill, candidates, k) && j < |candidates|
    requires candidates[j].load >= 0 && candidates[k].load >= 0
    ensures var chosen, other := Explain(norm, zone, skill, candidates[k]), Explain(norm, zone, skill, candidates[j]);
      && !other.BetterThan(chosen)
      && (j < k ==> chosen.BetterThan(other))
      && (other.skill ==> chosen.skill)
      && (IsChoice(norm, zone, skill, candidates, j) ==> j == k)
  {
    var chosen, other := Explain(norm, zone, skill, candidates[k]), Explain(norm, zone, skill, candidates[j]);
    ScoreIsLexicographic(chosen, other);
    ScoreIsLexicographic(other, chosen);
  }

  // ----- The choice in terms of skills, zones and loads

  /** The candidate will do: no skill is asked for, or it has one that reads the same. */
  predicate Skilled(norm: string -> string, skill: string, c: Candidate) {
    skill == "" || (norm(skill) != "" && exists s :: s in c.skills && norm(s) == norm(skill))
  }

  function CappedLoad(c: Candidate): int { if c.load > 99 then 99 else c.load }

  /** One candidate is preferred to another: by skill, then by nearness, then by load up to 99. */
  predicate Preferred(norm: string -> string, zone: string, skill: string, a: Candidate, b: Candidate) {
    if Skilled(norm, skill, a) != Skilled(norm, skill, b) then Skilled(norm, skill, a)
    else if ZoneDistance(zone, a.zone) != ZoneDistance(zone, b.zone) then
      ZoneDistance(zone, a.zone) < ZoneDistance(zone, b.zone)
    else CappedLoad(a) < CappedLoad(b)
  }

  lemma ExplainsPreference(norm: string -> string, zone: string, skill: string, a: Candidate, b: Candidate)
    ensures Explain(norm, zone, skill, a).BetterThan(Explain(norm, zone, skill, b)) <==>
      Preferred(norm, zone, skill, a, b)
  {
    SkillFound(norm, skill, a);
    SkillFound(norm, skill, b);
  }

  lemma SkillFound(norm: string -> string, skill: string, c: Candidate)
    ensures Explain(norm, "", skill, c).skill <==> Skilled(norm, skill, c)
  {
    if s :| s in c.skills && norm(s) == norm(skill) {
      var i :| 0 <= i < |c.skills| && c.skills[i] == s;
    }
  }

  /** Nobody is preferred to the choice, and the choice is preferred to everybody before it. */
  lemma ChoiceIsPreferred(norm: string -> string, zone: string, skill: string, candidates: seq<Candidate>, k: nat,
                          j: nat)
    requires IsChoice(norm, zone, skill, candidates, k) && j < |candidates|
    requires candidates[j].load >= 0 && candidates[k].load >= 0
    ensures !Preferred(norm, zone, skill, candidates[j], candidates[k])
    ensures j < k ==> Preferred(norm, zone, skill, candidates[k], candidates[j])
  {
    ChoiceIsFirstOfBest(norm, zone, skill, candidates, k, j);
    ExplainsPreference(norm, zone, skill, candidates[j], candidates[k]);
    ExplainsPreference(norm, zone, skill, candidates[k], candidates[j]);
  }
}
