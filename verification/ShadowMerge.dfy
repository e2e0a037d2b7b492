/** Optimistic merging of telemetry into the reported state of one device shadow.

    Any number of mergers read the row, merge their metrics into what they read and write it
    back on condition that the version has not moved; other writers replace the reported or
    desired document under the same condition. Every call may fail in the ways of `Fault`.
  */
module ShadowMerge {
  import opened Options
  import opened KeyStore

  type Metrics = map<string, string>

  /** A stored JSON document. Anything but an object counts as empty when metrics are merged. */
  datatype Doc = Object(fields: Metrics) | Other(text: string) {
    function Fields(): Metrics { if Object? then fields else map[] }
  }

  datatype Row = Row(version: nat, reported: Doc, desired: Doc)

  /** A successful write, in version order. */
  datatype Write =
    | Merged(id: nat, metrics: Metrics)
    | SetReported(doc: Doc)
    | SetDesired(doc: Doc)

  datatype Result = Applied | Exhausted | Error

  datatype Pc = Find | Insert | Update(version: nat, base: Doc) | Done(result: Result)

  /** A call of `mergeReported`; `start` is the number of writes there were when it began
      and `existed` whether the row was there. */
  datatype Merger = Merger(metrics: Metrics, attempt: nat, pc: Pc, start: nat, existed: bool)

  /** `log` lists the successful writes. No step of the program reads it. */
  datatype World = World(row: Option<Row>, mergers: map<nat, Merger>, log: seq<Write>)

  datatype Action =
    | Begin(id: nat, metrics: Metrics)
    | Act(id: nat, fault: Fault)
    | Replace(write: Write, version: nat)

  const MAX_ATTEMPTS: nat := 3

  const EMPTY := Object(map[])

  const NEW_ROW := Row(0, EMPTY, EMPTY)

  const INIT := World(None, map[], [])

  predicate Enabled(w: World, a: Action) {
    match a
    case Begin(id, _) => id !in w.mergers
    case Act(id, _) => id in w.mergers && !w.mergers[id].pc.Done?
    case Replace(write, _) => !write.Merged?
  }

  function ApplyWrite(r: Row, write: Write): Row {
    match write
    case Merged(_, metrics) => Row(r.version + 1, Object(r.reported.Fields() + metrics), r.desired)
    case SetReported(doc) => Row(r.version + 1, doc, r.desired)
    case SetDesired(doc) => Row(r.version + 1, r.reported, doc)
  }

  function Goto(w: World, id: nat, m: Merger): World { w.(mergers := w.mergers[id := m]) }

  function FindStep(w: World, id: nat, m: Merger, f: Fault): World {
    if !f.Reports() then Goto(w, id, m.(pc := Done(Error)))
    else match w.row
      case None => Goto(w, id, m.(pc := Insert))
      case Some(r) => Goto(w, id, m.(pc := Update(r.version, r.reported)))
  }

  /** The unique index on the device makes an insert fail when there is a row already. */
  function InsertStep(w: World, id: nat, m: Merger, f: Fault): World {
    var w' := if w.row.None? && f.TakesEffect() then w.(row := Some(NEW_ROW)) else w;
    Goto(w', id, m.(pc := if w.row.None? && f.Reports() then Update(0, EMPTY) else Done(Error)))
  }

  /** `UPDATE ... WHERE version = ?`, writing what the merger computed from what it read. */
  function UpdateStep(w: World, id: nat, m: Merger, f: Fault): World
    requires m.pc.Update?
  {
    var matches := w.row.Some? && w.row.value.version == m.pc.version;
    var w' :=
      if matches && f.TakesEffect() then
        w.(row := Some(w.row.value.(version := m.pc.version + 1, reported := Object(m.pc.base.Fields() + m.metrics))),
           log := w.log + [Merged(id, m.metrics)])
      else w;
    Goto(w', id,
         if !f.Reports() then m.(pc := Done(Error))
         else if matches then m.(pc := Done(Applied))
         else m.(attempt := m.attempt + 1, pc := if m.attempt + 1 < MAX_ATTEMPTS then Find else Done(Exhausted)))
  }

  function ActStep(w: World, id: nat, m: Merger, f: Fault): World {
    match m.pc
    case Find => FindStep(w, id, m, f)
    case Insert => InsertStep(w, id, m, f)
    case Update(_, _) => UpdateStep(w, id, m, f)
    case Done(_) => w
  }

  function Apply(w: World, a: Action): World
    requires Enabled(w, a)
  {
    match a
    case Begin(id, metrics) => Goto(w, id, Merger(metrics, 0, Find, |w.log|, w.row.Some?))
    case Act(id, f) => ActStep(w, id, w.mergers[id], f)
    case Replace(write, version) =>
      if w.row.Some? && w.row.value.version == version then
        w.(row := Some(ApplyWrite(w.row.value, write)), log := w.log + [write])
      else w
  }

  ghost function Exec(w: World, run: seq<Action>): Option<World> {
    if run == [] then Some(w)
    else
      var last := |run| - 1;
      match Exec(w, run[..last])
      case None => None
      case Some(u) => if Enabled(u, run[last]) then Some(Apply(u, run[last])) else None
  }

  // ----- Linearisation

  /** The row after the writes of `log`, from a new row. */
  function Replay(log: seq<Write>): (r: Row)
    ensures r.version == |log|
  {
    if log == [] then NEW_ROW else ApplyWrite(Replay(log[..|log| - 1]), log[|log| - 1])
  }

  /** How often merger `id` occurs in the log. */
  function Count(log: seq<Write>, id: nat): nat {
    if log == [] then 0
    else
      var last := |log| - 1;
      Count(log[..last], id) + if log[last].Merged? && log[last].id == id then 1 else 0
  }

  /** What a merger read is what the writes up to that version made. */
  ghost predicate MergerOk(w: World, id: nat, m: Merger) {
    && m.start <= |w.log|
    && m.attempt <= MAX_ATTEMPTS
    && m.start + m.attempt <= |w.log|
    && (m.pc.Find? || m.pc.Insert? || m.pc.Update? ==> m.attempt < MAX_ATTEMPTS)
    && (m.pc == Done(Exhausted) ==> m.attempt == MAX_ATTEMPTS)
    && (m.pc.Update? ==>
      && w.row.Some?
      && m.start + m.attempt <= m.pc.version <= |w.log|
      && m.pc.base == Replay(w.log[..m.pc.version]).reported)
    && Count(w.log, id) <= 1
    && (m.pc == Done(Applied) ==> Count(w.log, id) == 1)
    && (!m.pc.Done? || m.pc == Done(Exhausted) ==> Count(w.log, id) == 0)
  }

  ghost predicate Inv(w: World) {
    && (w.row.None? ==> w.log == [])
    && (w.row.Some? ==> w.row.value == Replay(w.log))
    && (forall id :: id in w.mergers ==> MergerOk(w, id, w.mergers[id]))
    && (forall id :: id !in w.mergers ==> Count(w.log, id) == 0)
  }

  lemma Snoc(log: seq<Write>, x: Write)
    ensures Replay(log + [x]) == ApplyWrite(Replay(log), x)
    ensures forall id :: Count(log + [x], id) == Count(log, id) + if x.Merged? && x.id == id then 1 else 0
    ensures forall v :: 0 <= v <= |log| ==> (log + [x])[..v] == log[..v]
  {
    assert (log + [x])[..|log|] == log;
  }

  /** A write by `author` (nobody, for a replacing writer) keeps every other merger's view. */
  lemma WriteKeepsOthers(w: World, w': World, x: Write, id: nat)
    requires Inv(w) && w.row.Some? && w'.row.Some? && w'.log == w.log + [x]
    requires id in w.mergers && (x.Merged? ==> x.id != id)
    ensures MergerOk(w', id, w.mergers[id])
  {
    Snoc(w.log, x);
  }

  /** A successful conditional update is one more write of the log: what the merger read is the
      reported state at the version it matches. */
  lemma UpdateIsWrite(w: World, id: nat, f: Fault)
    requires Inv(w) && id in w.mergers && w.mergers[id].pc.Update? && f.TakesEffect()
    requires w.row.Some? && w.row.value.version == w.mergers[id].pc.version
    ensures var m := w.mergers[id]; var w' := UpdateStep(w, id, m, f);
      && w'.row == Some(Replay(w'.log)) && w'.log == w.log + [Merged(id, m.metrics)]
      && MergerOk(w', id, w'.mergers[id])
  {
    var m := w.mergers[id];
    assert MergerOk(w, id, m);
    assert w.log[..|w.log|] == w.log;
    Snoc(w.log, Merged(id, m.metrics));
  }

  lemma UpdateKeepsInv(w: World, id: nat, f: Fault)
    requires Inv(w) && id in w.mergers && w.mergers[id].pc.Update?
    ensures Inv(UpdateStep(w, id, w.mergers[id], f))
  {
    var m := w.mergers[id];
    var w' := UpdateStep(w, id, m, f);
    assert MergerOk(w, id, m);
    if w.row.Some? && w.row.value.version == m.pc.version && f.TakesEffect() {
      UpdateIsWrite(w, id, f);
      Snoc(w.log, Merged(id, m.metrics));
      forall n | n in w.mergers && n != id ensures MergerOk(w', n, w.mergers[n]) {
        WriteKeepsOthers(w, w', Merged(id, m.metrics), n);
      }
    } else {
      ConflictKeepsInv(w, id, f);
    }
  }

  lemma ConflictKeepsInv(w: World, id: nat, f: Fault)
    requires Inv(w) && id in w.mergers && w.mergers[id].pc.Update?
    requires !(w.row.Some? && w.row.value.version == w.mergers[id].pc.version && f.TakesEffect())
    ensures Inv(UpdateStep(w, id, w.mergers[id], f))
  {
    var w' := UpdateStep(w, id, w.mergers[id], f);
    assert MergerOk(w, id, w.mergers[id]);
    forall n | n in w'.mergers && n != id ensures MergerOk(w', n, w'.mergers[n]) {
      assert MergerOk(w, n, w.mergers[n]);
    }
  }

  lemma ReadKeepsInv(w: World, id: nat, f: Fault)
    requires Inv(w) && id in w.mergers && (w.mergers[id].pc.Find? || w.mergers[id].pc.Insert?)
    ensures Inv(ActStep(w, id, w.mergers[id], f))
  {
    var w' := ActStep(w, id, w.mergers[id], f);
    assert MergerOk(w, id, w.mergers[id]);
    assert w.log[..|w.log|] == w.log;
    forall n | n in w'.mergers && n != id ensures MergerOk(w', n, w'.mergers[n]) {
      assert MergerOk(w, n, w.mergers[n]);
    }
  }

  lemma ReplaceKeepsInv(w: World, x: Write, version: nat)
    requires Inv(w) && !x.Merged?
    ensures Inv(Apply(w, Replace(x, version)))
  {
    var w' := Apply(w, Replace(x, version));
    Snoc(w.log, x);
    forall n | n in w'.mergers ensures MergerOk(w', n, w'.mergers[n]) {
      if w'.log != w.log {
        WriteKeepsOthers(w, w', x, n);
      }
    }
  }

  lemma StepKeepsInv(w: World, a: Action)
    requires Inv(w) && Enabled(w, a)
    ensures Inv(Apply(w, a))
  {
    match a
    case Begin(id, metrics) =>
      forall n | n in w.mergers ensures MergerOk(Apply(w, a), n, w.mergers[n]) {
        assert MergerOk(w, n, w.mergers[n]);
      }
    case Act(id, f) =>
      if w.mergers[id].pc.Update? {
        UpdateKeepsInv(w, id, f);
      } else {
        ReadKeepsInv(w, id, f);
      }
    case Replace(x, version) => ReplaceKeepsInv(w, x, version);
  }

  lemma {:induction false} RunKeepsInv(run: seq<Action>)
    requires Exec(INIT, run).Some?
    ensures Inv(Exec(INIT, run).value)
  {
    if run != [] {
      var last := |run| - 1;
      RunKeepsInv(run[..last]);
      StepKeepsInv(Exec(INIT, run[..last]).value, run[last]);
    }
  }

  // ----- Theorems about every run

  /** The version counts the successful writes, and the row is what they make in version order. */
  lemma Linearises(run: seq<Action>)
    requires Exec(INIT, run).Some? && Exec(INIT, run).value.row.Some?
    ensures var w := Exec(INIT, run).value;
      w.row.value == Replay(w.log) && w.row.value.version == |w.log|
  {
    RunKeepsInv(run);
  }

  /** A merge that returns nil is applied exactly once, one that runs out of attempts not at all,
      one that returns another error at most once. */
  lemma AppliedExactlyOnce(run: seq<Action>, id: nat)
    requires Exec(INIT, run).Some?
    requires id in Exec(INIT, run).value.mergers
    ensures var w := Exec(INIT, run).value;
      match w.mergers[id].pc
      case Done(Applied) => Count(w.log, id) == 1
      case Done(Exhausted) => Count(w.log, id) == 0
      case _ => Count(w.log, id) <= 1
  {
    RunKeepsInv(run);
    assert MergerOk(Exec(INIT, run).value, id, Exec(INIT, run).value.mergers[id]);
  }

  /** A merge makes three attempts before it gives up, and no fourth. */
  lemma ThreeAttempts(run: seq<Action>, id: nat)
    requires Exec(INIT, run).Some? && id in Exec(INIT, run).value.mergers
    ensures var m := Exec(INIT, run).value.mergers[id];
      && (m.pc == Done(Exhausted) ==> m.attempt == 3)
      && (!m.pc.Done? ==> m.attempt < 3)
  {
    RunKeepsInv(run);
    assert MergerOk(Exec(INIT, run).value, id, Exec(INIT, run).value.mergers[id]);
  }

  /** Conflicts are progress: a merge gives up only after three successful writes by others. */
  lemma ExhaustedMeansOthersWrote(run: seq<Action>, id: nat)
    requires Exec(INIT, run).Some?
    requires var w := Exec(INIT, run).value; id in w.mergers && w.mergers[id].pc == Done(Exhausted)
    ensures var w := Exec(INIT, run).value;
      |w.log| >= w.mergers[id].start + 3 && Count(w.log, id) == 0
  {
    RunKeepsInv(run);
    assert MergerOk(Exec(INIT, run).value, id, Exec(INIT, run).value.mergers[id]);
  }

  /** The desired document is that of the last write that replaces it, and the empty one without such a
      write; no merge and no replacement of the reported document changes it. */
  lemma {:induction false} DesiredIsLastSet(log: seq<Write>)
    ensures forall i :: 0 <= i < |log| && log[i].SetDesired? && (forall j :: i < j < |log| ==> !log[j].SetDesired?) ==>
      Replay(log).desired == log[i].doc
    ensures (forall i :: 0 <= i < |log| ==> !log[i].SetDesired?) ==> Replay(log).desired == Object(map[])
  {
    if log != [] {
      var before := log[..|log| - 1];
      DesiredIsLastSet(before);
      assert forall i :: 0 <= i < |before| ==> before[i] == log[i];
    }
  }

  /** The write says what becomes of a key: a merge that carries it, or a replacement of the document. */
  predicate Decides(x: Write, key: string) { x.SetReported? || (x.Merged? && key in x.metrics) }

  /** The value a deciding write gives a key; a replacement may give none. */
  function Given(x: Write, key: string): Option<string>
    requires Decides(x, key)
  {
    var fields := if x.Merged? then x.metrics else if x.doc.Object? then x.doc.fields else map[];
    if key in fields then Some(fields[key]) else None
  }

  ghost predicate LastWriter(log: seq<Write>, key: string, i: int) {
    0 <= i < |log| && Decides(log[i], key) && forall j :: i < j < |log| ==> !Decides(log[j], key)
  }

  /** What is reported of a key. */
  function Reported(log: seq<Write>, key: string): Option<string> {
    var fields := Replay(log).reported.Fields();
    if key in fields then Some(fields[key]) else None
  }

  /** For every history, replacements included: what is reported of a key is what the last write that
      decides on it gives it, and nothing if there is none. */
  lemma {:induction false} ReportedIsLastWrite(log: seq<Write>, key: string)
    ensures forall i :: LastWriter(log, key, i) ==> Reported(log, key) == Given(log[i], key)
    ensures (forall i :: !LastWriter(log, key, i)) ==> Reported(log, key) == None
    ensures (forall i :: 0 <= i < |log| ==> !Decides(log[i], key)) <==> (forall i :: !LastWriter(log, key, i))
  {
    if log != [] {
      var last := |log| - 1;
      var before := log[..last];
      ReportedIsLastWrite(before, key);
      if Decides(log[last], key) {
        assert LastWriter(log, key, last);
      } else {
        assert Reported(log, key) == Reported(before, key);
        forall i ensures LastWriter(log, key, i) <==> LastWriter(before, key, i) {
          assert i != last ==> (0 <= i < last ==> before[i] == log[i]);
        }
      }
    }
  }

  lemma Extend(run: seq<Action>, w: World, a: Action) returns (w': World)
    requires Exec(INIT, run) == Some(w) && Enabled(w, a)
    ensures w' == Apply(w, a) && Exec(INIT, run + [a]) == Some(w')
  {
    w' := Apply(w, a);
    assert (run + [a])[..|run|] == run;
  }

  /** One more action after some fault-free run. */
  lemma Next(run: seq<Action>, w: World, a: Action) returns (run': seq<Action>, w': World)
    requires Exec(INIT, run) == Some(w) && FaultFree(run) && Enabled(w, a)
    requires a.Act? ==> a.fault == NoFault
    ensures w' == Apply(w, a) && Exec(INIT, run') == Some(w') && FaultFree(run')
  {
    run' := run + [a];
    w' := Extend(run, w, a);
  }

  ghost predicate FaultFree(run: seq<Action>) {
    forall i :: 0 <= i < |run| && run[i].Act? ==> run[i].fault == NoFault
  }

  /** When no call fails, a merge that begins with the row in place never returns an error: it is
      applied or runs out of attempts. */
  lemma {:induction false} NoErrorOnceRowExists(run: seq<Action>, id: nat)
    requires Exec(INIT, run).Some? && FaultFree(run)
    requires id in Exec(INIT, run).value.mergers && Exec(INIT, run).value.mergers[id].existed
    ensures var w := Exec(INIT, run).value;
      w.row.Some? && !w.mergers[id].pc.Insert? && w.mergers[id].pc != Done(Error)
  {
    if run != [] {
      var last := |run| - 1;
      var w := Exec(INIT, run[..last]).value;
      if id in w.mergers && w.mergers[id].existed {
        NoErrorOnceRowExists(run[..last], id);
      }
    }
  }

  /** Action `n` of the run is the read of merge `id`, and finds no row. */
  ghost predicate FindsNoRow(run: seq<Action>, id: nat, n: nat) {
    && n < |run| && run[n].Act? && run[n].id == id
    && Exec(INIT, run[..n]).Some?
    && var w := Exec(INIT, run[..n]).value;
    id in w.mergers && w.mergers[id].pc.Find? && w.row.None?
  }

  /** Action `n` of the run is the insert of merge `id`, and meets a row. */
  ghost predicate InsertMeetsRow(run: seq<Action>, id: nat, n: nat) {
    && n < |run| && run[n].Act? && run[n].id == id
    && Exec(INIT, run[..n]).Some?
    && var w := Exec(INIT, run[..n]).value;
    id in w.mergers && w.mergers[id].pc.Insert? && w.row.Some?
  }

  /** The read of merge `id` found no row, and its insert then met one. */
  ghost predicate LosesRace(run: seq<Action>, id: nat) {
    exists m: nat, n: nat :: m < n && FindsNoRow(run, id, m) && InsertMeetsRow(run, id, n)
  }

  lemma PrefixActions(run: seq<Action>, id: nat, last: nat)
    requires last <= |run|
    ensures forall n: nat :: n < last ==> (FindsNoRow(run[..last], id, n) <==> FindsNoRow(run, id, n))
    ensures forall n: nat :: n < last ==> (InsertMeetsRow(run[..last], id, n) <==> InsertMeetsRow(run, id, n))
  {
    forall n: nat | n < last ensures run[..last][..n] == run[..n] {
    }
  }

  /** Who is about to insert has found no row. */
  lemma {:induction false} InsertFollowsFind(run: seq<Action>, id: nat) returns (m: nat)
    requires Exec(INIT, run).Some?
    requires id in Exec(INIT, run).value.mergers && Exec(INIT, run).value.mergers[id].pc.Insert?
    ensures FindsNoRow(run, id, m)
  {
    var last: nat := |run| - 1;
    var w := Exec(INIT, run[..last]).value;
    PrefixActions(run, id, last);
    if id in w.mergers && w.mergers[id].pc.Insert? {
      m := InsertFollowsFind(run[..last], id);
    } else {
      m := last;
    }
  }

  lemma RaceStays(run: seq<Action>, id: nat, last: nat)
    requires |run| == last + 1 && LosesRace(run[..last], id)
    ensures LosesRace(run, id)
  {
    PrefixActions(run, id, last);
    var m: nat, n: nat :| m < n && FindsNoRow(run[..last], id, m) && InsertMeetsRow(run[..last], id, n);
    assert FindsNoRow(run, id, m) && InsertMeetsRow(run, id, n);
  }

  lemma RaceWasLostBefore(run: seq<Action>, id: nat, last: nat)
    requires |run| == last + 1 && LosesRace(run, id) && !InsertMeetsRow(run, id, last)
    ensures LosesRace(run[..last], id)
  {
    PrefixActions(run, id, last);
    var m: nat, n: nat :| m < n && FindsNoRow(run, id, m) && InsertMeetsRow(run, id, n);
    assert n != last && n < last;
    assert FindsNoRow(run[..last], id, m) && InsertMeetsRow(run[..last], id, n);
  }

  /** Exactly when a merge returns an error although no call fails: its read found no row, and its
      insert met one. */
  lemma {:induction false} ErrorIffRaceLost(run: seq<Action>, id: nat)
    requires Exec(INIT, run).Some? && FaultFree(run)
    ensures var w := Exec(INIT, run).value;
      id in w.mergers && w.mergers[id].pc == Done(Error) <==> LosesRace(run, id)
  {
    if run != [] {
      var last: nat := |run| - 1;
      var w := Exec(INIT, run[..last]).value;
      assert FaultFree(run[..last]);
      ErrorIffRaceLost(run[..last], id);
      if InsertMeetsRow(run, id, last) {
        var m := InsertFollowsFind(run[..last], id);
        PrefixActions(run, id, last);
        assert FindsNoRow(run, id, m);
      } else if LosesRace(run, id) {
        RaceWasLostBefore(run, id, last);
      }
      if LosesRace(run[..last], id) {
        RaceStays(run, id, last);
      }
    }
  }

  /** What another merge does so that merge `id`, begun without a row, loses the race. */
  function Race(id: nat, other: nat, metrics: Metrics): seq<Action> {
    [Begin(other, metrics), Act(id, NoFault), Act(other, NoFault), Act(other, NoFault), Act(id, NoFault)]
  }

  lemma RaceIsLost(run: seq<Action>, w: World, id: nat, other: nat, metrics: Metrics)
    requires Exec(INIT, run) == Some(w) && w.row.None? && other !in w.mergers && other != id
    requires id in w.mergers && w.mergers[id].pc.Find?
    ensures var end := Exec(INIT, run + Race(id, other, metrics));
      end.Some? && id in end.value.mergers && end.value.mergers[id].pc == Done(Error)
  {
    var more := Race(id, other, metrics);
    var a, b := w.mergers[id], Merger(metrics, 0, Find, |w.log|, false);
    var w1 := Extend(run, w, more[0]);
    assert w1 == w.(mergers := w.mergers[other := b]);
    assert run + [more[0]] == run + more[..1];
    var w2 := Extend(run + more[..1], w1, more[1]);
    assert run + more[..1] + [more[1]] == run + more[..2];
    var w3 := Extend(run + more[..2], w2, more[2]);
    assert run + more[..2] + [more[2]] == run + more[..3];
    assert w3.row.None? && w3.mergers[id].pc == Insert && w3.mergers[other].pc == Insert;
    var w4 := Extend(run + more[..3], w3, more[3]);
    assert run + more[..3] + [more[3]] == run + more[..4];
    assert w4.row.Some? && w4.mergers[id].pc == Insert;
    var w5 := Extend(run + more[..4], w4, more[4]);
    assert run + more[..4] + [more[4]] == run + more;
  }

  /** Whether a merge that begins now can return an error although no call fails: if and only if there
      is no row yet. */
  lemma ErrorPossibleIffNoRow(run: seq<Action>, w: World, id: nat, other: nat, metrics: Metrics)
    requires Exec(INIT, run) == Some(w) && FaultFree(run)
    requires id !in w.mergers && other !in w.mergers && other != id
    ensures w.row.None? <==> exists more :: ErrsAfter(run + [Begin(id, metrics)], more, id)
  {
    var begun := run + [Begin(id, metrics)];
    var w' := Extend(run, w, Begin(id, metrics));
    if w.row.None? {
      RaceIsLost(begun, w', id, other, metrics);
      assert ErrsAfter(begun, Race(id, other, metrics), id);
    } else {
      forall more ensures !ErrsAfter(begun, more, id) {
        if ErrsAfter(begun, more, id) {
          ExistedStays(begun, more, id);
          NoErrorOnceRowExists(begun + more, id);
          assert false;
        }
      }
    }
  }

  /** `more` is a continuation without faults in which merge `id` returns an error. */
  ghost predicate ErrsAfter(run: seq<Action>, more: seq<Action>, id: nat) {
    && FaultFree(run + more) && Exec(INIT, run + more).Some?
    && var w := Exec(INIT, run + more).value;
    id in w.mergers && w.mergers[id].pc == Done(Error)
  }

  lemma {:induction false} ExistedStays(run: seq<Action>, more: seq<Action>, id: nat)
    requires Exec(INIT, run).Some? && Exec(INIT, run + more).Some?
    requires id in Exec(INIT, run).value.mergers && Exec(INIT, run).value.mergers[id].existed
    ensures var w := Exec(INIT, run + more).value; id in w.mergers && w.mergers[id].existed
  {
    if more == [] {
      assert run + more == run;
    } else {
      var front := more[..|more| - 1];
      assert (run + more)[..|run + more| - 1] == run + front;
      ExistedStays(run, front, id);
    }
  }

  /** Two mergers have found the row missing. */
  lemma RaceBegun(metrics: Metrics, other: Metrics) returns (run: seq<Action>, w: World)
    ensures Exec(INIT, run) == Some(w) && FaultFree(run)
    ensures w == INIT.(mergers :=
      map[0 := Merger(metrics, 0, Insert, 0, false), 1 := Merger(other, 0, Insert, 0, false)])
  {
    run, w := [], INIT;
    run, w := Next(run, w, Begin(0, metrics));
    run, w := Next(run, w, Begin(1, other));
    run, w := Next(run, w, Act(0, NoFault));
    run, w := Next(run, w, Act(1, NoFault));
  }

  /** The faster one inserts the row, and the insert of the slower one fails. */
  lemma SlowerFails(metrics: Metrics, other: Metrics) returns (run: seq<Action>, w: World)
    ensures Exec(INIT, run) == Some(w) && FaultFree(run)
    ensures w == World(Some(NEW_ROW),
                       map[0 := Merger(metrics, 0, Done(Error), 0, false),
                           1 := Merger(other, 0, Update(0, EMPTY), 0, false)],
                       [])
  {
    run, w := RaceBegun(metrics, other);
    run, w := Next(run, w, Act(1, NoFault));
    run, w := Next(run, w, Act(0, NoFault));
  }

  /** The missing row is created so that no report is lost; but when two mergers find it missing,
      the slower one fails without a retry although no call failed, and its metrics are gone. */
  lemma InsertRaceLosesReport(metrics: Metrics, other: Metrics) returns (run: seq<Action>, w: World)
    ensures Exec(INIT, run) == Some(w)
    ensures FaultFree(run)
    ensures 0 in w.mergers && w.mergers[0].metrics == metrics && w.mergers[0].pc == Done(Error)
    ensures Count(w.log, 0) == 0 && w.row == Some(Row(1, Object(other), EMPTY))
  {
    run, w := SlowerFails(metrics, other);
    run, w := Next(run, w, Act(1, NoFault));
    WriteOnNewRow(w.log, other);
  }

  lemma WriteOnNewRow(log: seq<Write>, metrics: Metrics)
    requires log == [Merged(1, metrics)]
    ensures Count(log, 0) == 0 && map[] + metrics == metrics
  {
    assert log[..0] == [];
  }

  // ----- The retry loop

  /** The faults of the three calls that one attempt may make. */
  datatype Env = Env(find: Fault, insert: Fault, update: Fault) {
    predicate Healthy() { find.NoFault? && insert.NoFault? && update.NoFault? }
  }

  class ShadowHandler {
    var row: Option<Row>
    ghost var mergers: map<nat, Merger>
    ghost var log: seq<Write>
    ghost var run: seq<Action>

    ghost function View(): World
      reads this
    {
      World(row, mergers, log)
    }

    ghost predicate Valid()
      reads this
    {
      Exec(INIT, run) == Some(View())
    }

    /** Merger `me` is at `pc` after `attempt` conflicts. */
    ghost predicate AtPc(me: nat, metrics: Metrics, attempt: nat, pc: Pc)
      reads this
    {
      me in mergers && mergers[me] == Merger(metrics, attempt, pc, mergers[me].start, mergers[me].existed)
    }

    constructor ()
      ensures Valid() && View() == INIT
    {
      row, mergers, log, run := None, map[], [], [];
    }

    /** Anything the other mergers and writers may do meanwhile. */
    method Interfere(ghost me: nat)
      requires Valid()
      modifies this
      ensures Valid() && old(run) <= run && old(log) <= log
      ensures me in old(mergers) ==> me in mergers && mergers[me] == old(mergers)[me]
      ensures old(row).Some? ==> row.Some?
    {
      // The caller only learns the contract, which is all that others must respect.
    }

    ghost method Record(a: Action, before: World)
      requires Exec(INIT, run) == Some(before) && Enabled(before, a) && Apply(before, a).row == row
      modifies this`mergers, this`log, this`run
      ensures Valid() && View() == Apply(before, a) && run == old(run) + [a]
    {
      var w := Extend(run, before, a);
      mergers, log, run := w.mergers, w.log, run + [a];
    }

    /** Read the row, creating it when it is missing. `None` stands for an error, and without a
        fault that means that another one has created the row meanwhile. */
    method FindOrInsert(me: nat, ghost metrics: Metrics, ghost attempt: nat, env: Env) returns (r: Option<Row>)
      requires Valid() && AtPc(me, metrics, attempt, Find)
      modifies this
      ensures Valid() && old(run) <= run && old(log) <= log
      ensures me in mergers && mergers[me].start == old(mergers)[me].start
      ensures match r
        case None => AtPc(me, metrics, attempt, Done(Error))
        case Some(row) => AtPc(me, metrics, attempt, Update(row.version, row.reported))
      ensures !env.find.Reports() ==> r.None? && row == old(row)
      ensures env.find.Reports() && old(row).Some? ==> r == old(row) && row == old(row)
      ensures env.find.Reports() && old(row).None? && r.Some? ==> r == Some(NEW_ROW) && row == r
      ensures r.None? && env.Healthy() ==> old(row).None? && row.Some?
    {
      var found := row;
      Record(Act(me, env.find), View());
      if !env.find.Reports() {
        return None;
      }
      if found.None? {
        Interfere(me);
        ghost var before := View();
        var free := row.None?;
        if free && env.insert.TakesEffect() {
          row := Some(NEW_ROW);
        }
        Record(Act(me, env.insert), before);
        return if free && env.insert.Reports() then Some(NEW_ROW) else None;
      }
      return found;
    }

    /** The conditional update; the number of rows it changed, or `None` for an error. */
    method UpdateReported(me: nat, metrics: Metrics, ghost attempt: nat, base: Doc, version: nat, f: Fault)
      returns (rows: Option<nat>)
      requires Valid() && AtPc(me, metrics, attempt, Update(version, base))
      modifies this
      ensures Valid() && run == old(run) + [Act(me, f)]
      ensures me in mergers && mergers[me].start == old(mergers)[me].start
      ensures var matches := old(row).Some? && old(row).value.version == version;
        && rows == (if !f.Reports() then None else if matches then Some(1) else Some(0))
        && row == (if matches && f.TakesEffect()
                   then Some(old(row).value.(version := version + 1, reported := Object(base.Fields() + metrics)))
                   else old(row))
        && log == (if matches && f.TakesEffect() then old(log) + [Merged(me, metrics)] else old(log))
      ensures match rows
        case None => AtPc(me, metrics, attempt, Done(Error))
        case Some(n) =>
          if n > 0 then AtPc(me, metrics, attempt, Done(Applied))
          else AtPc(me, metrics, attempt + 1, if attempt + 1 < MAX_ATTEMPTS then Find else Done(Exhausted))
    {
      ghost var before := View();
      var matches := row.Some? && row.value.version == version;
      if matches && f.TakesEffect() {
        var merged := base.Fields() + metrics;
        row := Some(row.value.(version := version + 1, reported := Object(merged)));
      }
      Record(Act(me, f), before);
      return if f.Reports() then Some(if matches then 1 else 0) else None;
    }

    /** The theorems on runs, for the merge `me` that has ended. */
    lemma Outcome(me: nat, result: Result)
      requires Valid() && me in mergers && mergers[me].pc == Done(result)
      ensures result.Applied? ==> Count(log, me) == 1
      ensures result.Exhausted? ==> Count(log, me) == 0 && |log| >= mergers[me].start + 3
      ensures row.Some? ==> row.value == Replay(log)
    {
      RunKeepsInv(run);
      AppliedExactlyOnce(run, me);
      if result.Exhausted? {
        ExhaustedMeansOthersWrote(run, me);
      }
    }

    /** One attempt: read, merge and write back; `None` is a conflict. */
    method AttemptMerge(me: nat, metrics: Metrics, ghost attempt: nat, env: Env) returns (r: Option<Result>)
      requires Valid() && AtPc(me, metrics, attempt, Find)
      modifies this
      ensures Valid() && old(run) <= run
      ensures me in mergers && mergers[me].start == old(mergers)[me].start
      ensures r.None? ==> AtPc(me, metrics, attempt + 1, if attempt + 1 < MAX_ATTEMPTS then Find else Done(Exhausted))
      ensures r.Some? ==> AtPc(me, metrics, attempt, Done(r.value)) && !r.value.Exhausted?
      ensures r == Some(Applied) ==> Merged(me, metrics) in log
      ensures r == Some(Error) ==> old(row).None? || !env.Healthy()
      ensures old(row).Some? ==> row.Some?
    {
      Interfere(me);
      var found := FindOrInsert(me, metrics, attempt, env);
      if found.None? {
        return Some(Error);
      }
      Interfere(me);
      var rows := UpdateReported(me, metrics, attempt, found.value.reported, found.value.version, env.update);
      return if rows.None? then Some(Error) else if rows.value > 0 then Some(Applied) else None;
    }

    /** Merge `metrics` into the reported state: nil exactly if they were applied, and then they
        are one write of the history. An error means a fault of some call, or a row that was created
        while this merge was creating it. */
    method MergeReported(me: nat, metrics: Metrics, envs: nat -> Env) returns (result: Result)
      requires Valid() && me !in mergers
      modifies this
      ensures Valid() && old(run) <= run && me in mergers && mergers[me].pc == Done(result)
      ensures result.Applied? ==> Count(log, me) == 1 && Merged(me, metrics) in log
      ensures result.Exhausted? ==> Count(log, me) == 0 && |log| >= |old(log)| + 3
      ensures result.Error? ==> old(row).None? || exists n: nat :: n < MAX_ATTEMPTS && !envs(n).Healthy()
      ensures row.Some? ==> row.value == Replay(log)
    {
      Record(Begin(me, metrics), View());
      assert AtPc(me, metrics, 0, Find) && mergers[me].start == |old(log)|;
      for attempt := 0 to MAX_ATTEMPTS
        invariant Valid() && old(run) <= run
        invariant me in mergers && mergers[me].start == |old(log)|
        invariant AtPc(me, metrics, attempt, if attempt < MAX_ATTEMPTS then Find else Done(Exhausted))
        invariant old(row).Some? ==> row.Some?
      {
        var r := AttemptMerge(me, metrics, attempt, envs(attempt));
        if r.Some? {
          Outcome(me, r.value);
          return r.value;
        }
      }
      Outcome(me, Exhausted);
      return Exhausted;
    }
  }
}
