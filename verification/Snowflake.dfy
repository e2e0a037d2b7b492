/** Distributed identifiers: 41 bits of milliseconds, 10 bits of worker, 12 bits of sequence. */
module Snowflake {
  import opened Options

  const EPOCH: int := 1_700_000_000_000
  const WORKER_BITS: nat := 10
  const SEQUENCE_BITS: nat := 12
  const MAX_WORKER: int := 1023

  // ----- Machine words, bit by bit

  function Pow2(k: nat): (r: nat)
    ensures r > 0
  {
    if k == 0 then 1 else 2 * Pow2(k - 1)
  }

  const WORD: int := 0x1_0000_0000_0000_0000

  function Or(a: nat, b: nat): nat {
    if a == 0 && b == 0 then 0 else 2 * Or(a / 2, b / 2) + if a % 2 == 1 || b % 2 == 1 then 1 else 0
  }

  function And(a: nat, b: nat): nat {
    if a == 0 && b == 0 then 0 else 2 * And(a / 2, b / 2) + if a % 2 == 1 && b % 2 == 1 then 1 else 0
  }

  /** Two's complement, 64 bits. */
  function Unsigned(x: int): (r: nat)
    ensures r < WORD
  {
    x % WORD
  }

  function Signed(x: nat): int
    requires x < WORD
  {
    if x < WORD / 2 then x else x - WORD
  }

  function ShiftLeft(x: int, k: nat): int { Signed(Unsigned(x * Pow2(k))) }

  function OrSigned(a: int, b: int): int { Signed(Or(Unsigned(a), Unsigned(b)) % WORD) }

  /** Or of a multiple of a power of two with anything below it is their sum. */
  lemma {:induction false} OrIsSum(a: nat, b: nat, k: nat)
    requires a % Pow2(k) == 0 && b < Pow2(k)
    ensures Or(a, b) == a + b
  {
    if k == 0 {
      OrZero(a);
    } else if a != 0 || b != 0 {
      var p := Pow2(k - 1);
      HalfMultiple(a, p);
      OrIsSum(a / 2, b / 2, k - 1);
    }
  }

  lemma {:induction false} OrZero(a: nat)
    ensures Or(a, 0) == a
  {
    if a != 0 {
      OrZero(a / 2);
    }
  }

  lemma HalfMultiple(a: nat, p: nat)
    requires p > 0 && a % (2 * p) == 0
    ensures a % 2 == 0 && a / 2 % p == 0
  {
    var q := a / (2 * p);
    assert a == 2 * (p * q);
    assert a / 2 == p * q;
    MultipleMod(q, p);
  }

  lemma MultipleMod(q: int, p: nat)
    requires p > 0
    ensures p * q % p == 0
  {
    assert p * q == p * q + 0;
    ModUnique(p * q, q, 0, p);
  }

  lemma ModUnique(x: int, q: int, r: int, p: nat)
    requires p > 0 && x == p * q + r && 0 <= r < p
    ensures x / p == q && x % p == r
  {
    var d := x / p - q;
    assert p * d == r - x % p;
    AtLeastOnce(p, d);
  }

  lemma AtLeastOnce(p: nat, d: int)
    ensures d > 0 ==> p * d >= p
    ensures d < 0 ==> p * d <= 0 - p
  {
  }

  /** Masking with k ones keeps the remainder. */
  lemma {:induction false} MaskIsRemainder(a: nat, k: nat)
    ensures And(a, Pow2(k) - 1) == a % Pow2(k)
  {
    if k == 0 {
      AndZero(a);
    } else {
      MaskIsRemainder(a / 2, k - 1);
      MaskOneMore(a, Pow2(k - 1));
      assert Pow2(k) == 2 * Pow2(k - 1);
    }
  }

  lemma MaskOneMore(a: nat, p: nat)
    requires p > 0 && And(a / 2, p - 1) == a / 2 % p
    ensures And(a, 2 * p - 1) == a % (2 * p)
  {
    HalfRemainder(a, p);
    AndOfOnes(a, p);
  }

  lemma AndOfOnes(a: nat, p: nat)
    requires p > 0
    ensures And(a, 2 * p - 1) == 2 * And(a / 2, p - 1) + a % 2
  {
    assert (2 * p - 1) / 2 == p - 1 && (2 * p - 1) % 2 == 1;
  }

  lemma HalfRemainder(a: nat, p: nat)
    requires p > 0
    ensures a % (2 * p) == 2 * (a / 2 % p) + a % 2
  {
    var q := a / 2 / p;
    assert a / 2 == p * q + a / 2 % p;
    var r := 2 * (a / 2 % p) + a % 2;
    assert a == 2 * (p * q) + r;
    assert 2 * (p * q) == 2 * p * q;
    ModUnique(a, q, r, 2 * p);
  }

  lemma {:induction false} AndZero(a: nat)
    ensures And(a, 0) == 0
  {
    if a != 0 {
      AndZero(a / 2);
    }
  }

  // ----- The layout

  /** What one identifier is made of. */
  datatype Stamp = Stamp(time: int, worker: int, sequence: int) {
    predicate Fits() { 0 <= worker <= MAX_WORKER && 0 <= sequence < 4096 }

    /** The time needs no more than its 41 bits. */
    predicate InRange() { 0 <= time - EPOCH < 0x200_0000_0000 }
  }

  function Pack(s: Stamp): int {
    OrSigned(OrSigned(ShiftLeft(s.time - EPOCH, WORKER_BITS + SEQUENCE_BITS), ShiftLeft(s.worker, SEQUENCE_BITS)),
             s.sequence)
  }

  /** What is left of a time when only 42 bits are kept, the highest one being the sign. */
  function Wrapped(t: int): (r: int)
    ensures r == t <==> -0x200_0000_0000 <= t < 0x200_0000_0000
  {
    var u := t % 0x400_0000_0000;
    if u < 0x200_0000_0000 then u else u - 0x400_0000_0000
  }

  lemma Powers()
    ensures Pow2(12) == 0x1000 && Pow2(22) == 0x40_0000
  {
    assert Pow2(4) == 16;
    assert Pow2(8) == 256;
    assert Pow2(12) == 4096;
    assert Pow2(16) == 65536;
    assert Pow2(20) == 1048576;
    assert Pow2(22) == 4194304;
  }

  lemma ShiftWraps(t: int)
    ensures Unsigned(t * 0x40_0000) == (t % 0x400_0000_0000) * 0x40_0000
  {
    ModUnique(t * 0x40_0000, t / 0x400_0000_0000, (t % 0x400_0000_0000) * 0x40_0000, WORD);
  }

  lemma UnsignedSigned(x: nat)
    requires x < WORD
    ensures Unsigned(Signed(x)) == x
  {
    ModUnique(Signed(x), if x < WORD / 2 then 0 else -1, x, WORD);
  }

  lemma Multiples(u: nat, m: nat)
    requires u < 0x400_0000_0000 && m < 0x400
    ensures u * 0x40_0000 % 0x40_0000 == 0 && (u * 0x40_0000 + m * 0x1000) % 0x1000 == 0
  {
    ModUnique(u * 0x40_0000, u, 0, 0x40_0000);
    ModUnique(u * 0x40_0000 + m * 0x1000, u * 0x400 + m, 0, 0x1000);
  }

  /** Or of the three fields in unsigned words. */
  lemma FieldsAdd(u: nat, m: nat, n: nat)
    requires u < 0x400_0000_0000 && m < 0x400 && n < 0x1000
    ensures Or(u * 0x40_0000, m * 0x1000) == u * 0x40_0000 + m * 0x1000
    ensures Or(u * 0x40_0000 + m * 0x1000, n) == u * 0x40_0000 + m * 0x1000 + n
  {
    Powers();
    Multiples(u, m);
    OrIsSum(u * 0x40_0000, m * 0x1000, 22);
    OrIsSum(u * 0x40_0000 + m * 0x1000, n, 12);
  }

  lemma SmallIsItself(x: nat)
    requires x < WORD / 2
    ensures Unsigned(x) == x && Signed(x) == x
  {
    ModUnique(x, 0, x, WORD);
  }

  lemma OrOfWords(a: nat, b: nat)
    requires a < WORD && b < WORD && Or(a, b) < WORD
    ensures OrSigned(Signed(a), Signed(b)) == Signed(Or(a, b))
  {
    UnsignedSigned(a);
    UnsignedSigned(b);
    ModUnique(Or(a, b), 0, Or(a, b), WORD);
  }

  lemma ShiftedTime(t: int)
    ensures ShiftLeft(t, WORKER_BITS + SEQUENCE_BITS) == Signed(t % 0x400_0000_0000 * 0x40_0000)
  {
    Powers();
    ShiftWraps(t);
  }

  lemma ShiftedWorker(worker: nat)
    requires worker <= MAX_WORKER
    ensures ShiftLeft(worker, SEQUENCE_BITS) == Signed(worker * 0x1000)
  {
    Powers();
    SmallIsItself(worker * 0x1000);
  }

  lemma SignedSum(t: int, low: nat)
    requires low < 0x40_0000
    ensures Signed(t % 0x400_0000_0000 * 0x40_0000 + low) == Wrapped(t) * 0x40_0000 + low
  {
  }

  lemma OrOfFields(u: nat, worker: nat, sequence: nat)
    requires u < 0x400_0000_0000 && worker <= MAX_WORKER && sequence < 0x1000
    ensures OrSigned(OrSigned(Signed(u * 0x40_0000), Signed(worker * 0x1000)), sequence)
         == Signed(u * 0x40_0000 + (worker * 0x1000 + sequence))
  {
    SmallIsItself(sequence);
    FieldsAdd(u, worker, sequence);
    OrOfWords(u * 0x40_0000, worker * 0x1000);
    OrOfWords(u * 0x40_0000 + worker * 0x1000, sequence);
    assert u * 0x40_0000 + worker * 0x1000 + sequence == u * 0x40_0000 + (worker * 0x1000 + sequence);
  }

  lemma FieldsPack(t: int, worker: nat, sequence: nat)
    requires worker <= MAX_WORKER && sequence < 0x1000
    ensures OrSigned(OrSigned(ShiftLeft(t, WORKER_BITS + SEQUENCE_BITS), ShiftLeft(worker, SEQUENCE_BITS)), sequence)
         == Wrapped(t) * 0x40_0000 + (worker * 0x1000 + sequence)
  {
    ShiftedTime(t);
    ShiftedWorker(worker);
    OrOfFields(t % 0x400_0000_0000, worker, sequence);
    SignedSum(t, worker * 0x1000 + sequence);
  }

  /** The fields do not overlap: the identifier is their sum, with what is left of the time. */
  lemma PackIsSum(s: Stamp)
    requires s.Fits()
    ensures Pack(s) == Wrapped(s.time - EPOCH) * 0x40_0000 + s.worker * 0x1000 + s.sequence
  {
    FieldsPack(s.time - EPOCH, s.worker, s.sequence);
  }

  /** In numbers: the milliseconds since 22:13:20 UTC on 2023-11-14, then the worker, then the sequence. */
  lemma PackInNumbers(s: Stamp)
    requires 0 <= s.worker < 1024 && 0 <= s.sequence < 4096
    requires 0 <= s.time - 1_700_000_000_000 < 2_199_023_255_552
    ensures Pack(s) == (s.time - 1_700_000_000_000) * 4_194_304 + s.worker * 4096 + s.sequence
  {
    PackIsSum(s);
  }

  /** The fields of an identifier. */
  function Unpack(id: int): Stamp {
    Stamp(id / 0x40_0000 + EPOCH, id / 0x1000 % 0x400, id % 0x1000)
  }

  /** Worker and sequence can always be read back, and the time if and only if it fits; before the
      epoch identifiers are negative and can still be read, for as long again. */
  lemma UnpackPack(s: Stamp)
    requires s.Fits()
    ensures Unpack(Pack(s)).worker == s.worker && Unpack(Pack(s)).sequence == s.sequence
    ensures Unpack(Pack(s)) == s <==> -0x200_0000_0000 <= s.time - EPOCH < 0x200_0000_0000
    ensures s.InRange() ==> Unpack(Pack(s)) == s && Pack(s) >= 0
  {
    PackIsSum(s);
    var w := Wrapped(s.time - EPOCH);
    ModUnique(Pack(s), w, s.worker * 0x1000 + s.sequence, 0x40_0000);
    ModUnique(Pack(s), w * 0x400 + s.worker, s.sequence, 0x1000);
    ModUnique(w * 0x400 + s.worker, w, s.worker, 0x400);
  }

  /** Generators of different workers never share an identifier, whatever their clocks say. */
  lemma WorkersNeverCollide(a: Stamp, b: Stamp)
    requires a.Fits() && b.Fits() && a.worker != b.worker
    ensures Pack(a) != Pack(b)
  {
    UnpackPack(a);
    UnpackPack(b);
  }

  predicate Before(a: Stamp, b: Stamp) {
    a.time < b.time || (a.time == b.time && a.sequence < b.sequence)
  }

  /** On one worker a later stamp packs to a larger identifier, as long as the times fit. */
  lemma PackIncreases(a: Stamp, b: Stamp)
    requires a.Fits() && b.Fits() && a.worker == b.worker && Before(a, b)
    requires a.time >= 0 && b.time - EPOCH < 0x200_0000_0000
    ensures Pack(a) < Pack(b)
  {
    PackIsSum(a);
    PackIsSum(b);
  }

  /** From the epoch on, for twice the 41 bits, the order is kept if and only if the two times are
      both below the end of the 41 bits or both beyond it. */
  lemma OrderKeptIff(a: Stamp, b: Stamp)
    requires a.Fits() && b.Fits() && a.worker == b.worker && Before(a, b)
    requires a.time >= EPOCH && b.time - EPOCH < 0x400_0000_0000
    ensures Pack(a) < Pack(b) <==> (a.InRange() <==> b.InRange())
  {
    PackIsSum(a);
    PackIsSum(b);
    WrappedBeyond(a.time - EPOCH);
    WrappedBeyond(b.time - EPOCH);
    FieldsCompare(Wrapped(a.time - EPOCH), Wrapped(b.time - EPOCH), a, b);
  }

  lemma WrappedBeyond(t: int)
    requires 0 <= t < 0x400_0000_0000
    ensures Wrapped(t) == if t < 0x200_0000_0000 then t else t - 0x400_0000_0000
  {
  }

  lemma FieldsCompare(x: int, y: int, a: Stamp, b: Stamp)
    requires a.Fits() && b.Fits() && a.worker == b.worker
    ensures x * 0x40_0000 + a.worker * 0x1000 + a.sequence < y * 0x40_0000 + b.worker * 0x1000 + b.sequence
       <==> x < y || (x == y && a.sequence < b.sequence)
  {
  }

  /** Both bounds are needed: the first millisecond beyond 41 bits makes identifiers negative, and
      after twice that time the old ones return. */
  lemma TimeWrapsAround(worker: int, sequence: int)
    requires Stamp(0, worker, sequence).Fits()
    ensures var last := Stamp(EPOCH + 0x1FF_FFFF_FFFF, worker, sequence);
      Pack(last.(time := last.time + 1)) < 0 <= Pack(last)
    ensures Pack(Stamp(EPOCH, worker, sequence)) == Pack(Stamp(EPOCH + 0x400_0000_0000, worker, sequence))
  {
    PackIsSum(Stamp(EPOCH + 0x1FF_FFFF_FFFF, worker, sequence));
    PackIsSum(Stamp(EPOCH + 0x200_0000_0000, worker, sequence));
    PackIsSum(Stamp(EPOCH, worker, sequence));
    PackIsSum(Stamp(EPOCH + 0x400_0000_0000, worker, sequence));
  }

  // ----- Calls on one generator

  /** The last time and sequence number; `issued` are the stamps of all identifiers given out. */
  datatype State = State(lastTS: int, sequence: int, issued: seq<Stamp>)

  const INIT := State(0, 0, [])

  /** The clock readings of one call: the first, and those taken while waiting. */
  datatype Call = Call(first: int, waiting: seq<int>)

  predicate Exhausted(s: State, first: int) { first == s.lastTS && (s.sequence + 1) % 4096 == 0 }

  /** A call waits only if the sequence of the millisecond is used up, and until the clock is past it. */
  predicate Possible(s: State, c: Call) {
    if Exhausted(s, c.first)
    then && c.waiting != []
         && (forall i :: 0 <= i < |c.waiting| - 1 ==> c.waiting[i] <= s.lastTS)
         && c.waiting[|c.waiting| - 1] > s.lastTS
    else c.waiting == []
  }

  predicate Refused(s: State, c: Call) { c.first < s.lastTS }

  function Apply(worker: int, s: State, c: Call): State
    requires Possible(s, c)
  {
    if Refused(s, c) then s
    else
      var ts := if Exhausted(s, c.first) then c.waiting[|c.waiting| - 1] else c.first;
      var sequence := if c.first == s.lastTS then (s.sequence + 1) % 4096 else 0;
      State(ts, sequence, s.issued + [Stamp(ts, worker, sequence)])
  }

  function Exec(worker: int, run: seq<Call>): Option<State> {
    if run == [] then Some(INIT)
    else
      var s := Exec(worker, run[..|run| - 1]);
      if s.Some? && Possible(s.value, run[|run| - 1]) then Some(Apply(worker, s.value, run[|run| - 1])) else None
  }

  /** Stamps strictly increase, and none is beyond the state. */
  predicate Inv(worker: int, s: State) {
    && 0 <= s.lastTS && 0 <= s.sequence < 4096
    && (forall i :: 0 <= i < |s.issued| ==>
          && s.issued[i].Fits() && s.issued[i].worker == worker && 0 <= s.issued[i].time
          && (s.issued[i] == Stamp(s.lastTS, worker, s.sequence)
              || Before(s.issued[i], Stamp(s.lastTS, worker, s.sequence))))
    && (forall i, j :: 0 <= i < j < |s.issued| ==> Before(s.issued[i], s.issued[j]))
  }

  lemma StepKeepsInv(worker: int, s: State, c: Call)
    requires 0 <= worker <= MAX_WORKER && Inv(worker, s) && Possible(s, c)
    ensures Inv(worker, Apply(worker, s, c))
  {
    if !Refused(s, c) {
      var s' := Apply(worker, s, c);
      assert Before(Stamp(s.lastTS, worker, s.sequence), Stamp(s'.lastTS, worker, s'.sequence));
    }
  }

  lemma {:induction false} RunKeepsInv(worker: int, run: seq<Call>)
    requires 0 <= worker <= MAX_WORKER && Exec(worker, run).Some?
    ensures Inv(worker, Exec(worker, run).value)
  {
    if run != [] {
      var front := run[..|run| - 1];
      RunKeepsInv(worker, front);
      StepKeepsInv(worker, Exec(worker, front).value, run[|run| - 1]);
    }
  }

  /** For every sequence of clock readings the stamps are all different and in order; the
      identifiers strictly increase up to the last one whose time fits. */
  lemma IdsIncrease(worker: int, run: seq<Call>, i: nat, j: nat)
    requires 0 <= worker <= MAX_WORKER && Exec(worker, run).Some?
    requires i < j < |Exec(worker, run).value.issued|
    ensures var issued := Exec(worker, run).value.issued;
      && Before(issued[i], issued[j])
      && (issued[j].time - EPOCH < 0x200_0000_0000 ==> Pack(issued[i]) < Pack(issued[j]))
  {
    RunKeepsInv(worker, run);
    var issued := Exec(worker, run).value.issued;
    if issued[j].time - EPOCH < 0x200_0000_0000 {
      PackIncreases(issued[i], issued[j]);
    }
  }

  /** Any two identifiers of any two runs of different workers differ. */
  lemma RunsNeverCollide(worker: int, run: seq<Call>, i: nat, worker': int, run': seq<Call>, i': nat)
    requires 0 <= worker <= MAX_WORKER && 0 <= worker' <= MAX_WORKER && worker != worker'
    requires Exec(worker, run).Some? && i < |Exec(worker, run).value.issued|
    requires Exec(worker', run').Some? && i' < |Exec(worker', run').value.issued|
    ensures Pack(Exec(worker, run).value.issued[i]) != Pack(Exec(worker', run').value.issued[i'])
  {
    RunKeepsInv(worker, run);
    RunKeepsInv(worker', run');
    WorkersNeverCollide(Exec(worker, run).value.issued[i], Exec(worker', run').value.issued[i']);
  }

  // ----- The generator

  datatype Reply = Id(id: int) | MovedBackwards

  /** A clock gives its n-th reading; `at` counts those taken. */
  class Generator {
    const workerID: int
    var lastTS: int
    var sequence: int
    var at: nat
    ghost var issued: seq<Stamp>
    ghost var run: seq<Call>

    ghost function View(): State
      reads this
    {
      State(lastTS, sequence, issued)
    }

    ghost predicate Valid()
      reads this
    {
      && 0 <= workerID <= MAX_WORKER
      && 0 <= sequence < 4096
      && Exec(workerID, run) == Some(View())
    }

    constructor (workerID: int)
      requires 0 <= workerID <= MAX_WORKER
      ensures Valid() && run == [] && issued == [] && this.workerID == workerID
    {
      this.workerID := workerID;
      lastTS, sequence, at := 0, 0, 0;
      issued, run := [], [];
    }

    /** The readings of the clock from `i` up to `j`. */
    function Readings(clock: nat -> int, i: nat, j: nat): (r: seq<int>)
      requires i <= j
      ensures |r| == j - i && forall k :: 0 <= k < |r| ==> r[k] == clock(i + k)
    {
      seq(j - i, k requires 0 <= k => clock(i + k))
    }

    /** Read the clock until it is past the last time. */
    method Wait(clock: nat -> int, ghost moves: nat) returns (ts: int, ghost waiting: seq<int>)
      requires at <= moves && clock(moves) > lastTS
      modifies this`at
      ensures at > old(at) && waiting == Readings(clock, old(at), at) && ts == clock(at - 1) > lastTS
      ensures forall i :: 0 <= i < |waiting| - 1 ==> waiting[i] <= lastTS
    {
      ts := clock(at);
      waiting := [ts];
      at := at + 1;
      while ts <= lastTS
        invariant at > old(at) && (ts <= lastTS ==> at <= moves)
        invariant waiting == Readings(clock, old(at), at) && ts == clock(at - 1)
        invariant forall i :: 0 <= i < |waiting| - 1 ==> waiting[i] <= lastTS
        decreases if ts <= lastTS then moves + 1 - at else 0
      {
        ts := clock(at);
        waiting := waiting + [ts];
        at := at + 1;
      }
    }

    /** The time and sequence of the next identifier, after a first reading. */
    method Advance(clock: nat -> int, ghost moves: nat, first: int) returns (ts: int, ghost c: Call)
      requires Valid() && first >= lastTS
      requires Exhausted(View(), first) ==> at <= moves && clock(moves) > lastTS
      modifies this`at, this`sequence
      ensures at >= old(at) && c == Call(first, Readings(clock, old(at), at))
      ensures Possible(old(View()), c)
      ensures Apply(workerID, old(View()), c) == State(ts, sequence, issued + [Stamp(ts, workerID, sequence)])
    {
      ts, c := first, Call(first, []);
      if ts == lastTS {
        sequence := Masked(sequence + 1);
        if sequence == 0 {
          ghost var waiting;
          ts, waiting := Wait(clock, moves);
          c := Call(first, waiting);
        }
      } else {
        sequence := 0;
      }
    }

    /** The next identifier. Only where the sequence of the millisecond is used up must the clock pass
        the last time some day; otherwise one reading is taken, and no more. */
    method NextID(clock: nat -> int, ghost moves: nat) returns (r: Reply, ghost c: Call)
      requires Valid()
      requires Exhausted(View(), clock(at)) ==> at < moves && clock(moves) > lastTS
      modifies this
      ensures Valid() && at > old(at)
      ensures c == Call(clock(old(at)), Readings(clock, old(at) + 1, at)) && run == old(run) + [c]
      ensures Possible(old(View()), c) && View() == Apply(workerID, old(View()), c)
      ensures r == if Refused(old(View()), c) then MovedBackwards else Id(Pack(Stamp(lastTS, workerID, sequence)))
    {
      var ts := clock(at);
      at := at + 1;
      if ts < lastTS {
        c := Call(ts, []);
        ExecSnoc(workerID, run, c);
        run := run + [c];
        return MovedBackwards, c;
      }
      ts, c := Advance(clock, moves, ts);
      ExecSnoc(workerID, run, c);
      run := run + [c];
      lastTS := ts;
      issued := issued + [Stamp(ts, workerID, sequence)];
      r := Id(Pack(Stamp(ts, workerID, sequence)));
    }
  }

  lemma ExecSnoc(worker: int, run: seq<Call>, c: Call)
    requires Exec(worker, run).Some?
    ensures var s := Exec(worker, run).value;
      Possible(s, c) ==> Exec(worker, run + [c]) == Some(Apply(worker, s, c))
  {
    assert (run + [c])[..|run|] == run;
  }

  const SEQUENCE_MASK: nat := 4095

  /** The sequence wraps after 4096. */
  method Masked(x: nat) returns (r: nat)
    ensures r == x % 4096
  {
    r := And(x, SEQUENCE_MASK);
    Powers();
    MaskIsRemainder(x, SEQUENCE_BITS);
  }

  /** A generator for a worker, if there can be such a worker. */
  method NewGenerator(workerID: int) returns (g: Option<Generator>)
    ensures g.Some? <==> 0 <= workerID <= 1023
    ensures g.Some? ==> fresh(g.value) && g.value.Valid() && g.value.workerID == workerID && g.value.run == []
  {
    if workerID < 0 || workerID > MAX_WORKER {
      return None;
    }
    var made := new Generator(workerID);
    g := Some(made);
  }
}
