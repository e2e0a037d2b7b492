/** Usage per clock hour from cumulative meter readings: each reading is compared with the one
    before it of the same meter, and increases are credited to the hour of the later one.
  */
module HourlyUsage {
  import opened Options
  import Tou

  /** The time is local, in seconds. */
  datatype Reading = Reading(device: string, zone: string, time: int, kwh: real)

  function DayAndHour(time: int): int { time / 3600 }

  function ClockHour(time: int): (h: int)
    ensures 0 <= h < 24
  {
    DayAndHour(time) % 24
  }

  /** Second `s` of hour `h` of a day is in that hour, and two times are in one bucket exactly if day and
      hour are the same. */
  lemma HourOfTime(d: int, h: int, s: int, d': int, h': int, s': int)
    requires 0 <= h < 24 && 0 <= s < 3600 && 0 <= h' < 24 && 0 <= s' < 3600
    ensures ClockHour(86400 * d + 3600 * h + s) == h
    ensures DayAndHour(86400 * d + 3600 * h + s) == DayAndHour(86400 * d' + 3600 * h' + s') <==> d == d' && h == h'
  {
  }

  // ----- The queries

  /** The readings of a zone in [start, end). */
  function Selected(rows: seq<Reading>, zone: string, start: int, end: int): (s: seq<Reading>)
    ensures forall r :: r in s <==> r in rows && r.zone == zone && start <= r.time < end
  {
    if rows == [] then []
    else
      var r := rows[|rows| - 1];
      Selected(rows[..|rows| - 1], zone, start, end) + if r.zone == zone && start <= r.time < end then [r] else []
  }

  predicate IsFirst(rows: seq<Reading>, r: Reading) {
    r in rows && forall o :: o in rows && o.device == r.device ==> r.time <= o.time
  }

  predicate IsLast(rows: seq<Reading>, r: Reading) {
    r in rows && forall o :: o in rows && o.device == r.device ==> o.time <= r.time
  }

  predicate IsLastOfHour(rows: seq<Reading>, r: Reading) {
    && r in rows
    && forall o :: o in rows && o.device == r.device && DayAndHour(o.time) == DayAndHour(r.time) ==> o.time <= r.time
  }

  /** The last readings of each meter in each hour of each day, those of one meter in the order of
      time. Readings at the same time come in any order. */
  ghost predicate AnswersBuckets(rows: seq<Reading>, buckets: seq<Reading>) {
    && (forall r :: r in buckets <==> IsLastOfHour(rows, r))
    && (forall i, j :: 0 <= i < j < |buckets| && buckets[i].device == buckets[j].device ==>
          buckets[i].time <= buckets[j].time)
  }

  ghost predicate AnswersFirsts(rows: seq<Reading>, firsts: seq<Reading>) {
    forall r :: r in firsts <==> IsFirst(rows, r)
  }

  /** If a meter has several first readings, the one listed last counts. */
  function FirstOf(firsts: seq<Reading>): (m: map<string, real>)
    ensures forall d :: d in m ==> exists r :: r in firsts && r.device == d && r.kwh == m[d]
    ensures forall r :: r in firsts ==> r.device in m
  {
    if firsts == [] then map[]
    else
      var r := firsts[|firsts| - 1];
      FirstOf(firsts[..|firsts| - 1])[r.device := r.kwh]
  }

  // ----- What the differences are

  datatype Gain = Gain(device: string, hour: int, kwh: real)

  /** The reading that the next one of a meter is compared with. */
  function Previous(firstOf: map<string, real>, buckets: seq<Reading>, device: string): (r: Option<real>)
    ensures r.Some? <==> device in firstOf
  {
    if device !in firstOf then None
    else if buckets == [] then Some(firstOf[device])
    else
      var b := buckets[|buckets| - 1];
      if b.device == device then Some(b.kwh) else Previous(firstOf, buckets[..|buckets| - 1], device)
  }

  function GainOf(previous: Option<real>, b: Reading): seq<Gain> {
    if previous.Some? && b.kwh > previous.value
    then [Gain(b.device, ClockHour(b.time), b.kwh - previous.value)]
    else []
  }

  function Gains(firstOf: map<string, real>, buckets: seq<Reading>): seq<Gain> {
    if buckets == [] then []
    else
      var front, b := buckets[..|buckets| - 1], buckets[|buckets| - 1];
      Gains(firstOf, front) + GainOf(Previous(firstOf, front, b.device), b)
  }

  lemma {:induction false} GainsComeFrom(firstOf: map<string, real>, buckets: seq<Reading>)
    ensures forall g :: g in Gains(firstOf, buckets) ==>
      && 0 <= g.hour < 24
      && exists b :: b in buckets && b.device == g.device
  {
    if buckets != [] {
      var front, b := buckets[..|buckets| - 1], buckets[|buckets| - 1];
      GainsComeFrom(firstOf, front);
      forall g | g in Gains(firstOf, buckets)
        ensures 0 <= g.hour < 24 && exists o :: o in buckets && o.device == g.device
      {
        if g in Gains(firstOf, front) {
          var o :| o in front && o.device == g.device;
          assert o in buckets;
        } else {
          assert g in GainOf(Previous(firstOf, front, b.device), b);
          assert b in buckets;
        }
      }
    }
  }

  function GainSum(gs: seq<Gain>): real {
    if gs == [] then 0.0 else GainSum(gs[..|gs| - 1]) + gs[|gs| - 1].kwh
  }

  function HourSum(gs: seq<Gain>, hour: int): real {
    if gs == [] then 0.0
    else
      var g := gs[|gs| - 1];
      HourSum(gs[..|gs| - 1], hour) + if g.hour == hour then g.kwh else 0.0
  }

  function DeviceSum(gs: seq<Gain>, device: string): real {
    if gs == [] then 0.0
    else
      var g := gs[|gs| - 1];
      DeviceSum(gs[..|gs| - 1], device) + if g.device == device then g.kwh else 0.0
  }

  lemma SumSnoc(gs: seq<Gain>, g: Gain)
    ensures GainSum(gs + [g]) == GainSum(gs) + g.kwh
    ensures forall hour :: HourSum(gs + [g], hour) == HourSum(gs, hour) + if g.hour == hour then g.kwh else 0.0
    ensures forall device ::
      DeviceSum(gs + [g], device) == DeviceSum(gs, device) + if g.device == device then g.kwh else 0.0
  {
    assert (gs + [g])[..|gs|] == gs;
  }

  // ----- The sums over hours and over meters are the sum of all

  function HoursTotal(gs: seq<Gain>, n: nat): real {
    if n == 0 then 0.0 else HoursTotal(gs, n - 1) + HourSum(gs, n - 1)
  }

  lemma {:induction false} HoursTotalStep(gs: seq<Gain>, n: nat)
    requires gs != []
    ensures var front, g := gs[..|gs| - 1], gs[|gs| - 1];
      HoursTotal(gs, n) == HoursTotal(front, n) + if 0 <= g.hour < n then g.kwh else 0.0
  {
    if n > 0 {
      HoursTotalStep(gs, n - 1);
    }
  }

  lemma {:induction false} NoGainsNoTotal(n: nat)
    ensures HoursTotal([], n) == 0.0
  {
    if n > 0 {
      NoGainsNoTotal(n - 1);
    }
  }

  lemma {:induction false} HoursPartition(gs: seq<Gain>)
    requires forall g :: g in gs ==> 0 <= g.hour < 24
    ensures HoursTotal(gs, 24) == GainSum(gs)
  {
    if gs == [] {
      NoGainsNoTotal(24);
    } else {
      HoursPartition(gs[..|gs| - 1]);
      HoursTotalStep(gs, 24);
    }
  }

  predicate AllDistinct(devices: seq<string>) {
    forall i, j :: 0 <= i < j < |devices| ==> devices[i] != devices[j]
  }

  /** A sum over meters. */
  function SumOver(f: string -> real, devices: seq<string>): real {
    if devices == [] then 0.0 else SumOver(f, devices[..|devices| - 1]) + f(devices[|devices| - 1])
  }

  /** Smaller terms have the smaller sum, and the same one only if all are the same. */
  lemma {:induction false} SumsCompare(f: string -> real, g: string -> real, devices: seq<string>)
    requires forall i :: 0 <= i < |devices| ==> f(devices[i]) <= g(devices[i])
    ensures SumOver(f, devices) <= SumOver(g, devices)
    ensures SumOver(f, devices) == SumOver(g, devices) <==>
      forall i :: 0 <= i < |devices| ==> f(devices[i]) == g(devices[i])
  {
    if devices != [] {
      SumsCompare(f, g, devices[..|devices| - 1]);
    }
  }

  function DevicesTotal(gs: seq<Gain>, devices: seq<string>): real { SumOver(d => DeviceSum(gs, d), devices) }

  lemma {:induction false} DevicesTotalStep(gs: seq<Gain>, devices: seq<string>)
    requires gs != [] && AllDistinct(devices)
    ensures var front, g := gs[..|gs| - 1], gs[|gs| - 1];
      DevicesTotal(gs, devices) == DevicesTotal(front, devices) + if g.device in devices then g.kwh else 0.0
  {
    if devices != [] {
      DevicesTotalStep(gs, devices[..|devices| - 1]);
    }
  }

  lemma {:induction false} NoGainsNoDevicesTotal(devices: seq<string>)
    ensures DevicesTotal([], devices) == 0.0
  {
    if devices != [] {
      NoGainsNoDevicesTotal(devices[..|devices| - 1]);
    }
  }

  lemma {:induction false} DevicesPartition(gs: seq<Gain>, devices: seq<string>)
    requires AllDistinct(devices) && forall g :: g in gs ==> g.device in devices
    ensures DevicesTotal(gs, devices) == GainSum(gs)
  {
    if gs == [] {
      NoGainsNoDevicesTotal(devices);
    } else {
      DevicesPartition(gs[..|gs| - 1], devices);
      DevicesTotalStep(gs, devices);
    }
  }

  // ----- One meter: the gains are at least last minus first, and equal without a drop

  /** No reading of the meter is below the one it is compared with. */
  predicate NeverDrops(firstOf: map<string, real>, buckets: seq<Reading>, device: string) {
    buckets == []
    || (var front, b := buckets[..|buckets| - 1], buckets[|buckets| - 1];
        && NeverDrops(firstOf, front, device)
        && (b.device == device && device in firstOf ==> Previous(firstOf, front, device).value <= b.kwh))
  }

  lemma {:induction false} DeviceGains(firstOf: map<string, real>, buckets: seq<Reading>, device: string)
    requires device in firstOf
    ensures Previous(firstOf, buckets, device).Some?
    ensures var net := Previous(firstOf, buckets, device).value - firstOf[device];
      && DeviceSum(Gains(firstOf, buckets), device) >= net
      && (DeviceSum(Gains(firstOf, buckets), device) == net <==> NeverDrops(firstOf, buckets, device))
  {
    if buckets != [] {
      var front, b := buckets[..|buckets| - 1], buckets[|buckets| - 1];
      DeviceGains(firstOf, front, device);
      var gs, more := Gains(firstOf, front), GainOf(Previous(firstOf, front, b.device), b);
      if more == [] {
        assert gs + more == gs;
      } else {
        SumSnoc(gs, more[0]);
        assert gs + more == gs + [more[0]];
      }
    }
  }

  // ----- What the queries say about one meter

  /** Meters only count up. */
  predicate Cumulative(rows: seq<Reading>) {
    forall a, b :: a in rows && b in rows && a.device == b.device && a.time <= b.time ==> a.kwh <= b.kwh
  }

  lemma {:induction false} FirstExists(rows: seq<Reading>, device: string) returns (r: Reading)
    requires exists o :: o in rows && o.device == device
    ensures r.device == device && IsFirst(rows, r)
  {
    var front, last := rows[..|rows| - 1], rows[|rows| - 1];
    assert rows == front + [last];
    if exists o :: o in front && o.device == device {
      r := FirstExists(front, device);
      if last.device == device && last.time < r.time {
        r := last;
      }
    } else {
      r := last;
    }
  }

  lemma {:induction false} LastExists(rows: seq<Reading>, device: string) returns (r: Reading)
    requires exists o :: o in rows && o.device == device
    ensures r.device == device && IsLast(rows, r)
  {
    var front, last := rows[..|rows| - 1], rows[|rows| - 1];
    assert rows == front + [last];
    if exists o :: o in front && o.device == device {
      r := LastExists(front, device);
      if last.device == device && last.time > r.time {
        r := last;
      }
    } else {
      r := last;
    }
  }

  /** The reading left over at the end is the last one listed of the meter. */
  lemma {:induction false} PreviousIsLastListed(firstOf: map<string, real>, buckets: seq<Reading>, device: string)
    returns (k: nat)
    requires device in firstOf && exists b :: b in buckets && b.device == device
    ensures k < |buckets| && buckets[k].device == device
    ensures Previous(firstOf, buckets, device) == Some(buckets[k].kwh)
    ensures forall j :: k < j < |buckets| ==> buckets[j].device != device
  {
    k := |buckets| - 1;
    if buckets[k].device != device {
      var front := buckets[..k];
      assert buckets == front + [buckets[k]];
      k := PreviousIsLastListed(firstOf, front, device);
    }
  }

  /** Both ends of the differences of one meter, for any answers of the database. */
  lemma EndsOfDevice(rows: seq<Reading>, buckets: seq<Reading>, firsts: seq<Reading>, device: string)
    returns (first: Reading, last: Reading)
    requires AnswersBuckets(rows, buckets) && AnswersFirsts(rows, firsts)
    requires exists o :: o in rows && o.device == device
    ensures first.device == device && IsFirst(rows, first)
    ensures device in FirstOf(firsts) && FirstOf(firsts)[device] == first.kwh
    ensures last.device == device && IsLast(rows, last)
    ensures Previous(FirstOf(firsts), buckets, device) == Some(last.kwh)
  {
    first := FirstExists(rows, device);
    assert first in firsts;
    first :| first in firsts && first.device == device && first.kwh == FirstOf(firsts)[device];
    var latest := LastExists(rows, device);
    assert IsLastOfHour(rows, latest);
    assert latest in buckets;
    var k := PreviousIsLastListed(FirstOf(firsts), buckets, device);
    last := buckets[k];
    var j :| 0 <= j < |buckets| && buckets[j] == latest;
    assert j <= k;
    assert IsLastOfHour(rows, last);
  }

  lemma {:induction false} CumulativeNeverDrops(rows: seq<Reading>, buckets: seq<Reading>, firstOf: map<string, real>,
                                                first: Reading)
    requires Cumulative(rows) && IsFirst(rows, first)
    requires first.device in firstOf && firstOf[first.device] == first.kwh
    requires forall b :: b in buckets ==> b in rows
    requires forall i, j :: 0 <= i < j < |buckets| && buckets[i].device == buckets[j].device ==>
               buckets[i].time <= buckets[j].time
    ensures NeverDrops(firstOf, buckets, first.device)
  {
    if buckets != [] {
      var n := |buckets| - 1;
      var front := buckets[..n];
      assert buckets[n] in rows;
      assert forall b :: b in front ==> b in buckets;
      CumulativeNeverDrops(rows, front, firstOf, first);
      if buckets[n].device == first.device {
        if exists b :: b in front && b.device == first.device {
          var k := PreviousIsLastListed(firstOf, front, first.device);
          assert front[k] == buckets[k];
        } else {
          NoneListed(firstOf, front, first.device);
        }
      }
    }
  }

  lemma {:induction false} NoneListed(firstOf: map<string, real>, buckets: seq<Reading>, device: string)
    requires device in firstOf && forall b :: b in buckets ==> b.device != device
    ensures Previous(firstOf, buckets, device) == Some(firstOf[device])
  {
    if buckets != [] {
      NoneListed(firstOf, buckets[..|buckets| - 1], device);
    }
  }

  // ----- All meters

  function Max(xs: seq<real>): (m: real)
    requires xs != []
    ensures m in xs && forall x :: x in xs ==> x <= m
  {
    if |xs| == 1 then xs[0]
    else
      var m := Max(xs[1..]);
      assert xs == [xs[0]] + xs[1..];
      if xs[0] > m then xs[0] else m
  }

  function Min(xs: seq<real>): (m: real)
    requires xs != []
    ensures m in xs && forall x :: x in xs ==> m <= x
  {
    if |xs| == 1 then xs[0]
    else
      var m := Min(xs[1..]);
      assert xs == [xs[0]] + xs[1..];
      if xs[0] < m then xs[0] else m
  }

  function ReadingsOf(rows: seq<Reading>, device: string): (xs: seq<real>)
    ensures forall x :: x in xs <==> exists r :: r in rows && r.device == device && r.kwh == x
  {
    if rows == [] then []
    else
      var front, r := rows[..|rows| - 1], rows[|rows| - 1];
      assert rows == front + [r];
      ReadingsOf(front, device) + if r.device == device then [r.kwh] else []
  }

  /** Every meter that has a reading, once. */
  ghost predicate DevicesOf(rows: seq<Reading>, devices: seq<string>) {
    AllDistinct(devices) && forall d :: d in devices <==> exists r :: r in rows && r.device == d
  }

  /** The highest less the lowest reading of a meter. */
  function SpanOf(rows: seq<Reading>, device: string): real {
    var xs := ReadingsOf(rows, device);
    if xs == [] then 0.0 else Max(xs) - Min(xs)
  }

  /** The total usage: the spans of all meters. */
  function TotalUsage(rows: seq<Reading>, devices: seq<string>): real {
    SumOver(d => SpanOf(rows, d), devices)
  }

  /** The last less the first reading of a meter, as the queries find them. */
  function NetOf(firstOf: map<string, real>, buckets: seq<Reading>, device: string): real {
    var p := Previous(firstOf, buckets, device);
    if p.None? then 0.0 else p.value - firstOf[device]
  }

  function NetUsage(firstOf: map<string, real>, buckets: seq<Reading>, devices: seq<string>): real {
    SumOver(d => NetOf(firstOf, buckets, d), devices)
  }

  lemma DevicesNet(firstOf: map<string, real>, buckets: seq<Reading>, devices: seq<string>)
    requires forall d :: d in devices ==> d in firstOf
    ensures var net, total := NetUsage(firstOf, buckets, devices), DevicesTotal(Gains(firstOf, buckets), devices);
      && total >= net
      && (total == net <==> forall d :: d in devices ==> NeverDrops(firstOf, buckets, d))
  {
    var gs := Gains(firstOf, buckets);
    forall d | d in devices
      ensures NetOf(firstOf, buckets, d) <= DeviceSum(gs, d)
      ensures NetOf(firstOf, buckets, d) == DeviceSum(gs, d) <==> NeverDrops(firstOf, buckets, d)
    {
      DeviceGains(firstOf, buckets, d);
    }
    assert forall i :: 0 <= i < |devices| ==> devices[i] in devices;
    SumsCompare(d => NetOf(firstOf, buckets, d), d => DeviceSum(gs, d), devices);
  }

  ghost predicate HasReading(rows: seq<Reading>, device: string) { exists r :: r in rows && r.device == device }

  /** The meter's first reading is its lowest, and its last the highest. */
  predicate EndsAreExtremes(rows: seq<Reading>, firstOf: map<string, real>, buckets: seq<Reading>, device: string) {
    var xs := ReadingsOf(rows, device);
    && device in firstOf && xs != []
    && firstOf[device] == Min(xs) && Previous(firstOf, buckets, device) == Some(Max(xs))
  }

  /** The net movement of a meter is within its span, and all of it exactly if the ends are extremes. */
  lemma NetWithinSpan(rows: seq<Reading>, buckets: seq<Reading>, firsts: seq<Reading>, device: string)
    requires AnswersBuckets(rows, buckets) && AnswersFirsts(rows, firsts) && HasReading(rows, device)
    ensures var net := NetOf(FirstOf(firsts), buckets, device);
      && net <= SpanOf(rows, device)
      && (net == SpanOf(rows, device) <==> EndsAreExtremes(rows, FirstOf(firsts), buckets, device))
  {
    var first, last := EndsOfDevice(rows, buckets, firsts, device);
    SpanHolds(ReadingsOf(rows, device), first.kwh, last.kwh);
  }

  lemma SpanHolds(xs: seq<real>, first: real, last: real)
    requires first in xs && last in xs
    ensures last - first <= Max(xs) - Min(xs)
    ensures last - first == Max(xs) - Min(xs) <==> first == Min(xs) && last == Max(xs)
  {
  }

  lemma NetOfDevice(rows: seq<Reading>, buckets: seq<Reading>, firsts: seq<Reading>, device: string)
    requires AnswersBuckets(rows, buckets) && AnswersFirsts(rows, firsts) && Cumulative(rows)
    requires HasReading(rows, device)
    ensures EndsAreExtremes(rows, FirstOf(firsts), buckets, device)
    ensures NeverDrops(FirstOf(firsts), buckets, device)
  {
    var first, last := EndsOfDevice(rows, buckets, firsts, device);
    CumulativeNeverDrops(rows, buckets, FirstOf(firsts), first);
    SpanOfDevice(rows, first, last);
  }

  /** Where meters only count up, the highest reading is the last one and the lowest the first. */
  lemma SpanOfDevice(rows: seq<Reading>, first: Reading, last: Reading)
    requires Cumulative(rows) && IsFirst(rows, first) && IsLast(rows, last) && first.device == last.device
    ensures var xs := ReadingsOf(rows, first.device);
      xs != [] && Max(xs) == last.kwh && Min(xs) == first.kwh
  {
    var xs := ReadingsOf(rows, first.device);
    assert first.kwh in xs && last.kwh in xs;
    var top :| top in rows && top.device == first.device && top.kwh == Max(xs);
    var low :| low in rows && low.device == first.device && low.kwh == Min(xs);
  }

  lemma NetsWithinTotal(rows: seq<Reading>, buckets: seq<Reading>, firsts: seq<Reading>, devices: seq<string>)
    requires AnswersBuckets(rows, buckets) && AnswersFirsts(rows, firsts)
    requires forall d :: d in devices ==> HasReading(rows, d)
    ensures var net := NetUsage(FirstOf(firsts), buckets, devices);
      && net <= TotalUsage(rows, devices)
      && (TotalUsage(rows, devices) == net <==>
            forall d :: d in devices ==> EndsAreExtremes(rows, FirstOf(firsts), buckets, d))
  {
    var firstOf := FirstOf(firsts);
    forall d | d in devices
      ensures NetOf(firstOf, buckets, d) <= SpanOf(rows, d)
      ensures NetOf(firstOf, buckets, d) == SpanOf(rows, d) <==> EndsAreExtremes(rows, firstOf, buckets, d)
    {
      NetWithinSpan(rows, buckets, firsts, d);
    }
    assert forall i :: 0 <= i < |devices| ==> devices[i] in devices;
    SumsCompare(d => NetOf(firstOf, buckets, d), d => SpanOf(rows, d), devices);
  }

  /** For all readings, what is credited to the hours is at least what the meters moved from first
      to last, and exactly that if and only if no meter is seen to drop; and the total usage, highest
      less lowest reading meter by meter, is at least that too. */
  lemma EnergyConserved(rows: seq<Reading>, buckets: seq<Reading>, firsts: seq<Reading>, devices: seq<string>)
    requires AnswersBuckets(rows, buckets) && AnswersFirsts(rows, firsts) && DevicesOf(rows, devices)
    ensures var firstOf := FirstOf(firsts);
      var credited, net := GainSum(Gains(firstOf, buckets)), NetUsage(firstOf, buckets, devices);
      && net <= credited && net <= TotalUsage(rows, devices)
      && (credited == net <==> forall d :: d in devices ==> NeverDrops(firstOf, buckets, d))
      && (TotalUsage(rows, devices) == net <==>
            forall d :: d in devices ==> EndsAreExtremes(rows, firstOf, buckets, d))
  {
    var firstOf := FirstOf(firsts);
    forall d | d in devices ensures d in firstOf && HasReading(rows, d) {
      var _, _ := EndsOfDevice(rows, buckets, firsts, d);
    }
    DevicesNet(firstOf, buckets, devices);
    var gs := Gains(firstOf, buckets);
    GainsComeFrom(firstOf, buckets);
    forall g | g in gs ensures g.device in devices {
      var b :| b in buckets && b.device == g.device;
      assert IsLastOfHour(rows, b);
    }
    DevicesPartition(gs, devices);
    NetsWithinTotal(rows, buckets, firsts, devices);
  }

  /** Exactly when the hours, the movement of the meters and the total usage all agree: no meter is seen
      to drop, its first reading is its lowest and its last the highest. Meters that only count up are
      like that. */
  lemma TotalsAgreeIff(rows: seq<Reading>, buckets: seq<Reading>, firsts: seq<Reading>, devices: seq<string>)
    requires AnswersBuckets(rows, buckets) && AnswersFirsts(rows, firsts) && DevicesOf(rows, devices)
    ensures var firstOf := FirstOf(firsts);
      var credited, net := GainSum(Gains(firstOf, buckets)), NetUsage(firstOf, buckets, devices);
      && (credited == net == TotalUsage(rows, devices) <==> forall d :: d in devices ==>
            NeverDrops(firstOf, buckets, d) && EndsAreExtremes(rows, firstOf, buckets, d))
      && (Cumulative(rows) ==> credited == net == TotalUsage(rows, devices))
  {
    EnergyConserved(rows, buckets, firsts, devices);
    if Cumulative(rows) {
      forall d | d in devices
        ensures NeverDrops(FirstOf(firsts), buckets, d) && EndsAreExtremes(rows, FirstOf(firsts), buckets, d)
      {
        assert HasReading(rows, d);
        NetOfDevice(rows, buckets, firsts, d);
      }
    }
  }

  const RESET: seq<Reading> :=
    [Reading("m", "z", 0, 100.0), Reading("m", "z", 3600, 110.0), Reading("m", "z", 7200, 0.0)]

  lemma ResetGains(firstOf: map<string, real>)
    requires firstOf == map["m" := 100.0]
    ensures GainSum(Gains(firstOf, RESET)) == 10.0 && Previous(firstOf, RESET, "m") == Some(0.0)
    ensures !NeverDrops(firstOf, RESET, "m")
  {
    var gain := Gain("m", 1, 10.0);
    GainsSnoc(firstOf, [], RESET[0]);
    GainsSnoc(firstOf, [RESET[0]], RESET[1]);
    GainsSnoc(firstOf, [RESET[0], RESET[1]], RESET[2]);
    assert [] + [RESET[0]] == [RESET[0]] && [RESET[0]] + [RESET[1]] == [RESET[0], RESET[1]];
    assert [RESET[0], RESET[1]] + [RESET[2]] == RESET;
    assert Previous(firstOf, [RESET[0]], "m") == Some(100.0);
    assert Gains(firstOf, [RESET[0]]) == [];
    assert Gains(firstOf, [RESET[0], RESET[1]]) == [gain];
    assert Previous(firstOf, [RESET[0], RESET[1]], "m") == Some(110.0);
    assert RESET[..2] == [RESET[0], RESET[1]];
    assert Gains(firstOf, RESET) == [gain];
    SumSnoc([], gain);
    assert [] + [gain] == [gain];
  }

  lemma ResetReadings()
    ensures ReadingsOf(RESET, "m") == [100.0, 110.0, 0.0]
  {
    assert RESET[..2] == [RESET[0], RESET[1]] && RESET[..2][..1] == [RESET[0]];
    assert ReadingsOf([RESET[0]], "m") == [100.0];
    assert ReadingsOf(RESET[..2], "m") == [100.0] + [110.0];
  }

  lemma ResetTotal()
    ensures TotalUsage(RESET, ["m"]) == 110.0
  {
    ResetReadings();
    assert ["m"][..0] == [];
    var xs := [100.0, 110.0, 0.0];
    assert xs[1] in xs && xs[2] in xs;
    assert Max(xs) == 110.0 && Min(xs) == 0.0;
  }

  lemma ResetAnswers()
    ensures AnswersBuckets(RESET, RESET) && AnswersFirsts(RESET, [RESET[0]]) && DevicesOf(RESET, ["m"])
  {
    assert IsFirst(RESET, RESET[0]);
    assert forall r :: r in RESET ==> IsLastOfHour(RESET, r);
  }

  /** A meter that is replaced or reset: the hours are credited with what it counted, while the
      total usage takes the drop for consumption. The two bills of one interval then differ. */
  lemma ResetSplitsTotals()
    ensures AnswersBuckets(RESET, RESET) && AnswersFirsts(RESET, [RESET[0]]) && DevicesOf(RESET, ["m"])
    ensures GainSum(Gains(FirstOf([RESET[0]]), RESET)) == 10.0 && TotalUsage(RESET, ["m"]) == 110.0
    ensures !NeverDrops(FirstOf([RESET[0]]), RESET, "m")
  {
    ResetAnswers();
    assert [RESET[0]][..0] == [];
    assert FirstOf([RESET[0]]) == map["m" := 100.0];
    ResetGains(FirstOf([RESET[0]]));
    ResetTotal();
  }

  // ----- The list

  predicate Ascending(list: seq<Tou.HourUsage>) {
    forall i, j :: 0 <= i < j < |list| ==> list[i].hour < list[j].hour
  }

  /** The entries are the hours below `n` that gained. */
  ghost predicate ListsBelow(gs: seq<Gain>, list: seq<Tou.HourUsage>, n: int) {
    && (forall i :: 0 <= i < |list| ==> Gained(gs, list[i]) && 0 <= list[i].hour < n)
    && (forall h :: 0 <= h < n && !NoGain(gs, h) ==> exists i :: 0 <= i < |list| && list[i].hour == h)
  }

  predicate Gained(gs: seq<Gain>, u: Tou.HourUsage) { u.usage == HourSum(gs, u.hour) > 0.0 }

  predicate NoGain(gs: seq<Gain>, hour: int) { HourSum(gs, hour) == 0.0 }

  lemma {:induction false} ListSum(gs: seq<Gain>, list: seq<Tou.HourUsage>, n: nat)
    requires Ascending(list) && ListsBelow(gs, list, n) && n <= 24
    ensures Tou.UsageSum(list) == HoursTotal(gs, n)
  {
    if list != [] && list[|list| - 1].hour == n - 1 {
      LastListed(gs, list, n);
      ListSum(gs, list[..|list| - 1], n - 1);
      SumNext(gs, list, n);
    } else if n > 0 {
      NoneListedLast(gs, list, n);
      ListSum(gs, list, n - 1);
      assert NoGain(gs, n - 1);
    }
  }

  lemma SumNext(gs: seq<Gain>, list: seq<Tou.HourUsage>, n: nat)
    requires 0 < n <= 24 && list != []
    requires Gained(gs, list[|list| - 1]) && list[|list| - 1].hour == n - 1
    requires Tou.UsageSum(list[..|list| - 1]) == HoursTotal(gs, n - 1)
    ensures Tou.UsageSum(list) == HoursTotal(gs, n)
  {
  }

  lemma NoneListedLast(gs: seq<Gain>, list: seq<Tou.HourUsage>, n: nat)
    requires Ascending(list) && ListsBelow(gs, list, n) && n > 0
    requires list == [] || list[|list| - 1].hour != n - 1
    ensures ListsBelow(gs, list, n - 1) && NoGain(gs, n - 1)
  {
    forall i | 0 <= i < |list| ensures list[i].hour < n - 1 {
      assert list[i].hour <= list[|list| - 1].hour;
    }
  }

  lemma LastListed(gs: seq<Gain>, list: seq<Tou.HourUsage>, n: nat)
    requires Ascending(list) && ListsBelow(gs, list, n) && list != [] && list[|list| - 1].hour == n - 1
    ensures ListsBelow(gs, list[..|list| - 1], n - 1) && Gained(gs, list[|list| - 1])
  {
    var front := list[..|list| - 1];
    forall h | 0 <= h < n - 1 && !NoGain(gs, h) ensures exists i :: 0 <= i < |front| && front[i].hour == h {
      var i :| 0 <= i < |list| && list[i].hour == h;
      assert front[i].hour == h;
    }
  }

  /** Put an hour where it belongs. */
  method Insert(list: seq<Tou.HourUsage>, u: Tou.HourUsage) returns (r: seq<Tou.HourUsage>)
    requires Ascending(list) && forall j :: 0 <= j < |list| ==> list[j].hour != u.hour
    ensures Ascending(r) && exists k :: 0 <= k <= |list| && r == list[..k] + [u] + list[k..]
  {
    var k := |list|;
    while k > 0 && list[k - 1].hour > u.hour
      invariant 0 <= k <= |list|
      invariant forall j :: k <= j < |list| ==> list[j].hour > u.hour
    {
      k := k - 1;
    }
    assert forall j :: 0 <= j < k ==> list[j].hour < u.hour;
    r := list[..k] + [u] + list[k..];
  }

  /** The list holds the entries of the map whose hours are done. */
  ghost predicate Listed(hourUsage: map<int, real>, done: set<int>, list: seq<Tou.HourUsage>) {
    && done <= hourUsage.Keys
    && (forall i :: 0 <= i < |list| ==> list[i].hour in done && list[i].usage == hourUsage[list[i].hour])
    && (forall h :: h in done ==> exists i :: 0 <= i < |list| && list[i].hour == h)
  }

  lemma ListedNext(hourUsage: map<int, real>, done: set<int>, list: seq<Tou.HourUsage>, u: Tou.HourUsage, k: nat)
    requires Listed(hourUsage, done, list) && k <= |list|
    requires u.hour in hourUsage && u.usage == hourUsage[u.hour]
    ensures Listed(hourUsage, done + {u.hour}, list[..k] + [u] + list[k..])
  {
    var r := list[..k] + [u] + list[k..];
    forall h | h in done + {u.hour} ensures exists i :: 0 <= i < |r| && r[i].hour == h {
      if h == u.hour {
        assert r[k].hour == h;
      } else {
        var i :| 0 <= i < |list| && list[i].hour == h;
        assert r[if i < k then i else i + 1].hour == h;
      }
    }
  }

  /** The entries of the map, taken in any order and sorted. */
  method Sorted(hourUsage: map<int, real>) returns (list: seq<Tou.HourUsage>)
    ensures Ascending(list) && Listed(hourUsage, hourUsage.Keys, list)
  {
    list := [];
    var left := hourUsage.Keys;
    while left != {}
      invariant left <= hourUsage.Keys
      invariant Ascending(list) && Listed(hourUsage, hourUsage.Keys - left, list)
      decreases left
    {
      assert (forall h :: h !in left) ==> left == {};
      var h :| h in left;
      var u := Tou.HourUsage(h, hourUsage[h]);
      ghost var before := list;
      list := Insert(list, u);
      ghost var k :| 0 <= k <= |before| && list == before[..k] + [u] + before[k..];
      ListedNext(hourUsage, hourUsage.Keys - left, before, u, k);
      assert hourUsage.Keys - left + {h} == hourUsage.Keys - (left - {h});
      left := left - {h};
    }
    assert hourUsage.Keys - left == hourUsage.Keys;
  }

  /** Where the differences stand after some bucket readings. */
  ghost predicate Bases(firstOf: map<string, real>, buckets: seq<Reading>, prev: map<string, real>) {
    forall d :: Previous(firstOf, buckets, d) == Base(firstOf, prev, d)
  }

  /** The reading to compare with: the one before, or else the first. */
  function Base(firstOf: map<string, real>, prev: map<string, real>, device: string): Option<real> {
    if device in prev then Some(prev[device]) else if device in firstOf then Some(firstOf[device]) else None
  }

  /** The bases and the usage after a bucket reading, as the loop leaves them. */
  function NextPrev(prev: map<string, real>, b: Reading, base: Option<real>): map<string, real> {
    if base.None? then prev else prev[b.device := b.kwh]
  }

  function NextUsage(hourUsage: map<int, real>, b: Reading, base: Option<real>): map<int, real> {
    if base.None? || b.kwh - base.value <= 0.0 then hourUsage
    else Credit(hourUsage, ClockHour(b.time), b.kwh - base.value)
  }

  /** One bucket reading, as the loop treats it. */
  lemma BucketNext(firstOf: map<string, real>, buckets: seq<Reading>, b: Reading, prev: map<string, real>,
                   hourUsage: map<int, real>)
    requires Bases(firstOf, buckets, prev) && HoldsHours(Gains(firstOf, buckets), hourUsage)
    ensures Bases(firstOf, buckets + [b], NextPrev(prev, b, Base(firstOf, prev, b.device)))
    ensures HoldsHours(Gains(firstOf, buckets + [b]), NextUsage(hourUsage, b, Base(firstOf, prev, b.device)))
  {
    BasesNext(firstOf, buckets, b, prev);
    BaseIsPrevious(firstOf, buckets, b.device, prev);
    GainsNext(firstOf, buckets, b, hourUsage, Base(firstOf, prev, b.device));
  }

  lemma BaseIsPrevious(firstOf: map<string, real>, buckets: seq<Reading>, device: string, prev: map<string, real>)
    requires Bases(firstOf, buckets, prev)
    ensures Base(firstOf, prev, device) == Previous(firstOf, buckets, device)
  {
    assert Previous(firstOf, buckets, device) == Base(firstOf, prev, device);
  }

  ghost predicate HoldsHours(gs: seq<Gain>, hourUsage: map<int, real>) {
    && (forall h :: h in hourUsage ==> 0 <= h < 24 && 0.0 < hourUsage[h] == HourSum(gs, h))
    && (forall h :: h !in hourUsage ==> HourSum(gs, h) == 0.0)
  }

  lemma BasesNext(firstOf: map<string, real>, buckets: seq<Reading>, b: Reading, prev: map<string, real>)
    requires Bases(firstOf, buckets, prev)
    ensures b.device in firstOf ==> Bases(firstOf, buckets + [b], prev[b.device := b.kwh])
    ensures b.device !in firstOf ==> b.device !in prev && Bases(firstOf, buckets + [b], prev)
  {
    assert (buckets + [b])[..|buckets|] == buckets;
    assert Previous(firstOf, buckets, b.device) == Base(firstOf, prev, b.device);
    forall d
      ensures Previous(firstOf, buckets + [b], d) ==
        (if d == b.device && d in firstOf then Some(b.kwh) else Base(firstOf, prev, d))
    {
      assert Previous(firstOf, buckets, d) == Base(firstOf, prev, d);
    }
  }

  /** Credit some usage to an hour. */
  function Credit(hourUsage: map<int, real>, hour: int, kwh: real): map<int, real> {
    hourUsage[hour := (if hour in hourUsage then hourUsage[hour] else 0.0) + kwh]
  }

  lemma CreditsGain(gs: seq<Gain>, g: Gain, hourUsage: map<int, real>)
    requires HoldsHours(gs, hourUsage) && 0 <= g.hour < 24 && g.kwh > 0.0
    ensures HoldsHours(gs + [g], Credit(hourUsage, g.hour, g.kwh))
  {
    SumSnoc(gs, g);
  }

  lemma GainsSnoc(firstOf: map<string, real>, buckets: seq<Reading>, b: Reading)
    ensures Gains(firstOf, buckets + [b]) ==
      Gains(firstOf, buckets) + GainOf(Previous(firstOf, buckets, b.device), b)
  {
    assert (buckets + [b])[..|buckets|] == buckets;
  }

  lemma GainsNext(firstOf: map<string, real>, buckets: seq<Reading>, b: Reading, hourUsage: map<int, real>,
                  base: Option<real>)
    requires HoldsHours(Gains(firstOf, buckets), hourUsage) && base == Previous(firstOf, buckets, b.device)
    ensures HoldsHours(Gains(firstOf, buckets + [b]), NextUsage(hourUsage, b, base))
  {
    GainsSnoc(firstOf, buckets, b);
    var gs, more := Gains(firstOf, buckets), GainOf(base, b);
    if more == [] {
      assert gs + more == gs;
    } else {
      CreditsGain(gs, more[0], hourUsage);
      assert gs + more == gs + [more[0]];
    }
  }

  /** The differences of a list of bucket readings, hour by hour. */
  method Difference(buckets: seq<Reading>, firstOf: map<string, real>) returns (hourUsage: map<int, real>)
    ensures HoldsHours(Gains(firstOf, buckets), hourUsage)
  {
    hourUsage := map[];
    var prev: map<string, real> := map[];
    for n := 0 to |buckets|
      invariant Bases(firstOf, buckets[..n], prev)
      invariant HoldsHours(Gains(firstOf, buckets[..n]), hourUsage)
    {
      var b := buckets[n];
      assert buckets[..n + 1] == buckets[..n] + [b];
      BucketNext(firstOf, buckets[..n], b, prev, hourUsage);
      var base := Base(firstOf, prev, b.device);
      if base.None? {
        continue;
      }
      var delta := b.kwh - base.value;
      if delta > 0.0 {
        hourUsage := Credit(hourUsage, ClockHour(b.time), delta);
      }
      prev := prev[b.device := b.kwh];
    }
    assert buckets[..|buckets|] == buckets;
  }

  lemma ListAddsUp(gs: seq<Gain>, hourUsage: map<int, real>, list: seq<Tou.HourUsage>)
    requires HoldsHours(gs, hourUsage) && Ascending(list) && Listed(hourUsage, hourUsage.Keys, list)
    requires forall g :: g in gs ==> 0 <= g.hour < 24
    ensures ListsBelow(gs, list, 24) && Tou.UsageSum(list) == GainSum(gs)
  {
    HoursPartition(gs);
    ListSum(gs, list, 24);
  }

  /** What the list says about the readings. */
  ghost predicate Accounts(rows: seq<Reading>, buckets: seq<Reading>, firstOf: map<string, real>,
                           list: seq<Tou.HourUsage>) {
    && Ascending(list)
    && ListsBelow(Gains(firstOf, buckets), list, 24)
    && (forall devices :: DevicesOf(rows, devices) ==>
          && Tou.UsageSum(list) >= NetUsage(firstOf, buckets, devices)
          && (Cumulative(rows) ==> Tou.UsageSum(list) == TotalUsage(rows, devices)))
  }

  lemma ListAccounts(rows: seq<Reading>, buckets: seq<Reading>, firsts: seq<Reading>, list: seq<Tou.HourUsage>,
                     hourUsage: map<int, real>)
    requires AnswersBuckets(rows, buckets) && AnswersFirsts(rows, firsts)
    requires HoldsHours(Gains(FirstOf(firsts), buckets), hourUsage)
    requires Ascending(list) && Listed(hourUsage, hourUsage.Keys, list)
    ensures Accounts(rows, buckets, FirstOf(firsts), list)
  {
    GainsComeFrom(FirstOf(firsts), buckets);
    ListAddsUp(Gains(FirstOf(firsts), buckets), hourUsage, list);
    forall devices | DevicesOf(rows, devices)
      ensures Tou.UsageSum(list) >= NetUsage(FirstOf(firsts), buckets, devices)
      ensures Cumulative(rows) ==> Tou.UsageSum(list) == TotalUsage(rows, devices)
    {
      EnergyConserved(rows, buckets, firsts, devices);
      TotalsAgreeIff(rows, buckets, firsts, devices);
    }
  }

  /** The usage of each clock hour over the whole interval, from whatever the two queries answer. It
      accounts for the net movement of all meters at least, and exactly for the total usage where
      meters only count up. */
  method ListHourlyUsage(ghost table: seq<Reading>, ghost zone: string, ghost start: int, ghost end: int,
                         buckets: seq<Reading>, firsts: seq<Reading>)
    returns (list: seq<Tou.HourUsage>)
    requires AnswersBuckets(Selected(table, zone, start, end), buckets)
    requires AnswersFirsts(Selected(table, zone, start, end), firsts)
    ensures Accounts(Selected(table, zone, start, end), buckets, FirstOf(firsts), list)
  {
    ghost var rows := Selected(table, zone, start, end);
    list := [];
    if buckets == [] {
      ListAccounts(rows, buckets, firsts, list, map[]);
      return;
    }
    var firstOf: map<string, real> := map[];
    for n := 0 to |firsts|
      invariant firstOf == FirstOf(firsts[..n])
    {
      assert firsts[..n + 1][..n] == firsts[..n];
      firstOf := firstOf[firsts[n].device := firsts[n].kwh];
    }
    assert firsts[..|firsts|] == firsts;
    var hourUsage := Difference(buckets, firstOf);
    list := Sorted(hourUsage);
    ListAccounts(rows, buckets, firsts, list, hourUsage);
  }
}
