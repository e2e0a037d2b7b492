/** Time-of-use pricing: each clock hour belongs to the first period that matches, or to the base
    price, and lines of the bill collect the hours that share a name.
  */
module Tou {
  import opened Options
  import opened Money

  type Byte = b: int | 0 <= b < 256

  // ----- Clocks and periods

  /** Subtraction of bytes wraps around. */
  function Digit(b: Byte): int { (b - 48) % 256 }

  /** The hour of a clock "HH:MM". Only four bytes are looked at, and they need not be digits. */
  function ParseClock(s: seq<Byte>): (r: Option<int>)
    ensures r.Some? ==> 0 <= r.value < 24
  {
    if |s| < 5 then None
    else
      var h := Digit(s[0]) * 10 + Digit(s[1]);
      var m := Digit(s[3]) * 10 + Digit(s[4]);
      if h > 23 || m > 59 then None else Some(h)
  }

  datatype Period = Period(name: string, from: seq<Byte>, to: seq<Byte>, price: real)

  predicate InPeriod(hour: int, p: Period) {
    var from, to := ParseClock(p.from), ParseClock(p.to);
    && from.Some? && to.Some? && from != to
    && if from.value < to.value then from.value <= hour < to.value else hour >= from.value || hour < to.value
  }

  function Reverse(p: Period): Period { p.(from := p.to, to := p.from) }

  /** A period and its reverse partition the day, unless they are empty both. */
  lemma ReversePartitionsDay(p: Period, hour: int)
    requires 0 <= hour < 24
    ensures var proper := ParseClock(p.from).Some? && ParseClock(p.to).Some? && ParseClock(p.from) != ParseClock(p.to);
      && (proper ==> (InPeriod(hour, p) <==> !InPeriod(hour, Reverse(p))))
      && (!proper ==> !InPeriod(hour, p) && !InPeriod(hour, Reverse(p)))
  {
  }

  /** Walking forward from the start, the period is the hours before its end is reached. */
  lemma PeriodIsForwardWalk(p: Period, hour: int)
    requires 0 <= hour < 24 && ParseClock(p.from).Some? && ParseClock(p.to).Some?
    ensures var from, to := ParseClock(p.from).value, ParseClock(p.to).value;
      InPeriod(hour, p) <==> (hour - from) % 24 < (to - from) % 24
  {
  }

  /** Two clocks in the same hour make an empty period: minutes are not looked at. */
  lemma PeriodWithinHourIsEmpty(p: Period, hour: int)
    requires |p.from| >= 5 && |p.to| >= 5 && p.from[..2] == p.to[..2]
    ensures !InPeriod(hour, p)
  {
    assert p.from[0] == p.from[..2][0] == p.to[0];
    assert p.from[1] == p.from[..2][1] == p.to[1];
  }

  // ----- Which clocks are accepted

  predicate IsDigit(s: seq<Byte>, i: nat) { i < |s| && 48 <= s[i] <= 57 }

  /** A number of one or two digits, or of exactly two, and what follows it. */
  function GetNumber(s: seq<Byte>, twoDigits: bool): Option<(int, seq<Byte>)> {
    if !IsDigit(s, 0) || (twoDigits && !IsDigit(s, 1)) then None
    else if !IsDigit(s, 1) then Some((s[0] - 48, s[1..]))
    else Some(((s[0] - 48) * 10 + s[1] - 48, s[2..]))
  }

  /** The hour of a clock that a rule may be created with: an hour of one or two digits below 24, a
      colon, and a minute of two digits below 60. */
  function AcceptedHour(s: seq<Byte>): Option<int> {
    match GetNumber(s, false)
    case None => None
    case Some((h, rest)) =>
      if h >= 24 || rest == [] || rest[0] != 58 then None
      else
        match GetNumber(rest[1..], true)
        case None => None
        case Some((m, tail)) => if m >= 60 || tail != [] then None else Some(h)
  }

  /** Billing reads an accepted clock as it is meant if and only if its hour has two digits; otherwise it
      reads nothing. */
  lemma AcceptedClockRead(s: seq<Byte>)
    requires AcceptedHour(s).Some?
    ensures |s| == 4 || |s| == 5
    ensures ParseClock(s) == if |s| == 5 then AcceptedHour(s) else None
  {
  }

  /** Whatever stands between the numbers and after them, a clock of two numbers of two digits is read as the
      first one, if they are an hour and a minute. */
  lemma ClockInNumbers(h: nat, m: nat, between: Byte, tail: seq<Byte>)
    requires h < 100 && m < 100
    ensures ParseClock([48 + h / 10, 48 + h % 10, between, 48 + m / 10, 48 + m % 10] + tail)
         == if h < 24 && m < 60 then Some(h) else None
  {
    var s: seq<Byte> := [48 + h / 10, 48 + h % 10, between, 48 + m / 10, 48 + m % 10];
    assert forall i :: 0 <= i < 5 ==> (s + tail)[i] == s[i];
  }

  /** A period that passes validation is billed in some hour if and only if both its clocks have a
      two-digit hour and the hours differ. Any other is silently billed at the base price, or as the
      periods after it say. */
  lemma AcceptedPeriodAppliesIff(p: Period)
    requires AcceptedHour(p.from).Some? && AcceptedHour(p.to).Some?
    ensures (exists hour :: 0 <= hour < 24 && InPeriod(hour, p)) <==>
      |p.from| == 5 && |p.to| == 5 && AcceptedHour(p.from) != AcceptedHour(p.to)
  {
    AcceptedClockRead(p.from);
    AcceptedClockRead(p.to);
    if |p.from| == 5 && |p.to| == 5 && AcceptedHour(p.from) != AcceptedHour(p.to) {
      assert InPeriod(ParseClock(p.from).value, p);
    }
  }

  datatype PeriodError = BadFrom | BadTo | NegativePrice

  predicate PeriodOk(p: Period) { AcceptedHour(p.from).Some? && AcceptedHour(p.to).Some? && p.price >= 0.0 }

  /** Accepts exactly the lists whose clocks are accepted and whose prices are not negative. */
  method ValidatePeriods(periods: seq<Period>) returns (err: Option<PeriodError>)
    ensures err.None? <==> forall i :: 0 <= i < |periods| ==> PeriodOk(periods[i])
  {
    for i := 0 to |periods|
      invariant forall j :: 0 <= j < i ==> PeriodOk(periods[j])
    {
      var p := periods[i];
      if AcceptedHour(p.from).None? {
        return Some(BadFrom);
      }
      if AcceptedHour(p.to).None? {
        return Some(BadTo);
      }
      if p.price < 0.0 {
        return Some(NegativePrice);
      }
    }
    return None;
  }

  // ----- Prices and names

  /** The first period that an hour falls into, or |periods|. */
  function FirstMatch(hour: int, periods: seq<Period>): (i: nat)
    ensures i <= |periods|
    ensures i < |periods| ==> InPeriod(hour, periods[i])
    ensures forall j :: 0 <= j < i ==> !InPeriod(hour, periods[j])
  {
    if periods == [] then 0 else if InPeriod(hour, periods[0]) then 0 else 1 + FirstMatch(hour, periods[1..])
  }

  const BASE_NAME: string := "平"

  datatype Tariff = Tariff(base: real, periods: seq<Period>) {
    function Price(hour: int): real {
      var i := FirstMatch(hour, periods);
      if i < |periods| then periods[i].price else base
    }

    function NameOf(hour: int): string {
      var i := FirstMatch(hour, periods);
      if i < |periods| then periods[i].name else BASE_NAME
    }
  }

  /** Price and name of each of the 24 hours. */
  datatype Rates = Rates(prices: seq<real>, names: seq<string>) {
    function Price(hour: int): real { if 0 <= hour < |prices| then prices[hour] else 0.0 }

    function NameOf(hour: int): string { if 0 <= hour < |names| then names[hour] else "" }
  }

  function RatesOf(t: Tariff): (r: Rates)
    ensures forall hour :: 0 <= hour < 24 ==> r.Price(hour) == t.Price(hour) && r.NameOf(hour) == t.NameOf(hour)
  {
    Rates(seq(24, hour => t.Price(hour)), seq(24, hour => t.NameOf(hour)))
  }

  datatype HourUsage = HourUsage(hour: int, usage: real) {
    /** Only these are billed. */
    predicate Counts() { 0 <= hour <= 23 && usage > 0.0 }
  }

  /** The amount for some usage, in cents. */
  function Charge(usage: real, price: real): (r: real)
    ensures IsCents(r)
  {
    Round2Close(usage * price);
    Round2(usage * price)
  }

  function Amount(t: Rates, u: HourUsage): real {
    if u.Counts() then Charge(u.usage, t.Price(u.hour)) else 0.0
  }

  function Usage(u: HourUsage): real { if u.Counts() then u.usage else 0.0 }

  // ----- Sums over the hours, all of them or those of one name

  function AmountSum(t: Rates, hourly: seq<HourUsage>): real {
    if hourly == [] then 0.0
    else AmountSum(t, hourly[..|hourly| - 1]) + Amount(t, hourly[|hourly| - 1])
  }

  function UsageSum(hourly: seq<HourUsage>): real {
    if hourly == [] then 0.0
    else UsageSum(hourly[..|hourly| - 1]) + Usage(hourly[|hourly| - 1])
  }

  function Named(t: Rates, hourly: seq<HourUsage>, name: string): seq<HourUsage> {
    if hourly == [] then []
    else
      var u := hourly[|hourly| - 1];
      Named(t, hourly[..|hourly| - 1], name) + OwnPart(t, u, name)
  }

  lemma Snoc(t: Rates, hourly: seq<HourUsage>, u: HourUsage)
    ensures AmountSum(t, hourly + [u]) == AmountSum(t, hourly) + Amount(t, u)
    ensures UsageSum(hourly + [u]) == UsageSum(hourly) + Usage(u)
    ensures forall name :: Named(t, hourly + [u], name) == Named(t, hourly, name) + OwnPart(t, u, name)
  {
    assert (hourly + [u])[..|hourly|] == hourly;
  }

  /** What one hour adds to the hours of a name. */
  function OwnPart(t: Rates, u: HourUsage, name: string): seq<HourUsage> {
    if u.Counts() && t.NameOf(u.hour) == name then [u] else []
  }

  lemma {:induction false} AmountsAreCents(t: Rates, hourly: seq<HourUsage>)
    ensures IsCents(AmountSum(t, hourly))
  {
    if hourly == [] {
      assert AmountSum(t, hourly) == Cents(0);
    } else {
      var u := hourly[|hourly| - 1];
      AmountsAreCents(t, hourly[..|hourly| - 1]);
      assert IsCents(Amount(t, u)) by {
        assert Cents(0) == 0.0;
      }
      CentsAdd(AmountSum(t, hourly[..|hourly| - 1]), Amount(t, u));
    }
  }

  // ----- The names partition the hours

  predicate AllDistinct(names: seq<string>) {
    forall i, j :: 0 <= i < j < |names| ==> names[i] != names[j]
  }

  /** Amounts and usage summed name by name. */
  function AmountByName(t: Rates, hourly: seq<HourUsage>, names: seq<string>): real {
    if names == [] then 0.0
    else AmountByName(t, hourly, names[..|names| - 1]) + AmountSum(t, Named(t, hourly, names[|names| - 1]))
  }

  function UsageByName(t: Rates, hourly: seq<HourUsage>, names: seq<string>): real {
    if names == [] then 0.0
    else UsageByName(t, hourly, names[..|names| - 1]) + UsageSum(Named(t, hourly, names[|names| - 1]))
  }

  lemma {:induction false} NoHoursNoSums(t: Rates, names: seq<string>)
    ensures AmountByName(t, [], names) == 0.0 && UsageByName(t, [], names) == 0.0
  {
    if names != [] {
      NoHoursNoSums(t, names[..|names| - 1]);
    }
  }

  /** One more hour adds its amount once, to its own name. */
  lemma {:induction false} HourAddsOnce(t: Rates, hourly: seq<HourUsage>, u: HourUsage, names: seq<string>)
    requires AllDistinct(names)
    ensures var own := u.Counts() && t.NameOf(u.hour) in names;
      && AmountByName(t, hourly + [u], names) == AmountByName(t, hourly, names) + (if own then Amount(t, u) else 0.0)
      && UsageByName(t, hourly + [u], names) == UsageByName(t, hourly, names) + (if own then Usage(u) else 0.0)
  {
    if names != [] {
      var front, name := names[..|names| - 1], names[|names| - 1];
      HourAddsOnce(t, hourly, u, front);
      Snoc(t, hourly, u);
      Snoc(t, Named(t, hourly, name), u);
      assert Named(t, hourly, name) + [] == Named(t, hourly, name);
      assert t.NameOf(u.hour) in names <==> t.NameOf(u.hour) in front || t.NameOf(u.hour) == name;
    }
  }

  /** Conservation: the sums over distinct names that cover all hours are the sums over the hours,
      for the rounded amounts and for the usage before rounding. */
  lemma {:induction false} NamesPartitionHours(t: Rates, hourly: seq<HourUsage>, names: seq<string>)
    requires AllDistinct(names)
    requires forall u :: u in hourly && u.Counts() ==> t.NameOf(u.hour) in names
    ensures AmountByName(t, hourly, names) == AmountSum(t, hourly)
    ensures UsageByName(t, hourly, names) == UsageSum(hourly)
  {
    if hourly == [] {
      NoHoursNoSums(t, names);
    } else {
      var front, u := hourly[..|hourly| - 1], hourly[|hourly| - 1];
      NamesPartitionHours(t, front, names);
      assert hourly == front + [u];
      HourAddsOnce(t, front, u, names);
    }
  }

  // ----- The order of the hours does not matter

  lemma {:induction false} AmountSumRemove(t: Rates, hourly: seq<HourUsage>, k: nat)
    requires k < |hourly|
    ensures var rest := hourly[..k] + hourly[k + 1..];
      && AmountSum(t, hourly) == AmountSum(t, rest) + Amount(t, hourly[k])
      && UsageSum(hourly) == UsageSum(rest) + Usage(hourly[k])
  {
    var n := |hourly| - 1;
    var rest := hourly[..k] + hourly[k + 1..];
    if k == n {
      assert rest == hourly[..n];
    } else {
      AmountSumRemove(t, hourly[..n], k);
      var front := hourly[..n][..k] + hourly[..n][k + 1..];
      assert rest == front + [hourly[n]];
      Snoc(t, front, hourly[n]);
    }
  }

  /** A list with the same elements has the last one somewhere, and the rest match. */
  lemma FindLast(a: seq<HourUsage>, b: seq<HourUsage>) returns (k: nat)
    requires multiset(a) == multiset(b) && a != []
    ensures k < |b| && b[k] == a[|a| - 1]
    ensures multiset(a[..|a| - 1]) == multiset(b[..k] + b[k + 1..])
  {
    var u := a[|a| - 1];
    assert a == a[..|a| - 1] + [u];
    assert u in multiset(b);
    k :| 0 <= k < |b| && b[k] == u;
    assert b == b[..k] + [u] + b[k + 1..];
    assert multiset(b[..k] + b[k + 1..]) == multiset(b) - multiset{u};
    assert multiset(a[..|a| - 1]) == multiset(a) - multiset{u};
  }

  /** Total and usage are the same for every permutation of the hours. */
  lemma {:induction false} OrderDoesNotMatter(t: Rates, a: seq<HourUsage>, b: seq<HourUsage>)
    requires multiset(a) == multiset(b)
    ensures AmountSum(t, a) == AmountSum(t, b) && UsageSum(a) == UsageSum(b)
  {
    if a == [] {
      assert |multiset(b)| == 0;
    } else {
      var k := FindLast(a, b);
      OrderDoesNotMatter(t, a[..|a| - 1], b[..k] + b[k + 1..]);
      AmountSumRemove(t, b, k);
    }
  }

  // ----- The bill

  datatype Bucket = Bucket(usage: real, price: real, amount: real)

  datatype Item = Item(name: string, usage: real, price: real, amount: real)

  function ItemSum(items: seq<Item>): real {
    if items == [] then 0.0 else ItemSum(items[..|items| - 1]) + items[|items| - 1].amount
  }

  /** The line for one name: the sums over its hours, at the price of the first of them. */
  predicate LineFor(t: Rates, hourly: seq<HourUsage>, name: string, item: Item) {
    var own := Named(t, hourly, name);
    && own != []
    && item == Item(name, Round2(UsageSum(own)), t.Price(own[0].hour), AmountSum(t, own))
  }

  /** The bucket of one name holds the sums over its hours. */
  ghost predicate BucketOk(t: Rates, own: seq<HourUsage>, b: Bucket) {
    own != [] && b == Bucket(UsageSum(own), t.Price(own[0].hour), AmountSum(t, own))
  }

  /** The names that occur, by their first occurrence. */
  function Order(t: Rates, hourly: seq<HourUsage>): seq<string> {
    if hourly == [] then []
    else
      var before, u := Order(t, hourly[..|hourly| - 1]), hourly[|hourly| - 1];
      if u.Counts() then Added(before, t.NameOf(u.hour)) else before
  }

  lemma OrderSnoc(t: Rates, hourly: seq<HourUsage>, u: HourUsage)
    ensures Order(t, hourly + [u]) ==
      if u.Counts() then Added(Order(t, hourly), t.NameOf(u.hour)) else Order(t, hourly)
  {
    assert (hourly + [u])[..|hourly|] == hourly;
  }

  /** The buckets after some hours: one for each name that occurs, listed in `order`. */
  ghost predicate Holds(t: Rates, hourly: seq<HourUsage>, buckets: map<string, Bucket>, order: seq<string>) {
    && AllDistinct(order)
    && (forall name :: name in order <==> name in buckets)
    && (forall name :: name !in buckets ==> Named(t, hourly, name) == [])
    && (forall name :: name in buckets ==> BucketOk(t, Named(t, hourly, name), buckets[name]))
  }

  lemma {:induction false} OwnHoursFound(t: Rates, hourly: seq<HourUsage>, u: HourUsage)
    requires u in hourly && u.Counts()
    ensures Named(t, hourly, t.NameOf(u.hour)) != []
  {
    var last := hourly[|hourly| - 1];
    if u != last {
      OwnHoursFound(t, hourly[..|hourly| - 1], u);
    }
  }

  /** Add one hour to its bucket. */
  method Collect(t: Rates, ghost before: seq<HourUsage>, buckets: map<string, Bucket>, order: seq<string>, u: HourUsage,
                 name: string, price: real)
    returns (buckets': map<string, Bucket>, order': seq<string>)
    requires Holds(t, before, buckets, order) && u.Counts() && name == t.NameOf(u.hour) && price == t.Price(u.hour)
    ensures Holds(t, before + [u], buckets', order')
    ensures order' == Added(order, name)
  {
    var amount := Charge(u.usage, price);
    assert amount == Amount(t, u);
    var b := if name in buckets then buckets[name] else Bucket(0.0, price, 0.0);
    order' := if name in buckets then order else order + [name];
    var b' := Bucket(b.usage + u.usage, b.price, b.amount + amount);
    buckets' := buckets[name := b'];
    ghost var own := Named(t, before, name);
    assert name in buckets ==> BucketOk(t, own, b);
    BucketGrows(t, own, b, u, b');
    NamedNext(t, before, u);
  }

  function Added(order: seq<string>, name: string): seq<string> {
    if name in order then order else order + [name]
  }

  lemma BucketGrows(t: Rates, own: seq<HourUsage>, b: Bucket, u: HourUsage, b': Bucket)
    requires u.Counts()
    requires BucketOk(t, own, b) || (own == [] && b == Bucket(0.0, t.Price(u.hour), 0.0))
    requires b' == Bucket(b.usage + u.usage, b.price, b.amount + Amount(t, u))
    ensures BucketOk(t, own + [u], b')
  {
    Snoc(t, own, u);
  }

  /** One more hour only changes the hours of its own name. */
  lemma NamedNext(t: Rates, before: seq<HourUsage>, u: HourUsage)
    ensures forall n :: n != t.NameOf(u.hour) || !u.Counts() ==> Named(t, before + [u], n) == Named(t, before, n)
    ensures u.Counts() ==> Named(t, before + [u], t.NameOf(u.hour)) == Named(t, before, t.NameOf(u.hour)) + [u]
  {
    Snoc(t, before, u);
    forall n ensures Named(t, before, n) + [] == Named(t, before, n) {
    }
  }

  /** The line of a bucket; rounding its amount once more changes nothing. */
  function ItemOf(name: string, b: Bucket): Item { Item(name, Round2(b.usage), b.price, Round2(b.amount)) }

  lemma BucketMakesLine(t: Rates, hourly: seq<HourUsage>, name: string, b: Bucket)
    requires BucketOk(t, Named(t, hourly, name), b)
    ensures LineFor(t, hourly, name, ItemOf(name, b))
    ensures ItemOf(name, b).amount == AmountSum(t, Named(t, hourly, name))
  {
    AmountsAreCents(t, Named(t, hourly, name));
    Round2Cents(b.amount);
  }

  lemma ItemsSnoc(items: seq<Item>, item: Item)
    ensures ItemSum(items + [item]) == ItemSum(items) + item.amount
  {
    assert (items + [item])[..|items|] == items;
  }

  lemma NamesSnoc(t: Rates, hourly: seq<HourUsage>, names: seq<string>, name: string)
    ensures AmountByName(t, hourly, names + [name])
         == AmountByName(t, hourly, names) + AmountSum(t, Named(t, hourly, name))
  {
    assert (names + [name])[..|names|] == names;
  }

  ghost predicate Listed(t: Rates, hourly: seq<HourUsage>, order: seq<string>, details: seq<Item>) {
    && |details| == |order|
    && (forall i :: 0 <= i < |order| ==> LineFor(t, hourly, order[i], details[i]))
    && ItemSum(details) == AmountByName(t, hourly, order)
  }

  lemma ListedNext(t: Rates, hourly: seq<HourUsage>, order: seq<string>, details: seq<Item>, name: string, b: Bucket)
    requires Listed(t, hourly, order, details) && BucketOk(t, Named(t, hourly, name), b)
    ensures Listed(t, hourly, order + [name], details + [ItemOf(name, b)])
  {
    BucketMakesLine(t, hourly, name, b);
    ItemsSnoc(details, ItemOf(name, b));
    NamesSnoc(t, hourly, order, name);
  }

  /** Turn the buckets into lines. */
  method Lines(t: Rates, ghost hourly: seq<HourUsage>, buckets: map<string, Bucket>, order: seq<string>)
    returns (details: seq<Item>)
    requires Holds(t, hourly, buckets, order)
    ensures Listed(t, hourly, order, details)
  {
    details := [];
    for k := 0 to |order|
      invariant Listed(t, hourly, order[..k], details)
    {
      assert order[..k + 1] == order[..k] + [order[k]];
      ListedNext(t, hourly, order[..k], details, order[k], buckets[order[k]]);
      details := details + [ItemOf(order[k], buckets[order[k]])];
    }
    assert order[..|order|] == order;
  }

  /** The first period that matches gives price and name of an hour. */
  method HourTable(t: Tariff) returns (rates: Rates)
    ensures rates == RatesOf(t)
  {
    var prices: seq<real>, names: seq<string> := [], [];
    for h := 0 to 24
      invariant |prices| == |names| == h
      invariant forall k :: 0 <= k < h ==> prices[k] == t.Price(k) && names[k] == t.NameOf(k)
    {
      var price, name := t.base, BASE_NAME;
      for i := 0 to |t.periods|
        invariant price == t.base && name == BASE_NAME
        invariant forall j :: 0 <= j < i ==> !InPeriod(h, t.periods[j])
      {
        if InPeriod(h, t.periods[i]) {
          price, name := t.periods[i].price, t.periods[i].name;
          assert FirstMatch(h, t.periods) == i;
          break;
        }
      }
      prices, names := prices + [price], names + [name];
    }
    rates := Rates(prices, names);
    assert prices == RatesOf(t).prices && names == RatesOf(t).names;
  }

  /** Gather all hours into buckets, and the total of their amounts. */
  method Gather(hourly: seq<HourUsage>, t: Rates)
    returns (total: real, buckets: map<string, Bucket>, order: seq<string>)
    ensures Holds(t, hourly, buckets, order) && order == Order(t, hourly)
    ensures total == AmountSum(t, hourly)
  {
    buckets, order, total := map[], [], 0.0;
    for n := 0 to |hourly|
      invariant Holds(t, hourly[..n], buckets, order) && order == Order(t, hourly[..n])
      invariant total == AmountSum(t, hourly[..n])
    {
      var u := hourly[n];
      assert hourly[..n + 1] == hourly[..n] + [u];
      Snoc(t, hourly[..n], u);
      OrderSnoc(t, hourly[..n], u);
      if u.hour < 0 || u.hour > 23 || u.usage <= 0.0 {
        NamedNext(t, hourly[..n], u);
        continue;
      }
      buckets, order := Collect(t, hourly[..n], buckets, order, u, t.NameOf(u.hour), t.Price(u.hour));
      total := total + Charge(u.usage, t.Price(u.hour));
    }
    assert hourly[..|hourly|] == hourly;
  }

  // ----- Usage times price

  lemma ChargeNear(usage: real, price: real)
    ensures -0.005 <= Charge(usage, price) - usage * price <= 0.005
  {
    Round2Close(usage * price);
  }

  /** The hours that are billed. */
  function Counted(hourly: seq<HourUsage>): nat {
    if hourly == [] then 0
    else Counted(hourly[..|hourly| - 1]) + if hourly[|hourly| - 1].Counts() then 1 else 0
  }

  /** The usage of one hour at the price of the tariff, not rounded. */
  function Worth(t: Tariff, u: HourUsage): real { if u.Counts() then u.usage * t.Price(u.hour) else 0.0 }

  function ExactBill(t: Tariff, hourly: seq<HourUsage>): real {
    if hourly == [] then 0.0 else ExactBill(t, hourly[..|hourly| - 1]) + Worth(t, hourly[|hourly| - 1])
  }

  lemma AmountNearWorth(t: Tariff, u: HourUsage)
    ensures u.Counts() ==> -0.005 <= Amount(RatesOf(t), u) - Worth(t, u) <= 0.005
    ensures !u.Counts() ==> Amount(RatesOf(t), u) == Worth(t, u) == 0.0
  {
    if u.Counts() {
      ChargeNear(u.usage, t.Price(u.hour));
    }
  }

  /** Half a cent for each of `n` hours. */
  function Slack(n: nat): real { 0.005 * n as real }

  /** The amounts of some hours are usage times price, but for half a cent for each hour. */
  lemma {:induction false} AmountsNearExact(t: Tariff, hourly: seq<HourUsage>)
    ensures -Slack(Counted(hourly)) <= AmountSum(RatesOf(t), hourly) - ExactBill(t, hourly) <= Slack(Counted(hourly))
  {
    if hourly != [] {
      AmountsNearExact(t, hourly[..|hourly| - 1]);
      AmountNearWorth(t, hourly[|hourly| - 1]);
    }
  }

  /** The amount of a line, against usage times price of the hours of its name. */
  ghost predicate LineNearExact(t: Tariff, hourly: seq<HourUsage>, item: Item) {
    var own := Named(RatesOf(t), hourly, item.name);
    -Slack(Counted(own)) <= item.amount - ExactBill(t, own) <= Slack(Counted(own))
  }

  predicate IsFirstOf(hour: int, periods: seq<Period>, i: int) {
    0 <= i < |periods| && InPeriod(hour, periods[i]) && forall j :: 0 <= j < i ==> !InPeriod(hour, periods[j])
  }

  /** The price and the name of an hour are those of the first period that it falls into, and the base
      price and the built-in name without one. */
  lemma PriceOfHour(t: Tariff, hour: int)
    ensures forall i :: IsFirstOf(hour, t.periods, i) ==>
      t.Price(hour) == t.periods[i].price && t.NameOf(hour) == t.periods[i].name
    ensures (forall i :: 0 <= i < |t.periods| ==> !InPeriod(hour, t.periods[i])) ==>
      t.Price(hour) == t.base && t.NameOf(hour) == "平"
  {
  }

  /** The bill of a list of hours, in any order. The total is the sum of the rounded amounts; the
      details have one line per name that occurs, by first occurrence, and their amounts add up to
      the total exactly. */
  method CalcTou(hourly: seq<HourUsage>, t: Tariff) returns (total: real, details: seq<Item>)
    ensures var rates := RatesOf(t);
      && total == AmountSum(rates, hourly) == ItemSum(details)
      && Listed(rates, hourly, Order(rates, hourly), details)
      && AllDistinct(Order(rates, hourly))
      && (forall u :: u in hourly && u.Counts() ==> rates.NameOf(u.hour) in Order(rates, hourly))
    ensures -Slack(Counted(hourly)) <= total - ExactBill(t, hourly) <= Slack(Counted(hourly))
    ensures forall i :: 0 <= i < |details| ==> LineNearExact(t, hourly, details[i])
  {
    AmountsNearExact(t, hourly);
    if hourly == [] {
      return 0.0, [];
    }
    var rates := HourTable(t);
    var buckets, order;
    total, buckets, order := Gather(hourly, rates);
    details := Lines(rates, hourly, buckets, order);
    forall u | u in hourly && u.Counts() ensures rates.NameOf(u.hour) in order {
      OwnHoursFound(rates, hourly, u);
    }
    NamesPartitionHours(rates, hourly, order);
    AmountsAreCents(rates, hourly);
    Round2Cents(total);
    total := Round2(total);
    forall i | 0 <= i < |details| ensures LineNearExact(t, hourly, details[i]) {
      assert LineFor(rates, hourly, order[i], details[i]);
      AmountsNearExact(t, Named(rates, hourly, order[i]));
    }
  }
}
