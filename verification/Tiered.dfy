/** Tiered pricing, compared with the overlap of the usage with the gaps between tier caps. */
module Tiered {
  import opened Options
  import opened Money

  /** `upTo` is the cap of the tier; `None` has none. */
  datatype Tier = Tier(upTo: Option<real>, price: real)

  /** A line of the bill. The name tells the tier's place, where it starts and its cap. */
  datatype Name = Name(index: nat, from: real, upTo: Option<real>)

  datatype Item = Item(name: Name, usage: real, price: real, amount: real)

  function Min(a: real, b: real): real { if a < b then a else b }
  function Max(a: real, b: real): real { if a < b then b else a }

  // ----- Interval overlap

  /** The highest cap among the first `n` tiers, and at least 0. */
  function Floor(tiers: seq<Tier>, n: nat): (f: real)
    requires n <= |tiers|
    ensures f >= 0.0
  {
    if n == 0 then 0.0
    else match tiers[n - 1].upTo
      case None => Floor(tiers, n - 1)
      case Some(cap) => Max(Floor(tiers, n - 1), cap)
  }

  /** One of the first `n` tiers has no cap. */
  predicate Ended(tiers: seq<Tier>, n: nat)
    requires n <= |tiers|
  {
    n > 0 && (tiers[n - 1].upTo.None? || Ended(tiers, n - 1))
  }

  /** The length of the overlap of [0, usage] with the gap that tier `i` adds above all earlier
      caps. */
  function Share(usage: real, tiers: seq<Tier>, i: nat): (s: real)
    requires i < |tiers|
    ensures s >= 0.0
  {
    var top := match tiers[i].upTo case None => usage case Some(cap) => Min(usage, cap);
    if Ended(tiers, i) then 0.0 else Max(0.0, top - Floor(tiers, i))
  }

  /** The amount of a line. */
  function Charge(share: real, price: real): real { Round2(share * price) }

  function Line(usage: real, tiers: seq<Tier>, i: nat): Item
    requires i < |tiers|
  {
    var share := Share(usage, tiers, i);
    Item(Name(i, Floor(tiers, i), tiers[i].upTo), Round2(share), tiers[i].price, Charge(share, tiers[i].price))
  }

  /** The lines of the first `n` tiers: one for each that has a share. */
  function Lines(usage: real, tiers: seq<Tier>, n: nat): seq<Item>
    requires n <= |tiers|
  {
    if n == 0 then []
    else Lines(usage, tiers, n - 1) + if Share(usage, tiers, n - 1) > 0.0 then [Line(usage, tiers, n - 1)] else []
  }

  /** The sum of the amounts. */
  function Total(items: seq<Item>): real {
    if items == [] then 0.0 else Total(items[..|items| - 1]) + items[|items| - 1].amount
  }

  function Bill(usage: real, tiers: seq<Tier>): real { Total(Lines(usage, tiers, |tiers|)) }

  /** The sum of the first `n` shares. */
  function Shares(usage: real, tiers: seq<Tier>, n: nat): real
    requires n <= |tiers|
  {
    if n == 0 then 0.0 else Shares(usage, tiers, n - 1) + Share(usage, tiers, n - 1)
  }

  /** Conservation: the shares add up to the usage below the highest cap, or to all of it once a
      tier has no cap. */
  lemma {:induction false} SharesCoverUsage(usage: real, tiers: seq<Tier>, n: nat)
    requires usage >= 0.0 && n <= |tiers|
    ensures Shares(usage, tiers, n) == if Ended(tiers, n) then usage else Min(usage, Floor(tiers, n))
  {
    if n > 0 {
      SharesCoverUsage(usage, tiers, n - 1);
    }
  }

  /** Nothing is left once the shares have reached the usage. */
  lemma {:induction false} NoShareAfter(usage: real, tiers: seq<Tier>, n: nat, m: nat)
    requires usage >= 0.0 && n <= m <= |tiers| && Shares(usage, tiers, n) >= usage
    ensures Lines(usage, tiers, m) == Lines(usage, tiers, n) && Shares(usage, tiers, m) >= usage
  {
    if n < m {
      NoShareAfter(usage, tiers, n, m - 1);
      SharesCoverUsage(usage, tiers, m - 1);
      SharesCoverUsage(usage, tiers, m);
    }
  }

  lemma TotalSnoc(items: seq<Item>, x: Item)
    ensures Total(items + [x]) == Total(items) + x.amount
  {
    assert (items + [x])[..|items|] == items;
  }

  /** One more tier adds its charge, which is zero without a share. */
  lemma LinesNext(usage: real, tiers: seq<Tier>, n: nat)
    requires n < |tiers|
    ensures Total(Lines(usage, tiers, n + 1)) == Total(Lines(usage, tiers, n)) +
      if Share(usage, tiers, n) > 0.0 then Charge(Share(usage, tiers, n), tiers[n].price) else 0.0
  {
    TotalSnoc(Lines(usage, tiers, n), Line(usage, tiers, n));
    assert Lines(usage, tiers, n) + [] == Lines(usage, tiers, n);
  }

  lemma ChargeIsCents(share: real, price: real)
    ensures IsCents(Charge(share, price))
  {
    Round2Close(share * price);
  }

  lemma {:induction false} BillIsCents(usage: real, tiers: seq<Tier>, n: nat)
    requires n <= |tiers|
    ensures IsCents(Total(Lines(usage, tiers, n)))
  {
    if n == 0 {
      assert Total(Lines(usage, tiers, n)) == Cents(0);
    } else {
      BillIsCents(usage, tiers, n - 1);
      LinesNext(usage, tiers, n - 1);
      ChargeIsCents(Share(usage, tiers, n - 1), tiers[n - 1].price);
      if Share(usage, tiers, n - 1) > 0.0 {
        CentsAdd(Total(Lines(usage, tiers, n - 1)), Charge(Share(usage, tiers, n - 1), tiers[n - 1].price));
      }
    }
  }

  // ----- The loop

  /** The bill of `usage`: its lines are those of the interval overlap, and its total is exactly
      the sum of their amounts. */
  method CalcTiered(usage: real, tiers: seq<Tier>) returns (total: real, details: seq<Item>)
    ensures usage <= 0.0 || tiers == [] ==> total == 0.0 && details == []
    ensures usage > 0.0 ==> details == Lines(usage, tiers, |tiers|) && total == Bill(usage, tiers)
    ensures total == Total(details)
  {
    details, total := [], 0.0;
    if usage <= 0.0 || tiers == [] {
      return;
    }
    var lower, used := 0.0, 0.0;
    for i := 0 to |tiers|
      invariant details == Lines(usage, tiers, i) && total == Total(details)
      invariant used == Shares(usage, tiers, i)
      invariant used < usage ==> lower == Floor(tiers, i) == used && !Ended(tiers, i)
    {
      SharesCoverUsage(usage, tiers, i);
      SharesCoverUsage(usage, tiers, i + 1);
      if used >= usage {
        NoShareAfter(usage, tiers, i, |tiers|);
        break;
      }
      var t := tiers[i];
      var left := usage - used;
      var take;
      if t.upTo.None? {
        take := left;
      } else {
        var capacity := t.upTo.value - lower;
        if capacity <= 0.0 {
          continue;
        }
        take := Min(left, capacity);
      }
      assert take == Share(usage, tiers, i);
      if take <= 0.0 {
        continue;
      }
      var item := NewItem(i, lower, t, take);
      assert item == Line(usage, tiers, i);
      TotalSnoc(details, item);
      total := total + item.amount;
      details := details + [item];
      used := used + take;
      if t.upTo.Some? {
        lower := t.upTo.value;
      }
    }
    BillIsCents(usage, tiers, |tiers|);
    Round2Cents(total);
    total := Round2(total);
  }

  /** The detail line for `take` units of a tier. */
  function NewItem(index: nat, lower: real, t: Tier, take: real): Item {
    Item(Name(index, lower, t.upTo), Round2(take), t.price, Charge(take, t.price))
  }

  // ----- Theorems about the bill

  lemma ChargeGrows(a: real, b: real, price: real)
    requires 0.0 <= a <= b && 0.0 <= price
    ensures 0.0 <= Charge(a, price) <= Charge(b, price)
  {
    assert 0.0 <= a * price;
    assert b * price - a * price == (b - a) * price >= 0.0;
    Round2Monotone(a * price, b * price);
    Round2Close(a * price);
  }

  lemma {:induction false} LinesGrow(u: real, v: real, tiers: seq<Tier>, n: nat)
    requires u <= v && n <= |tiers|
    requires forall i :: 0 <= i < |tiers| ==> tiers[i].price >= 0.0
    ensures Total(Lines(u, tiers, n)) <= Total(Lines(v, tiers, n))
  {
    if n > 0 {
      LinesGrow(u, v, tiers, n - 1);
      LinesNext(u, tiers, n - 1);
      LinesNext(v, tiers, n - 1);
      assert Share(u, tiers, n - 1) <= Share(v, tiers, n - 1);
      ChargeGrows(Share(u, tiers, n - 1), Share(v, tiers, n - 1), tiers[n - 1].price);
    }
  }

  /** More usage never costs less, when no price is negative. */
  lemma BillMonotone(u: real, v: real, tiers: seq<Tier>)
    requires u <= v
    requires forall i :: 0 <= i < |tiers| ==> tiers[i].price >= 0.0
    ensures Bill(u, tiers) <= Bill(v, tiers)
  {
    LinesGrow(u, v, tiers, |tiers|);
  }

  /** The price of a share before rounding. */
  function Worth(share: real, price: real): real { share * price }

  /** The bill before rounding. */
  function Exact(usage: real, tiers: seq<Tier>, n: nat): real
    requires n <= |tiers|
  {
    if n == 0 then 0.0 else Exact(usage, tiers, n - 1) + Worth(Share(usage, tiers, n - 1), tiers[n - 1].price)
  }

  lemma ChargeNearWorth(share: real, price: real)
    ensures -0.005 <= Charge(share, price) - Worth(share, price) <= 0.005
    ensures share == 0.0 ==> Worth(share, price) == 0.0
  {
    Round2Close(share * price);
  }

  /** Half a cent for each of `n` lines. */
  function Slack(n: nat): real { 0.005 * n as real }

  /** Rounding costs either side at most half a cent per line. */
  lemma {:induction false} BillNearExact(usage: real, tiers: seq<Tier>, n: nat)
    requires n <= |tiers|
    ensures var lines := Lines(usage, tiers, n);
      -Slack(|lines|) <= Total(lines) - Exact(usage, tiers, n) <= Slack(|lines|)
  {
    if n > 0 {
      BillNearExact(usage, tiers, n - 1);
      LinesNext(usage, tiers, n - 1);
      ChargeNearWorth(Share(usage, tiers, n - 1), tiers[n - 1].price);
      var before, lines := Lines(usage, tiers, n - 1), Lines(usage, tiers, n);
      if Share(usage, tiers, n - 1) > 0.0 {
        assert |lines| == |before| + 1;
        assert Slack(|lines|) == Slack(|before|) + 0.005;
      } else {
        assert lines == before;
      }
    }
  }

  /** The tiers that matter: those before the end whose cap is higher than all before. */
  function Records(tiers: seq<Tier>, n: nat): seq<Tier>
    requires n <= |tiers|
  {
    if n == 0 then []
    else
      var t := tiers[n - 1];
      Records(tiers, n - 1)
      + if !Ended(tiers, n - 1) && (t.upTo.None? || t.upTo.value > Floor(tiers, n - 1)) then [t] else []
  }

  /** What a bill charges for: usage and price of each line. */
  function Charges(usage: real, tiers: seq<Tier>, n: nat): seq<(real, real)>
    requires n <= |tiers|
  {
    if n == 0 then []
    else
      Charges(usage, tiers, n - 1)
      + if Share(usage, tiers, n - 1) > 0.0 then [(Share(usage, tiers, n - 1), tiers[n - 1].price)] else []
  }

  lemma {:induction false} PrefixDecides(usage: real, a: seq<Tier>, b: seq<Tier>, n: nat)
    requires n <= |a| <= |b| && a == b[..|a|]
    ensures Floor(a, n) == Floor(b, n) && (Ended(a, n) <==> Ended(b, n))
    ensures Charges(usage, a, n) == Charges(usage, b, n)
  {
    if n > 0 {
      PrefixDecides(usage, a, b, n - 1);
      assert a[n - 1] == b[n - 1];
      assert Ended(a, n - 1) <==> Ended(b, n - 1);
    }
  }

  /** A tier whose cap is not higher than all before it, or that follows a tier without a cap,
      acts as if it were deleted. */
  lemma {:induction false} OtherTiersActDeleted(usage: real, tiers: seq<Tier>, n: nat)
    requires n <= |tiers|
    ensures var r := Records(tiers, n);
      && (Ended(r, |r|) <==> Ended(tiers, n))
      && (!Ended(tiers, n) ==> Floor(r, |r|) == Floor(tiers, n))
      && Charges(usage, r, |r|) == Charges(usage, tiers, n)
  {
    if n > 0 {
      OtherTiersActDeleted(usage, tiers, n - 1);
      var before, r := Records(tiers, n - 1), Records(tiers, n);
      var charged := Charges(usage, tiers, n - 1);
      if !Ended(tiers, n - 1) && (tiers[n - 1].upTo.None? || tiers[n - 1].upTo.value > Floor(tiers, n - 1)) {
        assert r == before + [tiers[n - 1]];
        assert r[..|before|] == before && r[|before|] == tiers[n - 1];
        PrefixDecides(usage, before, r, |before|);
      } else {
        assert r == before && Share(usage, tiers, n - 1) == 0.0;
        assert charged + [] == charged;
      }
    }
  }

  // ----- Validation

  /** No negative price, a cap above all earlier ones, and no missing cap but the last. */
  predicate TierOk(tiers: seq<Tier>, i: nat)
    requires i < |tiers|
  {
    tiers[i].price >= 0.0 &&
    match tiers[i].upTo
    case None => i == |tiers| - 1
    case Some(cap) => cap > Floor(tiers, i)
  }

  predicate Valid(tiers: seq<Tier>) {
    forall i :: 0 <= i < |tiers| ==> TierOk(tiers, i)
  }

  datatype TierError = NegativePrice | UncappedInside | CapNotHigher

  /** Accepts exactly the valid lists. */
  method ValidateTiers(tiers: seq<Tier>) returns (err: Option<TierError>)
    ensures err.None? <==> Valid(tiers)
  {
    var prev := 0.0;
    for i := 0 to |tiers|
      invariant prev == Floor(tiers, i)
      invariant forall j :: 0 <= j < i ==> TierOk(tiers, j)
    {
      var t := tiers[i];
      assert Valid(tiers) ==> TierOk(tiers, i);
      if t.price < 0.0 {
        return Some(NegativePrice);
      }
      if t.upTo.None? {
        if i != |tiers| - 1 {
          return Some(UncappedInside);
        }
        continue;
      }
      if t.upTo.value <= prev {
        return Some(CapNotHigher);
      }
      prev := t.upTo.value;
    }
    return None;
  }

  /** A validated list has no tier to delete. */
  lemma {:induction false} ValidTiersAllCount(tiers: seq<Tier>, n: nat)
    requires Valid(tiers) && n <= |tiers|
    ensures Records(tiers, n) == tiers[..n]
    ensures Ended(tiers, n) ==> n == |tiers|
  {
    if n > 0 {
      ValidTiersAllCount(tiers, n - 1);
      assert TierOk(tiers, n - 1);
      assert tiers[..n] == tiers[..n - 1] + [tiers[n - 1]];
    }
  }

  /** Exactly when a bill covers the whole usage: some tier has no cap, or the usage is within the
      highest. Usage above the last cap of a validated list is free. */
  lemma FullyBilledIff(usage: real, tiers: seq<Tier>)
    requires usage > 0.0
    ensures Shares(usage, tiers, |tiers|) == usage <==> Ended(tiers, |tiers|) || usage <= Floor(tiers, |tiers|)
  {
    SharesCoverUsage(usage, tiers, |tiers|);
  }
}
