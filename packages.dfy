/** The per-item derivation of the handler: each activated item of a customer
    record becomes a package view with its remaining balance, the share used
    and a countdown to expiry; the related eSIMs are copied field by field. */
module Packages {
  import opened Wrappers
  import opened Text
  import opened Payload
  import Countdown
  import Throwing

  const DefaultUnit: string := "GB"

  /** `m?.sizeValue || 0`: an absent measure or size reads as 0. */
  function SizeOrZero(m: Option<Measure>): int {
    if m.Some? && m.value.sizeValue.Some? then m.value.sizeValue.value else 0
  }

  /** `available` of a balance. */
  function Available(b: Balance): int {
    SizeOrZero(b.availableBalance)
  }

  /** `total` of a balance. */
  function Total(b: Balance): int {
    SizeOrZero(b.totalBalance)
  }

  /** The unit shown next to the available size, `sizeUnit || 'GB'`: absent and
      empty units are both falsy and read as GB. */
  function UnitOf(b: Balance): string {
    if b.availableBalance.Some? && b.availableBalance.value.sizeUnit.Some?
       && b.availableBalance.value.sizeUnit.value != ""
    then b.availableBalance.value.sizeUnit.value
    else DefaultUnit
  }

  /** `remaining`: the available size, a space, and its unit. */
  function Remaining(b: Balance): string {
    IntToString(Available(b)) + " " + UnitOf(b)
  }

  /** The remaining text splits at its first space into the available size
      and a non-empty unit, which is the upstream unit when one is given. */
  lemma RemainingParts(b: Balance)
    ensures var s, n := Remaining(b), |IntToString(Available(b))|;
      n < |s| && s[..n] == IntToString(Available(b)) && s[n] == ' ' && s[n + 1..] == UnitOf(b)
      && (forall i :: 0 <= i < n ==> s[i] != ' ')
    ensures UnitOf(b) != ""
    ensures UnitOf(b) == DefaultUnit <==>
      b.availableBalance.None? || b.availableBalance.value.sizeUnit.None?
      || b.availableBalance.value.sizeUnit.value in {"", DefaultUnit}
  {
    var t := IntToString(Available(b));
    assert forall i :: 0 <= i < |t| ==> t[i] != ' ' by {
      forall i | 0 <= i < |t| ensures t[i] != ' ' {
        if Available(b) < 0 {
          if i > 0 { assert t[i] == NatToString(-Available(b))[i - 1]; }
        }
      }
    }
  }

  /** Floor of p / q for a non-zero q of either sign. */
  function FloorDiv(p: int, q: int): (r: int)
    requires q != 0
    ensures q > 0 ==> q * r <= p < q * r + q
    ensures q < 0 ==> q * r >= p > q * r + q
  {
    if q > 0 then p / q else (-p) / (-q)
  }

  /** `Math.round(p / q)` on the exact quotient: round half up, floor(p/q + 1/2). */
  function RoundHalfUp(p: int, q: int): int
    requires q != 0
  {
    FloorDiv(2 * p + q, 2 * q)
  }

  /** RoundHalfUp(p, q) is the integer r with r - 1/2 <= p/q < r + 1/2. */
  lemma RoundHalfUpNearest(p: int, q: int)
    requires q != 0
    ensures var r := RoundHalfUp(p, q);
      (q > 0 ==> (2 * r - 1) * q <= 2 * p < (2 * r + 1) * q) &&
      (q < 0 ==> (2 * r - 1) * q >= 2 * p > (2 * r + 1) * q)
  {
    var r := RoundHalfUp(p, q);
    assert (2 * r - 1) * q == 2 * q * r - q && (2 * r + 1) * q == 2 * q * r + q;
  }

  /** `percentageUsed`: `total ? Math.min(100, Math.round((total - available) / total * 100)) : 0`. */
  function PercentageUsed(available: int, total: int): (r: int)
    ensures r <= 100
    ensures total == 0 ==> r == 0
    ensures 0 <= available <= total ==> 0 <= r
  {
    if total == 0 then 0
    else
      var rounded := RoundHalfUp(100 * (total - available), total);
      assert 0 <= available <= total ==> 0 <= rounded by {
        if 0 <= available <= total {
          assert 2 * (100 * (total - available)) + total >= 0;
        }
      }
      if rounded < 100 then rounded else 100
  }

  /** Below the cap, the percentage is the used share rounded half up; the cap
      is reached exactly when the used share is at least 99.5 percent. */
  lemma PercentageUsedIsRoundedShare(available: int, total: int)
    requires total > 0
    ensures var r := PercentageUsed(available, total);
      (r < 100 ==> (2 * r - 1) * total <= 200 * (total - available) < (2 * r + 1) * total) &&
      (r == 100 <==> 199 * total <= 200 * (total - available))
  {
    var p := 100 * (total - available);
    RoundHalfUpNearest(p, total);
    var rounded := RoundHalfUp(p, total);
    assert 2 * p == 200 * (total - available);
    RoundedCap(rounded, total, 2 * p);
  }

  /** A value rounded from u / (2t) reaches 100 exactly when u is at least 199t. */
  lemma RoundedCap(r: int, t: int, u: int)
    requires t > 0
    requires (2 * r - 1) * t <= u < (2 * r + 1) * t
    ensures r >= 100 <==> 199 * t <= u
  {
    if r >= 100 {
      MulMonotone(199, 2 * r - 1, t);
    } else {
      MulMonotone(2 * r + 1, 199, t);
    }
  }

  lemma MulMonotone(a: int, b: int, t: int)
    requires t > 0 && a <= b
    ensures a * t <= b * t
  {
    assert b * t - a * t == (b - a) * t;
  }

  lemma PercentageUsedExample()
    ensures PercentageUsed(2, 10) == 80
    ensures PercentageUsed(0, 0) == 0
    ensures PercentageUsed(5, 0) == 0
    ensures PercentageUsed(0, 10) == 100
    ensures PercentageUsed(15, 10) == -50
  {
  }

  /** An item maps to a package when it has a balance whose expiry parses. */
  predicate Maps(item: ActivatedItem) {
    item.balance.Some? && item.balance.value.expiresAt.Some?
  }

  /** The exception an item that does not map raises first. */
  function ItemFault(item: ActivatedItem): Fault {
    if item.balance.None? then NoBalance else InvalidExpiry
  }

  /** One activated item as a package view, or the exception its mapping
      raises. The balance is read first; the expiry is rendered before the
      countdown is computed. */
  function DerivePackage(item: ActivatedItem, now: int): (r: Result<PackageView, Fault>)
    ensures item.balance.None? ==> r == Err(NoBalance)
    ensures item.balance.Some? && item.balance.value.expiresAt.None? ==> r == Err(InvalidExpiry)
    ensures r.Ok? <==> Maps(item)
    ensures r.Err? ==> r.error == ItemFault(item)
  {
    match item.balance
    case None => Err(NoBalance)
    case Some(b) =>
      match b.expiresAt
      case None => Err(InvalidExpiry)
      case Some(expiresAt) => Ok(PackageOf(b, expiresAt, item.activationType, now))
  }

  /** The package view of a balance whose expiry parsed to `expiresAt`. */
  function PackageOf(b: Balance, expiresAt: int, activationType: Option<string>, now: int): PackageView {
    PackageView(
      name := b.name,
      activatedAt := b.activatedAt,
      expiresAt := expiresAt,
      remaining := Remaining(b),
      percentageUsed := PercentageUsed(Available(b), Total(b)),
      countdown := Countdown.CountdownString(expiresAt, now, true),
      activationType := activationType)
  }

  /** What a derived package holds: the balance's name, activation time and
      expiry instant, the item's activation type, the remaining text, a
      percentage of at most 100 (and at least 0 for a consistent balance), and
      a countdown that reads "Expired" exactly when the expiry is not after now. */
  lemma PackageFields(item: ActivatedItem, now: int)
    requires DerivePackage(item, now).Ok?
    ensures var b, p := item.balance.value, DerivePackage(item, now).value;
      && p.name == b.name && p.activatedAt == b.activatedAt
      && p.expiresAt == b.expiresAt.value
      && p.activationType == item.activationType
      && p.remaining == IntToString(Available(b)) + " " + UnitOf(b)
      && p.percentageUsed <= 100
      && (0 <= Available(b) <= Total(b) ==> 0 <= p.percentageUsed)
      && (Total(b) == 0 ==> p.percentageUsed == 0)
      && (p.countdown == Countdown.ExpiredText <==> b.expiresAt.value <= now)
  {
  }

  /** The per-item callback of `activatedItems.map`. */
  function PackageFn(now: int): ActivatedItem -> Result<PackageView, Fault> {
    item => DerivePackage(item, now)
  }

  /** `activatedItems.map(...)`: every item's package in order, or the first
      exception raised. */
  function DerivePackages(items: seq<ActivatedItem>, now: int): Result<seq<PackageView>, Fault> {
    Throwing.MapOrThrow(PackageFn(now), items)
  }

  /** `available`, as the source adds it to the activated-balance accumulator. */
  function ItemAvailable(item: ActivatedItem): int {
    if item.balance.Some? then Available(item.balance.value) else 0
  }

  /** The sum of `available` over a sequence of items. */
  function ItemsAvailable(items: seq<ActivatedItem>): int {
    if items == [] then 0 else ItemsAvailable(items[..|items| - 1]) + ItemAvailable(items[|items| - 1])
  }

  lemma {:induction false} ItemsAvailableAppend(a: seq<ActivatedItem>, b: seq<ActivatedItem>)
    ensures ItemsAvailable(a + b) == ItemsAvailable(a) + ItemsAvailable(b)
  {
    if b != [] {
      assert (a + b)[..|a + b| - 1] == a + b[..|b| - 1];
      ItemsAvailableAppend(a, b[..|b| - 1]);
    } else {
      assert a + b == a;
    }
  }

  /** `activatedPackages[activatedPackages.length - 1] || null`. */
  function LastPackage(packages: seq<PackageView>): (r: Option<PackageView>)
    ensures r.None? <==> packages == []
    ensures r.Some? ==> r.value == packages[|packages| - 1] && r.value in packages
  {
    if packages == [] then None else Some(packages[|packages| - 1])
  }

  /** The last package is the one derived from the last item in upstream
      order, and there is none for an empty item list. */
  lemma LastPackageOfItems(items: seq<ActivatedItem>, now: int)
    requires DerivePackages(items, now).Ok?
    ensures var last := LastPackage(DerivePackages(items, now).value);
      (last.None? <==> items == []) &&
      (items != [] ==> Ok(last.value) == DerivePackage(items[|items| - 1], now))
  {
    if items != [] {
      assert PackageFn(now)(items[|items| - 1]) == DerivePackage(items[|items| - 1], now);
    }
  }

  /** One related eSIM, reduced to the five fields the response carries. */
  function CopyEsim(e: RelatedEsim): EsimView {
    EsimView(e.iccid, e.imsi, e.state, e.activatedAt, e.appleUniversalLink)
  }

  /** `relatedEsims.map(...)`: same length, same order, five fields copied. */
  function CopyEsims(esims: seq<RelatedEsim>): (r: seq<EsimView>)
    ensures |r| == |esims|
    ensures forall k :: 0 <= k < |esims| ==>
      && r[k].iccid == esims[k].iccid
      && r[k].imsi == esims[k].imsi
      && r[k].state == esims[k].state
      && r[k].activatedAt == esims[k].activatedAt
      && r[k].appleUniversalLink == esims[k].appleUniversalLink
  {
    if esims == [] then [] else [CopyEsim(esims[0])] + CopyEsims(esims[1..])
  }
}
