/**
 * Pricing discounts: one per target, resolving the one that applies, and the cents it takes off
 * (api/models/pricing.go, api/db/pricing.go, with the checks of db/migrations/049_product_pricing.sql).
 */
module Discounts {
  import opened Prelude

  datatype Scope = ServerScope | TierScope | ItemScope | OtherScope

  datatype Mode = Percent | Price | OtherMode

  datatype Item = Item(id: Id, server: Id, storageType: Id)

  datatype Discount = Discount(scope: Scope, server: Id, storageType: Option<Id>, item: Option<Id>, mode: Mode,
                               percentOff: Option<int>, price: Option<int>, premiumOnly: bool, expiresAt: Option<Time>)
  {
    predicate Active(t: Time) { expiresAt.Some? ==> t < expiresAt.value }

    predicate AppliesTo(i: Item) {
      match scope
      case ItemScope => item == Some(i.id)
      case TierScope => server == i.server && storageType == Some(i.storageType)
      case ServerScope => server == i.server
      case OtherScope => false
    }

    /** Most specific first; a missing entry of the rank table reads as zero. */
    function Rank(): nat {
      match scope
      case ItemScope => 0
      case TierScope => 1
      case ServerScope => 2
      case OtherScope => 0
    }

    /** Both discounts are for the same server, server and tier, or item. */
    predicate SameTarget(other: Discount) {
      scope == other.scope &&
      match scope
      case ServerScope => server == other.server
      case TierScope => server == other.server && storageType.Some? && storageType == other.storageType
      case ItemScope => item.Some? && item == other.item
      case OtherScope => false
    }

    /** The table's CHECK constraints. */
    predicate Checked() {
      && !scope.OtherScope? && !mode.OtherMode?
      && (scope.TierScope? ==> storageType.Some?) && (scope.ItemScope? ==> item.Some?)
      && (percentOff.Some? ==> 1 <= percentOff.value <= 100) && (price.Some? ==> 0 <= price.value)
      && (mode.Percent? ==> percentOff.Some?) && (mode.Price? ==> price.Some?)
    }

    function DiscountedPriceCents(base: int): int {
      match mode
      case Percent => if percentOff.None? then base else PercentPrice(base, percentOff.value)
      case Price => if price.None? || price.value > base then base else price.value
      case OtherMode => base
    }

    function DiscountPercentFor(base: int): int {
      if mode.Percent? && percentOff.Some? then percentOff.value
      else if base <= 0 then 0
      else GoDiv((base - DiscountedPriceCents(base)) * 100 + GoDiv(base, 2), base)
    }
  }

  /** Go's integer division, which truncates toward zero. */
  function GoDiv(a: int, b: int): int
    requires b > 0
  {
    if a >= 0 then a / b else -(-a / b)
  }

  function PercentPrice(base: int, percent: int): int { GoDiv(base * (100 - percent) + 50, 100) }

  /** It never moves away from zero, and by less than one. */
  lemma GoDivTruncates(a: int, b: int)
    requires b > 0
    ensures if a >= 0 then 0 <= a - GoDiv(a, b) * b < b else -b < a - GoDiv(a, b) * b <= 0
  {
    if a < 0 {
      assert GoDiv(a, b) * b == -(((-a) / b) * b);
    }
  }

  // ── Resolution ─────────────────────────────────────────────────────────────

  predicate Usable(d: Discount, item: Item, privileged: bool, now: Time) {
    d.Active(now) && (d.premiumOnly ==> privileged) && d.AppliesTo(item)
  }

  /** A discount is usable until its expiry, by whom it is for, on what it targets. */
  lemma UsableIff(d: Discount, item: Item, privileged: bool, now: Time)
    ensures Usable(d, item, privileged, now) <==>
      && (d.expiresAt.None? || now < d.expiresAt.value)
      && (!d.premiumOnly || privileged)
      && match d.scope
         case ItemScope => d.item == Some(item.id)
         case TierScope => d.server == item.server && d.storageType == Some(item.storageType)
         case ServerScope => d.server == item.server
         case OtherScope => false
  {
  }

  /** The choice is usable, and no usable candidate is more specific. */
  ghost predicate Resolves(candidates: seq<Discount>, item: Item, privileged: bool, now: Time, best: Option<Discount>) {
    && (best.Some? ==> best.value in candidates && Usable(best.value, item, privileged, now))
    && forall d <- candidates | Usable(d, item, privileged, now) :: best.Some? && best.value.Rank() <= d.Rank()
  }

  method ResolveDiscount(item: Item, candidates: seq<Discount>, privileged: bool, now: Time)
    returns (best: Option<Discount>)
    ensures Resolves(candidates, item, privileged, now, best)
  {
    best := None;
    for i := 0 to |candidates|
      invariant Resolves(candidates[..i], item, privileged, now, best)
    {
      var d := candidates[i];
      assert candidates[..i + 1] == candidates[..i] + [d];
      if Usable(d, item, privileged, now) && (best.None? || d.Rank() < best.value.Rank()) {
        best := Some(d);
      }
    }
    assert candidates[..|candidates|] == candidates;
  }

  /** An item's own discount goes before its tier's, and that before its server's. */
  lemma MostSpecificWins(candidates: seq<Discount>, item: Item, privileged: bool, now: Time, best: Option<Discount>,
                         d: Discount)
    requires Resolves(candidates, item, privileged, now, best)
    requires d in candidates && Usable(d, item, privileged, now)
    ensures best.Some? && best.value in candidates && Usable(best.value, item, privileged, now)
    ensures d.scope.ItemScope? ==> best.value.scope.ItemScope?
    ensures d.scope.TierScope? ==> !best.value.scope.ServerScope?
  {
  }

  /** Checked discounts of one scope have the same target exactly when they apply to the same items. */
  lemma SameTargetIff(d: Discount, e: Discount)
    requires d.Checked() && e.Checked() && d.scope == e.scope
    ensures d.SameTarget(e) <==> forall i: Item :: d.AppliesTo(i) <==> e.AppliesTo(i)
  {
    match d.scope
    case ServerScope =>
      var i := Item(0, d.server, 0);
      assert d.AppliesTo(i) && (e.AppliesTo(i) <==> e.server == d.server);
    case TierScope =>
      var i := Item(0, d.server, d.storageType.value);
      assert d.AppliesTo(i) && (e.AppliesTo(i) <==> d.SameTarget(e));
    case ItemScope =>
      var i := Item(d.item.value, 0, 0);
      assert d.AppliesTo(i) && (e.AppliesTo(i) <==> d.SameTarget(e));
  }

  lemma OtherScopeOtherTarget(d: Discount, e: Discount)
    requires d.scope != e.scope
    ensures !d.SameTarget(e)
  {
  }

  /** What the table's checks let through: a scope with its target, and a mode with its value in range. */
  lemma CheckedIff(d: Discount)
    ensures d.Checked() <==>
      && (d.percentOff.None? || 1 <= d.percentOff.value <= 100) && (d.price.None? || 0 <= d.price.value)
      && (match d.scope
          case ServerScope => true
          case TierScope => d.storageType.Some?
          case ItemScope => d.item.Some?
          case OtherScope => false)
      && match d.mode
         case Percent => d.percentOff.Some?
         case Price => d.price.Some?
         case OtherMode => false
  {
  }

  ghost predicate OnePerTarget(candidates: seq<Discount>) {
    forall d <- candidates, e <- candidates :: d.SameTarget(e) ==> d == e
  }

  /** With one discount per target the choice does not depend on the candidates' order; it alone is most specific. */
  lemma ResolutionIsUnique(candidates: seq<Discount>, others: seq<Discount>, item: Item, privileged: bool, now: Time,
                           best: Option<Discount>, other: Option<Discount>)
    requires OnePerTarget(candidates) && forall d: Discount :: d in candidates <==> d in others
    requires Resolves(candidates, item, privileged, now, best) && Resolves(others, item, privileged, now, other)
    ensures best == other
    ensures forall d <- candidates | Usable(d, item, privileged, now) && Some(d) != best :: best.value.Rank() < d.Rank()
  {
  }

  /** Two discounts on one target make the choice depend on the order. */
  lemma OrderMatters(d: Discount, e: Discount, item: Item, now: Time)
    requires d != e && d.SameTarget(e) && Usable(d, item, true, now) && Usable(e, item, true, now)
    ensures Resolves([d, e], item, true, now, Some(d)) && Resolves([e, d], item, true, now, Some(e))
  {
  }

  // ── The table ──────────────────────────────────────────────────────────────

  type Table = map<Id, Discount>

  ghost predicate Sound(rows: Table) {
    && (forall id <- rows :: rows[id].Checked())
    && forall i <- rows, j <- rows :: rows[i].SameTarget(rows[j]) ==> i == j
  }

  class Pricing {
    var rows: Table

    constructor (rows: Table)
      ensures this.rows == rows
    {
      this.rows := rows;
    }

    /** A row that fails a check rolls the delete back. The unique indexes never refuse the insert. */
    method CreatePricingDiscount(d: Discount) returns (id: Option<Id>)
      requires Sound(rows)
      modifies this
      ensures Sound(rows)
      ensures id.Some? <==> d.Checked()
      ensures id.None? ==> rows == old(rows)
      ensures id.Some? ==> Replaces(old(rows), rows, id.value, d)
      ensures id.Some? ==> id.value !in old(rows) && id.value in rows && rows[id.value] == d
      ensures Step(old(rows), Create(if id.Some? then id.value else 0, d), rows)
    {
      if d.scope.OtherScope? {
        return None;
      }
      var before := rows;
      rows := map i | i in rows && !d.SameTarget(rows[i]) :: rows[i];
      if !d.Checked() {
        rows := before;
        return None;
      }
      var row := NewId(before.Keys);
      rows := rows[row := d];
      return Some(row);
    }

    method DeletePricingDiscount(id: Id)
      modifies this
      ensures rows == old(rows) - {id} && Step(old(rows), Delete(id), rows)
    {
      rows := rows - {id};
    }
  }

  /** The new row takes the place of the one with its target; every other row stays. */
  ghost predicate Replaces(rows: Table, rows': Table, id: Id, d: Discount) {
    && id !in rows && id in rows' && rows'[id] == d
    && (forall i <- rows :: i in rows' <==> !d.SameTarget(rows[i]))
    && (forall i <- rows' | i != id :: i in rows && rows'[i] == rows[i])
  }

  datatype Event = Create(id: Id, discount: Discount) | Delete(id: Id)

  ghost predicate Step(rows: Table, event: Event, rows': Table) {
    match event
    case Create(id, d) => if d.Checked() then Replaces(rows, rows', id, d) else rows' == rows
    case Delete(id) => rows' == rows - {id}
  }

  lemma StepKeepsSound(rows: Table, event: Event, rows': Table)
    requires Sound(rows) && Step(rows, event, rows')
    ensures Sound(rows')
  {
  }

  lemma {:induction false} RunKeepsSound(states: seq<Table>, events: seq<Event>, n: nat)
    requires |states| == |events| + 1 && n < |states| && Sound(states[0])
    requires forall i | 0 <= i < |events| :: Step(states[i], events[i], states[i + 1])
    ensures Sound(states[n])
  {
    if n > 0 {
      RunKeepsSound(states, events, n - 1);
      StepKeepsSound(states[n - 1], events[n - 1], states[n]);
    }
  }

  /** The candidates a listing of the table returns, in some order. */
  ghost predicate Lists(rows: Table, candidates: seq<Discount>) {
    forall d <- candidates :: exists id <- rows :: rows[id] == d
  }

  lemma ListingHasOnePerTarget(rows: Table, candidates: seq<Discount>)
    requires Sound(rows) && Lists(rows, candidates)
    ensures OnePerTarget(candidates)
  {
  }

  /** After any run, two listings of the same discounts in different orders resolve alike. */
  lemma ListingOrderIsIrrelevant(
    states: seq<Table>, events: seq<Event>, n: nat, candidates: seq<Discount>, others: seq<Discount>,
    item: Item, privileged: bool, now: Time, best: Option<Discount>, other: Option<Discount>)
    requires |states| == |events| + 1 && n < |states| && Sound(states[0])
    requires forall i | 0 <= i < |events| :: Step(states[i], events[i], states[i + 1])
    requires Lists(states[n], candidates) && forall d: Discount :: d in candidates <==> d in others
    requires Resolves(candidates, item, privileged, now, best) && Resolves(others, item, privileged, now, other)
    ensures best == other
  {
    RunKeepsSound(states, events, n);
    ListingHasOnePerTarget(states[n], candidates);
    ResolutionIsUnique(candidates, others, item, privileged, now, best, other);
  }

  // ── Cents ──────────────────────────────────────────────────────────────────

  /** In percent mode the price is the exact one rounded to the nearest cent, halves up. */
  lemma PercentPriceIsNearest(base: nat, percent: int)
    requires 0 <= percent <= 100
    ensures -50 < 100 * PercentPrice(base, percent) - base * (100 - percent) <= 50
    ensures 0 <= PercentPrice(base, percent) <= base
  {
  }

  lemma ScaledMonotone(a: nat, b: nat, factor: nat)
    requires a <= b
    ensures a * factor <= b * factor
  {
  }

  lemma PercentPriceIsMonotone(base: nat, more: nat, percent: int, steeper: int)
    requires base <= more && 0 <= percent <= steeper <= 100
    ensures PercentPrice(base, percent) <= PercentPrice(more, percent)
    ensures PercentPrice(base, steeper) <= PercentPrice(base, percent)
  {
    ScaledMonotone(base, more, 100 - percent);
    ScaledMonotone(100 - steeper, 100 - percent, base);
    RoundedMonotone(base * (100 - percent), more * (100 - percent));
    RoundedMonotone(base * (100 - steeper), base * (100 - percent));
  }

  lemma RoundedMonotone(a: nat, b: nat)
    requires a <= b
    ensures GoDiv(a + 50, 100) <= GoDiv(b + 50, 100)
  {
  }

  /** Exactly the percentages from 0 to 100 keep every price between nothing and the base. */
  lemma PercentInRangeIff(percent: int)
    ensures (forall base: nat :: 0 <= PercentPrice(base, percent) <= base) <==> 0 <= percent <= 100
  {
    if 0 <= percent <= 100 {
      forall base: nat { PercentPriceIsNearest(base, percent); }
    } else {
      var base := 200;
      assert !(0 <= PercentPrice(base, percent) <= base);
    }
  }

  /** In price mode the lower of the price and the base is paid. */
  lemma FixedPriceIsLower(d: Discount, base: nat)
    requires d.Checked() && d.mode.Price?
    ensures d.DiscountedPriceCents(base) == if d.price.value <= base then d.price.value else base
  {
  }

  /** A discount the table accepts never marks up and never pays the customer. */
  lemma NeverMarksUp(d: Discount, base: nat)
    requires d.Checked()
    ensures 0 <= d.DiscountedPriceCents(base) <= base
  {
  }

  /** In price mode the badge is within half a percent of the true deduction. */
  lemma BadgeIsNearest(d: Discount, base: nat)
    requires d.Checked() && d.mode.Price? && base > 0
    ensures var off := base - d.DiscountedPriceCents(base);
      0 - base <= 2 * (d.DiscountPercentFor(base) * base - 100 * off) <= base && 0 <= d.DiscountPercentFor(base) <= 100
  {
    NeverMarksUp(d, base);
    var off := base - d.DiscountedPriceCents(base);
    assert d.DiscountPercentFor(base) == Nearest(100 * off, base);
    NearestIsNearest(100 * off, base);
    NearestIsNearest(100 * base, base);
    NearestMonotone(100 * off, 100 * base, base);
  }

  /** The quotient rounded to the nearest whole number, halves up. */
  function Nearest(a: nat, b: nat): nat
    requires b > 0
  {
    (a + b / 2) / b
  }

  lemma NearestIsNearest(a: nat, b: nat)
    requires b > 0
    ensures 0 - b <= 2 * (Nearest(a, b) * b - a) <= b
  {
  }

  lemma NearestMonotone(a: nat, b: nat, c: nat)
    requires a <= b == 100 * c && c > 0
    ensures Nearest(a, c) <= 100
  {
  }

  /** In percent mode it is the stored percentage, and the deduction is within half a cent of it. */
  lemma PercentBadgeIsDeducted(d: Discount, base: nat)
    requires d.Checked() && d.mode.Percent?
    ensures -50 <= 100 * (base - d.DiscountedPriceCents(base)) - d.DiscountPercentFor(base) * base < 50
  {
  }
}
