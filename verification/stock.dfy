/** The stock-status rule the Items, Reports and Dashboard views repeat:
    Low below the minimum, Over above the maximum, each decided on its own. */
module Stock {
  import opened Types

  predicate IsLow(i: Item) { i.quantity < i.minThreshold }

  predicate IsOver(i: Item) { i.quantity > i.maxThreshold }

  /** The badges a row can carry, in the order the views place them. */
  datatype Badge = LowStock | OverStock | Normal

  /** The Items table: a Low badge and an Over badge, each shown on its own
      condition, and never a Normal badge. */
  function ItemsBadges(i: Item): (bs: seq<Badge>)
    ensures LowStock in bs <==> i.quantity < i.minThreshold
    ensures OverStock in bs <==> i.quantity > i.maxThreshold
    ensures Normal !in bs
    ensures |bs| <= 2
  {
    (if IsLow(i) then [LowStock] else []) + (if IsOver(i) then [OverStock] else [])
  }

  /** The Reports table: the same two badges, then Normal when the quantity
      lies within both thresholds. */
  function ReportBadges(i: Item): (bs: seq<Badge>)
    ensures LowStock in bs <==> i.quantity < i.minThreshold
    ensures OverStock in bs <==> i.quantity > i.maxThreshold
    ensures Normal in bs <==> i.minThreshold <= i.quantity <= i.maxThreshold
  {
    ItemsBadges(i) + (if i.quantity >= i.minThreshold && i.quantity <= i.maxThreshold then [Normal] else [])
  }

  /** Reports shows exactly the Items badges, followed by Normal precisely
      when Items shows nothing. */
  lemma ReportsExtendItems(i: Item)
    ensures ReportBadges(i) == ItemsBadges(i) + (if ItemsBadges(i) == [] then [Normal] else [])
    ensures Normal in ReportBadges(i) <==> LowStock !in ReportBadges(i) && OverStock !in ReportBadges(i)
  {
  }

  /** With ordered thresholds exactly one badge is shown. */
  lemma ExactlyOneWhenOrdered(i: Item)
    requires i.minThreshold <= i.maxThreshold
    ensures |ReportBadges(i)| == 1
    ensures ReportBadges(i) == [if IsLow(i) then LowStock else if IsOver(i) then OverStock else Normal]
  {
  }

  /** With inverted thresholds Normal is never shown, and a quantity between
      them shows both Low and Over. */
  lemma InvertedThresholds(i: Item)
    requires i.maxThreshold < i.minThreshold
    ensures Normal !in ReportBadges(i)
    ensures i.maxThreshold < i.quantity < i.minThreshold ==> ReportBadges(i) == [LowStock, OverStock]
    ensures |ReportBadges(i)| >= 1
  {
  }

  /** Quantities 5, 60 and 20 against thresholds 10 and 50. */
  lemma ThresholdScenario(i: Item)
    requires i.minThreshold == 10 && i.maxThreshold == 50
    ensures i.quantity == 5 ==> ReportBadges(i) == [LowStock]
    ensures i.quantity == 60 ==> ReportBadges(i) == [OverStock]
    ensures i.quantity == 20 ==> ReportBadges(i) == [Normal]
  {
  }
}
