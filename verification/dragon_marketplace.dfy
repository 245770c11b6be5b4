/**
 * The standalone dragon-care and marketplace page: a module-level CARE
 * balance and a Tamagotchi dragon, feeding without any hatching check, a
 * two-item catalogue, buying, and the NFC "care tap" bonus.
 *
 * The page's Firestore load and save are empty stubs in the source and are
 * not modelled; the rendering and the alerts are left out.
 */
module DragonMarketplace {
  import opened Wrappers
  import opened Js

  datatype Pet = Pet(stage: string, hunger: int, mood: int, health: int)

  /** `userCare` and `dragon`. */
  datatype Market = Market(care: int, dragon: Pet)

  /** A catalogue entry: a decay percentage or a generated reward, when the item has one. */
  datatype Item = Item(name: string, price: int, decay: Option<int>, generates: Option<string>)

  const FEED_HUNGER := 20
  const FEED_CARE := 10
  const TAP_CARE := 25

  /** The state when the page loads. */
  const INITIAL := Market(0, Pet("egg", 100, 100, 100))

  /** The items `renderMarketplace` offers, in order. */
  const CATALOGUE: seq<Item> := [
    Item("Sword (decaying)", 50, Some(10), None),
    Item("Campaign Ticket", 20, None, Some("+30 CARE"))
  ]

  /** `feedDragon`: hunger up by 20 to at most 100 and 10 more CARE, whatever the stage. */
  function FeedDragon(m: Market): (r: Market)
    ensures r.care == m.care + FEED_CARE
    ensures r.dragon.hunger <= 100
    ensures r.dragon.hunger == m.dragon.hunger + FEED_HUNGER <==> m.dragon.hunger <= 100 - FEED_HUNGER
    ensures r.dragon.hunger < m.dragon.hunger + FEED_HUNGER ==> r.dragon.hunger == 100
    ensures r.dragon.stage == m.dragon.stage && r.dragon.mood == m.dragon.mood && r.dragon.health == m.dragon.health
  {
    Market(m.care + FEED_CARE, m.dragon.(hunger := Min(100, m.dragon.hunger + FEED_HUNGER)))
  }

  /** `buyItem(name, price)`: the price is paid when the balance covers it; otherwise nothing changes. */
  function BuyItem(m: Market, price: int): (r: Market)
    ensures m.care >= price ==> r.care == m.care - price
    ensures m.care < price ==> r == m
    ensures r.dragon == m.dragon
    ensures r.care >= 0 || r.care == m.care
  {
    if m.care >= price then m.(care := m.care - price) else m
  }

  /** The care-tap button's handler: a 25 CARE bonus. */
  function CareTap(m: Market): (r: Market)
    ensures r.care == m.care + TAP_CARE && r.dragon == m.dragon
  {
    m.(care := m.care + TAP_CARE)
  }

  /** The page's buttons; `Buy(i)` is the button of catalogue item `i`. */
  datatype Action = Feed | Buy(item: nat) | Tap

  predicate ValidAction(a: Action) {
    a.Buy? ==> a.item < |CATALOGUE|
  }

  function Step(m: Market, a: Action): Market
    requires ValidAction(a)
  {
    match a
    case Feed => FeedDragon(m)
    case Buy(i) => BuyItem(m, CATALOGUE[i].price)
    case Tap => CareTap(m)
  }

  function Run(m: Market, acts: seq<Action>): Market
    requires forall k :: 0 <= k < |acts| ==> ValidAction(acts[k])
    decreases |acts|
  {
    if acts == [] then m else Run(Step(m, acts[0]), acts[1..])
  }

  /** What the actions earn, not counting purchases. */
  function Earnings(acts: seq<Action>): nat
    decreases |acts|
  {
    if acts == [] then 0
    else (match acts[0] case Feed => FEED_CARE case Tap => TAP_CARE case Buy(_) => 0) + Earnings(acts[1..])
  }

  // ---------------------------------------------------------------------
  // Properties

  /** Every catalogue price is positive. */
  lemma CataloguePricesPositive()
    ensures forall i :: 0 <= i < |CATALOGUE| ==> CATALOGUE[i].price > 0
  {
  }

  /** A purchase never leaves a negative balance, at any price. */
  lemma BuyNeverOverdraws(m: Market, price: int)
    requires m.care >= 0
    ensures BuyItem(m, price).care >= 0
  {
  }

  /**
   * From a non-negative balance the balance stays non-negative and never
   * exceeds what the feeds and taps earned, and feeding, buying and tapping
   * never change the stage, the mood or the health.
   */
  lemma {:induction false} RunInvariant(m: Market, acts: seq<Action>)
    requires forall k :: 0 <= k < |acts| ==> ValidAction(acts[k])
    requires m.care >= 0
    ensures Run(m, acts).care >= 0
    ensures Run(m, acts).care <= m.care + Earnings(acts)
    ensures Run(m, acts).dragon.stage == m.dragon.stage
    ensures Run(m, acts).dragon.mood == m.dragon.mood && Run(m, acts).dragon.health == m.dragon.health
    decreases |acts|
  {
    if acts != [] {
      var n := Step(m, acts[0]);
      if acts[0].Buy? {
        CataloguePricesPositive();
      }
      RunInvariant(n, acts[1..]);
    }
  }

  /** From the initial state the dragon stays a full, happy, healthy egg whatever the buttons pressed. */
  lemma {:induction false} RunFromInitial(acts: seq<Action>)
    requires forall k :: 0 <= k < |acts| ==> ValidAction(acts[k])
    ensures Run(INITIAL, acts).dragon == INITIAL.dragon
    ensures 0 <= Run(INITIAL, acts).care <= Earnings(acts)
  {
    StaysFull(INITIAL, acts);
    RunInvariant(INITIAL, acts);
  }

  lemma {:induction false} StaysFull(m: Market, acts: seq<Action>)
    requires forall k :: 0 <= k < |acts| ==> ValidAction(acts[k])
    requires m.dragon.hunger == 100
    ensures Run(m, acts).dragon == m.dragon
    decreases |acts|
  {
    if acts != [] {
      StaysFull(Step(m, acts[0]), acts[1..]);
    }
  }

  /** Without purchases the balance grows by exactly what the feeds and taps earn. */
  lemma {:induction false} RunWithoutBuying(m: Market, acts: seq<Action>)
    requires forall k :: 0 <= k < |acts| ==> !acts[k].Buy?
    ensures Run(m, acts).care == m.care + Earnings(acts)
    decreases |acts|
  {
    if acts != [] {
      RunWithoutBuying(Step(m, acts[0]), acts[1..]);
    }
  }
}
