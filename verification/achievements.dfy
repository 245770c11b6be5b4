/**
 * `generateAchievements` on the profile page: the badges a user document
 * earns, in the order the page shows them, or the "no achievements" line.
 *
 * The early-adopter date is `new Date('2025-02-01')`, midnight UTC, that is
 * 1738368000 seconds after the epoch. A Firestore `Timestamp` turns into a
 * date through `toDate()`, whose millisecond value is the seconds times
 * 1000 plus the whole milliseconds of the nanoseconds.
 */
module Achievements {
  import opened Wrappers
  import opened Js
  import opened UserDoc

  datatype Badge = Badge(icon: string, name: string, desc: string)

  const FIRST_CENTURY := Badge("\U{1F4B0}", "First Century", "100+ CARE earned")
  const CARE_COLLECTOR := Badge("\U{1F48E}", "CARE Collector", "500+ CARE earned")
  const CARE_MONARCH := Badge("\U{1F451}", "CARE Monarch", "1,000+ CARE earned")
  const DRAGON_PARENT := Badge("\U{1F409}", "Dragon Parent", "Hatched a dragon")
  const DRAGON_TRAINER := Badge("\U{2B50}", "Dragon Trainer", "Level 5+ dragon")
  const ADVENTURER := Badge("\U{1F4D6}", "Adventurer", "5+ sessions logged")
  const VETERAN := Badge("\U{1F5E1}\U{FE0F}", "Veteran", "25+ sessions logged")
  const LEGEND := Badge("\U{1F3C6}", "Legend", "100+ sessions logged")
  const EARLY_ADOPTER := Badge("\U{1F31F}", "Early Adopter", "Joined in beta")

  /** Every badge, in the order the page lists them. */
  const ALL_BADGES: seq<Badge> := [
    FIRST_CENTURY, CARE_COLLECTOR, CARE_MONARCH,
    DRAGON_PARENT, DRAGON_TRAINER,
    ADVENTURER, VETERAN, LEGEND,
    EARLY_ADOPTER
  ]

  /** `new Date('2025-02-01')` in milliseconds. */
  const BETA_END_MS := 1738368000000

  const PLACEHOLDER := "No achievements yet - keep playing!"

  /** `createdAt.toDate()` in milliseconds. */
  function CreatedMs(t: Timestamp): int {
    t.seconds * 1000 + t.nanoseconds / 1000000
  }

  /** The document earns badge `i` of `ALL_BADGES`. */
  predicate Earns(u: UserDoc, i: nat)
    requires i < |ALL_BADGES|
  {
    var care := OrInt(u.careBalance, 0);
    var sessions := OrInt(u.lifetimeSessions, 0);
    match i
    case 0 => care >= 100
    case 1 => care >= 500
    case 2 => care >= 1000
    case 3 => u.eggStatus == Some("hatched")
    case 4 => u.dragonLevel.Some? && u.dragonLevel.value >= 5
    case 5 => sessions >= 5
    case 6 => sessions >= 25
    case 7 => sessions >= 100
    case _ => u.createdAt.Some? && CreatedMs(u.createdAt.value) < BETA_END_MS
  }

  /** The position of a badge in `ALL_BADGES`; 9 for anything else. */
  function Rank(b: Badge): (r: nat)
    ensures r <= |ALL_BADGES|
    ensures r < |ALL_BADGES| ==> ALL_BADGES[r] == b
  {
    if b == FIRST_CENTURY then 0
    else if b == CARE_COLLECTOR then 1
    else if b == CARE_MONARCH then 2
    else if b == DRAGON_PARENT then 3
    else if b == DRAGON_TRAINER then 4
    else if b == ADVENTURER then 5
    else if b == VETERAN then 6
    else if b == LEGEND then 7
    else if b == EARLY_ADOPTER then 8
    else 9
  }

  /** The badges are distinct: each one's rank is its position. */
  lemma RankOfBadge(i: nat)
    requires i < |ALL_BADGES|
    ensures Rank(ALL_BADGES[i]) == i
  {
  }

  /**
   * The `achievements` array after the first `n` checks of the function
   * body, each of which pushes its badge when the document earns it.
   */
  function Pushed(u: UserDoc, n: nat): (r: seq<Badge>)
    requires n <= |ALL_BADGES|
    ensures |r| <= n
    ensures forall k :: 0 <= k < |r| ==> Rank(r[k]) < n && Earns(u, Rank(r[k]))
    ensures forall j, k :: 0 <= j < k < |r| ==> Rank(r[j]) < Rank(r[k])
    ensures forall i :: 0 <= i < |ALL_BADGES| ==> (ALL_BADGES[i] in r <==> i < n && Earns(u, i))
    decreases n
  {
    if n == 0 then []
    else
      var p := Pushed(u, n - 1);
      PushRanks(u, n, p);
      PushMembers(u, n, p);
      Push(u, n, p)
  }

  /** Check number `n`: the badge appended when it is earned. */
  function Push(u: UserDoc, n: nat, p: seq<Badge>): seq<Badge>
    requires 0 < n <= |ALL_BADGES|
  {
    if Earns(u, n - 1) then p + [ALL_BADGES[n - 1]] else p
  }

  lemma PushRanks(u: UserDoc, n: nat, p: seq<Badge>)
    requires 0 < n <= |ALL_BADGES|
    requires forall k :: 0 <= k < |p| ==> Rank(p[k]) < n - 1 && Earns(u, Rank(p[k]))
    requires forall j, k :: 0 <= j < k < |p| ==> Rank(p[j]) < Rank(p[k])
    ensures forall k :: 0 <= k < |Push(u, n, p)| ==> Rank(Push(u, n, p)[k]) < n && Earns(u, Rank(Push(u, n, p)[k]))
    ensures forall j, k :: 0 <= j < k < |Push(u, n, p)| ==> Rank(Push(u, n, p)[j]) < Rank(Push(u, n, p)[k])
  {
    RankOfBadge(n - 1);
  }

  lemma PushMembers(u: UserDoc, n: nat, p: seq<Badge>)
    requires 0 < n <= |ALL_BADGES|
    requires forall i :: 0 <= i < |ALL_BADGES| ==> (ALL_BADGES[i] in p <==> i < n - 1 && Earns(u, i))
    ensures forall i :: 0 <= i < |ALL_BADGES| ==> (ALL_BADGES[i] in Push(u, n, p) <==> i < n && Earns(u, i))
  {
    forall i | 0 <= i < |ALL_BADGES|
      ensures ALL_BADGES[i] in Push(u, n, p) <==> i < n && Earns(u, i)
    {
      RankOfBadge(i);
      RankOfBadge(n - 1);
    }
  }

  /** The badges `generateAchievements` collects, in the order it pushes them. */
  function GenerateAchievements(u: UserDoc): (r: seq<Badge>)
    ensures |r| <= |ALL_BADGES|
    ensures forall i :: 0 <= i < |ALL_BADGES| ==> (ALL_BADGES[i] in r <==> Earns(u, i))
    ensures forall k :: 0 <= k < |r| ==> Rank(r[k]) < |ALL_BADGES| && r[k] == ALL_BADGES[Rank(r[k])]
    ensures forall j, k :: 0 <= j < k < |r| ==> Rank(r[j]) < Rank(r[k])
  {
    Pushed(u, |ALL_BADGES|)
  }

  /** What the achievements list shows. */
  datatype Shown = Placeholder(text: string) | Cards(badges: seq<Badge>)

  /** The container's content: the placeholder line exactly when no badge is earned. */
  function ShowAchievements(u: UserDoc): (r: Shown)
    ensures r.Placeholder? <==> forall i :: 0 <= i < |ALL_BADGES| ==> !Earns(u, i)
    ensures r.Placeholder? ==> r.text == PLACEHOLDER
    ensures r.Cards? ==> r.badges == GenerateAchievements(u) && r.badges != []
  {
    var badges := GenerateAchievements(u);
    if |badges| == 0 then
      assert forall i :: 0 <= i < |ALL_BADGES| ==> ALL_BADGES[i] !in badges;
      Placeholder(PLACEHOLDER)
    else
      assert badges[0] in ALL_BADGES;
      Cards(badges)
  }

  // ---------------------------------------------------------------------
  // Properties

  /**
   * With nanoseconds in their range, a timestamp is before the beta's end
   * exactly when its seconds are.
   */
  lemma EarlyAdopterBySeconds(t: Timestamp)
    requires 0 <= t.nanoseconds < 1000000000
    ensures CreatedMs(t) < BETA_END_MS <==> t.seconds < BETA_END_MS / 1000
  {
  }

  /** More CARE and more sessions never take a badge away. */
  lemma AchievementsMonotone(u: UserDoc, v: UserDoc)
    requires OrInt(u.careBalance, 0) <= OrInt(v.careBalance, 0)
    requires OrInt(u.lifetimeSessions, 0) <= OrInt(v.lifetimeSessions, 0)
    requires u.eggStatus == v.eggStatus && u.dragonLevel == v.dragonLevel && u.createdAt == v.createdAt
    ensures forall b :: b in GenerateAchievements(u) ==> b in GenerateAchievements(v)
  {
    forall b | b in GenerateAchievements(u)
      ensures b in GenerateAchievements(v)
    {
      var k :| 0 <= k < |GenerateAchievements(u)| && GenerateAchievements(u)[k] == b;
      assert Earns(u, Rank(b));
    }
  }

  /** The care badges form a ladder: each one requires the one before it. */
  lemma CareLadder(u: UserDoc)
    ensures CARE_MONARCH in GenerateAchievements(u) ==> CARE_COLLECTOR in GenerateAchievements(u)
    ensures CARE_COLLECTOR in GenerateAchievements(u) ==> FIRST_CENTURY in GenerateAchievements(u)
  {
    assert ALL_BADGES[0] == FIRST_CENTURY && ALL_BADGES[1] == CARE_COLLECTOR && ALL_BADGES[2] == CARE_MONARCH;
  }
}
