/**
 * The CARE balance and the dragon the front end keeps in `window.userCare`
 * and `window.dragon`: the portal hash, the projection of the user document
 * into that state when it is loaded, and the three care actions (feeding,
 * playing, logging self-care).
 *
 * The balance is the one the load put there: before any load the source's
 * `window.userCare` is `undefined`, which is not modelled.
 */
module CarePersistence {
  import opened Wrappers
  import opened Js
  import opened UserDoc

  const HATCHED := "hatched"
  const MAX_STAT := 100

  const FEED_HUNGER := 20
  const FEED_CARE := 10
  const PLAY_MOOD := 15
  const PLAY_CARE := 8
  const SELF_CARE := 25

  // ---------------------------------------------------------------------
  // The portal hash

  /** No ASCII capital letter occurs in `s`. */
  predicate NoCapitals(s: string) {
    forall k :: 0 <= k < |s| ==> !('A' <= s[k] <= 'Z')
  }

  /**
   * `makeHash(email, uid)`: the first eight characters of the uid followed
   * by the first four of the email, in lower case.
   */
  function MakeHash(email: string, uid: string): (r: string)
    ensures |r| <= 12
    ensures |uid| >= 8 && |email| >= 4 ==> |r| == 12
    ensures |r| == |Prefix(uid, 8)| + |Prefix(email, 4)|
    ensures forall k :: 0 <= k < |Prefix(uid, 8)| ==> r[k] == LowerChar(uid[k])
    ensures forall k :: |Prefix(uid, 8)| <= k < |r| ==> r[k] == LowerChar(email[k - |Prefix(uid, 8)|])
    ensures NoCapitals(r)
  {
    Lower(Prefix(uid, 8) + Prefix(email, 4))
  }

  // ---------------------------------------------------------------------
  // The state

  datatype Dragon = Dragon(
    status: string,            // 'none', 'incubating' or 'hatched'
    name: Option<string>,
    level: int,
    hunger: int,
    mood: int,
    health: int,
    sessionsRemaining: int)

  /** `window.userCare` and `window.dragon`; the dragon is missing until a load. */
  datatype CareState = CareState(care: int, dragon: Option<Dragon>)

  /** `x || d` on a number means: the stored value unless it is missing or zero. */
  predicate KeepsOrDefaults(x: Option<int>, d: int, v: int) {
    (x.Some? && x.value != 0 ==> v == x.value) && (x.None? || x.value == 0 ==> v == d)
  }

  /**
   * The state `loadCareAndDragon` builds from an existing user document:
   * each falsy field replaced by its default.
   */
  function LoadCareAndDragon(data: UserDoc): (s: CareState)
    ensures s.dragon.Some?
    ensures KeepsOrDefaults(data.careBalance, 0, s.care)
    ensures Truthy(data.eggStatus) ==> s.dragon.value.status == data.eggStatus.value
    ensures !Truthy(data.eggStatus) ==> s.dragon.value.status == "none"
    ensures s.dragon.value.name.Some? <==> Truthy(data.dragonName)
    ensures s.dragon.value.name.Some? ==> s.dragon.value.name == data.dragonName
    ensures KeepsOrDefaults(data.dragonLevel, 1, s.dragon.value.level)
    ensures KeepsOrDefaults(data.dragonHunger, 100, s.dragon.value.hunger)
    ensures KeepsOrDefaults(data.dragonMood, 100, s.dragon.value.mood)
    ensures KeepsOrDefaults(data.dragonHealth, 100, s.dragon.value.health)
    ensures KeepsOrDefaults(data.eggSessionsRemaining, 10, s.dragon.value.sessionsRemaining)
  {
    CareState(
      OrInt(data.careBalance, 0),
      Some(Dragon(
        OrStr(data.eggStatus, "none"),
        OrNull(data.dragonName),
        OrInt(data.dragonLevel, 1),
        OrInt(data.dragonHunger, 100),
        OrInt(data.dragonMood, 100),
        OrInt(data.dragonHealth, 100),
        OrInt(data.eggSessionsRemaining, 10))))
  }

  /**
   * A state as a load leaves it: a dragon is present, no field the load
   * defaults is falsy, and a present name is non-empty.
   */
  predicate Loaded(s: CareState) {
    s.dragon.Some? &&
    var d := s.dragon.value;
    d.status != [] && (d.name.Some? ==> d.name.value != []) &&
    d.level != 0 && d.hunger != 0 && d.mood != 0 && d.health != 0 && d.sessionsRemaining != 0
  }

  /**
   * The fields `saveCareAndDragon` writes over the stored document, with the
   * same `|| default` on every value; the other fields are left as they were.
   */
  function SaveCareAndDragon(prior: UserDoc, s: CareState): (doc: UserDoc)
    ensures doc.email == prior.email && doc.uid == prior.uid && doc.careSilver == prior.careSilver
    ensures doc.careGold == prior.careGold && doc.dragonId == prior.dragonId
    ensures doc.createdAt == prior.createdAt && doc.lifetimeActions == prior.lifetimeActions
    ensures doc.lifetimeSessions == prior.lifetimeSessions
    ensures doc.careBalance.Some? && doc.eggStatus.Some? && doc.dragonLevel.Some?
  {
    var d := s.dragon;
    prior.(
      careBalance := Some(OrInt(Some(s.care), 0)),
      eggStatus := Some(OrStr(if d.Some? then Some(d.value.status) else None, "none")),
      dragonName := OrNull(if d.Some? then d.value.name else None),
      dragonLevel := Some(OrInt(if d.Some? then Some(d.value.level) else None, 1)),
      dragonHunger := Some(OrInt(if d.Some? then Some(d.value.hunger) else None, 100)),
      dragonMood := Some(OrInt(if d.Some? then Some(d.value.mood) else None, 100)),
      dragonHealth := Some(OrInt(if d.Some? then Some(d.value.health) else None, 100)),
      eggSessionsRemaining := Some(OrInt(if d.Some? then Some(d.value.sessionsRemaining) else None, 10)))
  }

  // ---------------------------------------------------------------------
  // The care actions

  /** `window.dragon` exists and its status is exactly 'hatched'. */
  predicate Hatched(s: CareState) {
    s.dragon.Some? && s.dragon.value.status == HATCHED
  }

  /** `Math.min(100, stat + amount)`. */
  function Raise(stat: int, amount: nat): (r: int)
    ensures r <= MAX_STAT
    ensures r == stat + amount <==> stat + amount <= MAX_STAT
    ensures r == MAX_STAT <==> stat + amount >= MAX_STAT
    ensures stat <= MAX_STAT ==> stat <= r
  {
    Min(MAX_STAT, stat + amount)
  }

  /**
   * `window.feedDragon`: without a hatched dragon nothing changes; otherwise
   * hunger rises by 20 up to 100 and the balance by 10.
   */
  function FeedDragon(s: CareState): (r: CareState)
    ensures !Hatched(s) ==> r == s
    ensures Hatched(s) ==> Hatched(r) && r.care == s.care + FEED_CARE
    ensures Hatched(s) ==> r.dragon.value == s.dragon.value.(hunger := Raise(s.dragon.value.hunger, FEED_HUNGER))
  {
    if !Hatched(s) then s
    else
      var d := s.dragon.value;
      CareState(s.care + FEED_CARE, Some(d.(hunger := Raise(d.hunger, FEED_HUNGER))))
  }

  /**
   * `window.playDragon`: without a hatched dragon nothing changes; otherwise
   * mood rises by 15 up to 100 and the balance by 8.
   */
  function PlayDragon(s: CareState): (r: CareState)
    ensures !Hatched(s) ==> r == s
    ensures Hatched(s) ==> Hatched(r) && r.care == s.care + PLAY_CARE
    ensures Hatched(s) ==> r.dragon.value == s.dragon.value.(mood := Raise(s.dragon.value.mood, PLAY_MOOD))
  {
    if !Hatched(s) then s
    else
      var d := s.dragon.value;
      CareState(s.care + PLAY_CARE, Some(d.(mood := Raise(d.mood, PLAY_MOOD))))
  }

  /** `window.logSelfCare`: 25 more CARE, whatever the dragon. */
  function LogSelfCare(s: CareState): (r: CareState)
    ensures r.care == s.care + SELF_CARE
    ensures r.dragon == s.dragon
  {
    s.(care := s.care + SELF_CARE)
  }

  datatype Action = Feed | Play | SelfCare

  function Step(s: CareState, a: Action): CareState {
    match a
    case Feed => FeedDragon(s)
    case Play => PlayDragon(s)
    case SelfCare => LogSelfCare(s)
  }

  /** The state after the actions, in order. */
  function Run(s: CareState, acts: seq<Action>): CareState
    decreases |acts|
  {
    if acts == [] then s else Run(Step(s, acts[0]), acts[1..])
  }

  /** What one action earns, given whether there is a hatched dragon. */
  function Earning(hatched: bool, a: Action): nat {
    match a
    case Feed => if hatched then FEED_CARE else 0
    case Play => if hatched then PLAY_CARE else 0
    case SelfCare => SELF_CARE
  }

  /** The CARE a run of actions earns. */
  function Earned(hatched: bool, acts: seq<Action>): nat
    decreases |acts|
  {
    if acts == [] then 0 else Earning(hatched, acts[0]) + Earned(hatched, acts[1..])
  }

  // ---------------------------------------------------------------------
  // Properties

  /** Lower-casing the inputs does not change the hash. */
  lemma HashIgnoresCase(email: string, uid: string)
    ensures MakeHash(Lower(email), Lower(uid)) == MakeHash(email, uid)
  {
    var a, b := MakeHash(Lower(email), Lower(uid)), MakeHash(email, uid);
    var n := |Prefix(uid, 8)|;
    assert |Prefix(Lower(uid), 8)| == n;
    assert |a| == |b|;
    forall k | 0 <= k < |a|
      ensures a[k] == b[k]
    {
      if k < n {
        LowerCharTwice(uid[k]);
      } else {
        LowerCharTwice(email[k - n]);
      }
    }
  }

  lemma LowerCharTwice(c: char)
    ensures LowerChar(LowerChar(c)) == LowerChar(c)
  {
  }

  /** The hash depends on the first eight characters of the uid and the first four of the email only. */
  lemma HashDependsOnPrefixes(e1: string, u1: string, e2: string, u2: string)
    requires Prefix(u1, 8) == Prefix(u2, 8) && Prefix(e1, 4) == Prefix(e2, 4)
    ensures MakeHash(e1, u1) == MakeHash(e2, u2)
  {
  }

  /** A hash is already in lower case: lower-casing it again changes nothing. */
  lemma HashIsLowerCase(email: string, uid: string)
    ensures Lower(MakeHash(email, uid)) == MakeHash(email, uid)
  {
    var h := MakeHash(email, uid);
    forall k | 0 <= k < |h|
      ensures Lower(h)[k] == h[k]
    {
      assert !('A' <= h[k] <= 'Z');
    }
  }

  /** Every load leaves a loaded state. */
  lemma LoadIsLoaded(data: UserDoc)
    ensures Loaded(LoadCareAndDragon(data))
  {
  }

  /** Saving a loaded state and loading it again gives the same state back, whatever was stored before. */
  lemma SaveThenLoad(prior: UserDoc, s: CareState)
    requires Loaded(s)
    ensures LoadCareAndDragon(SaveCareAndDragon(prior, s)) == s
  {
  }

  /** Loading, saving and loading again is the same as loading once. */
  lemma LoadSaveLoad(prior: UserDoc, data: UserDoc)
    ensures LoadCareAndDragon(SaveCareAndDragon(prior, LoadCareAndDragon(data))) == LoadCareAndDragon(data)
  {
    LoadIsLoaded(data);
    SaveThenLoad(prior, LoadCareAndDragon(data));
  }

  /** Raising twice is raising once by the sum. */
  lemma RaiseTwice(x: int, a: nat, b: nat)
    ensures Raise(Raise(x, a), b) == Raise(x, a + b)
  {
  }

  /** Feeding `n` times a hatched dragon raises hunger by `20 * n` up to 100 and the balance by `10 * n`. */
  lemma {:induction false} FeedRepeatedly(s: CareState, n: nat)
    requires Hatched(s) && n >= 1
    ensures Run(s, Repeat(Feed, n)).care == s.care + FEED_CARE * n
    ensures Run(s, Repeat(Feed, n)).dragon == Some(s.dragon.value.(hunger := Raise(s.dragon.value.hunger, FEED_HUNGER * n)))
    decreases n
  {
    var t := FeedDragon(s);
    assert Repeat(Feed, n)[0] == Feed && Repeat(Feed, n)[1..] == Repeat(Feed, n - 1);
    if n == 1 {
      assert Run(t, []) == t;
    } else {
      FeedRepeatedly(t, n - 1);
      RaiseTwice(s.dragon.value.hunger, FEED_HUNGER, FEED_HUNGER * (n - 1));
    }
  }

  /** `n` copies of an action. */
  function Repeat(a: Action, n: nat): (r: seq<Action>)
    ensures |r| == n && forall k :: 0 <= k < n ==> r[k] == a
  {
    seq(n, _ => a)
  }

  /** No action changes whether there is a hatched dragon, nor its status, name, level, health or egg sessions. */
  lemma {:induction false} RunKeepsDragon(s: CareState, acts: seq<Action>)
    ensures Hatched(Run(s, acts)) == Hatched(s)
    ensures !Hatched(s) ==> Run(s, acts).dragon == s.dragon
    ensures Hatched(s) ==>
      Run(s, acts).dragon.Some? &&
      Run(s, acts).dragon.value.(hunger := 0, mood := 0) == s.dragon.value.(hunger := 0, mood := 0)
    decreases |acts|
  {
    if acts != [] {
      RunKeepsDragon(Step(s, acts[0]), acts[1..]);
    }
  }

  /** A run of actions earns exactly what its actions earn one by one. */
  lemma {:induction false} RunEarns(s: CareState, acts: seq<Action>)
    ensures Run(s, acts).care == s.care + Earned(Hatched(s), acts)
    decreases |acts|
  {
    if acts != [] {
      var t := Step(s, acts[0]);
      assert Hatched(t) == Hatched(s);
      RunEarns(t, acts[1..]);
    }
  }

  /**
   * Once hunger and mood are at most 100, no run of actions takes them above
   * 100 or lowers them.
   */
  lemma {:induction false} RunKeepsStatsInRange(s: CareState, acts: seq<Action>)
    requires s.dragon.Some? && s.dragon.value.hunger <= MAX_STAT && s.dragon.value.mood <= MAX_STAT
    ensures Run(s, acts).dragon.Some?
    ensures Run(s, acts).dragon.value.hunger <= MAX_STAT && Run(s, acts).dragon.value.mood <= MAX_STAT
    ensures Run(s, acts).dragon.value.hunger >= s.dragon.value.hunger
    ensures Run(s, acts).dragon.value.mood >= s.dragon.value.mood
    decreases |acts|
  {
    if acts != [] {
      RunKeepsStatsInRange(Step(s, acts[0]), acts[1..]);
    }
  }
}
