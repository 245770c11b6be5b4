/**
 * The agent's `calculate_care` tool: a fixed table of CARE values per
 * action, a normalisation of the action's name, and the message the tool
 * returns to the language model.
 *
 * The model that calls the tool and the REPL around it are left out.
 */
module NexusAgent {
  import opened Wrappers
  import opened Js

  /** `care_values`, in its insertion order. */
  const CARE_VALUES: seq<(string, int)> := [
    ("self_care", 10),
    ("help_others", 15),
    ("complete_quest", 25),
    ("feed_dragon", 5),
    ("rest", 8),
    ("buy_egg", -50),
    ("unlock_story", -20)
  ]

  /** `care_values.keys()`, in order. */
  function Keys(table: seq<(string, int)>): (r: seq<string>)
    ensures |r| == |table| && forall k :: 0 <= k < |table| ==> r[k] == table[k].0
  {
    seq(|table|, k requires 0 <= k < |table| => table[k].0)
  }

  const KNOWN_ACTIONS := Keys(CARE_VALUES)

  /** `action.lower().replace(" ", "_")`. */
  function Normalise(action: string): (r: string)
    ensures |r| == |action|
    ensures forall k :: 0 <= k < |r| ==> r[k] != ' ' && !('A' <= r[k] <= 'Z')
    ensures forall k :: 0 <= k < |r| ==> r[k] == (if action[k] == ' ' then '_' else LowerChar(action[k]))
  {
    seq(|action|, k requires 0 <= k < |action| => if action[k] == ' ' then '_' else LowerChar(action[k]))
  }

  /** The value of `key` in the table: the first entry with that key. */
  function Lookup(table: seq<(string, int)>, key: string): (r: Option<int>)
    ensures r.Some? <==> key in Keys(table)
    ensures r.Some? ==> (key, r.value) in table
    decreases |table|
  {
    if table == [] then None
    else if table[0].0 == key then Some(table[0].1)
    else
      var r := Lookup(table[1..], key);
      assert Keys(table) == [table[0].0] + Keys(table[1..]);
      r
  }

  datatype Outcome = Earns(amount: nat) | Costs(amount: nat) | Unknown

  /** The outcome of an action: a positive value earns, any other value costs its absolute value. */
  function Classify(action: string): (r: Outcome)
    ensures r.Unknown? <==> Normalise(action) !in KNOWN_ACTIONS
    ensures r.Earns? ==> (Normalise(action), r.amount as int) in CARE_VALUES && r.amount > 0
    ensures r.Costs? ==> (Normalise(action), -(r.amount as int)) in CARE_VALUES
  {
    match Lookup(CARE_VALUES, Normalise(action))
    case None => Unknown
    case Some(v) => if v > 0 then Earns(v) else Costs(-v)
  }

  const ACTION_TEXT := "Action '"
  const EARNS_TEXT := "' earns +"
  const COSTS_TEXT := "' costs "
  const CARE_TEXT := " CARE"
  const UNKNOWN_TEXT := "Unknown action '"
  const KNOWN_TEXT := "'. Known actions: "

  /** The message up to the amount, or up to the list of known actions. */
  function Head(action: string, o: Outcome): string {
    match o
    case Earns(_) => ACTION_TEXT + action + EARNS_TEXT
    case Costs(_) => ACTION_TEXT + action + COSTS_TEXT
    case Unknown => UNKNOWN_TEXT + action + KNOWN_TEXT
  }

  /** The returned message; the action is echoed as given, not normalised. */
  function Message(action: string, o: Outcome): string {
    if o.Unknown? then Head(action, o) + Join(KNOWN_ACTIONS, ", ")
    else Head(action, o) + NatToString(o.amount) + CARE_TEXT
  }

  /** `s.startswith(p)`. */
  predicate StartsWith(s: string, p: string) {
    |p| <= |s| && s[..|p|] == p
  }

  // ---------------------------------------------------------------------
  // Reading a message back

  /** The longest run of digits at the end of `s`. */
  function DigitSuffix(s: string): (d: string)
    ensures |d| <= |s| && d == s[|s| - |d|..]
    ensures forall k :: 0 <= k < |d| ==> IsDigit(d[k])
    ensures |d| < |s| ==> !IsDigit(s[|s| - |d| - 1])
    decreases |s|
  {
    if s == [] || !IsDigit(s[|s| - 1]) then []
    else DigitSuffix(s[..|s| - 1]) + [s[|s| - 1]]
  }

  /** The amount a message ends with: digits just before a final " CARE". */
  function ReadAmount(m: string): (r: Option<nat>)
    ensures r.Some? ==> |m| > |CARE_TEXT| && m[|m| - |CARE_TEXT|..] == CARE_TEXT
  {
    if |m| < |CARE_TEXT| || m[|m| - |CARE_TEXT|..] != CARE_TEXT then None
    else ReadDigits(m[..|m| - |CARE_TEXT|])
  }

  /** The value of the digits `s` ends with, if it ends with any. */
  function ReadDigits(s: string): Option<nat> {
    var d := DigitSuffix(s);
    if d == [] then None
    else
      var v := DigitsValue(d);
      if v < 0 then None else Some(v)
  }

  /**
   * `calculate_care(action)`. The amount in the message reads back as the
   * table's value (its absolute value for a cost), and a message carries an
   * amount exactly when the action is known.
   */
  function CalculateCare(action: string): (r: string)
    ensures Classify(action).Unknown? <==> ReadAmount(r).None?
    ensures !Classify(action).Unknown? ==> ReadAmount(r) == Some(Classify(action).amount)
    ensures !Classify(action).Unknown? ==>
      |r| == |Head(action, Classify(action))| + |NatToString(Classify(action).amount)| + |CARE_TEXT|
    ensures Classify(action).Earns? ==> StartsWith(r, ACTION_TEXT + action + EARNS_TEXT)
    ensures Classify(action).Costs? ==> StartsWith(r, ACTION_TEXT + action + COSTS_TEXT)
    ensures Classify(action).Unknown? ==> StartsWith(r, UNKNOWN_TEXT + action + KNOWN_TEXT)
    ensures Classify(action).Unknown? ==> r[|UNKNOWN_TEXT + action + KNOWN_TEXT|..] == Join(KNOWN_ACTIONS, ", ")
  {
    var o := Classify(action);
    MessageParts(action, o);
    Message(action, o)
  }

  // ---------------------------------------------------------------------
  // Properties

  /** The known actions are the seven table keys, in table order. */
  lemma KnownActionsInOrder()
    ensures KNOWN_ACTIONS == ["self_care", "help_others", "complete_quest", "feed_dragon", "rest", "buy_egg", "unlock_story"]
  {
  }

  /** Normalising twice is normalising once. */
  lemma NormaliseIdempotent(action: string)
    ensures Normalise(Normalise(action)) == Normalise(action)
  {
    var n := Normalise(action);
    forall k | 0 <= k < |n|
      ensures Normalise(n)[k] == n[k]
    {
      assert !('A' <= n[k] <= 'Z');
    }
  }

  /** The outcome depends on the normalised name only: case and spaces against underscores do not matter. */
  lemma ClassifyNormalised(action: string)
    ensures Classify(Normalise(action)) == Classify(action)
  {
    NormaliseIdempotent(action);
  }

  /** The table's five earning actions. */
  lemma TableEarnings()
    ensures Classify("self_care") == Earns(10) && Classify("help_others") == Earns(15)
    ensures Classify("complete_quest") == Earns(25) && Classify("feed_dragon") == Earns(5)
    ensures Classify("rest") == Earns(8)
  {
    assert Normalise("self_care") == "self_care";
    assert Normalise("help_others") == "help_others";
    assert Normalise("complete_quest") == "complete_quest";
    assert Normalise("feed_dragon") == "feed_dragon";
    assert Normalise("rest") == "rest";
  }

  /** The table's two costing actions. */
  lemma TableCosts()
    ensures Classify("buy_egg") == Costs(50) && Classify("unlock_story") == Costs(20)
  {
    BuyEggLookup();
    BuyEggNormal();
    UnlockStoryCosts();
  }

  /** A name in lower case without spaces is its own normal form. */
  lemma NormaliseFixed(s: string)
    requires forall k :: 0 <= k < |s| ==> s[k] != ' ' && !('A' <= s[k] <= 'Z')
    ensures Normalise(s) == s
  {
  }

  lemma BuyEggLookup()
    ensures Lookup(CARE_VALUES, "buy_egg") == Some(-50)
  {
    LookupAt(CARE_VALUES, 5, "buy_egg");
  }

  lemma BuyEggNormal()
    ensures Normalise("buy_egg") == "buy_egg"
  {
    NormaliseFixed("buy_egg");
  }

  lemma UnlockStoryCosts()
    ensures Classify("unlock_story") == Costs(20)
  {
    UnlockStoryLookup();
    UnlockStoryNormal();
  }

  lemma UnlockStoryLookup()
    ensures Lookup(CARE_VALUES, "unlock_story") == Some(-20)
  {
    var key := CARE_VALUES[6].0;
    assert key == "unlock_story";
    assert CARE_VALUES[0].0[0] == 's' && CARE_VALUES[1].0[0] == 'h' && CARE_VALUES[2].0[0] == 'c';
    assert CARE_VALUES[3].0[0] == 'f' && CARE_VALUES[4].0[0] == 'r' && CARE_VALUES[5].0[0] == 'b';
    LookupAt(CARE_VALUES, 6, key);
  }

  lemma UnlockStoryNormal()
    ensures Normalise("unlock_story") == "unlock_story"
  {
    NormaliseFixed("unlock_story");
  }

  /** The value of the first entry carrying the key. */
  lemma {:induction false} LookupAt(table: seq<(string, int)>, i: nat, key: string)
    requires i < |table| && table[i].0 == key && key != []
    requires forall j :: 0 <= j < i ==> table[j].0 == [] || table[j].0[0] != key[0]
    ensures Lookup(table, key) == Some(table[i].1)
    decreases i
  {
    if i > 0 {
      LookupAt(table[1..], i - 1, key);
    }
  }

  /** Digits after a non-digit are the digit suffix. */
  lemma {:induction false} DigitSuffixAfter(x: string, d: string)
    requires x == [] || !IsDigit(x[|x| - 1])
    requires forall k :: 0 <= k < |d| ==> IsDigit(d[k])
    ensures DigitSuffix(x + d) == d
    decreases |d|
  {
    if d == [] {
      assert x + d == x;
    } else {
      var d' := d[..|d| - 1];
      DropLast(x, d);
      DigitSuffixAfter(x, d');
    }
  }

  /** The last `n` characters of `x + y`, for `n` at most `|y|`, are the last `n` of `y`. */
  lemma EndsWith(x: string, y: string, n: nat)
    requires n <= |y|
    ensures (x + y)[|x + y| - n..] == y[|y| - n..]
  {
  }

  /** Dropping the last element of `x + d`, for a non-empty `d`. */
  lemma DropLast<T>(x: seq<T>, d: seq<T>)
    requires d != []
    ensures (x + d)[..|x + d| - 1] == x + d[..|d| - 1]
    ensures d[..|d| - 1] + [d[|d| - 1]] == d
    ensures (x + d)[|x + d| - 1] == d[|d| - 1]
  {
  }

  lemma Front<T>(x: seq<T>, y: seq<T>)
    ensures (x + y)[..|x + y| - |y|] == x
  {
    assert (x + y)[..|x|] == x;
  }

  lemma PrefixOf(x: string, y: string)
    ensures StartsWith(x + y, x)
  {
    assert (x + y)[..|x|] == x;
  }

  /** An amount written after a non-digit and before " CARE" reads back. */
  lemma ReadBack(head: string, digits: string)
    requires head == [] || !IsDigit(head[|head| - 1])
    requires digits != [] && forall k :: 0 <= k < |digits| ==> IsDigit(digits[k])
    ensures ReadAmount(head + digits + CARE_TEXT) == Some(DigitsValue(digits))
  {
    ReadAmountAppend(head + digits);
    DigitSuffixAfter(head, digits);
    DigitsValueNonNegative(digits);
  }

  lemma ReadAmountAppend(body: string)
    ensures ReadAmount(body + CARE_TEXT) == ReadDigits(body)
  {
    var m := body + CARE_TEXT;
    EndsWith(body, CARE_TEXT, |CARE_TEXT|);
    Front(body, CARE_TEXT);
  }

  lemma {:induction false} DigitsValueNonNegative(s: string)
    requires forall k :: 0 <= k < |s| ==> IsDigit(s[k])
    ensures DigitsValue(s) >= 0
    decreases |s|
  {
    if s != [] {
      DigitsValueNonNegative(s[..|s| - 1]);
    }
  }

  /** `parts.join(sep)` ends with the last part. */
  lemma {:induction false} JoinEndsWithLast(parts: seq<string>, sep: string)
    requires parts != []
    ensures |Join(parts, sep)| >= |parts[|parts| - 1]|
    ensures Join(parts, sep)[|Join(parts, sep)| - |parts[|parts| - 1]|..] == parts[|parts| - 1]
    decreases |parts|
  {
    if |parts| > 1 {
      JoinEndsWithLast(parts[1..], sep);
      var last := parts[|parts| - 1];
      assert parts[1..][|parts| - 2] == last;
      EndsWith(parts[0] + sep, Join(parts[1..], sep), |last|);
      assert Join(parts[1..], sep)[|Join(parts[1..], sep)| - |last|..] == last;
    }
  }

  lemma MessageParts(action: string, o: Outcome)
    ensures StartsWith(Message(action, o), Head(action, o))
    ensures !o.Unknown? ==> ReadAmount(Message(action, o)) == Some(o.amount)
    ensures !o.Unknown? ==> |Message(action, o)| == |Head(action, o)| + |NatToString(o.amount)| + |CARE_TEXT|
    ensures o.Unknown? ==> ReadAmount(Message(action, o)) == None
  {
    var head := Head(action, o);
    if o.Unknown? {
      var keys := Join(KNOWN_ACTIONS, ", ");
      PrefixOf(head, keys);
      JoinEndsWithLast(KNOWN_ACTIONS, ", ");
      var last := KNOWN_ACTIONS[|KNOWN_ACTIONS| - 1];
      assert last == "unlock_story";
      EndsWith(head, keys, |last|);
      var m := Message(action, o);
      assert m[|m| - |last|..] == last;
      assert m[|m| - 5..] == last[|last| - 5..];
      assert last[|last| - 5..] != CARE_TEXT by {
        assert last[|last| - 5] == 's';
      }
    } else {
      var digits := NatToString(o.amount);
      PrefixOf(head, digits + CARE_TEXT);
      assert head + digits + CARE_TEXT == head + (digits + CARE_TEXT);
      var tail := if o.Earns? then EARNS_TEXT else COSTS_TEXT;
      EndsWith(ACTION_TEXT + action, tail, 1);
      assert head[|head| - 1] == tail[|tail| - 1];
      ReadBack(head, digits);
      NatToStringValue(o.amount);
    }
  }
}
