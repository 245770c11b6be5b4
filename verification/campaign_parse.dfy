/**
 * `parseCampaignSaveCode`: the partial import of a SAVE_CODE block.
 *
 * Only two regular expressions are applied to the text, each with
 * `String.prototype.match` and no flags: the header pattern
 * `SAVE_CODE: (.+) \| (\d{4}-\d{2}-\d{2}) \| v([\d.]+)` for the name and
 * `- System: (.+)` for the game system. Both are modelled by their
 * backtracking semantics: the leftmost position where the pattern matches,
 * and there the longest run of `.` (any character but a line terminator)
 * after which the rest of the pattern still matches.
 */
module CampaignParse {
  import opened Wrappers
  import opened Js
  import opened CampaignSave

  const HEADER_PREFIX: string := "SAVE_CODE: "
  const SYSTEM_PREFIX: string := "- System: "

  /** The characters `.` does not match. */
  predicate IsLineTerminator(c: char) {
    c == '\n' || c == '\r' || c == '\U{2028}' || c == '\U{2029}'
  }

  predicate SingleLine(s: string) {
    forall k :: 0 <= k < |s| ==> !IsLineTerminator(s[k])
  }

  /** Part of a single line is a single line. */
  lemma SingleLineSlice(s: string, a: nat, b: nat, c: nat)
    requires a <= b <= c <= |s| && SingleLine(s[a..c])
    ensures SingleLine(s[a..b])
  {
    assert forall k :: 0 <= k < b - a ==> s[a..b][k] == s[a..c][k];
  }

  /** `m` occurs somewhere in `s`. */
  predicate Occurs(s: string, m: string) {
    exists i :: 0 <= i <= |s| && At(s, i, m)
  }

  /** The length of the longest run of `.` matches starting at `i`. */
  function DotRun(s: string, i: nat): (n: nat)
    requires i <= |s|
    ensures i + n <= |s|
    ensures SingleLine(s[i..i + n])
    ensures i + n == |s| || IsLineTerminator(s[i + n])
    decreases |s| - i
  {
    if i == |s| || IsLineTerminator(s[i]) then 0
    else
      var n := DotRun(s, i + 1);
      assert s[i..i + 1 + n] == [s[i]] + s[i + 1..i + 1 + n];
      1 + n
  }

  /** ` \| (\d{4}-\d{2}-\d{2}) \| v([\d.]+)` matches at `j`. */
  predicate HeaderTail(s: string, j: nat) {
    j + 18 <= |s| && s[j..j + 3] == " | " && IsIsoDate(s[j + 3..j + 13]) &&
    s[j + 13..j + 17] == " | v" && (IsDigit(s[j + 17]) || s[j + 17] == '.')
  }

  /**
   * The greedy `(.+)` backing off from a run of `k` characters: the longest
   * group of at least one character after which the tail of the header
   * pattern matches.
   */
  function Backtrack(s: string, start: nat, k: nat): (r: Option<string>)
    requires start + k <= |s|
    ensures r.Some? ==> 0 < |r.value| <= k && r.value == s[start..start + |r.value|]
    ensures r.Some? ==> HeaderTail(s, start + |r.value|)
    ensures r.Some? ==> forall p :: start + |r.value| < p <= start + k ==> !HeaderTail(s, p)
    ensures r.None? ==> forall p :: start < p <= start + k ==> !HeaderTail(s, p)
    decreases k
  {
    if k == 0 then None
    else if HeaderTail(s, start + k) then Some(s[start..start + k])
    else Backtrack(s, start, k - 1)
  }

  /** The group the header pattern captures when its match starts at `i`, if it matches there. */
  function HeaderAt(s: string, i: nat): (r: Option<string>)
    requires i <= |s|
    ensures r.Some? ==> At(s, i, HEADER_PREFIX) && SingleLine(r.value)
  {
    if At(s, i, HEADER_PREFIX) then
      var g := Backtrack(s, i + 11, DotRun(s, i + 11));
      if g.Some? then
        SingleLineSlice(s, i + 11, i + 11 + |g.value|, i + 11 + DotRun(s, i + 11));
        g
      else None
    else None
  }

  /** The group the `- System:` pattern captures when its match starts at `i`, if it matches there. */
  function SystemAt(s: string, i: nat): (r: Option<string>)
    requires i <= |s|
    ensures r.Some? <==> At(s, i, SYSTEM_PREFIX) && i + 10 < |s| && !IsLineTerminator(s[i + 10])
    ensures r.Some? ==> i + 10 + |r.value| <= |s| && r.value == s[i + 10..i + 10 + |r.value|]
    ensures r.Some? ==> r.value != [] && SingleLine(r.value)
    ensures r.Some? ==> i + 10 + |r.value| == |s| || IsLineTerminator(s[i + 10 + |r.value|])
  {
    if At(s, i, SYSTEM_PREFIX) && DotRun(s, i + 10) > 0 then
      Some(s[i + 10..i + 10 + DotRun(s, i + 10)])
    else None
  }

  /** Where a match starts and what its first group captured. */
  datatype Match = Match(start: nat, group: string)

  /** The first present entry of `at` from position `i` on, with its position. */
  function Leftmost(at: seq<Option<string>>, i: nat): (r: Option<Match>)
    requires i <= |at|
    ensures r.Some? ==> i <= r.value.start < |at| && at[r.value.start] == Some(r.value.group)
    ensures r.Some? ==> forall j :: i <= j < r.value.start ==> at[j].None?
    ensures r.None? ==> forall j :: i <= j < |at| ==> at[j].None?
    decreases |at| - i
  {
    if i == |at| then None
    else if at[i].Some? then Some(Match(i, at[i].value))
    else Leftmost(at, i + 1)
  }

  /** What the header pattern captures at each position of `s`, its end included. */
  function HeaderMatches(s: string): (r: seq<Option<string>>)
    ensures |r| == |s| + 1 && forall j :: 0 <= j <= |s| ==> r[j] == HeaderAt(s, j)
  {
    seq(|s| + 1, j requires 0 <= j <= |s| => HeaderAt(s, j))
  }

  /** What the system pattern captures at each position of `s`, its end included. */
  function SystemMatches(s: string): (r: seq<Option<string>>)
    ensures |r| == |s| + 1 && forall j :: 0 <= j <= |s| ==> r[j] == SystemAt(s, j)
  {
    seq(|s| + 1, j requires 0 <= j <= |s| => SystemAt(s, j))
  }

  /** `s.match(header)` from position `i` on: the leftmost match. */
  function HeaderSearch(s: string, i: nat): (r: Option<Match>)
    requires i <= |s|
    ensures r.Some? ==> i <= r.value.start <= |s| && HeaderAt(s, r.value.start) == Some(r.value.group)
    ensures r.Some? ==> forall j :: i <= j < r.value.start ==> HeaderAt(s, j).None?
    ensures r.None? ==> forall j :: i <= j <= |s| ==> HeaderAt(s, j).None?
  {
    Leftmost(HeaderMatches(s), i)
  }

  /** `s.match(system)` from position `i` on: the leftmost match. */
  function SystemSearch(s: string, i: nat): (r: Option<Match>)
    requires i <= |s|
    ensures r.Some? ==> i <= r.value.start <= |s| && SystemAt(s, r.value.start) == Some(r.value.group)
    ensures r.Some? ==> forall j :: i <= j < r.value.start ==> SystemAt(s, j).None?
    ensures r.None? ==> forall j :: i <= j <= |s| ==> SystemAt(s, j).None?
  {
    Leftmost(SystemMatches(s), i)
  }

  /** What the parser returns. */
  datatype ParsedCampaign = ParsedCampaign(
    name: Option<string>,
    system: Option<string>,
    description: Option<string>,
    sessions: seq<Session>,
    dragonStatus: Option<string>)

  function Group(m: Option<Match>): Option<string> {
    if m.Some? then Some(m.value.group) else None
  }

  /**
   * `parseCampaignSaveCode`: the name from the header, the system from the
   * first `- System:` line; everything else keeps its initial value.
   */
  function ParseCampaignSaveCode(text: string): (r: ParsedCampaign)
    ensures r.description == None && r.sessions == [] && r.dragonStatus == None
    ensures r.name.None? <==> forall j :: 0 <= j <= |text| ==> HeaderAt(text, j).None?
    ensures r.name.Some? ==> r.name.value != [] && SingleLine(r.name.value)
    ensures r.system.None? <==> forall j :: 0 <= j <= |text| ==> SystemAt(text, j).None?
    ensures r.system.Some? ==> r.system.value != [] && SingleLine(r.system.value)
    ensures r.system.Some? ==> Occurs(text, SYSTEM_PREFIX + r.system.value)
  {
    var header := HeaderSearch(text, 0);
    var system := SystemSearch(text, 0);
    var r := ParsedCampaign(Group(header), Group(system), None, [], None);
    if system.Some? then SystemOccurs(text, system.value.start, system.value.group); r else r
  }

  // ---------------------------------------------------------------------
  // Properties

  lemma SystemOccurs(s: string, i: nat, g: string)
    requires i <= |s| && SystemAt(s, i) == Some(g)
    ensures Occurs(s, SYSTEM_PREFIX + g)
  {
    assert s[i..i + 10 + |g|] == s[i..i + 10] + s[i + 10..i + 10 + |g|];
    assert At(s, i, SYSTEM_PREFIX + g);
  }

  lemma SingleLineAppend(a: string, b: string)
    requires SingleLine(a) && SingleLine(b)
    ensures SingleLine(a + b)
  {
    assert forall k :: 0 <= k < |a + b| ==> (a + b)[k] == if k < |a| then a[k] else b[k - |a|];
  }

  /** The run of `.` is exactly `w` long when `w` characters are no line terminator and the next one is. */
  lemma DotRunExact(s: string, i: nat, w: nat)
    requires i + w <= |s| && SingleLine(s[i..i + w])
    requires i + w == |s| || IsLineTerminator(s[i + w])
    ensures DotRun(s, i) == w
  {
  }

  /** The greedy group is the longest one after which the tail matches. */
  lemma BacktrackFinds(s: string, start: nat, k: nat, m: nat)
    requires 0 < m <= k && start + k <= |s|
    requires HeaderTail(s, start + m)
    requires forall p :: start + m < p <= start + k ==> !HeaderTail(s, p)
    ensures Backtrack(s, start, k) == Some(s[start..start + m])
  {
    var r := Backtrack(s, start, k);
    assert r.Some?;
    assert |r.value| == m;
  }

  /**
   * The text after a name: ` | date | v1.0` and a newline. The tail of the
   * header pattern matches at its start, and nowhere within it.
   */
  lemma TailOnlyAtStart(s: string, q: nat, d: string)
    requires IsIsoDate(d)
    requires q + 21 <= |s| && s[q..q + 21] == " | " + d + " | v1.0\n"
    ensures HeaderTail(s, q)
    ensures forall p :: q < p <= q + 20 ==> !HeaderTail(s, p)
  {
    TailAtStart(s, q, d);
    NoTailWithin(s, q, d);
  }

  lemma TailAtStart(s: string, q: nat, d: string)
    requires IsIsoDate(d)
    requires q + 21 <= |s| && s[q..q + 21] == " | " + d + " | v1.0\n"
    ensures HeaderTail(s, q)
  {
    var u := " | " + d + " | v1.0\n";
    SliceOfSlice(s, q, 21, 0, 3);
    SliceOfSlice(s, q, 21, 3, 13);
    SliceOfSlice(s, q, 21, 13, 17);
    assert s[q..q + 3] == u[0..3] == " | ";
    assert s[q + 3..q + 13] == u[3..13] == d;
    assert s[q + 13..q + 17] == u[13..17] == " | v";
    assert s[q + 17] == s[q..q + 21][17] == u[17] == '1';
  }

  lemma SliceAt<T>(s: seq<T>, a: nat, b: nat, k: nat)
    requires a + k < b <= |s|
    ensures s[a..b][k] == s[a + k]
  {
  }

  lemma SliceJoin<T>(s: seq<T>, a: nat, b: nat, c: nat)
    requires a <= b <= c <= |s|
    ensures s[a..c] == s[a..b] + s[b..c]
  {
  }

  lemma SliceOfSlice<T>(s: seq<T>, q: nat, n: nat, a: nat, b: nat)
    requires q + n <= |s| && a <= b <= n
    ensures s[q..q + n][a..b] == s[q + a..q + b]
  {
    var x, y := s[q..q + n][a..b], s[q + a..q + b];
    assert |x| == |y|;
    assert forall k :: 0 <= k < |x| ==> x[k] == y[k];
  }

  lemma NoTailWithin(s: string, q: nat, d: string)
    requires IsIsoDate(d)
    requires q + 21 <= |s| && s[q..q + 21] == " | " + d + " | v1.0\n"
    ensures forall p :: q < p <= q + 20 ==> !HeaderTail(s, p)
  {
    var u := " | " + d + " | v1.0\n";
    assert forall o :: 0 <= o < 21 ==> s[q + o] == u[o];
    forall p | q < p <= q + 20
      ensures !HeaderTail(s, p)
    {
      TailStart(s, p);
      var o := p - q;
      assert s[p] == u[o];
      if o == 13 {
        assert s[p + 3] == u[16] == 'v';
      } else if o == 2 {
        assert s[p + 1] == u[3] == d[0];
      } else if o == 15 {
        assert s[p + 1] == u[16] == 'v';
      } else {
        assert u[o] != ' ';
      }
    }
  }

  /** Where the tail of the header pattern matches, it starts with ` | ` and a digit. */
  lemma TailStart(s: string, p: nat)
    ensures HeaderTail(s, p) ==> p + 18 <= |s| && s[p] == ' ' && s[p + 1] == '|' && IsDigit(s[p + 3])
  {
    if HeaderTail(s, p) {
      assert s[p] == s[p..p + 3][0];
      assert s[p + 1] == s[p..p + 3][1];
      assert s[p + 3] == s[p + 3..p + 13][0];
    }
  }

  /** The leftmost header match is at `j` when the pattern matches there and nowhere before. */
  lemma FirstHeaderMatch(s: string, i: nat, j: nat, g: string)
    requires i <= j <= |s| && HeaderAt(s, j) == Some(g)
    requires forall k :: i <= k < j ==> HeaderAt(s, k).None?
    ensures HeaderSearch(s, i) == Some(Match(j, g))
  {
    LeftmostAt(HeaderMatches(s), i, j);
  }

  /** The first present entry from `i` on is the one at `j` when none lies between. */
  lemma {:induction false} LeftmostAt(at: seq<Option<string>>, i: nat, j: nat)
    requires i <= j < |at| && at[j].Some?
    requires forall k :: i <= k < j ==> at[k].None?
    ensures Leftmost(at, i) == Some(Match(j, at[j].value))
    decreases j - i
  {
    if i < j {
      LeftmostAt(at, i + 1, j);
    }
  }

  /** The leftmost `- System:` match is at `j` when the pattern matches there and nowhere before. */
  lemma FirstSystemMatch(s: string, i: nat, j: nat, g: string)
    requires i <= j <= |s| && SystemAt(s, j) == Some(g)
    requires forall k :: i <= k < j ==> SystemAt(s, k).None?
    ensures SystemSearch(s, i) == Some(Match(j, g))
  {
    LeftmostAt(SystemMatches(s), i, j);
  }

  /** The three parts of a header line, located. */
  lemma HeaderParts(s: string, n: string, w: string, t: string)
    requires s == HEADER_PREFIX + n + w + t
    ensures 11 + |n| + |w| <= |s|
    ensures s[..11] == HEADER_PREFIX && s[11..11 + |n|] == n
    ensures s[11 + |n|..11 + |n| + |w|] == w
  {
  }

  /** The text after the name is one line: ` | date | v1.0`. */
  lemma DateTailSingleLine(d: string)
    requires IsIsoDate(d)
    ensures SingleLine(" | " + d + " | v1.0")
  {
    var u := " | " + d + " | v1.0";
    assert forall k :: 0 <= k < 20 ==> u[k] == ' ' || u[k] == '|' || u[k] == '-' || u[k] == 'v' || u[k] == '.' || IsDigit(u[k]);
  }

  /** From the end of `SAVE_CODE: `, the run of `.` covers the name and the rest of the header line. */
  lemma HeaderRun(s: string, n: string, d: string)
    requires SingleLine(n) && IsIsoDate(d)
    requires 11 + |n| + 21 <= |s| && s[11..11 + |n|] == n
    requires s[11 + |n|..11 + |n| + 21] == " | " + d + " | v1.0\n"
    ensures DotRun(s, 11) == |n| + 20
  {
    var q := 11 + |n|;
    var u := " | " + d + " | v1.0";
    var t := u + "\n";
    assert s[q..q + 21] == t;
    assert s[q..q + 20] == u by {
      SliceOfSlice(s, q, 21, 0, 20);
      assert t[0..20] == u;
    }
    assert s[q + 20] == '\n' by {
      SliceAt(s, q, q + 21, 20);
      assert t[20] == '\n';
    }
    assert s[11..q + 20] == n + u by {
      SliceJoin(s, 11, q, q + 20);
    }
    DateTailSingleLine(d);
    SingleLineAppend(n, u);
    DotRunExact(s, 11, |n| + 20);
  }

  /**
   * A text that starts with a header line holding a non-empty single-line
   * name and an ISO date: the header pattern matches at the start and
   * captures the name.
   */
  lemma HeaderCapturesName(s: string, n: string, d: string, t: string)
    requires n != [] && SingleLine(n) && IsIsoDate(d)
    requires s == HEADER_PREFIX + n + " | " + d + " | v1.0" + "\n" + t
    ensures HeaderSearch(s, 0) == Some(Match(0, n))
  {
    HeaderAtStart(s, n, d, t);
    FirstHeaderMatch(s, 0, 0, n);
  }

  lemma HeaderAtStart(s: string, n: string, d: string, t: string)
    requires n != [] && SingleLine(n) && IsIsoDate(d)
    requires s == HEADER_PREFIX + n + " | " + d + " | v1.0" + "\n" + t
    ensures HeaderAt(s, 0) == Some(n)
  {
    var w := " | " + d + " | v1.0\n";
    assert s == HEADER_PREFIX + n + w + t by {
      Regroup(HEADER_PREFIX, n, " | ", d, " | v1.0", "\n", t);
      assert " | " + d + " | v1.0" + "\n" == w;
    }
    HeaderParts(s, n, w, t);
    HeaderGroup(s, n, d);
  }

  lemma Regroup<T>(a: seq<T>, b: seq<T>, c: seq<T>, d: seq<T>, e: seq<T>, f: seq<T>, t: seq<T>)
    ensures a + b + c + d + e + f + t == a + b + (c + d + e + f) + t
  {
  }

  /** The header line, located: the pattern matches at the start and captures the name. */
  lemma HeaderGroup(s: string, n: string, d: string)
    requires n != [] && SingleLine(n) && IsIsoDate(d)
    requires 11 + |n| + 21 <= |s| && s[..11] == HEADER_PREFIX && s[11..11 + |n|] == n
    requires s[11 + |n|..11 + |n| + 21] == " | " + d + " | v1.0\n"
    ensures HeaderAt(s, 0) == Some(n)
  {
    HeaderRun(s, n, d);
    TailOnlyAtStart(s, 11 + |n|, d);
    BacktrackFinds(s, 11, |n| + 20, |n|);
  }

  /** A non-empty single-line name survives formatting and parsing. */
  lemma NameRoundTrip(c: Campaign, sessions: seq<Session>, u: UserDoc.UserDoc, today: string)
    requires IsIsoDate(today)
    requires Render(c.name) != [] && SingleLine(Render(c.name))
    ensures ParseCampaignSaveCode(FormatCampaignSaveCode(c, sessions, u, today)).name == Some(Render(c.name))
  {
    var s := FormatCampaignSaveCode(c, sessions, u, today);
    FormatSplitsAtHeader(c, sessions, u, today);
    var rest := Lines(SaveCodeLines(c, sessions, u, today)[1..]);
    HeaderCapturesName(s, Render(c.name), today, rest);
  }

  /**
   * A text made of a part without `- System: ` that ends a line, then a
   * `- System:` line with a non-empty single-line value: the system pattern
   * captures that value.
   */
  lemma SystemCapturesValue(s: string, pre: string, y: string, t: string)
    requires pre == [] || pre[|pre| - 1] == '\n'
    requires !Occurs(pre, SYSTEM_PREFIX)
    requires y != [] && SingleLine(y)
    requires s == pre + (SYSTEM_PREFIX + y) + "\n" + t
    ensures SystemSearch(s, 0) == Some(Match(|pre|, y))
  {
    var i := |pre|;
    assert pre <= s && s[i..i + 10] == SYSTEM_PREFIX && s[i + 10..i + 10 + |y|] == y && s[i + 10 + |y|] == '\n' by {
      assert s == pre + SYSTEM_PREFIX + y + "\n" + t;
    }
    SystemAtValue(s, i, y);
    NoSystemBefore(s, pre);
    FirstSystemMatch(s, 0, i, y);
  }

  /** A `- System: ` line whose value is non-empty and single-line is matched where it starts. */
  lemma SystemAtValue(s: string, i: nat, y: string)
    requires y != [] && SingleLine(y)
    requires i + 10 + |y| < |s| && s[i..i + 10] == SYSTEM_PREFIX && s[i + 10..i + 10 + |y|] == y
    requires s[i + 10 + |y|] == '\n'
    ensures SystemAt(s, i) == Some(y)
  {
    DotRunExact(s, i + 10, |y|);
  }

  /** No `- System: ` match starts within a leading part that has none and ends a line. */
  lemma NoSystemBefore(s: string, pre: string)
    requires pre <= s
    requires pre == [] || pre[|pre| - 1] == '\n'
    requires !Occurs(pre, SYSTEM_PREFIX)
    ensures forall j :: 0 <= j < |pre| ==> SystemAt(s, j).None?
  {
    var i := |pre|;
    forall j | 0 <= j < i
      ensures SystemAt(s, j).None?
    {
      if j + 10 <= i {
        assert pre[j..j + 10] == s[j..j + 10];
        assert !At(pre, j, SYSTEM_PREFIX);
      } else {
        assert s[i - 1] == pre[i - 1] == '\n';
        assert SYSTEM_PREFIX[i - 1 - j] != '\n';
        if j + 10 <= |s| {
          assert s[j..j + 10][i - 1 - j] == s[i - 1];
        }
      }
    }
  }

  /**
   * A non-empty single-line system survives formatting and parsing, provided
   * `- System: ` does not already occur in the header or `- Name:` lines.
   */
  lemma SystemRoundTrip(c: Campaign, sessions: seq<Session>, u: UserDoc.UserDoc, today: string)
    requires Render(c.system) != [] && SingleLine(Render(c.system))
    requires !Occurs(Lines(PreambleLines(c.name, today)), SYSTEM_PREFIX)
    ensures ParseCampaignSaveCode(FormatCampaignSaveCode(c, sessions, u, today)).system == Some(Render(c.system))
  {
    var s := FormatCampaignSaveCode(c, sessions, u, today);
    var pre := PreambleLines(c.name, today);
    LinesEndWithNewline(pre);
    FormatSplitsAtSystem(c, sessions, u, today);
    SystemCapturesValue(s, Lines(pre), Render(c.system), Lines(SaveCodeLines(c, sessions, u, today)[6..]));
  }

  lemma LinesEndWithNewline(lines: seq<string>)
    requires lines != []
    ensures |Lines(lines)| > 0 && Lines(lines)[|Lines(lines)| - 1] == '\n'
    decreases |lines|
  {
    if |lines| > 1 {
      LinesEndWithNewline(lines[1..]);
    }
  }

  /** A text without `SAVE_CODE: ` gives no name. */
  lemma NoHeaderNoName(text: string)
    requires !Occurs(text, HEADER_PREFIX)
    ensures ParseCampaignSaveCode(text).name == None
  {
    forall j | 0 <= j <= |text|
      ensures HeaderAt(text, j).None?
    {
      assert !At(text, j, HEADER_PREFIX);
    }
  }
}
