/**
 * The campaign SAVE_CODE: `formatCampaignSaveCode` and `generateTLDR`.
 *
 * A campaign, its sessions (newest first, as the query orders them) and the
 * user document are rendered into a plain-text block that can be pasted into
 * a chat assistant. The block is built here as a list of lines, each of which
 * the code ends with a newline. The clock and the locale are not modelled:
 * `today` is the `YYYY-MM-DD` part of `toISOString()`, and every Firestore
 * timestamp is replaced by the `toLocaleDateString()` text it renders as, or
 * by `None` when there is no timestamp.
 */
module CampaignSave {
  import opened Wrappers
  import opened Js
  import opened UserDoc

  datatype Campaign = Campaign(
    name: Option<string>,
    system: Option<string>,
    description: Option<string>,
    careEarned: Option<int>,
    createdAt: Option<string>,     // the rendered creation date
    lastSession: Option<string>)   // the rendered date of the last session

  datatype Session = Session(
    sessionDate: Option<string>,   // the rendered session date
    careEarned: Option<int>,
    actions: Option<seq<string>>,
    recap: Option<string>)

  /** The shape of `toISOString().split('T')[0]` for a year between 0 and 9999. */
  predicate IsIsoDate(d: string) {
    |d| == 10 &&
    IsDigit(d[0]) && IsDigit(d[1]) && IsDigit(d[2]) && IsDigit(d[3]) && d[4] == '-' &&
    IsDigit(d[5]) && IsDigit(d[6]) && d[7] == '-' && IsDigit(d[8]) && IsDigit(d[9])
  }

  /** Every line followed by a newline. */
  function Lines(lines: seq<string>): string
    decreases |lines|
  {
    if lines == [] then [] else lines[0] + "\n" + Lines(lines[1..])
  }

  /** The rendered date of a timestamp that may be missing. */
  function DateOr(date: Option<string>, fallback: string): (r: string)
    ensures date.Some? ==> r == date.value
    ensures date.None? ==> r == fallback
  {
    if date.Some? then date.value else fallback
  }

  /** A line of 70 copies of `c`. */
  function Rule(c: char): (r: string)
    ensures |r| == 70
  {
    Repeat(c, 70)
  }

  function OptionalLine(line: Option<string>): (r: seq<string>)
    ensures |r| <= 1
    ensures line.Some? ==> r == [line.value]
  {
    if line.Some? then [line.value] else []
  }

  // ---------------------------------------------------------------------
  // Sessions

  /** The `Actions:` block: present only for a non-empty list, then one `- action` line per action. */
  function ActionLines(actions: Option<seq<string>>): (r: seq<string>)
    ensures r == [] <==> actions.None? || actions.value == []
    ensures r != [] ==> |r| == 1 + |actions.value| && r[0] == "  Actions:"
    ensures r != [] ==> forall k :: 0 <= k < |actions.value| ==> r[1 + k] == "    - " + actions.value[k]
  {
    if actions.Some? && |actions.value| > 0 then
      ["  Actions:"] + seq(|actions.value|, k requires 0 <= k < |actions.value| => "    - " + actions.value[k])
    else []
  }

  /** The `Recap:` block: present only for a non-empty recap, then every line of it indented by four spaces. */
  function RecapLines(recap: Option<string>): (r: seq<string>)
    ensures r == [] <==> !Truthy(recap)
    ensures r != [] ==> |r| == 1 + |SplitLines(recap.value)| && r[0] == "  Recap:"
    ensures r != [] ==> forall k :: 0 <= k < |SplitLines(recap.value)| ==> r[1 + k] == "    " + SplitLines(recap.value)[k]
  {
    if Truthy(recap) then
      var parts := SplitLines(recap.value);
      ["  Recap:"] + seq(|parts|, k requires 0 <= k < |parts| => "    " + parts[k])
    else []
  }

  /**
   * The block of one session, numbered `number`: a blank line, the heading,
   * the date (`Unknown date` when missing), the CARE earned (0 when
   * missing), the actions, the recap, a blank line.
   */
  function SessionLines(number: int, s: Session): (r: seq<string>)
    ensures |r| == 5 + |ActionLines(s.actions)| + |RecapLines(s.recap)|
    ensures r[0] == "" && r[|r| - 1] == ""
    ensures r[1] == "[Session " + IntToString(number) + "]"
    ensures r[2] == "  Date: " + DateOr(s.sessionDate, "Unknown date")
    ensures r[3] == "  CARE Earned: +" + IntToString(OrInt(s.careEarned, 0))
    ensures r[4..|r| - 1] == ActionLines(s.actions) + RecapLines(s.recap)
  {
    var head := ["", "[Session " + IntToString(number) + "]",
                 "  Date: " + DateOr(s.sessionDate, "Unknown date"),
                 "  CARE Earned: +" + IntToString(OrInt(s.careEarned, 0))];
    var body := ActionLines(s.actions) + RecapLines(s.recap);
    Framed(head, body, "");
    head + body + [""]
  }

  /** A list made of a head, a body and one last element. */
  lemma Framed<T>(head: seq<T>, body: seq<T>, last: T)
    ensures |head + body + [last]| == |head| + |body| + 1
    ensures forall k :: 0 <= k < |head| ==> (head + body + [last])[k] == head[k]
    ensures (head + body + [last])[|head| + |body|] == last
    ensures (head + body + [last])[|head|..|head| + |body|] == body
  {
  }

  /** The session blocks in input order; the block at index `k` is numbered `|sessions| - k`. */
  function SessionBlocks(sessions: seq<Session>): (r: seq<seq<string>>)
    ensures |r| == |sessions|
    ensures forall k :: 0 <= k < |r| ==> r[k] == SessionLines(|sessions| - k, sessions[k])
  {
    seq(|sessions|, k requires 0 <= k < |sessions| => SessionLines(|sessions| - k, sessions[k]))
  }

  /** The blocks one after another. */
  function Flatten(blocks: seq<seq<string>>): seq<string>
    decreases |blocks|
  {
    if blocks == [] then [] else blocks[0] + Flatten(blocks[1..])
  }

  /**
   * The `sessions.forEach` loop that builds `sessionsText`: each session's
   * block appended in turn.
   */
  method BuildSessionsText(sessions: seq<Session>) returns (text: string)
    ensures text == Lines(Flatten(SessionBlocks(sessions)))
  {
    var blocks := SessionBlocks(sessions);
    text := "";
    var index := 0;
    while index < |sessions|
      invariant 0 <= index <= |sessions|
      invariant text == Lines(Flatten(blocks[..index]))
    {
      FlattenSnoc(blocks[..index], blocks[index]);
      LinesAppend(Flatten(blocks[..index]), blocks[index]);
      TakeNext(blocks, index);
      text := text + Lines(SessionLines(|sessions| - index, sessions[index]));
      index := index + 1;
    }
    assert blocks[..index] == blocks;
  }

  // ---------------------------------------------------------------------
  // Dragon status and TLDR

  /** The `Dragon Status` lines: hatched (name and level), incubating (sessions left), or no egg. */
  function DragonLines(u: UserDoc): (r: seq<string>)
    ensures u.eggStatus == Some("hatched") ==> r == ["- Status: Hatched",
      "- Name: " + OrStr(u.dragonName, "Unnamed"), "- Level: " + IntToString(OrInt(u.dragonLevel, 1))]
    ensures u.eggStatus == Some("incubating") ==> r == ["- Status: Incubating",
      "- Sessions Remaining: " + IntToString(OrInt(u.eggSessionsRemaining, 10))]
    ensures u.eggStatus != Some("hatched") && u.eggStatus != Some("incubating") ==>
      r == ["- Status: None yet", "- Requirement: 1,000 CARE to purchase Ember Egg"]
  {
    if u.eggStatus == Some("hatched") then
      ["- Status: Hatched",
       "- Name: " + OrStr(u.dragonName, "Unnamed"),
       "- Level: " + IntToString(OrInt(u.dragonLevel, 1))]
    else if u.eggStatus == Some("incubating") then
      ["- Status: Incubating",
       "- Sessions Remaining: " + IntToString(OrInt(u.eggSessionsRemaining, 10))]
    else
      ["- Status: None yet",
       "- Requirement: 1,000 CARE to purchase Ember Egg"]
  }

  /** `${n} session${n !== 1 ? 's' : ''}`: the singular for exactly one session. */
  function SessionCount(n: nat): (r: string)
    ensures r == NatToString(n) + " session" || r == NatToString(n) + " sessions"
    ensures r[|r| - 1] == 's' <==> n != 1
  {
    NatToString(n) + " session" + (if n != 1 then "s" else "")
  }

  /** The date of the newest session, shown only when there is one; `recently` when it has no date. */
  function LastPlayed(sessions: seq<Session>): (r: Option<string>)
    ensures r.Some? <==> sessions != []
    ensures r.Some? ==> r.value == "- Last played: " + DateOr(sessions[0].sessionDate, "recently")
  {
    if sessions != [] then Some("- Last played: " + DateOr(sessions[0].sessionDate, "recently")) else None
  }

  /** The dragon line of the TLDR, absent when there is neither egg nor dragon. */
  function DragonSummary(u: UserDoc): (r: Option<string>)
    ensures r.Some? <==> u.eggStatus == Some("hatched") || u.eggStatus == Some("incubating")
    ensures u.eggStatus == Some("hatched") ==>
      r == Some("- Dragon companion: " + OrStr(u.dragonName, "Unnamed") + " (Level " + IntToString(OrInt(u.dragonLevel, 1)) + ")")
    ensures u.eggStatus == Some("incubating") ==>
      r == Some("- Dragon egg incubating (" + IntToString(OrInt(u.eggSessionsRemaining, 10)) + " sessions until hatch)")
  {
    if u.eggStatus == Some("hatched") then
      Some("- Dragon companion: " + OrStr(u.dragonName, "Unnamed") + " (Level " + IntToString(OrInt(u.dragonLevel, 1)) + ")")
    else if u.eggStatus == Some("incubating") then
      Some("- Dragon egg incubating (" + IntToString(OrInt(u.eggSessionsRemaining, 10)) + " sessions until hatch)")
    else None
  }

  /** The lines of `generateTLDR`. */
  function TldrLines(c: Campaign, sessions: seq<Session>, u: UserDoc): (r: seq<string>)
    ensures |r| == 3 + |OptionalLine(LastPlayed(sessions))| + |OptionalLine(DragonSummary(u))|
    ensures r[0] == "- " + Render(c.name) + " (" + Render(c.system) + " campaign)"
    ensures r[1] == "- " + SessionCount(|sessions|) + " logged, " + IntToString(OrInt(c.careEarned, 0)) + " CARE earned"
    ensures sessions != [] ==> r[2] == LastPlayed(sessions).value
    ensures DragonSummary(u).Some? ==> r[|r| - 2] == DragonSummary(u).value
    ensures r[|r| - 1] == "- Ready to continue adventure!"
  {
    ["- " + Render(c.name) + " (" + Render(c.system) + " campaign)",
     "- " + SessionCount(|sessions|) + " logged, " + IntToString(OrInt(c.careEarned, 0)) + " CARE earned"]
    + OptionalLine(LastPlayed(sessions))
    + OptionalLine(DragonSummary(u))
    + ["- Ready to continue adventure!"]
  }

  /**
   * `generateTLDR`: the text its appends build, the last-played line only
   * when there is a session and the dragon line only when there is one.
   */
  function GenerateTldr(c: Campaign, sessions: seq<Session>, u: UserDoc): (r: string)
    ensures r ==
      ("- " + Render(c.name) + " (" + Render(c.system) + " campaign)" + "\n")
      + ("- " + SessionCount(|sessions|) + " logged, " + IntToString(OrInt(c.careEarned, 0)) + " CARE earned" + "\n")
      + (if sessions != [] then LastPlayed(sessions).value + "\n" else "")
      + (if DragonSummary(u).Some? then DragonSummary(u).value + "\n" else "")
      + ("- Ready to continue adventure!" + "\n")
  {
    var first := ["- " + Render(c.name) + " (" + Render(c.system) + " campaign)",
                  "- " + SessionCount(|sessions|) + " logged, " + IntToString(OrInt(c.careEarned, 0)) + " CARE earned"];
    var played, dragon := OptionalLine(LastPlayed(sessions)), OptionalLine(DragonSummary(u));
    var last := ["- Ready to continue adventure!"];
    LinesAppend(first + played + dragon, last);
    LinesAppend(first + played, dragon);
    LinesAppend(first, played);
    LinesTwo(first[0], first[1]);
    LinesOne(last[0]);
    LinesOptional(LastPlayed(sessions));
    LinesOptional(DragonSummary(u));
    Lines(TldrLines(c, sessions, u))
  }

  // ---------------------------------------------------------------------
  // The whole block

  /** The first line: `SAVE_CODE: name | date | v1.0`. */
  function HeaderLine(name: Option<string>, today: string): string {
    "SAVE_CODE: " + Render(name) + " | " + today + " | v1.0"
  }

  /** The lines before `- System:`: the header, a rule of `=`, and the start of `Campaign Info`. */
  function PreambleLines(name: Option<string>, today: string): (r: seq<string>)
    ensures |r| == 5
    ensures r[0] == HeaderLine(name, today) && r[1] == Rule('=')
    ensures r[2] == "" && r[3] == "Campaign Info:"
    ensures r[4] == "- Name: " + Render(name)
  {
    [HeaderLine(name, today), Rule('='), "", "Campaign Info:", "- Name: " + Render(name)]
  }

  /** The `Campaign Info` lines after `- Name:`; `- Description:` only when there is a description. */
  function InfoLines(c: Campaign): (r: seq<string>)
    ensures |r| == 5 + (if Truthy(c.description) then 1 else 0)
    ensures r[0] == "- System: " + Render(c.system)
    ensures Truthy(c.description) ==> r[1] == "- Description: " + c.description.value
    ensures r[|r| - 4] == CARE_LABEL + IntToString(OrInt(c.careEarned, 0))
    ensures r[|r| - 3] == "- Created: " + DateOr(c.createdAt, "Unknown")
    ensures r[|r| - 2] == "- Last Session: " + DateOr(c.lastSession, "No sessions yet")
    ensures r[|r| - 1] == ""
  {
    ["- System: " + Render(c.system)]
    + (if Truthy(c.description) then ["- Description: " + c.description.value] else [])
    + [CARE_LABEL + IntToString(OrInt(c.careEarned, 0)),
       "- Created: " + DateOr(c.createdAt, "Unknown"),
       "- Last Session: " + DateOr(c.lastSession, "No sessions yet"),
       ""]
  }

  const CARE_LABEL := "- Total CARE Earned: "

  const CONTEXT_NOTES: seq<string> := [
    "Context Notes:",
    "- Campaign is actively tracked in Nexus Hub",
    "- CARE economy integration enabled",
    "- All session history preserved above",
    ""]

  const RESTORATION: seq<string> := [
    "RESTORATION PROTOCOL:",
    "1. Paste entire SAVE_CODE block into AI",
    "2. Say \"Resume this campaign\" or \"Activate Nexus from this code\"",
    "3. AI loads campaign context and continues from last session",
    "",
    "Cross-platform compatible: Claude, GPT, Gemini, Grok, etc."]

  const DRAGON_TITLE := "Dragon Status:"
  const TLDR_TITLE := "TLDR:"

  /** The restoration footer between two `=` rules. */
  const FOOTER: seq<string> := [Rule('=')] + RESTORATION + [Rule('=')]

  /** The lines after `Campaign Info`: sessions, dragon status, notes, TLDR and the restoration footer. */
  function BodyLines(c: Campaign, sessions: seq<Session>, u: UserDoc): (r: seq<string>)
    ensures |r| > 0 && r[|r| - 1] == Rule('=')
  {
    var prefix := (["Sessions: " + NatToString(|sessions|), Rule('-')] + Flatten(SessionBlocks(sessions)))
      + ([DRAGON_TITLE] + DragonLines(u) + [""])
      + CONTEXT_NOTES
      + ([TLDR_TITLE] + TldrLines(c, sessions, u) + [""]);
    FooterEndsWithRule();
    LastOfAppend(prefix, FOOTER);
    prefix + FOOTER
  }

  lemma FooterEndsWithRule()
    ensures |FOOTER| > 0 && FOOTER[|FOOTER| - 1] == Rule('=')
  {
  }

  lemma LastOfAppend<T>(a: seq<T>, b: seq<T>)
    requires b != []
    ensures (a + b)[|a + b| - 1] == b[|b| - 1]
  {
  }

  /** `Sessions: n`, the `-` rule and `sessionsText`. */
  function SessionsSection(sessions: seq<Session>): string {
    ("Sessions: " + NatToString(|sessions|) + "\n") + (Rule('-') + "\n") + Lines(Flatten(SessionBlocks(sessions)))
  }

  /** `Dragon Status:`, `dragonText` and an empty line. */
  function DragonSection(u: UserDoc): string {
    (DRAGON_TITLE + "\n") + Lines(DragonLines(u)) + "\n"
  }

  /** `TLDR:`, the text of `generateTLDR` and an empty line. */
  function TldrSection(c: Campaign, sessions: seq<Session>, u: UserDoc): string {
    (TLDR_TITLE + "\n") + GenerateTldr(c, sessions, u) + "\n"
  }

  /**
   * The text of the lines after `Campaign Info` is the sessions section,
   * the dragon section, the context notes, the TLDR section and the
   * restoration footer, appended in that order.
   */
  lemma BodyLinesText(c: Campaign, sessions: seq<Session>, u: UserDoc)
    ensures Lines(BodyLines(c, sessions, u)) ==
      SessionsSection(sessions) + DragonSection(u) + Lines(CONTEXT_NOTES) + TldrSection(c, sessions, u) + Lines(FOOTER)
  {
    LinesOfSections("Sessions: " + NatToString(|sessions|), Rule('-'), Flatten(SessionBlocks(sessions)),
      DRAGON_TITLE, DragonLines(u), CONTEXT_NOTES, TLDR_TITLE, TldrLines(c, sessions, u), FOOTER);
  }

  /** Every line of the SAVE_CODE block, in order. */
  function SaveCodeLines(c: Campaign, sessions: seq<Session>, u: UserDoc, today: string): (r: seq<string>)
    ensures |r| > 6 && r[..5] == PreambleLines(c.name, today)
    ensures r[5] == "- System: " + Render(c.system)
  {
    var a, b, d := PreambleLines(c.name, today), InfoLines(c), BodyLines(c, sessions, u);
    ThreeParts(a, b, d, 5, b[0]);
    a + b + d
  }

  /** The block's last line is the closing `=` rule. */
  lemma SaveCodeEndsWithRule(c: Campaign, sessions: seq<Session>, u: UserDoc, today: string)
    ensures var r := SaveCodeLines(c, sessions, u, today); r[|r| - 1] == Rule('=')
  {
    var a, b, d := PreambleLines(c.name, today), InfoLines(c), BodyLines(c, sessions, u);
    LastOfAppend(a + b, d);
  }

  /**
   * `formatCampaignSaveCode`, with today's date supplied by the caller: the
   * text of the preamble and info lines, then the sections of the body in
   * the order the function appends them.
   */
  function FormatCampaignSaveCode(c: Campaign, sessions: seq<Session>, u: UserDoc, today: string): (r: string)
    ensures r == Lines(PreambleLines(c.name, today)) + Lines(InfoLines(c))
      + (SessionsSection(sessions) + DragonSection(u) + Lines(CONTEXT_NOTES) + TldrSection(c, sessions, u) + Lines(FOOTER))
  {
    var a, b, d := PreambleLines(c.name, today), InfoLines(c), BodyLines(c, sessions, u);
    LinesAppend(a + b, d);
    LinesAppend(a, b);
    BodyLinesText(c, sessions, u);
    Lines(SaveCodeLines(c, sessions, u, today))
  }

  // ---------------------------------------------------------------------
  // Properties

  lemma {:induction false} LinesAppend(a: seq<string>, b: seq<string>)
    ensures Lines(a + b) == Lines(a) + Lines(b)
    decreases |a|
  {
    if a == [] {
      assert a + b == b;
    } else {
      assert (a + b)[0] == a[0];
      assert (a + b)[1..] == a[1..] + b;
      LinesAppend(a[1..], b);
    }
  }

  lemma LinesOne(x: string)
    ensures Lines([x]) == x + "\n"
  {
    assert [x][1..] == [];
  }

  lemma LinesTwo(x: string, y: string)
    ensures Lines([x, y]) == x + "\n" + (y + "\n")
  {
    assert [x, y][1..] == [y];
    LinesOne(y);
  }

  lemma LinesOptional(line: Option<string>)
    ensures Lines(OptionalLine(line)) == if line.Some? then line.value + "\n" else ""
  {
    if line.Some? {
      LinesOne(line.value);
    }
  }

  /** The text of five groups of lines, each line followed by its newline. */
  lemma LinesOfSections(h0: string, h1: string, blocks: seq<string>, title: string, dragon: seq<string>,
                        notes: seq<string>, heading: string, tldr: seq<string>, footer: seq<string>)
    ensures Lines(([h0, h1] + blocks) + ([title] + dragon + [""]) + notes + ([heading] + tldr + [""]) + footer) ==
      ((h0 + "\n") + (h1 + "\n") + Lines(blocks)) + ((title + "\n") + Lines(dragon) + "\n")
      + Lines(notes) + ((heading + "\n") + Lines(tldr) + "\n") + Lines(footer)
  {
    var first, second, fourth := [h0, h1] + blocks, [title] + dragon + [""], [heading] + tldr + [""];
    LinesAppend(first + second + notes + fourth, footer);
    LinesAppend(first + second + notes, fourth);
    LinesAppend(first + second, notes);
    LinesAppend(first, second);
    LinesAppend([h0, h1], blocks);
    LinesTwo(h0, h1);
    LinesFramed(title, dragon);
    LinesFramed(heading, tldr);
  }

  /** A title line, some lines and an empty line. */
  lemma LinesFramed(title: string, body: seq<string>)
    ensures Lines([title] + body + [""]) == (title + "\n") + Lines(body) + "\n"
  {
    LinesAppend([title] + body, [""]);
    LinesAppend([title], body);
    LinesOne(title);
    LinesOne("");
    assert "" + "\n" == "\n";
  }

  lemma ThreeParts<T>(a: seq<T>, b: seq<T>, d: seq<T>, n: nat, first: T)
    requires |a| == n && b != [] && b[0] == first
    ensures |a + b + d| == n + |b| + |d|
    ensures (a + b + d)[..n] == a
    ensures (a + b + d)[n] == first
  {
  }

  /** The block starts with the header line. */
  lemma FormatSplitsAtHeader(c: Campaign, sessions: seq<Session>, u: UserDoc, today: string)
    ensures FormatCampaignSaveCode(c, sessions, u, today) ==
      HeaderLine(c.name, today) + "\n" + Lines(SaveCodeLines(c, sessions, u, today)[1..])
  {
    LinesSplit(SaveCodeLines(c, sessions, u, today), 0);
  }

  /** After its first five lines the block continues with the `- System:` line. */
  lemma FormatSplitsAtSystem(c: Campaign, sessions: seq<Session>, u: UserDoc, today: string)
    ensures FormatCampaignSaveCode(c, sessions, u, today) ==
      Lines(PreambleLines(c.name, today)) + ("- System: " + Render(c.system)) + "\n" + Lines(SaveCodeLines(c, sessions, u, today)[6..])
  {
    LinesSplit(SaveCodeLines(c, sessions, u, today), 5);
  }

  /** The session blocks follow the `Sessions:` heading and its rule, and the dragon status follows them. */
  lemma SessionsInSaveCode(c: Campaign, sessions: seq<Session>, u: UserDoc, today: string)
    ensures exists p, q :: FormatCampaignSaveCode(c, sessions, u, today) == p + (SessionsSection(sessions) + DragonSection(u)) + q
  {
    var p := Lines(PreambleLines(c.name, today)) + Lines(InfoLines(c));
    var q := Lines(CONTEXT_NOTES) + TldrSection(c, sessions, u) + Lines(FOOTER);
    SplitAfterTwo(p, SessionsSection(sessions), DragonSection(u), Lines(CONTEXT_NOTES), TldrSection(c, sessions, u), Lines(FOOTER));
    Around(FormatCampaignSaveCode(c, sessions, u, today), p, SessionsSection(sessions) + DragonSection(u), q);
  }

  /** The block ends with the TLDR section, holding the text of `generateTLDR`, and the restoration footer. */
  lemma TldrInSaveCode(c: Campaign, sessions: seq<Session>, u: UserDoc, today: string)
    ensures exists p :: FormatCampaignSaveCode(c, sessions, u, today) == p + (TldrSection(c, sessions, u) + Lines(FOOTER))
  {
    var p := Lines(PreambleLines(c.name, today)) + Lines(InfoLines(c));
    SplitBeforeLastTwo(p, SessionsSection(sessions), DragonSection(u), Lines(CONTEXT_NOTES), TldrSection(c, sessions, u), Lines(FOOTER));
    Before(FormatCampaignSaveCode(c, sessions, u, today), p + (SessionsSection(sessions) + DragonSection(u) + Lines(CONTEXT_NOTES)),
      TldrSection(c, sessions, u) + Lines(FOOTER));
  }

  /** `s` has `x` somewhere inside it. */
  lemma Around<T>(s: seq<T>, p: seq<T>, x: seq<T>, q: seq<T>)
    requires s == p + x + q
    ensures exists p', q' :: s == p' + x + q'
  {
  }

  /** `s` ends with `x`. */
  lemma Before<T>(s: seq<T>, p: seq<T>, x: seq<T>)
    requires s == p + x
    ensures exists p' :: s == p' + x
  {
  }

  lemma SplitAfterTwo<T>(p: seq<T>, a: seq<T>, b: seq<T>, d: seq<T>, e: seq<T>, f: seq<T>)
    ensures p + (a + b + d + e + f) == p + (a + b) + (d + e + f)
  {
  }

  lemma SplitBeforeLastTwo<T>(p: seq<T>, a: seq<T>, b: seq<T>, d: seq<T>, e: seq<T>, f: seq<T>)
    ensures p + (a + b + d + e + f) == (p + (a + b + d)) + (e + f)
  {
  }

  /** The block holds the `Total CARE Earned` line on a line of its own. */
  lemma CareInSaveCode(c: Campaign, sessions: seq<Session>, u: UserDoc, today: string)
    ensures exists p, q ::
      FormatCampaignSaveCode(c, sessions, u, today) == p + (CARE_LABEL + IntToString(OrInt(c.careEarned, 0)) + "\n") + q
  {
    var a, b, d := PreambleLines(c.name, today), InfoLines(c), BodyLines(c, sessions, u);
    assert SaveCodeLines(c, sessions, u, today) == a + b + d;
    LineFromEnd(a, b, d, 4, b[|b| - 4]);
  }

  /** Line `|b| - n` of the middle part is a line of its own in the text of `a + b + d`. */
  lemma LineFromEnd(a: seq<string>, b: seq<string>, d: seq<string>, n: nat, line: string)
    requires 0 < n <= |b| && b[|b| - n] == line
    ensures exists p, q :: Lines(a + b + d) == p + (line + "\n") + q
  {
    var lines, k := a + b + d, |a| + |b| - n;
    MiddleAt(a, b, d, |b| - n);
    LinesSplit(lines, k);
    Regroup(Lines(lines), Lines(lines[..k]), lines[k], "\n", Lines(lines[k + 1..]));
    Around(Lines(lines), Lines(lines[..k]), lines[k] + "\n", Lines(lines[k + 1..]));
  }

  /** A missing or zero `careEarned` shows as 0. */
  lemma MissingCareShowsZero(c: Campaign, sessions: seq<Session>, u: UserDoc, today: string)
    requires c.careEarned.None? || c.careEarned == Some(0)
    ensures exists p, q :: FormatCampaignSaveCode(c, sessions, u, today) == p + (CARE_LABEL + "0" + "\n") + q
  {
    CareInSaveCode(c, sessions, u, today);
    var p, q :| FormatCampaignSaveCode(c, sessions, u, today) ==
      p + (CARE_LABEL + IntToString(OrInt(c.careEarned, 0)) + "\n") + q;
    assert OrInt(c.careEarned, 0) == 0;
    ZeroText();
    Around(FormatCampaignSaveCode(c, sessions, u, today), p, CARE_LABEL + "0" + "\n", q);
  }

  lemma Regroup<T>(s: seq<T>, p: seq<T>, a: seq<T>, n: seq<T>, q: seq<T>)
    requires s == p + a + n + q
    ensures s == p + (a + n) + q
  {
  }

  lemma MiddleAt<T>(a: seq<T>, b: seq<T>, d: seq<T>, j: nat)
    requires j < |b|
    ensures (a + b + d)[|a| + j] == b[j]
  {
  }

  /** The lines before line `k`, line `k` and its newline, then the lines after it. */
  lemma LinesSplit(lines: seq<string>, k: nat)
    requires k < |lines|
    ensures Lines(lines) == Lines(lines[..k]) + lines[k] + "\n" + Lines(lines[k + 1..])
  {
    var rest := lines[k..];
    SplitAt(lines, k);
    LinesAppend(lines[..k], rest);
    assert rest[1..] == lines[k + 1..];
    assert Lines(rest) == rest[0] + "\n" + Lines(rest[1..]);
    ConcatAssoc(Lines(lines[..k]), rest[0] + "\n", Lines(rest[1..]));
    ConcatAssoc(Lines(lines[..k]), rest[0], "\n");
  }

  lemma ConcatAssoc<T>(a: seq<T>, b: seq<T>, d: seq<T>)
    ensures a + b + d == a + (b + d)
  {
  }

  lemma SplitAt<T>(s: seq<T>, i: nat)
    requires i <= |s|
    ensures s == s[..i] + s[i..]
  {
  }

  lemma TakeNext<T>(s: seq<T>, i: nat)
    requires i < |s|
    ensures s[..i + 1] == s[..i] + [s[i]]
  {
  }

  lemma {:induction false} FlattenSnoc(blocks: seq<seq<string>>, last: seq<string>)
    ensures Flatten(blocks + [last]) == Flatten(blocks) + last
    decreases |blocks|
  {
    if blocks == [] {
      assert [] + [last] == [last];
      assert Flatten([last]) == last + Flatten([]);
    } else {
      assert (blocks + [last])[0] == blocks[0];
      assert (blocks + [last])[1..] == blocks[1..] + [last];
      FlattenSnoc(blocks[1..], last);
    }
  }

  /** The first session listed gets the highest number, the last one number 1. */
  lemma SessionNumbering(sessions: seq<Session>)
    requires sessions != []
    ensures SessionBlocks(sessions)[0][1] == "[Session " + NatToString(|sessions|) + "]"
    ensures SessionBlocks(sessions)[|sessions| - 1][1] == "[Session 1]"
  {
    var blocks := SessionBlocks(sessions);
    assert blocks[0] == SessionLines(|sessions|, sessions[0]);
    assert blocks[|sessions| - 1] == SessionLines(1, sessions[|sessions| - 1]);
    SessionOneLabel();
  }

  lemma ZeroText()
    ensures IntToString(0) == "0"
  {
  }

  lemma SessionOneLabel()
    ensures "[Session " + IntToString(1) + "]" == "[Session 1]"
  {
    assert IntToString(1) == "1";
  }

  /** Taking the four-space indent off every recap line and joining them with newlines gives the recap back. */
  lemma RecapRecoverable(recap: string)
    requires recap != []
    ensures var r := RecapLines(Some(recap));
      Join(seq(|r| - 1, k requires 0 <= k < |r| - 1 => r[1 + k][4..]), "\n") == recap
  {
    var r := RecapLines(Some(recap));
    var parts := SplitLines(recap);
    var body := seq(|r| - 1, k requires 0 <= k < |r| - 1 => r[1 + k][4..]);
    assert forall k :: 0 <= k < |parts| ==> body[k] == ("    " + parts[k])[4..] == parts[k];
    assert body == parts;
    JoinSplitLines(recap);
  }
}
