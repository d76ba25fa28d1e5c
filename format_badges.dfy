/** `src/formatBadges.js`: the two leaderboard renderers. Both are plain string
    concatenation: no field is escaped, so the output is well-formed Markdown or SVG only
    when the fields happen to make it so. */
module FormatBadges {
  import opened Text
  import opened Records
  import opened GitHubApi
  import opened Fetch

  // ===== Markdown =====

  /** The bytes of an em dash read as Windows-1252 (U+00E2 U+20AC U+201D): the separator
      stands in the source in this mis-encoded form and is emitted as it stands. */
  const Separator: string := "\U{00E2}\U{20AC}\U{201D}"

  /** `` `${b.label}` ``. */
  function BadgeTag(b: Badge): string {
    "`" + b.text + "`"
  }

  function BadgeTexts(badges: seq<Badge>): (texts: seq<string>)
    ensures |texts| == |badges|
  {
    seq(|badges|, i requires 0 <= i < |badges| => badges[i].text)
  }

  function BadgeTags(badges: seq<Badge>): (tags: seq<string>)
    ensures |tags| == |badges|
  {
    seq(|badges|, i requires 0 <= i < |badges| => BadgeTag(badges[i]))
  }

  /** `c.badges.map(b => ...).join(" ")`: empty exactly when there are no badges, and
      otherwise opening with the first tag and closing with the last. */
  function BadgeSuffix(badges: seq<Badge>): (s: string)
    ensures badges == [] <==> s == ""
    ensures |badges| >= 1 ==>
      StartsWith(s, BadgeTag(badges[0])) && EndsWith(s, BadgeTag(badges[|badges| - 1]))
  {
    JoinBounds(BadgeTags(badges), " ");
    Join(BadgeTags(badges), " ")
  }

  /** `[![L avatar](A?s=40)](https://github.com/L)`: the 40-pixel avatar, linking to the
      profile. */
  function AvatarLink(e: Entry): string {
    "[![" + e.login + " avatar](" + e.avatarUrl + "?s=40)](" + GitHubProfile + e.login + ")"
  }

  /** `[@L](https://github.com/L)`. */
  function ProfileLink(e: Entry): string {
    "[@" + e.login + "](" + GitHubProfile + e.login + ")"
  }

  /** `C commits `, the space before the badges included. */
  function CommitCount(e: Entry): string {
    IntToString(e.commits) + " commits "
  }

  /** Everything of a bullet before its badges. */
  function MarkdownHead(e: Entry): string {
    "- " + AvatarLink(e) + (" " + ProfileLink(e) + " " + Separator + " ") + CommitCount(e)
  }

  /** The bullet of one contributor, piece by piece: `- ` and the avatar thumbnail
      linking to the profile; then the login linking to the profile and the separator,
      as written, between spaces; then the commit count and the badge tags. The three
      pieces make up the whole line. */
  function MarkdownLine(e: Entry): (line: string)
    ensures StartsWith(line, "- " + AvatarLink(e))
    ensures StandsAt(line, |"- " + AvatarLink(e)|, " " + ProfileLink(e) + " " + Separator + " ")
    ensures EndsWith(line, CommitCount(e) + BadgeSuffix(e.badges))
    ensures |line| == |"- " + AvatarLink(e)| + |" " + ProfileLink(e) + " " + Separator + " "|
      + |CommitCount(e) + BadgeSuffix(e.badges)|
  {
    LineParts(MarkdownHead(e) + BadgeSuffix(e.badges), "- " + AvatarLink(e),
      " " + ProfileLink(e) + " " + Separator + " ", CommitCount(e), BadgeSuffix(e.badges));
    MarkdownHead(e) + BadgeSuffix(e.badges)
  }

  /** Where the pieces of `lead + middle + count + badges` stand. */
  lemma LineParts(line: string, lead: string, middle: string, cc: string, bs: string)
    requires line == lead + middle + cc + bs
    ensures StartsWith(line, lead) && StandsAt(line, |lead|, middle)
    ensures EndsWith(line, cc + bs) && |line| == |lead| + |middle| + |cc + bs|
  {
    assert line == lead + middle + (cc + bs);
    Ends3(lead, middle, cc + bs);
    StandsBetween(lead, middle, cc);
    StandsLeft(lead + middle + cc, |lead|, middle, bs);
  }

  function MarkdownLines(entries: seq<Entry>): (lines: seq<string>)
    ensures |lines| == |entries|
    ensures forall i :: 0 <= i < |entries| ==> lines[i] == MarkdownLine(entries[i])
  {
    seq(|entries|, i requires 0 <= i < |entries| => MarkdownLine(entries[i]))
  }

  /** `formatMarkdown(contributors)`: empty exactly when there are no contributors;
      otherwise it opens with the first contributor's bullet and closes with the last's. */
  function FormatMarkdown(entries: seq<Entry>): (md: string)
    ensures entries == [] <==> md == ""
    ensures |entries| >= 1 ==>
      StartsWith(md, MarkdownLine(entries[0])) && EndsWith(md, MarkdownLine(entries[|entries| - 1]))
  {
    JoinBounds(MarkdownLines(entries), "\n");
    LinesEnds(entries);
    Join(MarkdownLines(entries), "\n")
  }

  lemma LinesEnds(entries: seq<Entry>)
    ensures |entries| >= 1 ==>
      MarkdownLines(entries)[0] == MarkdownLine(entries[0]) &&
      MarkdownLines(entries)[|entries| - 1] == MarkdownLine(entries[|entries| - 1])
  {
  }

  /** No interpolated field of the entry holds the character `c`. */
  predicate FieldsLack(e: Entry, c: char) {
    c !in e.login && c !in e.avatarUrl && forall k :: 0 <= k < |e.badges| ==> c !in e.badges[k].text
  }

  /** Neither link of a bullet holds a line break, a backtick or the separator's last
      character of its own. */
  lemma LinksLack(e: Entry, c: char)
    requires c == '\n' || c == '`' || c == '\U{201D}'
    requires c !in e.login && c !in e.avatarUrl
    ensures c !in AvatarLink(e) && c !in ProfileLink(e)
  {
    assert c !in GitHubProfile;
    assert c !in "[![" && c !in " avatar](" && c !in "?s=40)](" && c !in ")";
    assert c !in "[@" && c !in "](";
  }

  /** The fixed text of a bullet head holds no line break and no backtick. */
  lemma HeadLacks(e: Entry, c: char)
    requires c == '\n' || c == '`'
    requires FieldsLack(e, c)
    ensures c !in MarkdownHead(e)
  {
    LinksLack(e, c);
    assert c !in Separator;
    NumeralFree(e.commits, c);
  }

  /** A bullet is one line when its fields are. */
  lemma LineSingle(e: Entry)
    requires FieldsLack(e, '\n')
    ensures '\n' !in MarkdownLine(e)
  {
    HeadLacks(e, '\n');
    var tags := BadgeTags(e.badges);
    forall k | 0 <= k < |tags| ensures '\n' !in tags[k] {
      assert tags[k] == "`" + e.badges[k].text + "`";
    }
    JoinLacks(tags, " ", '\n');
  }

  /** One line per contributor, in input order: the empty list renders as the empty
      string, and otherwise, when no field holds a line break, the output holds exactly
      `n - 1` line breaks and splitting it at them gives back each bullet in turn. */
  lemma MarkdownOneLinePerEntry(entries: seq<Entry>)
    ensures entries == [] ==> FormatMarkdown(entries) == ""
    ensures entries != [] && (forall i :: 0 <= i < |entries| ==> FieldsLack(entries[i], '\n')) ==>
      Split(FormatMarkdown(entries), '\n') == MarkdownLines(entries) &&
      multiset(FormatMarkdown(entries))['\n'] == |entries| - 1
  {
    if entries != [] && forall i :: 0 <= i < |entries| ==> FieldsLack(entries[i], '\n') {
      var lines := MarkdownLines(entries);
      forall k | 0 <= k < |lines| ensures '\n' !in lines[k] {
        LineSingle(entries[k]);
      }
      SplitJoin(lines, '\n');
      SeparatorCount(lines, '\n');
    }
  }

  /** The text after the first tag of a badge suffix. */
  function SuffixRest(badges: seq<Badge>): string
    requires |badges| >= 1
  {
    if |badges| == 1 then "" else " " + BadgeSuffix(badges[1..])
  }

  /** A non-empty badge suffix is its first tag followed by the rest. */
  lemma SuffixFirstTag(badges: seq<Badge>)
    requires |badges| >= 1
    ensures BadgeSuffix(badges) == BadgeTag(badges[0]) + SuffixRest(badges)
  {
    var tags := BadgeTags(badges);
    if |badges| == 1 {
      assert BadgeSuffix(badges) == tags[0];
      assert tags[0] + "" == tags[0];
    } else {
      assert tags[1..] == BadgeTags(badges[1..]);
      assert tags[0] + " " + Join(tags[1..], " ") == tags[0] + (" " + Join(tags[1..], " "));
    }
  }

  /** The badge suffix after `p`, split at backticks, starts with `p` and the first
      label; what follows is the split of the text after the first tag. */
  lemma SuffixPeel(p: string, badges: seq<Badge>)
    requires |badges| >= 1 && '`' !in p && '`' !in badges[0].text
    ensures Split(p + BadgeSuffix(badges), '`') == [p, badges[0].text] + Split(SuffixRest(badges), '`')
  {
    SuffixFirstTag(badges);
    DelimitedSplit(p + BadgeSuffix(badges), p, badges[0].text, SuffixRest(badges), '`');
  }

  /** Splitting `p` followed by the badge suffix at backticks puts the badge labels, in
      order, at the odd positions. */
  lemma {:induction false} SuffixLabels(p: string, badges: seq<Badge>)
    requires '`' !in p
    requires forall k :: 0 <= k < |badges| ==> '`' !in badges[k].text
    ensures Odds(Split(p + BadgeSuffix(badges), '`')) == BadgeTexts(badges)
    decreases |badges|
  {
    if |badges| <= 1 {
      LabelsShort(p, badges);
    } else {
      SuffixPeel(p, badges);
      BadgeTextsCons(badges);
      SuffixLabels(" ", badges[1..]);
      OddsStep(Split(p + BadgeSuffix(badges), '`'), p, badges[0].text,
        Split(SuffixRest(badges), '`'), BadgeTexts(badges), BadgeTexts(badges[1..]));
    }
  }

  lemma LabelsShort(p: string, badges: seq<Badge>)
    requires '`' !in p && |badges| <= 1
    requires forall k :: 0 <= k < |badges| ==> '`' !in badges[k].text
    ensures Odds(Split(p + BadgeSuffix(badges), '`')) == BadgeTexts(badges)
  {
    if |badges| == 0 {
      NoLabels(p, badges);
    } else {
      SuffixPeel(p, badges);
      RestOfOne(badges);
      OddsStep(Split(p + BadgeSuffix(badges), '`'), p, badges[0].text, [""],
        BadgeTexts(badges), []);
    }
  }

  lemma NoLabels(p: string, badges: seq<Badge>)
    requires '`' !in p && badges == []
    ensures Odds(Split(p + BadgeSuffix(badges), '`')) == BadgeTexts(badges)
  {
    assert p + BadgeSuffix(badges) == p;
    assert Split(p, '`') == [p];
  }

  /** A single badge: nothing follows its tag, and its label is the only one. */
  lemma RestOfOne(badges: seq<Badge>)
    requires |badges| == 1
    ensures Split(SuffixRest(badges), '`') == [""]
    ensures BadgeTexts(badges) == [badges[0].text] + []
  {
    assert SuffixRest(badges) == "";
  }

  /** The pieces around `n` labels: `p` first, a single space between two consecutive
      tags, and an empty last piece, `2 n + 1` pieces in all. */
  predicate Spaced(pieces: seq<string>, p: string, n: nat) {
    |pieces| == 2 * n + 1 && pieces[0] == p &&
    (n > 0 ==> pieces[|pieces| - 1] == "") &&
    forall k :: 1 <= k < n ==> pieces[2 * k] == " "
  }

  /** Around the labels, the same split holds `p`, the spaces between the tags and an
      empty last piece. */
  lemma {:induction false} SuffixSpacing(p: string, badges: seq<Badge>)
    requires '`' !in p
    requires forall k :: 0 <= k < |badges| ==> '`' !in badges[k].text
    ensures Spaced(Split(p + BadgeSuffix(badges), '`'), p, |badges|)
    decreases |badges|
  {
    if |badges| <= 1 {
      SpacingShort(p, badges);
    } else {
      SuffixPeel(p, badges);
      SuffixSpacing(" ", badges[1..]);
      SpacingStep(Split(p + BadgeSuffix(badges), '`'), p, badges[0].text,
        Split(SuffixRest(badges), '`'), |badges|);
    }
  }

  lemma SpacingShort(p: string, badges: seq<Badge>)
    requires '`' !in p && |badges| <= 1
    requires forall k :: 0 <= k < |badges| ==> '`' !in badges[k].text
    ensures Spaced(Split(p + BadgeSuffix(badges), '`'), p, |badges|)
  {
    if |badges| == 0 {
      assert p + BadgeSuffix(badges) == p;
    } else {
      SuffixPeel(p, badges);
      var pieces := Split(p + BadgeSuffix(badges), '`');
      assert Split(SuffixRest(badges), '`') == [""];
      SpacedOne(pieces, p, badges[0].text);
    }
  }

  lemma SpacedOne(pieces: seq<string>, p: string, x: string)
    requires pieces == [p, x] + [""]
    ensures Spaced(pieces, p, 1)
  {
  }

  lemma SpacingStep(pieces: seq<string>, p: string, x: string, tail: seq<string>, n: nat)
    requires pieces == [p, x] + tail && n >= 2
    requires Spaced(tail, " ", n - 1)
    ensures Spaced(pieces, p, n)
  {
    forall k | 1 <= k < n ensures pieces[2 * k] == " " {
      assert pieces[2 * k] == tail[2 * (k - 1)];
    }
  }

  lemma BadgeTextsCons(badges: seq<Badge>)
    requires |badges| >= 1
    ensures BadgeTexts(badges) == [badges[0].text] + BadgeTexts(badges[1..])
  {
    var l, r := BadgeTexts(badges), [badges[0].text] + BadgeTexts(badges[1..]);
    assert forall i :: 0 <= i < |l| ==> l[i] == r[i];
  }

  /** The badge labels can be read back from a bullet, in badge order: they are the
      text between the first and second backtick, the third and fourth, and so on, as
      long as no field holds a backtick. With no badges the bullet ends in `commits `. */
  lemma BadgesRecoverable(e: Entry)
    requires FieldsLack(e, '`')
    ensures Odds(Split(MarkdownLine(e), '`')) == BadgeTexts(e.badges)
    ensures e.badges == [] ==> EndsWith(MarkdownLine(e), "commits ")
  {
    HeadLacks(e, '`');
    SuffixLabels(MarkdownHead(e), e.badges);
    if e.badges == [] {
      var line := MarkdownLine(e);
      assert CommitCount(e) + BadgeSuffix(e.badges) == CommitCount(e);
      Ends3("", IntToString(e.commits), " commits ");
      assert EndsWith(" commits ", "commits ");
      EndsWithTrans(CommitCount(e), " commits ", "commits ");
      EndsWithTrans(line, CommitCount(e), "commits ");
    }
  }

  /** The commit count reads back from a bullet as the number right after the separator,
      as long as neither the login nor the avatar URL holds the separator's last
      character. */
  lemma MarkdownCommitsRecoverable(e: Entry)
    requires '\U{201D}' !in e.login && '\U{201D}' !in e.avatarUrl
    ensures NumberAfter(MarkdownLine(e), '\U{201D}') == Some(e.commits)
  {
    var lead, pre := "- " + AvatarLink(e), " " + ProfileLink(e) + " ";
    LinksLack(e, '\U{201D}');
    assert '\U{201D}' !in lead && '\U{201D}' !in pre;
    CountAfterSeparator(MarkdownLine(e), lead, pre, CommitCount(e), BadgeSuffix(e.badges), e.commits);
  }

  /** The number after the separator of a line `lead + pre + separator + " " + count +
      badges`, where neither `lead` nor `pre` holds the separator's last character. */
  lemma CountAfterSeparator(line: string, lead: string, pre: string, cc: string, bs: string, n: int)
    requires line == lead + (pre + Separator + " ") + cc + bs
    requires '\U{201D}' !in lead && '\U{201D}' !in pre
    requires cc == IntToString(n) + " commits "
    ensures NumberAfter(line, '\U{201D}') == Some(n)
  {
    TextAfterSeparator(line, lead, pre, cc, bs);
    Regroup(" ", IntToString(n), " commits ", bs);
    NumberAfterReads(line, '\U{201D}', n, " commits " + bs);
  }

  /** What follows the separator's last character in such a line. */
  lemma TextAfterSeparator(line: string, lead: string, pre: string, cc: string, bs: string)
    requires line == lead + (pre + Separator + " ") + cc + bs
    requires '\U{201D}' !in lead && '\U{201D}' !in pre
    ensures After(line, '\U{201D}') == " " + cc + bs
  {
    var middle := pre + Separator + " ";
    SeparatorLast();
    AfterSkip(pre, Separator, '\U{201D}');
    AfterWithin(pre + Separator, " ", '\U{201D}');
    AfterSkip(lead, middle, '\U{201D}');
    AfterWithin(lead + middle, cc, '\U{201D}');
    AfterWithin(lead + middle + cc, bs, '\U{201D}');
  }

  /** The separator ends in U+201D, which it holds once. */
  lemma SeparatorLast()
    ensures '\U{201D}' in Separator && After(Separator, '\U{201D}') == ""
  {
    assert Separator == "\U{00E2}\U{20AC}" + "\U{201D}";
    AfterSkip("\U{00E2}\U{20AC}", "\U{201D}", '\U{201D}');
    assert Separator[2] == '\U{201D}';
  }

  /** The default badge renders as one backticked tag. */
  lemma DefaultBadgeSuffix(c: Contributor)
    ensures BadgeSuffix(DefaultBadgeGenerator(c)) == "`Top Contributor`"
  {
    var tags := BadgeTags(DefaultBadgeGenerator(c));
    assert tags == [BadgeTag(TopContributor)];
    assert Join(tags, " ") == tags[0];
    assert BadgeTag(TopContributor) == "`" + "Top Contributor" + "`";
  }

  /** A contributor given the default badges is listed as `... commits `Top
      Contributor``. */
  lemma DefaultBadgeLine(c: Contributor)
    ensures EndsWith(MarkdownLine(Entry(c.login, c.avatarUrl, c.commits, DefaultBadgeGenerator(c))),
      "commits `Top Contributor`")
  {
    var e := Entry(c.login, c.avatarUrl, c.commits, DefaultBadgeGenerator(c));
    DefaultBadgeSuffix(c);
    DefaultTail();
    CountTail(MarkdownLine(e), CommitCount(e), c.commits, BadgeSuffix(e.badges), "`Top Contributor`",
      "commits `Top Contributor`");
  }

  lemma DefaultTail()
    ensures "commits `Top Contributor`" == "commits " + "`Top Contributor`"
  {
  }

  /** A line that ends with a commit count and the badge tags `bs`, which read `t`, ends
      with `commits ` and `t`, which is `tail`. */
  lemma CountTail(line: string, cc: string, n: int, bs: string, t: string, tail: string)
    requires EndsWith(line, cc + bs) && cc == IntToString(n) + " commits " && bs == t
    requires tail == "commits " + t
    ensures EndsWith(line, tail)
  {
    assert " commits " == " " + "commits ";
    Regroup(IntToString(n), " ", "commits ", bs);
    Ends2(IntToString(n) + " ", "commits " + bs);
    EndsWithTrans(line, IntToString(n) + " commits " + bs, "commits " + bs);
  }

  // ===== SVG: geometry =====

  const RowHeight: int := 50
  const CanvasWidth: int := 600
  /** Vertical space besides the rows: `height = n * rowHeight + 40`. */
  const CanvasPadding: int := 40
  /** Baseline of the first row: `y = 40 + i * rowHeight`. */
  const FirstBaseline: int := 40

  const AvatarX: int := 10
  const AvatarSize: int := 40
  /** The avatar's top edge sits this far above the baseline. */
  const AvatarRise: int := 20

  const ChipStart: int := 320
  const ChipPitch: int := 100
  const ChipWidth: int := 90
  const ChipHeight: int := 22
  /** The chip's top edge sits this far above the baseline. */
  const ChipRise: int := 15
  const ChipCentre: int := 45

  /** An axis-aligned rectangle: top-left corner, width and height. */
  datatype Box = Box(x: int, y: int, width: int, height: int)

  /** Two rectangles with no interior point in common. */
  predicate Disjoint(a: Box, b: Box) {
    a.x + a.width <= b.x || b.x + b.width <= a.x || a.y + a.height <= b.y || b.y + b.height <= a.y
  }

  /** A badge chip: its rounded rectangle and the anchor of its centred label. */
  datatype Chip = Chip(rect: Box, labelX: int, labelY: int, text: string, color: string)

  /** One contributor's row: the text baseline `y`, the avatar image and the chips. */
  datatype Row = Row(login: string, avatarUrl: string, commits: int, baseline: int, avatar: Box,
                     chips: seq<Chip>)

  datatype Canvas = Canvas(width: int, height: int, rows: seq<Row>)

  /** Badge `idx` of a row whose baseline is `y`: `bx = 320 + idx * 100`. */
  function ChipAt(b: Badge, idx: nat, y: int): Chip {
    var bx := ChipStart + idx * ChipPitch;
    Chip(Box(bx, y - ChipRise, ChipWidth, ChipHeight), bx + ChipCentre, y, b.text, b.color)
  }

  /** Row `i`: `y = 40 + i * rowHeight`. */
  function RowAt(e: Entry, i: nat): Row {
    var y := FirstBaseline + i * RowHeight;
    Row(e.login, e.avatarUrl, e.commits, y, Box(AvatarX, y - AvatarRise, AvatarSize, AvatarSize),
        seq(|e.badges|, idx requires 0 <= idx < |e.badges| => ChipAt(e.badges[idx], idx, y)))
  }

  /** The geometry `formatSVG` computes. The canvas is 600 wide whatever it holds and
      `50 * n + 40` high; row `i` is contributor `i`, and its chips are that contributor's
      badges, in order. */
  function Layout(entries: seq<Entry>): (c: Canvas)
    ensures c.width == 600 && c.height == 50 * |entries| + 40
    ensures |c.rows| == |entries|
    ensures forall i :: 0 <= i < |entries| ==>
      c.rows[i].login == entries[i].login && c.rows[i].avatarUrl == entries[i].avatarUrl &&
      c.rows[i].commits == entries[i].commits && |c.rows[i].chips| == |entries[i].badges|
    ensures forall i, k :: 0 <= i < |entries| && 0 <= k < |entries[i].badges| ==>
      c.rows[i].chips[k].text == entries[i].badges[k].text &&
      c.rows[i].chips[k].color == entries[i].badges[k].color
  {
    Canvas(CanvasWidth, |entries| * RowHeight + CanvasPadding,
           seq(|entries|, i requires 0 <= i < |entries| => RowAt(entries[i], i)))
  }

  /** Row `i`'s baseline is `40 + 50 i`; its avatar is the 40 by 40 square at x 10 whose
      top edge is 20 above the baseline. */
  lemma RowPlacement(entries: seq<Entry>, i: nat)
    requires i < |entries|
    ensures Layout(entries).rows[i].baseline == 40 + 50 * i
    ensures Layout(entries).rows[i].avatar == Box(10, 40 + 50 * i - 20, 40, 40)
  {
  }

  /** Baselines strictly increase down the canvas, 50 apart from one row to the next. */
  lemma BaselinesIncrease(entries: seq<Entry>, i: nat, j: nat)
    requires i < j < |entries|
    ensures Layout(entries).rows[j].baseline - Layout(entries).rows[i].baseline == 50 * (j - i)
    ensures Layout(entries).rows[i].baseline < Layout(entries).rows[j].baseline
  {
    RowPlacement(entries, i);
    RowPlacement(entries, j);
  }

  /** Every avatar lies inside the canvas, and avatars of different rows never overlap. */
  lemma AvatarsPlaced(entries: seq<Entry>, i: nat, j: nat)
    requires i < |entries| && j < |entries|
    ensures var c := Layout(entries); var a := c.rows[i].avatar;
      0 <= a.x && a.x + a.width <= c.width && 0 <= a.y && a.y + a.height <= c.height
    ensures i != j ==> Disjoint(Layout(entries).rows[i].avatar, Layout(entries).rows[j].avatar)
  {
    RowPlacement(entries, i);
    RowPlacement(entries, j);
  }

  /** Chip `k` of row `i` is the 90 by 22 rectangle at x `320 + 100 k` whose top edge is
      15 above the baseline; its label is anchored on the baseline at the rectangle's
      horizontal centre. */
  lemma ChipPlacement(entries: seq<Entry>, i: nat, k: nat)
    requires i < |entries| && k < |entries[i].badges|
    ensures var row := Layout(entries).rows[i]; var ch := row.chips[k];
      ch.rect == Box(320 + 100 * k, row.baseline - 15, 90, 22) &&
      ch.labelX == ch.rect.x + ch.rect.width / 2 && ch.labelY == row.baseline
  {
  }

  /** Consecutive chips of a row leave a 10-pixel gap. */
  lemma ChipGap(entries: seq<Entry>, i: nat, k: nat)
    requires i < |entries| && k + 1 < |entries[i].badges|
    ensures var chips := Layout(entries).rows[i].chips;
      chips[k + 1].rect.x == chips[k].rect.x + chips[k].rect.width + 10
  {
    ChipPlacement(entries, i, k);
    ChipPlacement(entries, i, k + 1);
  }

  /** No two chips on the canvas overlap: chips of one row are 100 apart and 90 wide,
      chips of different rows are at least 50 apart and 22 high. */
  lemma ChipsDisjoint(entries: seq<Entry>, i: nat, k: nat, j: nat, l: nat)
    requires i < |entries| && k < |entries[i].badges|
    requires j < |entries| && l < |entries[j].badges|
    requires i != j || k != l
    ensures Disjoint(Layout(entries).rows[i].chips[k].rect, Layout(entries).rows[j].chips[l].rect)
  {
    ChipPlacement(entries, i, k);
    ChipPlacement(entries, j, l);
    RowPlacement(entries, i);
    RowPlacement(entries, j);
  }

  /** The canvas does not widen for badges: every chip lies within the canvas's left, top
      and bottom edges, and within its right edge exactly when it is the first or second
      of its row; the third and later stick out past x = 600. */
  lemma ChipFits(entries: seq<Entry>, i: nat, k: nat)
    requires i < |entries| && k < |entries[i].badges|
    ensures var c := Layout(entries); var r := c.rows[i].chips[k].rect;
      0 <= r.x && 0 <= r.y && r.y + r.height <= c.height
    ensures var c := Layout(entries); var r := c.rows[i].chips[k].rect;
      r.x + r.width <= c.width <==> k < 2
  {
    ChipPlacement(entries, i, k);
    RowPlacement(entries, i);
  }

  /** No avatar overlaps a chip, in its own row or any other: avatars end at x = 50 and
      chips start at x = 320. */
  lemma AvatarsClearOfChips(entries: seq<Entry>, i: nat, j: nat, l: nat)
    requires i < |entries| && j < |entries| && l < |entries[j].badges|
    ensures Disjoint(Layout(entries).rows[i].avatar, Layout(entries).rows[j].chips[l].rect)
  {
    RowPlacement(entries, i);
    ChipPlacement(entries, j, l);
  }

  // ===== SVG: serialisation =====

  const SvgNamespace: string := "http://www.w3.org/2000/svg"

  /** The opening of a chip rectangle, up to its position. */
  function RectAt(x: int, y: int): string {
    "\n          <rect x=\"" + IntToString(x) + "\" y=\"" + IntToString(y) + "\""
  }

  /** The rest of a chip rectangle: its rounding, its 90 by 22 size and its fill. */
  function RectFill(color: string): string {
    " rx=\"6\" ry=\"6\" width=\"" + "90" + "\" height=\"" + "22" + "\" fill=\"" + color + "\"/>"
  }

  /** The opening tag of a chip label, anchored at the given point. */
  function LabelOpen(x: int, y: int): string {
    "\n          <text x=\"" + IntToString(x) + "\" y=\"" + IntToString(y)
      + "\" font-size=\"12\" fill=\"white\" text-anchor=\"middle\" dominant-baseline=\"middle\""
  }

  /** The label text and the end of the chip. */
  function Caption(text: string): string {
    ">" + text + "</text>\n        "
  }

  /** The chip rectangle the template writes has the layout's chip size. */
  lemma RectFillTemplate(color: string)
    ensures RectFill(color) == " rx=\"6\" ry=\"6\" width=\"" + IntToString(ChipWidth) + "\" height=\""
      + IntToString(ChipHeight) + "\" fill=\"" + color + "\"/>"
  {
    assert IntToString(ChipWidth) == "90" && IntToString(ChipHeight) == "22";
  }

  /** Starting at `o` in `s` stand a chip's pieces, one right after the other: the
      rectangle's position, its rounding, size and fill, the label's opening tag and the
      caption. */
  predicate ChipLayout(s: string, o: nat, rect: string, fill: string, open: string, caption: string) {
    StandsAt(s, o, rect) && StandsAt(s, o + |rect|, fill) &&
    StandsAt(s, o + |rect| + |fill|, open) && StandsAt(s, o + |rect| + |fill| + |open|, caption)
  }

  /** `svg` is made of exactly these pieces, in this order. */
  predicate ChipMadeOf(svg: string, rect: string, fill: string, open: string, caption: string) {
    ChipLayout(svg, 0, rect, fill, open, caption) && |svg| == |rect| + |fill| + |open| + |caption|
  }

  /** The badge template: the chip rectangle at the chip's position, with its size and
      the badge colour, then the label's opening tag at the chip's label anchor, then the
      label, which ends the chip; nothing else. */
  function ChipSvg(ch: Chip): (svg: string)
    ensures ChipMadeOf(svg, RectAt(ch.rect.x, ch.rect.y), RectFill(ch.color),
      LabelOpen(ch.labelX, ch.labelY), Caption(ch.text))
  {
    var rect, fill := RectAt(ch.rect.x, ch.rect.y), RectFill(ch.color);
    var open, caption := LabelOpen(ch.labelX, ch.labelY), Caption(ch.text);
    ChipFields(rect + fill + (open + caption), rect, fill, open, caption);
    rect + fill + (open + caption)
  }

  /** A chip of the form `rect + fill + (open + caption)` is made of those pieces. */
  lemma ChipFields(svg: string, rect: string, fill: string, open: string, caption: string)
    requires svg == rect + fill + (open + caption)
    ensures ChipMadeOf(svg, rect, fill, open, caption)
  {
    assert svg[0..|svg|] == svg;
    StandsPair(svg, 0, rect + fill, open + caption);
    StandsPair(svg, 0, rect, fill);
    StandsPair(svg, |rect| + |fill|, open, caption);
  }

  /** The opening of a contributor block: a link to the profile. */
  function RowAnchor(login: string): string {
    "\n        <a href=\"" + GitHubProfile + login + "\">"
  }

  /** The start of the avatar image, up to its address. */
  function AvatarHref(url: string): string {
    "\n          <image href=\"" + url + "\""
  }

  /** The rest of the avatar image: 40 by 40 at x 10, clipped to a circle. */
  function AvatarPlacement(y: int): string {
    " x=\"" + "10" + "\" y=\"" + IntToString(y) + "\" width=\"" + "40" + "\" height=\"" + "40"
      + "\" clip-path=\"circle(" + "20" + "px at center)\" />"
  }

  /** The avatar the template writes has the layout's x and size, and the clipping
      circle's radius is half that size. */
  lemma AvatarTemplate(y: int)
    ensures AvatarPlacement(y) == " x=\"" + IntToString(AvatarX) + "\" y=\"" + IntToString(y)
      + "\" width=\"" + IntToString(AvatarSize) + "\" height=\"" + IntToString(AvatarSize)
      + "\" clip-path=\"circle(" + IntToString(AvatarSize / 2) + "px at center)\" />"
  {
    assert AvatarSize / 2 == 20;
    assert IntToString(AvatarX) == "10" && IntToString(AvatarSize) == "40";
    assert IntToString(20) == "20";
  }

  /** The opening tag of the login text, on the baseline. */
  function LoginOpen(y: int): string {
    "\n          <text x=\"60\" y=\"" + IntToString(y) + "\" font-size=\"14\" fill=\"black\">"
  }

  /** The opening tag of the commit count, on the baseline. */
  function CommitsOpen(y: int): string {
    "\n          <text x=\"200\" y=\"" + IntToString(y) + "\" font-size=\"14\" fill=\"gray\">"
  }

  /** The login, closing its text element. */
  function LoginText(login: string): string {
    "@" + login + "</text>"
  }

  /** The commit count, closing its text element. */
  function CommitsText(commits: int): string {
    IntToString(commits) + " commits</text>"
  }

  /** The indentation `${badgesSvg}` stands at. */
  const ChipIndent: string := "\n          "

  /** One chip template per chip, in order. */
  function ChipSvgs(chips: seq<Chip>): (parts: seq<string>)
    ensures |parts| == |chips|
  {
    seq(|chips|, k requires 0 <= k < |chips| => ChipSvg(chips[k]))
  }

  /** `${badgesSvg}` with its indentation: the chips, one after the other, and nothing
      else. It opens with the indentation and ends where the last chip ends; with
      ChipInChips and ChipOffsetStep, the chips tile the rest of it exactly. */
  function ChipsSvg(chips: seq<Chip>): (s: string)
    ensures StartsWith(s, ChipIndent)
    ensures |s| == ChipOffset(chips, |chips|)
  {
    var parts := ChipSvgs(chips);
    assert parts[..|parts|] == parts;
    Ends2(ChipIndent, Join(parts, ""));
    ChipIndent + Join(parts, "")
  }

  /** Where chip `k` starts in ChipsSvg. */
  function ChipOffset(chips: seq<Chip>, k: nat): nat
    requires k <= |chips|
  {
    |ChipIndent| + |Join(ChipSvgs(chips)[..k], "")|
  }

  /** Chip `k` stands in ChipsSvg at ChipOffset(k). */
  lemma ChipInChips(chips: seq<Chip>, k: nat)
    requires k < |chips|
    ensures StandsAt(ChipsSvg(chips), ChipOffset(chips, k), ChipSvg(chips[k]))
  {
    LeadConcatAt(ChipIndent, ChipSvgs(chips), k);
  }

  /** Chip `k + 1` starts right where chip `k` ends: no text comes between two chips. */
  lemma ChipOffsetStep(chips: seq<Chip>, k: nat)
    requires k < |chips|
    ensures ChipOffset(chips, k + 1) == ChipOffset(chips, k) + |ChipSvg(chips[k])|
  {
    JoinPrefixStep(ChipSvgs(chips), k);
  }

  /** The chips' offsets strictly increase with their index: they stand in badge order. */
  lemma ChipOffsetsIncrease(chips: seq<Chip>, k: nat, l: nat)
    requires k < l <= |chips|
    ensures ChipOffset(chips, k) < ChipOffset(chips, l)
  {
    var parts := ChipSvgs(chips);
    forall j | 0 <= j < |parts| ensures |parts[j]| >= 1 {
      assert |parts[j]| >= |RectAt(chips[j].rect.x, chips[j].rect.y)| >= 1;
    }
    ConcatPrefixGrows(parts, k, l);
  }

  const RowClose: string := "\n        </a>\n      "

  /** Starting at `o` in `s` stand the first pieces of a row block, one right after the
      other: the profile link, the avatar's address and placement, and the login's
      opening tag and text. */
  predicate RowHeadLayout(s: string, o: nat, anchor: string, href: string, placement: string,
                          loginOpen: string, loginText: string)
  {
    var lo := o + |anchor| + |href| + |placement|;
    StandsAt(s, o, anchor) && StandsAt(s, o + |anchor|, href) &&
    StandsAt(s, o + |anchor| + |href|, placement) && StandsAt(s, lo, loginOpen) &&
    StandsAt(s, lo + |loginOpen|, loginText)
  }

  /** Starting at `o` in `s` stand the last pieces of a row block, one right after the
      other: the commit count's opening tag and text, the chips and the close. */
  predicate RowTailLayout(s: string, o: nat, commitsOpen: string, commitsText: string,
                          chips: string, close: string)
  {
    StandsAt(s, o, commitsOpen) && StandsAt(s, o + |commitsOpen|, commitsText) &&
    StandsAt(s, o + |commitsOpen| + |commitsText|, chips) &&
    StandsAt(s, o + |commitsOpen| + |commitsText| + |chips|, close)
  }

  /** Starting at `o` in `s` stand a row block's pieces, one right after the other. */
  predicate RowLayout(s: string, o: nat, anchor: string, href: string, placement: string,
                      loginOpen: string, loginText: string, commitsOpen: string,
                      commitsText: string, chips: string, close: string)
  {
    RowHeadLayout(s, o, anchor, href, placement, loginOpen, loginText) &&
    RowTailLayout(s, o + |anchor| + |href| + |placement| + |loginOpen| + |loginText|,
      commitsOpen, commitsText, chips, close)
  }

  /** `block` is made of exactly these pieces, in this order. */
  predicate RowMadeOf(block: string, anchor: string, href: string, placement: string,
                      loginOpen: string, loginText: string, commitsOpen: string,
                      commitsText: string, chips: string, close: string)
  {
    RowLayout(block, 0, anchor, href, placement, loginOpen, loginText, commitsOpen, commitsText,
      chips, close) &&
    |block| == |anchor| + |href| + |placement| + |loginOpen| + |loginText| + |commitsOpen|
      + |commitsText| + |chips| + |close|
  }

  /** Where the login text of a row block starts. */
  function LoginAt(r: Row): nat {
    |RowAnchor(r.login)| + |AvatarHref(r.avatarUrl)| + |AvatarPlacement(r.avatar.y)|
      + |LoginOpen(r.baseline)|
  }

  /** Where the commit count of a row block starts. */
  function CommitsAt(r: Row): nat {
    LoginAt(r) + |LoginText(r.login)| + |CommitsOpen(r.baseline)|
  }

  /** Where the chips of a row block start. */
  function ChipsAt(r: Row): nat {
    CommitsAt(r) + |CommitsText(r.commits)|
  }

  /** The row template: one block per contributor. It is made of, one right after the
      other and nothing else: the link to the profile, the avatar's address and
      placement, the login's tag on the baseline, `@` and the login, the commit count's
      tag on the baseline, the count, the chips and the `</a>` closing the block. */
  function RowSvg(r: Row): (block: string)
    ensures RowMadeOf(block, RowAnchor(r.login), AvatarHref(r.avatarUrl),
      AvatarPlacement(r.avatar.y), LoginOpen(r.baseline), LoginText(r.login),
      CommitsOpen(r.baseline), CommitsText(r.commits), ChipsSvg(r.chips), RowClose)
  {
    var anchor, href, placement := RowAnchor(r.login), AvatarHref(r.avatarUrl), AvatarPlacement(r.avatar.y);
    var loginOpen, loginText := LoginOpen(r.baseline), LoginText(r.login);
    var commitsOpen, commitsText := CommitsOpen(r.baseline), CommitsText(r.commits);
    var head := anchor + (href + placement) + (loginOpen + loginText);
    var tail := commitsOpen + commitsText + ChipsSvg(r.chips) + RowClose;
    RowSvgFields(head + tail, head, tail, anchor, href, placement, loginOpen, loginText,
      commitsOpen, commitsText, ChipsSvg(r.chips), RowClose);
    head + tail
  }

  /** A row block opens with the profile link and ends with the close; the login, the
      commit count and the chips follow one another inside it. */
  lemma RowOffsetsIncrease(r: Row)
    ensures StartsWith(RowSvg(r), RowAnchor(r.login)) && EndsWith(RowSvg(r), RowClose)
    ensures |RowAnchor(r.login)| < LoginAt(r) < CommitsAt(r) < ChipsAt(r) < |RowSvg(r)|
  {
    var block := RowSvg(r);
    RowEnds(block, RowAnchor(r.login), AvatarHref(r.avatarUrl), AvatarPlacement(r.avatar.y),
      LoginOpen(r.baseline), LoginText(r.login), CommitsOpen(r.baseline), CommitsText(r.commits),
      ChipsSvg(r.chips), RowClose);
    assert |LoginText(r.login)| >= 1 && |CommitsOpen(r.baseline)| >= 1;
    assert |AvatarHref(r.avatarUrl)| >= 1 && |RowClose| >= 1;
  }

  /** A block made of these pieces starts with the first and ends with the last. */
  lemma RowEnds(block: string, anchor: string, href: string, placement: string,
                loginOpen: string, loginText: string, commitsOpen: string,
                commitsText: string, chips: string, close: string)
    requires RowMadeOf(block, anchor, href, placement, loginOpen, loginText, commitsOpen,
      commitsText, chips, close)
    ensures StartsWith(block, anchor) && EndsWith(block, close)
  {
    assert block[..|anchor|] == block[0..|anchor|];
  }

  /** A block of the form `head + tail`, where the head is the link, the avatar and the
      login and the tail the commit count, the chips and the close, is made of those
      pieces. */
  lemma RowSvgFields(block: string, head: string, tail: string, anchor: string, href: string,
                     placement: string, loginOpen: string, loginText: string,
                     commitsOpen: string, commitsText: string, chips: string, close: string)
    requires head == anchor + (href + placement) + (loginOpen + loginText)
    requires tail == commitsOpen + commitsText + chips + close
    requires block == head + tail
    ensures RowMadeOf(block, anchor, href, placement, loginOpen, loginText, commitsOpen,
      commitsText, chips, close)
  {
    HeadFields(head, anchor, href, placement, loginOpen, loginText);
    TailFields(tail, commitsOpen, commitsText, chips, close);
    StandsStart(head, tail);
    StandsEnd(head, tail);
    HeadWithin(block, 0, head, anchor, href, placement, loginOpen, loginText);
    TailWithin(block, |head|, tail, commitsOpen, commitsText, chips, close);
  }

  /** The head of a block: the link, the avatar and the login, in this order. */
  lemma HeadFields(head: string, anchor: string, href: string, placement: string,
                   loginOpen: string, loginText: string)
    requires head == anchor + (href + placement) + (loginOpen + loginText)
    ensures RowHeadLayout(head, 0, anchor, href, placement, loginOpen, loginText)
    ensures |head| == |anchor| + |href| + |placement| + |loginOpen| + |loginText|
  {
    assert head[0..|head|] == head;
    StandsPair(head, 0, anchor + (href + placement), loginOpen + loginText);
    StandsPair(head, 0, anchor, href + placement);
    StandsPair(head, |anchor|, href, placement);
    StandsPair(head, |anchor| + |href| + |placement|, loginOpen, loginText);
  }

  /** The tail of a block: the commit count, the chips and the close, in this order. */
  lemma TailFields(tail: string, commitsOpen: string, commitsText: string, chips: string,
                   close: string)
    requires tail == commitsOpen + commitsText + chips + close
    ensures RowTailLayout(tail, 0, commitsOpen, commitsText, chips, close)
    ensures |tail| == |commitsOpen| + |commitsText| + |chips| + |close|
  {
    assert tail[0..|tail|] == tail;
    StandsPair(tail, 0, commitsOpen + commitsText + chips, close);
    StandsPair(tail, 0, commitsOpen + commitsText, chips);
    StandsPair(tail, 0, commitsOpen, commitsText);
  }

  /** The head's pieces, laid out in `head`, are laid out in the text `head` stands in. */
  lemma HeadWithin(s: string, o: nat, head: string, anchor: string, href: string,
                   placement: string, loginOpen: string, loginText: string)
    requires StandsAt(s, o, head)
    requires RowHeadLayout(head, 0, anchor, href, placement, loginOpen, loginText)
    ensures RowHeadLayout(s, o, anchor, href, placement, loginOpen, loginText)
  {
    var lo := |anchor| + |href| + |placement|;
    StandsWithin(s, o, head, 0, anchor);
    StandsWithin(s, o, head, |anchor|, href);
    StandsWithin(s, o, head, |anchor| + |href|, placement);
    StandsWithin(s, o, head, lo, loginOpen);
    StandsWithin(s, o, head, lo + |loginOpen|, loginText);
  }

  /** The tail's pieces, laid out in `tail`, are laid out in the text `tail` stands in. */
  lemma TailWithin(s: string, o: nat, tail: string, commitsOpen: string, commitsText: string,
                   chips: string, close: string)
    requires StandsAt(s, o, tail)
    requires RowTailLayout(tail, 0, commitsOpen, commitsText, chips, close)
    ensures RowTailLayout(s, o, commitsOpen, commitsText, chips, close)
  {
    StandsWithin(s, o, tail, 0, commitsOpen);
    StandsWithin(s, o, tail, |commitsOpen|, commitsText);
    StandsWithin(s, o, tail, |commitsOpen| + |commitsText|, chips);
    StandsWithin(s, o, tail, |commitsOpen| + |commitsText| + |chips|, close);
  }

  /** The opening `<svg>` tag with the canvas size. */
  function SvgOpen(c: Canvas): string {
    "<svg xmlns=\"" + SvgNamespace + "\" width=\"" + IntToString(c.width) + "\" height=\""
      + IntToString(c.height) + "\" font-family=\"sans-serif\">"
  }

  const SvgEndTag: string := "</svg>"

  const SvgClose: string := "\n    " + SvgEndTag

  function RowBlocks(c: Canvas): (blocks: seq<string>)
    ensures |blocks| == |c.rows|
  {
    seq(|c.rows|, i requires 0 <= i < |c.rows| => RowSvg(c.rows[i]))
  }

  /** The document: the `<svg>` tag, the row blocks one after the other, and the closing
      tag, and nothing else. The first block starts after the tag and its indentation
      (BlockOffset(c, 0)), each block starts where the one before ends (BlockOffsetStep),
      and the close stands right after the last block and ends the document. */
  function Render(c: Canvas): (out: string)
    ensures StartsWith(out, SvgOpen(c) + "\n      ")
    ensures StartsWith(out, SvgOpen(c)) && EndsWith(out, SvgEndTag)
    ensures EndsAt(out, BlockOffset(c, |c.rows|), SvgClose)
  {
    var out := Framed(SvgOpen(c) + "\n      ", RowBlocks(c), SvgClose);
    FramedClose(out, SvgOpen(c) + "\n      ", RowBlocks(c), SvgClose, BlockOffset(c, |c.rows|));
    Ends3(SvgOpen(c) + "\n      ", Join(RowBlocks(c), ""), SvgClose);
    Ends2(SvgOpen(c), "\n      ");
    StartsWithTrans(out, SvgOpen(c) + "\n      ", SvgOpen(c));
    Ends2("\n    ", SvgEndTag);
    EndsWithTrans(out, SvgClose, SvgEndTag);
    out
  }

  /** `formatSVG(contributors)`. The document opens with an `<svg>` tag declaring the SVG
      namespace, width 600 and height `50 n + 40`, and closes with `</svg>`. */
  function FormatSVG(entries: seq<Entry>): (svg: string)
    ensures StartsWith(svg, "<svg xmlns=\"" + SvgNamespace + "\" width=\"" + "600"
      + "\" height=\"" + IntToString(50 * |entries| + 40) + "\" font-family=\"sans-serif\">")
    ensures EndsWith(svg, SvgEndTag)
  {
    var c := Layout(entries);
    assert IntToString(CanvasWidth) == "600";
    assert SvgOpen(c) == "<svg xmlns=\"" + SvgNamespace + "\" width=\"" + "600"
      + "\" height=\"" + IntToString(50 * |entries| + 40) + "\" font-family=\"sans-serif\">";
    Render(c)
  }

  /** Where the block of row `i` starts in a rendered canvas. */
  function BlockOffset(c: Canvas, i: nat): nat
    requires i <= |c.rows|
  {
    |SvgOpen(c) + "\n      "| + |Join(RowBlocks(c)[..i], "")|
  }

  /** The first block starts right after the `<svg>` tag and its indentation, and block
      `i + 1` starts right where block `i` ends: no text comes between two blocks. */
  lemma BlockOffsetStep(c: Canvas, i: nat)
    requires i < |c.rows|
    ensures BlockOffset(c, 0) == |SvgOpen(c) + "\n      "|
    ensures BlockOffset(c, i + 1) == BlockOffset(c, i) + |RowSvg(c.rows[i])|
  {
    JoinPrefixStep(RowBlocks(c), i);
  }

  /** Every row block is non-empty: it opens with the row's link. */
  lemma BlocksNonEmpty(c: Canvas)
    ensures forall k :: 0 <= k < |c.rows| ==> |RowBlocks(c)[k]| >= 1
  {
    forall k | 0 <= k < |c.rows| ensures |RowBlocks(c)[k]| >= 1 {
      RowOffsetsIncrease(c.rows[k]);
    }
  }

  /** Row `i`'s block stands in the rendered canvas at BlockOffset(i). */
  lemma RenderedBlockAt(c: Canvas, i: nat)
    requires i < |c.rows|
    ensures StandsAt(Render(c), BlockOffset(c, i), RowBlocks(c)[i])
  {
    FramedConcatAt(Render(c), SvgOpen(c) + "\n      ", RowBlocks(c), SvgClose, i, BlockOffset(c, i));
  }

  /** The blocks' offsets strictly increase with the row index. */
  lemma BlockOffsetsIncrease(c: Canvas, i: nat, j: nat)
    requires i < j <= |c.rows|
    ensures BlockOffset(c, i) < BlockOffset(c, j)
  {
    BlocksNonEmpty(c);
    ConcatPrefixGrows(RowBlocks(c), i, j);
  }

  /** One `<a href="https://github.com/<login>">` block per contributor, in input order:
      the block of contributor `i` stands in the document at BlockOffset(i), and its row
      carries that contributor's login, avatar address and commit count; the next block
      starts right where it ends, so no text comes between two blocks. With
      SvgDocumentEnds, which closes the document right after the last block, the blocks
      are all the document holds between the opening tag and the close. */
  lemma SvgRowBlocks(entries: seq<Entry>, i: nat)
    requires i < |entries|
    ensures var c := Layout(entries);
      BlockOffset(c, i + 1) == BlockOffset(c, i) + |RowSvg(c.rows[i])|
    ensures var c := Layout(entries); var r := c.rows[i];
      StandsAt(FormatSVG(entries), BlockOffset(c, i), RowSvg(r)) &&
      r.login == entries[i].login && r.avatarUrl == entries[i].avatarUrl &&
      r.commits == entries[i].commits
  {
    RenderedBlockAt(Layout(entries), i);
    BlockOffsetStep(Layout(entries), i);
  }

  /** The document holds nothing after the last contributor's block but the closing
      tag, and for no contributors nothing between the opening tag and the close. */
  lemma SvgDocumentEnds(entries: seq<Entry>)
    ensures EndsAt(FormatSVG(entries), BlockOffset(Layout(entries), |entries|), SvgClose)
  {
    assert FormatSVG(entries) == Render(Layout(entries));
  }

  /** Wherever a row's block stands (in the document, by SvgRowBlocks), its pieces stand
      in the enclosing text, in the same order, from the block's offset on. */
  lemma RowFieldsAt(svg: string, o: nat, r: Row)
    requires StandsAt(svg, o, RowSvg(r))
    ensures RowLayout(svg, o, RowAnchor(r.login), AvatarHref(r.avatarUrl),
      AvatarPlacement(r.avatar.y), LoginOpen(r.baseline), LoginText(r.login),
      CommitsOpen(r.baseline), CommitsText(r.commits), ChipsSvg(r.chips), RowClose)
  {
    RowWithin(svg, o, RowSvg(r), RowAnchor(r.login), AvatarHref(r.avatarUrl),
      AvatarPlacement(r.avatar.y), LoginOpen(r.baseline), LoginText(r.login),
      CommitsOpen(r.baseline), CommitsText(r.commits), ChipsSvg(r.chips), RowClose);
  }

  /** The pieces a block is made of are laid out in the enclosing text from the block's
      offset on. */
  lemma RowWithin(svg: string, o: nat, block: string, anchor: string, href: string,
                  placement: string, loginOpen: string, loginText: string, commitsOpen: string,
                  commitsText: string, chips: string, close: string)
    requires StandsAt(svg, o, block)
    requires RowMadeOf(block, anchor, href, placement, loginOpen, loginText, commitsOpen,
      commitsText, chips, close)
    ensures RowLayout(svg, o, anchor, href, placement, loginOpen, loginText, commitsOpen,
      commitsText, chips, close)
  {
    var t := |anchor| + |href| + |placement| + |loginOpen| + |loginText|;
    HeadWithin(svg, o, block, anchor, href, placement, loginOpen, loginText);
    TailWithinAt(svg, o, block, t, commitsOpen, commitsText, chips, close);
  }

  /** The tail's pieces, laid out from `t` in `block`, are laid out from `o + t` in the
      text `block` stands in. */
  lemma TailWithinAt(s: string, o: nat, block: string, t: nat, commitsOpen: string,
                     commitsText: string, chips: string, close: string)
    requires StandsAt(s, o, block)
    requires RowTailLayout(block, t, commitsOpen, commitsText, chips, close)
    ensures RowTailLayout(s, o + t, commitsOpen, commitsText, chips, close)
  {
    StandsWithin(s, o, block, t, commitsOpen);
    StandsWithin(s, o, block, t + |commitsOpen|, commitsText);
    StandsWithin(s, o, block, t + |commitsOpen| + |commitsText|, chips);
    StandsWithin(s, o, block, t + |commitsOpen| + |commitsText| + |chips|, close);
  }

  /** Wherever a row's block stands, its chips stand at the block's offset plus ChipsAt. */
  lemma RowChipsAt(svg: string, o: nat, r: Row)
    requires StandsAt(svg, o, RowSvg(r))
    ensures StandsAt(svg, o + ChipsAt(r), ChipsSvg(r.chips))
  {
    ChipsWithin(svg, o, RowSvg(r), RowAnchor(r.login), AvatarHref(r.avatarUrl),
      AvatarPlacement(r.avatar.y), LoginOpen(r.baseline), LoginText(r.login),
      CommitsOpen(r.baseline), CommitsText(r.commits), ChipsSvg(r.chips), RowClose, ChipsAt(r));
  }

  /** In a block made of these pieces, standing at `o`, the chips stand at `o` plus the
      length of everything before them. */
  lemma ChipsWithin(svg: string, o: nat, block: string, anchor: string, href: string,
                    placement: string, loginOpen: string, loginText: string, commitsOpen: string,
                    commitsText: string, chips: string, close: string, ca: nat)
    requires StandsAt(svg, o, block)
    requires RowMadeOf(block, anchor, href, placement, loginOpen, loginText, commitsOpen,
      commitsText, chips, close)
    requires ca == |anchor| + |href| + |placement| + |loginOpen| + |loginText| + |commitsOpen|
      + |commitsText|
    ensures StandsAt(svg, o + ca, chips)
  {
    StandsWithin(svg, o, block, ca, chips);
  }

  /** Wherever a chip stands, its rectangle's position, its size and colour, its label's
      anchor and its label stand in the enclosing text, in this order. */
  lemma ChipFieldsAt(svg: string, o: nat, ch: Chip)
    requires StandsAt(svg, o, ChipSvg(ch))
    ensures ChipLayout(svg, o, RectAt(ch.rect.x, ch.rect.y), RectFill(ch.color),
      LabelOpen(ch.labelX, ch.labelY), Caption(ch.text))
  {
    ChipWithin(svg, o, ChipSvg(ch), RectAt(ch.rect.x, ch.rect.y), RectFill(ch.color),
      LabelOpen(ch.labelX, ch.labelY), Caption(ch.text));
  }

  /** The pieces a chip is made of are laid out in the enclosing text from the chip's
      offset on. */
  lemma ChipWithin(svg: string, o: nat, chip: string, rect: string, fill: string, open: string,
                   caption: string)
    requires StandsAt(svg, o, chip)
    requires ChipMadeOf(chip, rect, fill, open, caption)
    ensures ChipLayout(svg, o, rect, fill, open, caption)
  {
    StandsWithin(svg, o, chip, 0, rect);
    StandsWithin(svg, o, chip, |rect|, fill);
    StandsWithin(svg, o, chip, |rect| + |fill|, open);
    StandsWithin(svg, o, chip, |rect| + |fill| + |open|, caption);
  }
}
