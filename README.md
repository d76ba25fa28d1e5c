# contributor-leaderboard in Dafny

A model of the rendering core of `contributor-leaderboard`, a small Node.js tool that lists
the top contributors of a GitHub repository. The model covers three parts:

- `fetchContributors` and `defaultBadgeGenerator` in `src/fetch.js`. The first fetches the
  contributor list and renames its fields; the second returns a one-element badge list
  holding a "Top Contributor" badge.
- `generateLeaderboard` in `index.js`. It checks the repository option, requests three
  contributors and returns a Markdown snippet of them.
- `formatMarkdown` and `formatSVG` in `src/formatBadges.js`. They render contributors with
  badges as a Markdown bullet list or as an SVG document.

All of this code is pure apart from the HTTP call and the spinner. The model is therefore
written as datatypes, functions and lemmas. The network exchange (`await fetch(url, { headers })`
followed by `await res.json()`) is a parameter `api: Request -> Response`: a total function
that gives the status, the `ok` flag and the decoded record list the server would send for a
request. A thrown `Error` becomes `Result.Err(message)`. An option such as `repo` or `token`
that may be `undefined` is an `Option<string>`. JavaScript truthiness is modelled exactly
for those values: only a non-empty string is truthy.

Modules, one per file:

- `Text` (`text.dfy`): JavaScript's `join` and one-character `split`. It proves that split
  undoes join when no part holds the separator, and that the number of pieces is one more
  than the number of separators. It also holds the decimal rendering of integers that
  template literals perform, with its inverse parser, and `StandsAt` (a piece standing at
  an offset of a text) with `Before`, `After` and `NumberAfter` for reading a number back
  out of a text.
- `Records` (`records.dfy`): the badge, the raw API record, the renamed contributor, and a
  contributor with badges attached.
- `GitHubApi` (`github_api.dfy`): what `index.js` and `src/fetch.js` share. This is the
  contributors URL, the optional `Authorization: token …` header, and the
  `GitHub API error: <status>` message. Each comes with the reader that recovers what was
  put in: the repository from the URL, the token from the headers, and the status from the
  message.
- `Fetch` (`fetch.dfy`): `fetchContributors` and `defaultBadgeGenerator`.
- `Leaderboard` (`leaderboard.dfy`): `generateLeaderboard` and its `formatContributor`.
- `FormatBadges` (`format_badges.dfy`): `formatMarkdown` and `formatSVG`.
  - `formatSVG` is split into `Layout` and `Render`. `Layout` computes the geometry: canvas
    size, row baselines, avatar box and badge chip rectangles. `Render` writes that geometry
    into the SVG templates, character for character. The geometric claims are stated about `Layout`: rows in order; no two avatars, no two
    chips and no avatar and chip overlap; which chips fit inside the canvas. The login and
    commit-count texts have no extent in the model, so nothing is claimed about them
    overlapping. The
    document claims (the frame, where each row's block stands, that the blocks are all it
    holds) are stated about `Render`.
  - The geometry reaches the text through the template pieces. A chip's `<rect>` piece
    carries the chip rectangle's x and y, and its `<text>` tag carries the label anchor. A
    row's avatar placement carries the avatar's y, and its two `<text>` tags carry the
    baseline. `RectFillTemplate` and `AvatarTemplate` tie the sizes the templates write
    as literals to the layout's constants.

The code has none of the following, and the model adds none:

- a sanitizer: no field is escaped or truncated;
- a horizontal layout;
- avatar inlining: the SVG links the avatar URL;
- a limit option or any clamping;
- an error taxonomy: every failed response becomes the same `GitHub API error: <status>`
  message;
- a canvas that grows with the number of badges.

The page sizes are fixed: `per_page=10` in `fetchContributors` and `per_page=3` in
`generateLeaderboard`. The Markdown separator is emitted as it stands in
`src/formatBadges.js`: the three characters U+00E2 U+20AC U+201D. That is an em dash whose
UTF-8 bytes were decoded as Windows-1252. `index.js` uses a real U+2014, and so does its
model.

Text such as a bullet or a row block is specified piece by piece: which piece it starts
with, which piece stands at which offset (`StandsAt`), and which piece it ends with. A chip
and a row block are specified piece by piece and whole: `ChipMadeOf` and `RowMadeOf` list
every piece, in order, and the lengths add up to the whole. The chips' text and the document
are specified whole through offsets: each chip or block starts where the one before it ends,
and the text ends where the last one ends (or, for the document, where the close after the
last block ends). Two kinds of interpolated number have a readback lemma showing the number
parses back from the text: the commit count in each Markdown bullet, and the status in the
API error message. `ParseInt` accepts exactly the numerals `IntToString` writes, so a
number read back pins its numeral character for character. The SVG numerals (positions,
sizes, commit counts) have no readback lemma. Instead, `ChipSvg` and `RowSvg` state which
layout value each one renders, and `RectFillTemplate` and `AvatarTemplate` tie the
literal sizes to the layout's constants.

## Model

| member | source | states |
|---|---|---|
| GitHubApi.FalsyValues | index.js:6 | The values that `!repo` rejects are exactly `undefined` and the empty string. |
| GitHubApi.AuthHeaders | src/fetch.js:4 | When the token is truthy there is exactly one header, and reading the token back from it gives exactly that token. Otherwise there are no headers. |
| GitHubApi.ContributorsUrl | src/fetch.js:5 | The repository goes into the contributors URL verbatim. Reading back the text between the fixed prefix and the `per_page` suffix gives the repository unchanged. |
| GitHubApi.ApiErrorMessage | src/fetch.js:7 | The error message starts with `GitHub API error: `. Parsing the rest gives back exactly the response status, negative values included. |
| Text.IntToString | src/fetch.js:7 | The decimal rendering of an integer starts with `-` exactly when the number is negative. After the sign comes at least one digit and nothing but digits, with no leading zero unless the numeral is `0` itself. |
| Text.IntRoundTrip | src/fetch.js:7 | Parsing the decimal rendering of any integer gives that integer back. |
| Text.ParseIntRoundTrip | src/fetch.js:7 | Whatever `ParseInt` accepts is exactly the rendering of the value it reads. So a leading zero, `-0` or a lone `-` is never accepted, and (with IntRoundTrip) a string reads as `n` exactly when it is `IntToString(n)`. |
| Text.JoinBounds | src/formatBadges.js:5 | Joining no parts gives the empty string. Otherwise the result starts with the first part and ends with the last. |
| Text.JoinEnds | index.js:29-36 | A join of at least two parts starts with the first part and the separator. When the last part is empty, the join ends with the separator. |
| Text.SplitJoin | index.js:29-36 | When no part holds the one-character separator, splitting the join at that character gives back exactly the parts. |
| Text.SeparatorCount | src/formatBadges.js:5 | Joining `n` parts free of the one-character separator puts exactly `n - 1` separators into the result. |
| Fetch.FetchRequest | src/fetch.js:4-6 | The request asks for ten records per page. It names the repository verbatim, or `undefined` when the repository is absent. It carries the token exactly when the token is truthy. |
| Fetch.Normalize | src/fetch.js:9-13 | The renaming has the same length and order as its input. Each contributor takes `login`, `avatar_url` and `contributions` from the record at the same position. |
| Fetch.NormalizeLossless | src/fetch.js:9-13 | Renaming the fields back gives the original records, so the renaming loses nothing it keeps. |
| Fetch.NormalizeAppend | src/fetch.js:9-13 | Renaming commutes with concatenation, so records come out in the order they arrived. |
| Fetch.FetchContributors | src/fetch.js:3-14 | The call fails exactly when the response is not OK, and the message gives its status. Otherwise the result is the renamed body. |
| Fetch.DefaultBadgeGenerator | src/fetch.js:18-20 | For every contributor the result is exactly one badge: "Top Contributor" in `#2ea44f`. |
| Leaderboard.FailuresDistinct | index.js:6 | The missing-repository message cannot be read as an API error that carries a status. |
| Leaderboard.LeaderboardRequest | index.js:10-13 | The request names the repository verbatim, asks for three records per page, and carries the token exactly when it is truthy. |
| Leaderboard.TopThree | index.js:22 | The result is the first `min(3, n)` records, in their original order. |
| Leaderboard.FormatContributor | index.js:24-26 | The bullet is three pieces back to back, which make up the whole line. First comes `- <img src="https://github.com/<login>.png?size=20"`. Then come ` width="20" height="20" style="border-radius:50%" /> [@<login>](https://github.com/<login>)`, a space and a real em dash. Last comes ` <commits> commits`. |
| Leaderboard.ContributorCommitsRecoverable | index.js:25 | When the login holds no em dash, the number after the bullet's first em dash is exactly the commit count. |
| Leaderboard.ContributorSingleLine | index.js:24-26 | A bullet holds no line break when the login holds none. |
| Leaderboard.SnippetShape | index.js:29-37 | The snippet `[header, "", ...bullets, ""].join("\n")` starts with `### Top Contributors` and a newline, and ends with a newline. When no login holds a line break, splitting it at newlines gives back exactly the header, a blank line, one bullet per record in order, and a final empty line. |
| Leaderboard.GenerateLeaderboard | index.js:5-40 | A falsy repository fails with the usage message whatever the server would answer. Otherwise the call fails exactly when the response is not OK, with a message that gives its status. On success the result is the snippet of the first three records of the response. |
| Leaderboard.LeaderboardLines | index.js:22-37 | A successful leaderboard has `min(3, n) + 3` lines: the header, a blank line, the bullet of each of the first records in order, and an empty last line. This holds when none of those first `min(3, n)` logins holds a line break. |
| FormatBadges.BadgeSuffix | src/formatBadges.js:3 | The badge tags joined by spaces are empty exactly when there are no badges. Otherwise they start with the first badge's backticked label and end with the last's. |
| FormatBadges.MarkdownLine | src/formatBadges.js:3-4 | A bullet is three pieces back to back, which make up the whole line. First come `- ` and the 40-pixel avatar link to the profile. Then come the ` [@<login>](https://github.com/<login>)` link and the separator as written, each followed by a space. Last come `<commits> commits ` and the badge tags. |
| FormatBadges.MarkdownCommitsRecoverable | src/formatBadges.js:4 | When neither the login nor the avatar URL holds U+201D, the number right after the separator is exactly the commit count. |
| FormatBadges.FormatMarkdown | src/formatBadges.js:1-6 | The output is empty exactly when there are no contributors. Otherwise it starts with the first contributor's bullet and ends with the last's. |
| FormatBadges.LineSingle | src/formatBadges.js:3-4 | A bullet is one line when none of its interpolated fields holds a line break. |
| FormatBadges.MarkdownOneLinePerEntry | src/formatBadges.js:1-6 | No contributors render as the empty string. Otherwise, when no field holds a line break, the output holds exactly `n - 1` line breaks, and splitting at them gives back each contributor's bullet in input order. |
| FormatBadges.SuffixLabels | src/formatBadges.js:3 | Splitting the badge tags at backticks puts the badge labels, in order, at the odd positions. |
| FormatBadges.SuffixSpacing | src/formatBadges.js:3 | In the same split, there are `2 n + 1` pieces for `n` badges. The first piece is the text before the tags, each piece between two tags is a single space, and the last piece is empty. |
| FormatBadges.BadgesRecoverable | src/formatBadges.js:3-4 | When no field holds a backtick, a contributor's badge labels can be read back from its bullet in badge order. A bullet with no badges ends in `commits ` with its trailing space. |
| FormatBadges.DefaultBadgeSuffix | src/formatBadges.js:3 | For every contributor, the default badges render as exactly `` `Top Contributor` ``. |
| FormatBadges.DefaultBadgeLine | src/formatBadges.js:4 | A contributor given the default badges gets a bullet that ends in ``commits `Top Contributor` ``. |
| FormatBadges.Layout | src/formatBadges.js:10-17 | The canvas is 600 wide and `50 n + 40` high. Row `i` is contributor `i`, and its chips carry that contributor's badge labels and colours in order. |
| FormatBadges.RowPlacement | src/formatBadges.js:15-26 | Row `i` has its baseline at `40 + 50 i`. Its avatar is the 40 by 40 square at x 10 whose top edge is 20 above the baseline. |
| FormatBadges.BaselinesIncrease | src/formatBadges.js:15 | Baselines increase strictly down the canvas, 50 apart per row. |
| FormatBadges.AvatarsPlaced | src/formatBadges.js:11-26 | Every avatar lies inside the canvas, and the avatars of two different rows never overlap. |
| FormatBadges.ChipPlacement | src/formatBadges.js:16-20 | Chip `k` is the 90 by 22 rectangle at x `320 + 100 k` whose top edge is 15 above the baseline. Its label is anchored at the rectangle's horizontal centre, on the baseline. |
| FormatBadges.ChipGap | src/formatBadges.js:17-19 | Consecutive chips of a row leave a 10-pixel gap. |
| FormatBadges.ChipsDisjoint | src/formatBadges.js:15-19 | No two chips on the canvas overlap, whether in the same row or in different rows. |
| FormatBadges.AvatarsClearOfChips | src/formatBadges.js:15-26 | No avatar overlaps any chip, whether in its own row or in another. |
| FormatBadges.ChipFits | src/formatBadges.js:11-19 | Every chip lies within the canvas's left, top and bottom edges. It ends within x = 600 exactly when it is the first or second of its row. |
| FormatBadges.RectFillTemplate | src/formatBadges.js:19 | The chip rectangle's `width="90" height="22"` are the layout's chip width and height, `ChipWidth` and `ChipHeight`, as decimal numerals. |
| FormatBadges.AvatarTemplate | src/formatBadges.js:26 | The avatar's `x="10"`, `width="40"` and `height="40"` are the layout's `AvatarX` and `AvatarSize`, and the clipping circle's `20px` radius is half the avatar size. |
| FormatBadges.ChipSvg | src/formatBadges.js:18-21 | A chip is made of four pieces back to back and nothing else. First comes `<rect>` at the chip's x and y. Then come its corner radii, its 90 by 22 size and the badge colour. Then comes the label's `<text>` tag at the chip's label anchor. Last come the label and `</text>`. |
| FormatBadges.ChipFieldsAt | src/formatBadges.js:18-21 | Wherever a chip stands, its four pieces stand in the enclosing text in the same order, from the chip's offset on. |
| FormatBadges.ChipsSvg | src/formatBadges.js:16-22 | The chips' text `${badgesSvg}` starts with its indentation and is exactly `ChipOffset(n)` long. That is where the last of the `n` chips ends, so nothing follows the chips. |
| FormatBadges.ChipInChips | src/formatBadges.js:16-22 | In the chips' text `${badgesSvg}`, chip `k` stands verbatim at `ChipOffset(k)`, right after the indentation and the chips before it. |
| FormatBadges.ChipOffsetStep | src/formatBadges.js:16-22 | Chip `k + 1` starts exactly where chip `k` ends, so nothing comes between two chips. With ChipsSvg and ChipInChips, the chips' text holds the indentation, the chips in badge order, and nothing else. |
| FormatBadges.ChipOffsetsIncrease | src/formatBadges.js:16-22 | Chip offsets increase strictly with the badge index, so chips appear in badge order. |
| FormatBadges.RowSvg | src/formatBadges.js:24-31 | A row block is made of nine pieces back to back and nothing else. They are: the `<a href="https://github.com/<login>">` link; `<image href="<avatarUrl>"`; the avatar's placement at the avatar's y; the login's `<text>` tag on the baseline; `@<login></text>`; the commit count's `<text>` tag on the baseline; `<commits> commits</text>`; the chips; and the closing `</a>`. |
| FormatBadges.RowOffsetsIncrease | src/formatBadges.js:24-31 | A row block starts with the profile link and ends with `</a>`. Inside it the login, the commit count and the chips start at strictly increasing offsets. |
| FormatBadges.RowFieldsAt | src/formatBadges.js:24-31 | Wherever a row block stands, its nine pieces stand in the enclosing text in the same order, from the block's offset on. |
| FormatBadges.RowChipsAt | src/formatBadges.js:24-31 | Wherever a row block stands, its chips' text stands at the block's offset plus `ChipsAt`. With ChipInChips and ChipFieldsAt, this places each chip's pieces in the document. |
| FormatBadges.Render | src/formatBadges.js:32-36 | The rendered document starts with the `<svg>` tag of the canvas and its indentation, and ends with `</svg>`. The close stands at `BlockOffset(n)`, right where the last of the `n` blocks ends, and nothing follows it. |
| FormatBadges.FormatSVG | src/formatBadges.js:9-37 | The document starts with an `<svg>` tag that declares the SVG namespace, width 600 (the interpolated `const width = 600`) and height `50 n + 40`. It ends with `</svg>`. |
| FormatBadges.RenderedBlockAt | src/formatBadges.js:32-36 | Row `i`'s block stands in the rendered document at offset `BlockOffset(i)`. |
| FormatBadges.BlockOffsetStep | src/formatBadges.js:32-36 | The first block starts right after the `<svg>` tag and its indentation. Block `i + 1` starts exactly where block `i` ends. With Render and RenderedBlockAt, the document holds the tag, the blocks in row order and the close, and nothing else. |
| FormatBadges.BlockOffsetsIncrease | src/formatBadges.js:14-32 | Block offsets increase strictly with the row index, so blocks appear in input order. |
| FormatBadges.SvgRowBlocks | src/formatBadges.js:14-36 | The block of contributor `i` stands in the document at `BlockOffset(i)`. Its row carries exactly that contributor's login, avatar URL and commit count. The next block starts exactly where this one ends. With RowFieldsAt this puts those three, verbatim, into the document, along with the rest of the block. |
| FormatBadges.SvgDocumentEnds | src/formatBadges.js:32-36 | After the last contributor's block the document holds only the closing `</svg>` with its indentation. With SvgRowBlocks, there is exactly one block per contributor, in input order, and no other. |

## Left out

- HTTP and JSON: `node-fetch`, the network, and JSON decoding are the `api` parameter. The model does not capture asynchrony or transport errors, and `res.json()` is taken to yield an array of records.
- Decoding failures: `res.json()` can fail, and records can miss fields or have the wrong types. These are not modelled. Records are taken to carry a string `login`, a string `avatar_url` and an integral `contributions`. Fields the code never reads are not modelled.
- Pagination: only the first page the server sends is modelled, as the code does.
- The `ora` spinner (`index.js:8`, `index.js:15`, `index.js:20`) and the unused `chalk` import are console output only.
- `bin/index.js`: the command-line parsing and printing are not part of this model.
- Number rendering: counts and statuses are integers. JavaScript's rendering of non-integral numbers, `NaN`, and exponent notation for very large magnitudes is not modelled.
- Option values: values other than strings and `undefined` are not modelled, such as a number or an object passed as `repo`.
- No escaping: both renderers interpolate fields verbatim. The model makes no claim that the output is well-formed Markdown or SVG.
- FormatBadges.BadgesRecoverable: readback holds only when no field holds a backtick, because such a field would add pieces to the split.
- FormatBadges.MarkdownOneLinePerEntry: the line-per-contributor claims hold only when no field holds a line break.
- Leaderboard.SnippetShape: line recovery holds only when no login holds a line break.
- Leaderboard.LeaderboardLines: line recovery holds only when none of the first three logins holds a line break.
- Leaderboard.ContributorCommitsRecoverable: the readback holds only when the login holds no em dash, because an earlier dash would be read first.
- FormatBadges.MarkdownCommitsRecoverable: the readback holds only when neither the login nor the avatar URL holds U+201D, because an earlier one would be read first.
