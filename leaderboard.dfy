/** `index.js`: `generateLeaderboard`, the text snippet the command line prints. The
    spinner is not modelled; the awaited `fetch` and `res.json()` are the parameter
    `api`, which answers a request with the response the server would send. */
module Leaderboard {
  import opened Text
  import opened Records
  import opened GitHubApi

  /** The `{ repo, token }` options object. */
  datatype Options = Options(repo: JsString, token: JsString)

  const RepoRequired: string := "Must specify a repo with --repo owner/name"

  const LeaderboardPageSize: string := "3"

  /** The two kinds of failure carry messages that cannot be confused. */
  lemma FailuresDistinct()
    ensures StatusOfApiError(RepoRequired) == None
  {
    assert RepoRequired[0] != ApiErrorPrefix[0];
  }

  /** The request `generateLeaderboard` sends: the repository verbatim, three records per
      page, and the token only when it is truthy. */
  function LeaderboardRequest(repo: string, token: JsString): (req: Request)
    ensures RepoOfUrl(req.url, LeaderboardPageSize) == Some(repo)
    ensures |req.headers| == (if Truthy(token) then 1 else 0)
    ensures TokenOf(req.headers) == (if Truthy(token) then Some(token.value) else None)
  {
    Request(ContributorsUrl(repo, LeaderboardPageSize), AuthHeaders(token))
  }

  /** `data.slice(0, 3)`: the first `min(3, n)` records, in their original order. */
  function TopThree(data: seq<RawRecord>): (top: seq<RawRecord>)
    ensures |top| == if |data| < 3 then |data| else 3
    ensures forall i :: 0 <= i < |top| ==> top[i] == data[i]
  {
    if |data| <= 3 then data else data[..3]
  }

  const EmDash: string := "\U{2014}"

  const ContributorLead: string := "- <img src=\"" + GitHubProfile

  /** The bullet up to the avatar's closing quote: the `- ` list marker, the `<img src=`
      opening and the avatar's address, the profile picture at size 20. */
  function ContributorHead(login: string): string {
    ContributorLead + login + ".png?size=20\""
  }

  /** The image's size, its rounded style and the tag's end, up to the opening of the
      profile link's text `[@`. */
  const ContributorSizing: string :=
    " width=\"20\"" + " height=\"20\"" + " style=\"border-radius:" + "50%\"" + " /> [@"

  /** After the avatar's address: the image's attributes and the `[@login](profile)`
      link. */
  function ContributorLinks(login: string): string {
    ContributorSizing + login + "](" + GitHubProfile + login + ")"
  }

  /** Everything between the avatar's address and the commit count: the links, a space
      and the em dash. */
  function ContributorMiddle(login: string): string {
    ContributorLinks(login) + " " + EmDash
  }

  /** The bullet from the commit count on: a space, the count and ` commits`. */
  function ContributorTail(commits: int): string {
    " " + IntToString(commits) + " commits"
  }

  /** `formatContributor(login, commits)`: one bullet with a 20-pixel avatar, a profile
      link, an em dash and the commit count, the three pieces back to back. */
  function FormatContributor(login: string, commits: int): (line: string)
    ensures StartsWith(line, ContributorHead(login))
    ensures StandsAt(line, |ContributorHead(login)|, ContributorMiddle(login))
    ensures EndsWith(line, ContributorTail(commits))
    ensures |line| ==
      |ContributorHead(login)| + |ContributorMiddle(login)| + |ContributorTail(commits)|
  {
    Ends3(ContributorHead(login), ContributorMiddle(login), ContributorTail(commits));
    StandsBetween(ContributorHead(login), ContributorMiddle(login), ContributorTail(commits));
    ContributorHead(login) + ContributorMiddle(login) + ContributorTail(commits)
  }

  /** The fixed text around the login holds neither a line break nor an em dash. */
  lemma BulletTextLacks(login: string, c: char)
    requires c == '\n' || c == '\U{2014}'
    requires c !in login
    ensures c !in ContributorHead(login) && c !in ContributorLinks(login)
  {
    HeadLacks(login, c);
    LinksLack(login, c);
  }

  lemma HeadLacks(login: string, c: char)
    requires c == '\n' || c == '\U{2014}'
    requires c !in login
    ensures c !in ContributorHead(login)
  {
    assert c !in GitHubProfile;
    assert c !in ContributorLead && c !in ".png?size=20\"";
  }

  lemma LinksLack(login: string, c: char)
    requires c == '\n' || c == '\U{2014}'
    requires c !in login
    ensures c !in ContributorLinks(login)
  {
    SizingLacks(c);
    assert c !in GitHubProfile;
    assert c !in "](" && c !in ")";
  }

  lemma SizingLacks(c: char)
    requires c == '\n' || c == '\U{2014}'
    ensures c !in ContributorSizing
  {
    assert c !in " width=\"20\"" && c !in " height=\"20\"";
    assert c !in " style=\"border-radius:" && c !in "50%\"" && c !in " /> [@";
  }

  /** A bullet is a single line when the login is. */
  lemma ContributorSingleLine(login: string, commits: int)
    requires '\n' !in login
    ensures '\n' !in FormatContributor(login, commits)
  {
    BulletTextLacks(login, '\n');
    assert '\n' !in " " + EmDash;
    NumeralFree(commits, '\n');
  }

  /** The commit count reads back from a bullet: the number after its first em dash is
      the count, provided the login holds no em dash. */
  lemma ContributorCommitsRecoverable(login: string, commits: int)
    requires '\U{2014}' !in login
    ensures NumberAfter(FormatContributor(login, commits), '\U{2014}') == Some(commits)
  {
    BulletTextLacks(login, '\U{2014}');
    CountAfterDash(FormatContributor(login, commits), ContributorHead(login),
      ContributorLinks(login), ContributorMiddle(login), ContributorTail(commits), commits);
  }

  lemma CountAfterDash(line: string, head: string, links: string, middle: string, tail: string,
                       n: int)
    requires line == head + middle + tail && middle == links + " " + EmDash
    requires '\U{2014}' !in head && '\U{2014}' !in links
    requires tail == ContributorTail(n)
    ensures NumberAfter(line, '\U{2014}') == Some(n)
  {
    assert After(EmDash, '\U{2014}') == "";
    AfterSkip(links + " ", EmDash, '\U{2014}');
    AfterSkip(head, middle, '\U{2014}');
    assert '\U{2014}' in head + middle by { assert (head + middle)[|head + middle| - 1] == '\U{2014}'; }
    AfterWithin(head + middle, tail, '\U{2014}');
    assert tail == " " + (IntToString(n) + " commits");
    NumberAfterReads(line, '\U{2014}', n, " commits");
  }

  function ContributorLines(top: seq<RawRecord>): (lines: seq<string>)
    ensures |lines| == |top|
  {
    seq(|top|, i requires 0 <= i < |top| => FormatContributor(top[i].login, top[i].contributions))
  }

  const SnippetHeader: string := "### Top Contributors"

  /** The lines of the snippet before they are joined. */
  function SnippetLines(top: seq<RawRecord>): (lines: seq<string>)
    ensures |lines| == |top| + 3
  {
    [SnippetHeader, ""] + ContributorLines(top) + [""]
  }

  /** `[header, "", ...lines, ""].join("\n")`. */
  function Snippet(top: seq<RawRecord>): string {
    Join(SnippetLines(top), "\n")
  }

  /** Where each line of the snippet stands before the join. */
  lemma SnippetLinesAt(top: seq<RawRecord>)
    ensures var lines := SnippetLines(top);
      lines[0] == SnippetHeader && lines[1] == "" && lines[|lines| - 1] == "" &&
      forall i :: 0 <= i < |top| ==>
        lines[i + 2] == FormatContributor(top[i].login, top[i].contributions)
  {
    Bracketed(SnippetHeader, "", ContributorLines(top), "");
  }

  /** No line of the snippet holds a line break when no login does. */
  lemma SnippetLinesSingle(top: seq<RawRecord>)
    requires forall i :: 0 <= i < |top| ==> '\n' !in top[i].login
    ensures forall k :: 0 <= k < |SnippetLines(top)| ==> '\n' !in SnippetLines(top)[k]
  {
    var lines := SnippetLines(top);
    SnippetLinesAt(top);
    assert '\n' !in SnippetHeader;
    forall k | 0 <= k < |lines| ensures '\n' !in lines[k] {
      if 2 <= k < |lines| - 1 {
        ContributorSingleLine(top[k - 2].login, top[k - 2].contributions);
      }
    }
  }

  /** The snippet opens with the header line and ends with a newline; when no login holds
      a line break, its lines are exactly the header, a blank line, one bullet per record
      in order, and a final empty line. */
  lemma SnippetShape(top: seq<RawRecord>)
    ensures StartsWith(Snippet(top), SnippetHeader + "\n")
    ensures EndsWith(Snippet(top), "\n")
    ensures (forall i :: 0 <= i < |top| ==> '\n' !in top[i].login) ==>
      Split(Snippet(top), '\n') == SnippetLines(top)
  {
    JoinEnds(SnippetLines(top), "\n");
    if forall i :: 0 <= i < |top| ==> '\n' !in top[i].login {
      SnippetLinesSingle(top);
      SplitJoin(SnippetLines(top), '\n');
    }
  }

  /** `generateLeaderboard({ repo, token })`. A falsy repository (absent or empty) fails
      before any request, whatever the server would answer; otherwise the call fails
      exactly when the response is not OK, with a message that reports its status, and
      succeeds with the snippet of the first three records. */
  function GenerateLeaderboard(opts: Options, api: Request -> Response): (r: Result<string>)
    ensures !Truthy(opts.repo) ==> r == Err(RepoRequired)
    ensures Truthy(opts.repo) ==>
      (r.Err? <==> !api(LeaderboardRequest(opts.repo.value, opts.token)).ok)
    ensures Truthy(opts.repo) && r.Err? ==>
      StatusOfApiError(r.message) == Some(api(LeaderboardRequest(opts.repo.value, opts.token)).status)
    ensures r.Ok? ==> (Truthy(opts.repo) &&
      r.value == Snippet(TopThree(api(LeaderboardRequest(opts.repo.value, opts.token)).body)))
  {
    if !Truthy(opts.repo) then Err(RepoRequired)
    else
      var res := api(LeaderboardRequest(opts.repo.value, opts.token));
      if !res.ok then Err(ApiErrorMessage(res.status))
      else Ok(Snippet(TopThree(res.body)))
  }

  /** A successful leaderboard has `min(3, n) + 3` lines: the header, a blank line, the
      bullets of the first records of the response in their order, and an empty last
      line (provided none of those first logins holds a line break). */
  lemma LeaderboardLines(opts: Options, api: Request -> Response)
    requires GenerateLeaderboard(opts, api).Ok?
    ensures var body := api(LeaderboardRequest(opts.repo.value, opts.token)).body;
      var pieces := Split(GenerateLeaderboard(opts, api).value, '\n');
      (forall i :: 0 <= i < |body| && i < 3 ==> '\n' !in body[i].login) ==>
        |pieces| == (if |body| < 3 then |body| else 3) + 3 &&
        pieces[0] == SnippetHeader && pieces[1] == "" && pieces[|pieces| - 1] == "" &&
        forall i :: 0 <= i < |pieces| - 3 ==>
          pieces[i + 2] == FormatContributor(body[i].login, body[i].contributions)
  {
    var body := api(LeaderboardRequest(opts.repo.value, opts.token)).body;
    if forall i :: 0 <= i < |body| && i < 3 ==> '\n' !in body[i].login {
      TopLines(GenerateLeaderboard(opts, api).value, body);
    }
  }

  /** The lines of the snippet of the first records of `body`. */
  lemma TopLines(snippet: string, body: seq<RawRecord>)
    requires snippet == Snippet(TopThree(body))
    requires forall i :: 0 <= i < |body| && i < 3 ==> '\n' !in body[i].login
    ensures var pieces := Split(snippet, '\n');
      |pieces| == (if |body| < 3 then |body| else 3) + 3 &&
      pieces[0] == SnippetHeader && pieces[1] == "" && pieces[|pieces| - 1] == "" &&
      forall i :: 0 <= i < |pieces| - 3 ==>
        pieces[i + 2] == FormatContributor(body[i].login, body[i].contributions)
  {
    var top := TopThree(body);
    assert forall i :: 0 <= i < |top| ==> '\n' !in top[i].login;
    SnippetShape(top);
    SnippetLinesAt(top);
  }
}
