/** `src/fetch.js`: the contributor source and the default badge generator. The awaited
    `fetch` and `res.json()` are the parameter `api`, which answers a request with the
    response the server would send. */
module Fetch {
  import opened Text
  import opened Records
  import opened GitHubApi

  const FetchPageSize: string := "10"

  /** The request `fetchContributors(repo, token)` sends: the repository, unvalidated
      (an absent one reads as `undefined`), ten records per page, and the token only when
      it is truthy. */
  function FetchRequest(repo: JsString, token: JsString): (req: Request)
    ensures RepoOfUrl(req.url, FetchPageSize) == Some(Interpolate(repo))
    ensures |req.headers| == (if Truthy(token) then 1 else 0)
    ensures TokenOf(req.headers) == (if Truthy(token) then Some(token.value) else None)
  {
    Request(ContributorsUrl(Interpolate(repo), FetchPageSize), AuthHeaders(token))
  }

  /** The field renaming `data.map(u => ...)`: same length, same order, each field taken
      from the record at the same position. */
  function Normalize(data: seq<RawRecord>): (cs: seq<Contributor>)
    ensures |cs| == |data|
    ensures forall i :: 0 <= i < |data| ==>
      cs[i].login == data[i].login && cs[i].avatarUrl == data[i].avatar_url &&
      cs[i].commits == data[i].contributions
  {
    seq(|data|, i requires 0 <= i < |data| =>
      Contributor(data[i].login, data[i].avatar_url, data[i].contributions))
  }

  /** The reverse renaming, back to the wire names. */
  function Denormalize(cs: seq<Contributor>): (data: seq<RawRecord>)
    ensures |data| == |cs|
  {
    seq(|cs|, i requires 0 <= i < |cs| => RawRecord(cs[i].login, cs[i].avatarUrl, cs[i].commits))
  }

  /** The renaming loses nothing of the fields it keeps. */
  lemma NormalizeLossless(data: seq<RawRecord>)
    ensures Denormalize(Normalize(data)) == data
  {
    var back := Denormalize(Normalize(data));
    assert forall i :: 0 <= i < |data| ==> back[i] == data[i];
  }

  /** Mapping commutes with concatenation: the records of a longer page come out after
      those of its prefix, in the order they arrived. */
  lemma NormalizeAppend(a: seq<RawRecord>, b: seq<RawRecord>)
    ensures Normalize(a + b) == Normalize(a) + Normalize(b)
  {
    var l, r := Normalize(a + b), Normalize(a) + Normalize(b);
    assert forall i :: 0 <= i < |a| + |b| ==> l[i] == r[i] by {
      forall i | 0 <= i < |a| + |b| ensures l[i] == r[i] {
        if i < |a| { assert (a + b)[i] == a[i]; } else { assert (a + b)[i] == b[i - |a|]; }
      }
    }
  }

  /** `fetchContributors(repo, token)`: fails exactly when the response is not OK, with a
      message that reports its status; otherwise every record of the body, renamed, in
      the order received. */
  function FetchContributors(repo: JsString, token: JsString, api: Request -> Response)
    : (r: Result<seq<Contributor>>)
    ensures r.Err? <==> !api(FetchRequest(repo, token)).ok
    ensures r.Err? ==> StatusOfApiError(r.message) == Some(api(FetchRequest(repo, token)).status)
    ensures r.Ok? ==> r.value == Normalize(api(FetchRequest(repo, token)).body)
  {
    var res := api(FetchRequest(repo, token));
    if !res.ok then Err(ApiErrorMessage(res.status))
    else Ok(Normalize(res.body))
  }

  const TopContributor: Badge := Badge("Top Contributor", "#2ea44f")

  /** `defaultBadgeGenerator(contributor)`: whatever the contributor, exactly one badge,
      the green "Top Contributor". */
  function DefaultBadgeGenerator(c: Contributor): (badges: seq<Badge>)
    ensures |badges| == 1
    ensures badges[0].text == "Top Contributor" && badges[0].color == "#2ea44f"
  {
    [TopContributor]
  }
}
