/** The request/response vocabulary shared by `index.js` and `src/fetch.js`: how a
    contributors request is addressed and authorised, and how a failed response becomes
    an error. The HTTP exchange itself is a parameter of the callers. */
module GitHubApi {
  import opened Text
  import opened Records

  /** A JavaScript value that is `undefined` or a string, as option values arrive. */
  type JsString = Option<string>

  /** JavaScript truthiness of such a value: only a non-empty string is truthy. */
  predicate Truthy(v: JsString) {
    v.Some? && v.value != ""
  }

  /** The values `!v` accepts are exactly `undefined` and the empty string. */
  lemma FalsyValues(v: JsString)
    ensures !Truthy(v) <==> v == None || v == Some("")
  {
  }

  /** `${v}` in a template literal. */
  function Interpolate(v: JsString): string {
    if v.Some? then v.value else "undefined"
  }

  datatype Header = Header(name: string, value: string)

  datatype Request = Request(url: string, headers: seq<Header>)

  /** The parts of a fetch response that the code reads: `status`, `ok`, and the JSON
      array `res.json()` decodes, in the order the API sent it. */
  datatype Response = Response(status: int, ok: bool, body: seq<RawRecord>)

  /** The value of the first header called `name`. */
  function Lookup(headers: seq<Header>, name: string): Option<string>
    decreases |headers|
  {
    if |headers| == 0 then None
    else if headers[0].name == name then Some(headers[0].value)
    else Lookup(headers[1..], name)
  }

  const AuthScheme: string := "token "

  /** The token a server reads back from an `Authorization: token <t>` header. */
  function TokenOf(headers: seq<Header>): Option<string> {
    match Lookup(headers, "Authorization")
    case Some(v) => if StartsWith(v, AuthScheme) then Some(v[|AuthScheme|..]) else None
    case None => None
  }

  /** `token ? { Authorization: `token ${token}` } : {}`: one header carrying exactly the
      token when it is truthy, no header at all otherwise. */
  function AuthHeaders(token: JsString): (h: seq<Header>)
    ensures |h| == (if Truthy(token) then 1 else 0)
    ensures TokenOf(h) == (if Truthy(token) then Some(token.value) else None)
  {
    if Truthy(token) then
      var v := AuthScheme + token.value;
      assert v[|AuthScheme|..] == token.value;
      [Header("Authorization", v)]
    else []
  }

  /** Profile pages: `https://github.com/<login>`. */
  const GitHubProfile: string := "https://github.com/"

  const ReposPrefix: string := "https://api.github.com/repos/"

  function ContributorsSuffix(perPage: string): string {
    "/contributors?per_page=" + perPage
  }

  /** The repository a contributors URL names, read back from between its fixed prefix
      and its `per_page` suffix. */
  function RepoOfUrl(url: string, perPage: string): Option<string> {
    var suffix := ContributorsSuffix(perPage);
    if |ReposPrefix| + |suffix| <= |url| && StartsWith(url, ReposPrefix) && EndsWith(url, suffix)
    then Some(url[|ReposPrefix|..|url| - |suffix|])
    else None
  }

  /** `https://api.github.com/repos/${repo}/contributors?per_page=N`: the repository goes
      in verbatim, whatever it contains, and can be read back unchanged. */
  function ContributorsUrl(repo: string, perPage: string): (url: string)
    ensures RepoOfUrl(url, perPage) == Some(repo)
  {
    var url := ReposPrefix + repo + ContributorsSuffix(perPage);
    assert url[..|ReposPrefix|] == ReposPrefix;
    assert url[|url| - |ContributorsSuffix(perPage)|..] == ContributorsSuffix(perPage);
    assert url[|ReposPrefix|..|url| - |ContributorsSuffix(perPage)|] == repo;
    url
  }

  const ApiErrorPrefix: string := "GitHub API error: "

  /** The status an error message of the form `GitHub API error: <status>` reports. */
  function StatusOfApiError(message: string): Option<int> {
    if StartsWith(message, ApiErrorPrefix) then ParseInt(message[|ApiErrorPrefix|..]) else None
  }

  /** `GitHub API error: ${res.status}`: the message reports the status exactly. */
  function ApiErrorMessage(status: int): (m: string)
    ensures StatusOfApiError(m) == Some(status)
  {
    var m := ApiErrorPrefix + IntToString(status);
    assert m[..|ApiErrorPrefix|] == ApiErrorPrefix;
    assert m[|ApiErrorPrefix|..] == IntToString(status);
    IntRoundTrip(status);
    m
  }
}
