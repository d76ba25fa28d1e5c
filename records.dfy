/** The records that flow through the pipeline. */
module Records {

  /** A badge chip: its display label (the source's `label`; `label` is a Dafny keyword)
      and its fill colour. */
  datatype Badge = Badge(text: string, color: string)

  /** One element of the contributor list as the hosting API sends it; the field names
      are the wire names. The fields the code never reads are not modelled. */
  datatype RawRecord = RawRecord(login: string, avatar_url: string, contributions: int)

  /** A contributor after `fetchContributors` has renamed the fields. */
  datatype Contributor = Contributor(login: string, avatarUrl: string, commits: int)

  /** What the renderers take: a contributor with the badges its caller attached. */
  datatype Entry = Entry(login: string, avatarUrl: string, commits: int, badges: seq<Badge>)
}
