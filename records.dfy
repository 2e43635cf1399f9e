/** The parsed JSON of one record file of the registry, reduced to the
    members the review reads. */
module Records {
  import opened Effects

  /** One entry of the pull request's file list: its path, its change status
      as GitHub reports it, the commit-scoped raw-content URL and the link to
      the file's view. */
  datatype ChangedFile = ChangedFile(
    filename: string,
    status: string,
    rawUrl: string,
    blobUrl: string)

  /** The `record` object. Only the two keys that name a web target matter:
      `CNAME` (an alias host name) and `URL` (a redirect address). A key is
      `None` when it is absent from the object. */
  datatype Record = Record(cname: Option<string>, url: Option<string>)

  /** A whole record file: `owner.username`, `record`, and the optional
      free-text `description` and `repo`. */
  datatype FileContent = FileContent(
    owner: string,
    record: Record,
    description: Option<string>,
    repo: Option<string>)

  /** The web address to screenshot. `CNAME` wins over `URL` when both are
      present; with neither there is no target (index.js:37-43, 98-104). */
  function TargetUrl(record: Record): (r: Option<string>)
    ensures r.None? <==> record.cname.None? && record.url.None?
    ensures record.cname.Some? ==> r == Some("http://" + record.cname.value)
    ensures record.cname.None? ==> r == record.url
  {
    if record.cname.Some? then Some("http://" + record.cname.value)
    else if record.url.Some? then record.url
    else None
  }

  const NotAvailable := "N/A"

  /** `value || "N/A"`: an absent key and the empty string are both falsy
      in JavaScript and give the placeholder (index.js:50-51, 112-113). */
  function OrNotAvailable(value: Option<string>): (r: string)
    ensures r != ""
    ensures value.Some? && value.value != "" ==> r == value.value
    ensures value.None? || value.value == "" ==> r == NotAvailable
  {
    if value.Some? && value.value != "" then value.value else NotAvailable
  }
}
