/** What the action sees of the remote repository API: the data its four calls return and
    a record of the calls made. The client is an oracle: the outcome of each call is given,
    as success with data or as a thrown error. */
module GitHub {
  import opened Wrappers

  /** One entry of the `listTags` response; the action only reads its name. */
  datatype RemoteTag = RemoteTag(name: string)

  /** The `author` property of a commit in the `compareCommits` response. */
  datatype AuthorField =
    | Missing                          // the commit has no `author` property
    | Null                             // `author: null`, as for a commit by an unknown account
    | Present(login: Option<string>)   // an author object, with or without a `login`

  datatype Commit = Commit(sha: string, message: string, author: AuthorField)

  /** The fields of the `createTag` response the action reads (`data.sha`, `data.tag`). */
  datatype CreatedTag = CreatedTag(sha: string, tag: string)

  /** The fields of the `createRef` response the action reads (`data.ref`, `data.url`). */
  datatype CreatedRef = CreatedRef(ref: string, url: string)

  /** A request sent to the API, with the arguments the action passes. */
  datatype Call =
    | ListTags(perPage: nat)
    | CompareCommits(base: string, head: string)
    | CreateTag(tag: string, message: string)
    | CreateRef(ref: string, sha: string)

  /** `per_page` of the one `listTags` request: later pages are never fetched. */
  const PageSize: nat := 100

  /** The fixed head of the commit comparison. */
  const Head: string := "master"

  /** The answers the remote API gives during one run. */
  datatype Client = Client(
    listTags: Result<seq<RemoteTag>>,
    compareCommits: string -> Result<seq<Commit>>,
    createTag: (string, string) -> Result<CreatedTag>,
    createRef: (string, string) -> Result<CreatedRef>)

  predicate IsCreateCall(c: Call) {
    c.CreateTag? || c.CreateRef?
  }

  /** How many `listTags` requests a trace holds. */
  function ListingCount(calls: seq<Call>): nat {
    if calls == [] then 0
    else (if calls[0].ListTags? then 1 else 0) + ListingCount(calls[1..])
  }

  lemma {:induction false} ListingCountAppend(a: seq<Call>, b: seq<Call>)
    ensures ListingCount(a + b) == ListingCount(a) + ListingCount(b)
    decreases |a|
  {
    if a == [] {
      assert a + b == b;
    } else {
      assert (a + b)[1..] == a[1..] + b;
      ListingCountAppend(a[1..], b);
    }
  }
}
