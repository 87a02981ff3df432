/** Values exchanged by the repository API handler: the stored repository
    record, the search document derived from it, the incoming request and the
    response envelope. */
module Types {
  import Content

  datatype Option<T> = None | Some(value: T)

  /** An entry of the token cache: `belong` is the account that owns the token. */
  datatype Token = Token(belong: string)

  /** A stored repository record. The source's field `type` is called `kind`
      here because `type` is a Dafny keyword. Timestamps are the decimal
      strings the handler produces with `new Date().getTime().toString()`. */
  datatype Repository = Repository(
    id: string,
    account: string,
    created: string,
    update: string,
    organization: string,
    project: string,
    version: string,
    readme: string,
    kind: string,
    repository: string,
    entry: string,
    author: string,
    tags: string)

  /** The form fields the POST branch destructures from the request body. */
  datatype Submission = Submission(
    update: string,
    organization: string,
    project: string,
    version: string,
    readme: string,
    kind: string,
    repository: string,
    entry: string,
    author: string,
    tags: string)

  /** The document kept in the search index for one repository. */
  datatype SearchDocument = SearchDocument(
    id: string,
    url: string,
    organization: string,
    project: string,
    readme: string,
    content: Content.Text,
    author: string,
    tags: string)

  /** The `id` query parameter as the GET branch receives it: missing, null,
      one string, or the array a repeated parameter yields. */
  datatype QueryId = Absent | Null | Text(text: string) | Several(texts: seq<string>)

  /** An incoming request: the HTTP verb, the `id` query parameter, the
      `authorization` header (None when undefined or null) and the body. */
  datatype Request = Request(
    verb: string,
    id: QueryId,
    authorization: Option<string>,
    body: Submission)

  /** The two search-service secrets read from the process environment. */
  datatype Env = Env(applicationId: Option<string>, apiKey: Option<string>)

  /** What the handler obtains from outside the program: `fetch` gives the
      text served at a README URL, `now` the current time and `freshId` the
      UUID generated for a new record. */
  datatype Externals = Externals(fetch: string -> Content.Text, now: string, freshId: string)

  /** The read the GET branch issues against the repository store. */
  datatype StoreRead = Latest(limit: nat) | ById(id: QueryId)

  /** The `data` part of the response envelope. */
  datatype Payload = NoData | Listing(read: StoreRead) | Record(repo: Repository)

  /** The response envelope: status code, message and data. */
  datatype Response = Response(status: int, message: string, data: Payload)

  const TokenInvalid := Response(400, "token is invalid.", NoData)
  const ApplicationIdMissing := Response(500, "ALGOLIA_APPLICATION_ID is not set", NoData)
  const ApiKeyMissing := Response(500, "ALGOLIA_API_KEY is not set", NoData)
  const AlreadyExists := Response(400, "repository is already exists.", NoData)
  const MethodMismatch := Response(400, "request method not match.", NoData)

  function Ok(data: Payload): Response {
    Response(200, "OK", data)
  }
}
