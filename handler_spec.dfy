/** The repository API handler as a function: what it answers and which
    writes it issues, in order, for a request. The store query result
    `repos`, the environment and the external inputs are parameters; the
    state the writes lead to is `Stores.Run` of the writes. */
module HandlerSpec {
  import opened Types
  import opened Stores
  import Content

  /** The answer and the writes of one request, in the order issued. */
  datatype Outcome = Outcome(response: Response, effects: seq<Effect>)

  /** The token gate: the header must be present and the cache must hold it.
      An empty header string is looked up like any other. */
  function Authenticate(tokens: map<string, Token>, header: Option<string>): Option<Token> {
    match header
    case None => None
    case Some(key) => if key in tokens then Some(tokens[key]) else None
  }

  /** A secret read from the environment is set when it is neither missing
      nor the empty string (JavaScript truthiness of a string). */
  predicate Configured(secret: Option<string>) {
    secret.Some? && secret.value != ""
  }

  /** The read the GET branch issues: the ten newest records for a null or
      empty `id`, a lookup by `id` for anything else, a missing `id` included. */
  function ReadFor(id: QueryId): StoreRead {
    if id == Null || id == Text("") then Latest(10) else ById(id)
  }

  /** The records of `repos` that `account` owns, in their order. */
  function OwnedBy(repos: seq<Repository>, account: string): (owned: seq<Repository>)
    ensures forall r :: r in owned <==> r in repos && r.account == account
    ensures |owned| <= |repos|
  {
    if repos == [] then []
    else
      assert forall r :: r in repos <==> r == repos[0] || r in repos[1..] by {
        assert repos == [repos[0]] + repos[1..];
      }
      if repos[0].account == account then [repos[0]] + OwnedBy(repos[1..], account)
      else OwnedBy(repos[1..], account)
  }

  /** The record the update path writes over `repo`. */
  function Revised(repo: Repository, body: Submission, now: string): Repository {
    Repository(repo.id, repo.account, repo.created, now,
               body.organization, body.project, body.version, body.readme,
               body.kind, body.repository, body.entry, body.author, body.tags)
  }

  /** The record the create path inserts. Its `update` is the body's own. */
  function Fresh(id: string, account: string, now: string, body: Submission): Repository {
    Repository(id, account, now, body.update,
               body.organization, body.project, body.version, body.readme,
               body.kind, body.repository, body.entry, body.author, body.tags)
  }

  /** The search document built from `repo` and a fetched README text. */
  function Document(repo: Repository, readmeText: Content.Text): SearchDocument {
    SearchDocument(repo.id, repo.repository, repo.organization, repo.project,
                   repo.readme, Content.NormalizeContent(readmeText), repo.author, repo.tags)
  }

  /** Conflict, update or create, for an authenticated and configured POST.
      The README text is the one served at the SUBMITTED url, on both paths. */
  function Reconcile(account: string, body: Submission, ext: Externals, repos: seq<Repository>): Outcome {
    var readmeText := ext.fetch(body.readme);
    if |repos| != 0 then
      if |OwnedBy(repos, account)| != 0 then Outcome(AlreadyExists, [])
      else
        var repo := repos[0];
        Outcome(Ok(Record(repo)),
                [StoreUpdate(repo.id, Revised(repo, body, ext.now)), IndexUpdate(Document(repo, readmeText))])
    else
      var repo := Fresh(ext.freshId, account, ext.now, body);
      Outcome(Ok(Record(repo)), [StoreCreate(repo), IndexUpload(Document(repo, readmeText))])
  }

  /** The POST branch: token gate, configuration gate, then reconciliation. */
  function Submit(tokens: map<string, Token>, req: Request, env: Env, ext: Externals, repos: seq<Repository>): Outcome {
    match Authenticate(tokens, req.authorization)
    case None => Outcome(TokenInvalid, [])
    case Some(token) =>
      if !Configured(env.applicationId) then Outcome(ApplicationIdMissing, [])
      else if !Configured(env.apiKey) then Outcome(ApiKeyMissing, [])
      else Reconcile(token.belong, req.body, ext, repos)
  }

  /** The whole handler: GET, POST, or the method guard. */
  function Respond(tokens: map<string, Token>, req: Request, env: Env, ext: Externals, repos: seq<Repository>): Outcome {
    if req.verb == "GET" then Outcome(Ok(Listing(ReadFor(req.id))), [])
    else if req.verb == "POST" then Submit(tokens, req, env, ext, repos)
    else Outcome(MethodMismatch, [])
  }
}
