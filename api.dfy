/** The repository API handler as the source runs it: step-by-step checks
    with early returns, then the store write followed by the index write.
    `Backend` holds the token cache, the repository store and the search
    index; `calls` records the writes made to the two services, in order. */
module Api {
  import opened Types
  import opened Stores
  import opened HandlerSpec
  import HandlerProperties

  class Backend {
    var tokens: map<string, Token>
    var store: map<string, Repository>
    var index: map<string, SearchDocument>
    ghost var calls: seq<Effect>

    /** The store and the index as one value. */
    function Snapshot(): State
      reads this
    {
      State(store, index)
    }

    constructor (tokens: map<string, Token>, store: map<string, Repository>, index: map<string, SearchDocument>)
      ensures this.tokens == tokens && Snapshot() == State(store, index) && calls == []
    {
      this.tokens := tokens;
      this.store := store;
      this.index := index;
      calls := [];
    }

    /** `createRepository`: inserts a record under its (fresh) id. */
    method CreateRepository(repo: Repository)
      requires repo.id !in store
      modifies this`store, this`calls
      ensures store == old(store)[repo.id := repo]
      ensures calls == old(calls) + [StoreCreate(repo)]
    {
      store := store[repo.id := repo];
      calls := calls + [StoreCreate(repo)];
    }

    /** `updateRepository`: replaces the record stored under `id`. */
    method UpdateRepository(id: string, repo: Repository)
      modifies this`store, this`calls
      ensures store == old(store)[id := repo]
      ensures calls == old(calls) + [StoreUpdate(id, repo)]
    {
      store := store[id := repo];
      calls := calls + [StoreUpdate(id, repo)];
    }

    /** The search service's `upload`: indexes a new document under its id. */
    method Upload(doc: SearchDocument)
      modifies this`index, this`calls
      ensures index == old(index)[doc.id := doc]
      ensures calls == old(calls) + [IndexUpload(doc)]
    {
      index := index[doc.id := doc];
      calls := calls + [IndexUpload(doc)];
    }

    /** The search service's `update`: replaces the document under its id. */
    method UpdateDocument(doc: SearchDocument)
      modifies this`index, this`calls
      ensures index == old(index)[doc.id := doc]
      ensures calls == old(calls) + [IndexUpdate(doc)]
    {
      index := index[doc.id := doc];
      calls := calls + [IndexUpdate(doc)];
    }

    /** The handler. `repos` is what the store returns for the submitted
        (organization, project); `ext.freshId` is the UUID a create uses.
        The answer and the writes are those of `HandlerSpec.Respond`, the
        writes are made in its order, and the store and the index stay in
        step. */
    method Handler(req: Request, env: Env, ext: Externals, repos: seq<Repository>) returns (res: Response)
      requires IsQueryResult(store, req.body.organization, req.body.project, repos)
      requires ext.freshId !in store
      modifies this`store, this`index, this`calls
      ensures var o := Respond(tokens, req, env, ext, repos);
              && res == o.response
              && calls == old(calls) + o.effects
              && Snapshot() == Run(old(Snapshot()), o.effects)
      ensures old(Synced(Snapshot())) ==> Synced(Snapshot())
    {
      ghost var before := Snapshot();
      if Synced(before) {
        HandlerProperties.SyncedPreserved(tokens, before, req, env, ext, repos);
      }
      if req.verb == "GET" {
        if req.id == Null || req.id == Text("") {
          res := Ok(Listing(Latest(10)));
          return;
        }
        res := Ok(Listing(ById(req.id)));
      } else if req.verb == "POST" {
        var token := Authenticate(tokens, req.authorization);
        if token.None? {
          res := TokenInvalid;
          return;
        }
        var body := req.body;

        if !Configured(env.applicationId) {
          res := ApplicationIdMissing;
          return;
        }
        if !Configured(env.apiKey) {
          res := ApiKeyMissing;
          return;
        }
        var readmeText := ext.fetch(body.readme);

        if |repos| != 0 {
          var owned := OwnedBy(repos, token.value.belong);
          if |owned| != 0 {
            res := AlreadyExists;
            return;
          }
          var repo := repos[0];
          UpdateRepository(repo.id, Revised(repo, body, ext.now));
          UpdateDocument(Document(repo, readmeText));
          RunPair(before, StoreUpdate(repo.id, Revised(repo, body, ext.now)), IndexUpdate(Document(repo, readmeText)));
          res := Ok(Record(repo));
          return;
        } else {
          var repo := Fresh(ext.freshId, token.value.belong, ext.now, body);
          CreateRepository(repo);
          Upload(Document(repo, readmeText));
          RunPair(before, StoreCreate(repo), IndexUpload(Document(repo, readmeText)));
          res := Ok(Record(repo));
        }
      } else {
        res := MethodMismatch;
      }
    }
  }
}
