/** What the repository API handler guarantees, stated over `HandlerSpec.Respond`
    and the state its writes lead to (`Stores.Run`). */
module HandlerProperties {
  import opened Types
  import opened Stores
  import opened HandlerSpec
  import Content

  /** A POST that passes the token gate and the configuration gate. */
  predicate Admitted(tokens: map<string, Token>, req: Request, env: Env) {
    && req.verb == "POST"
    && Authenticate(tokens, req.authorization).Some?
    && Configured(env.applicationId)
    && Configured(env.apiKey)
  }

  /** The account owning the request's token. */
  function Caller(tokens: map<string, Token>, req: Request): string
    requires Authenticate(tokens, req.authorization).Some?
  {
    Authenticate(tokens, req.authorization).value.belong
  }

  /** Every descriptive field of `r` is the submitted one. */
  predicate Describes(r: Repository, body: Submission) {
    && r.organization == body.organization
    && r.project == body.project
    && r.version == body.version
    && r.readme == body.readme
    && r.kind == body.kind
    && r.repository == body.repository
    && r.entry == body.entry
    && r.author == body.author
    && r.tags == body.tags
  }

  /** The GET branch writes nothing and always answers 200: the ten newest
      records exactly when `id` is null or empty, a lookup of `id` otherwise. */
  lemma GetNeverWrites(tokens: map<string, Token>, req: Request, env: Env, ext: Externals, repos: seq<Repository>)
    requires req.verb == "GET"
    ensures var o := Respond(tokens, req, env, ext, repos);
            && o.effects == []
            && o.response.status == 200
            && (o.response.data == Listing(Latest(10)) <==> req.id == Null || req.id == Text(""))
            && (o.response.data != Listing(Latest(10)) ==> o.response.data == Listing(ById(req.id)))
  {
  }

  /** Any verb other than GET and POST, and only such a verb, is refused with
      the method message; nothing is written. */
  lemma MethodGuard(tokens: map<string, Token>, req: Request, env: Env, ext: Externals, repos: seq<Repository>)
    ensures var o := Respond(tokens, req, env, ext, repos);
            && (o.response == MethodMismatch <==> req.verb != "GET" && req.verb != "POST")
            && (o.response == MethodMismatch ==> o.effects == [])
  {
  }

  /** A POST is refused as 'token is invalid.' exactly when the header is
      missing or the cache does not hold it; nothing is written then. */
  lemma TokenGate(tokens: map<string, Token>, req: Request, env: Env, ext: Externals, repos: seq<Repository>)
    requires req.verb == "POST"
    ensures var o := Respond(tokens, req, env, ext, repos);
            && (o.response == TokenInvalid <==> req.authorization.None? || req.authorization.value !in tokens)
            && (o.response == TokenInvalid ==> o.effects == [])
  {
  }

  /** An empty header string is not refused by the gate itself: it is looked
      up in the cache like any other key. */
  lemma EmptyHeaderIsLookedUp(tokens: map<string, Token>, req: Request, env: Env, ext: Externals, repos: seq<Repository>)
    requires req.verb == "POST" && req.authorization == Some("")
    requires "" in tokens
    ensures Respond(tokens, req, env, ext, repos).response != TokenInvalid
  {
  }

  /** After the token gate: a missing or empty application id gives 500 with
      its message; otherwise a missing or empty API key gives 500 with its
      message. Neither writes. These are the only 500 answers. */
  lemma ConfigurationGate(tokens: map<string, Token>, req: Request, env: Env, ext: Externals, repos: seq<Repository>)
    requires req.verb == "POST" && Authenticate(tokens, req.authorization).Some?
    ensures var o := Respond(tokens, req, env, ext, repos);
            && (!Configured(env.applicationId) ==> o == Outcome(ApplicationIdMissing, []))
            && (Configured(env.applicationId) && !Configured(env.apiKey) ==> o == Outcome(ApiKeyMissing, []))
            && (o.response.status == 500 <==> !Configured(env.applicationId) || !Configured(env.apiKey))
  {
  }

  /** The caller owns one of the records matching (organization, project)
      exactly when the answer is 'repository is already exists.'; nothing is
      written then. */
  lemma ConflictRejected(tokens: map<string, Token>, req: Request, env: Env, ext: Externals, repos: seq<Repository>)
    requires Admitted(tokens, req, env)
    ensures var o := Respond(tokens, req, env, ext, repos);
            && (o.response == AlreadyExists <==> exists i :: 0 <= i < |repos| && repos[i].account == Caller(tokens, req))
            && (o.response == AlreadyExists ==> o.effects == [])
  {
    var owned := OwnedBy(repos, Caller(tokens, req));
    if exists i :: 0 <= i < |repos| && repos[i].account == Caller(tokens, req) {
      var i :| 0 <= i < |repos| && repos[i].account == Caller(tokens, req);
      assert repos[i] in owned;
    }
    if |owned| != 0 {
      assert owned[0] in repos;
    }
  }

  /** The query result is empty exactly when no stored record has the
      submitted (organization, project). */
  lemma EmptyQueryMeansNoMatch(store: map<string, Repository>, organization: string, project: string, repos: seq<Repository>)
    requires IsQueryResult(store, organization, project, repos)
    ensures |repos| == 0 <==> forall id :: id in store ==> !Matches(store[id], organization, project)
  {
    if |repos| != 0 {
      assert Matches(store[repos[0].id], organization, project);
    }
  }

  /** Update path (matching records, none the caller's): the first record is
      rewritten in place. It keeps its id, account and creation time, takes
      the current time as `update` and every descriptive field from the body;
      no other record changes. The index document under that id takes its
      id, url, organization, project, readme url, author and tags from the
      record as it was BEFORE the write, but its content from the README
      served at the SUBMITTED url; the answer echoes the earlier record. The
      store write is issued before the index write. */
  lemma UpdatePath(tokens: map<string, Token>, s: State, req: Request, env: Env, ext: Externals, repos: seq<Repository>)
    requires Admitted(tokens, req, env)
    requires IsQueryResult(s.store, req.body.organization, req.body.project, repos)
    requires |repos| != 0
    requires forall i :: 0 <= i < |repos| ==> repos[i].account != Caller(tokens, req)
    ensures var o := Respond(tokens, req, env, ext, repos);
            var t := Run(s, o.effects);
            var before := repos[0];
            && before == s.store[before.id]
            && o.response == Ok(Record(before))
            && |o.effects| == 2 && o.effects[0].StoreUpdate? && o.effects[1].IndexUpdate?
            && t.store.Keys == s.store.Keys
            && t.store[before.id].id == before.id
            && t.store[before.id].account == before.account
            && t.store[before.id].created == before.created
            && t.store[before.id].update == ext.now
            && Describes(t.store[before.id], req.body)
            && (forall id :: id in s.store && id != before.id ==> t.store[id] == s.store[id])
            && t.index == s.index[before.id := SearchDocument(
                 before.id, before.repository, before.organization, before.project, before.readme,
                 Content.NormalizeContent(ext.fetch(req.body.readme)), before.author, before.tags)]
  {
    ConflictRejected(tokens, req, env, ext, repos);
    var o := Respond(tokens, req, env, ext, repos);
    RunPair(s, o.effects[0], o.effects[1]);
    assert o.effects == [o.effects[0], o.effects[1]];
  }

  /** Create path (no record has the submitted (organization, project)): a
      record is inserted under the fresh id, owned by the caller, created now,
      with the body's own `update` and every descriptive field from the body;
      an index document with the same id is uploaded; the answer carries the
      new record. The store write is issued before the index write. */
  lemma CreatePath(tokens: map<string, Token>, s: State, req: Request, env: Env, ext: Externals, repos: seq<Repository>)
    requires Admitted(tokens, req, env)
    requires IsQueryResult(s.store, req.body.organization, req.body.project, repos)
    requires ext.freshId !in s.store
    requires forall id :: id in s.store ==> !Matches(s.store[id], req.body.organization, req.body.project)
    ensures ext.freshId in Run(s, Respond(tokens, req, env, ext, repos).effects).store
    ensures var o := Respond(tokens, req, env, ext, repos);
            var t := Run(s, o.effects);
            var created := t.store[ext.freshId];
            && t.store == s.store[ext.freshId := created]
            && |t.store| == |s.store| + 1
            && created.id == ext.freshId
            && created.account == Caller(tokens, req)
            && created.created == ext.now
            && created.update == req.body.update
            && Describes(created, req.body)
            && o.response == Ok(Record(created))
            && |o.effects| == 2 && o.effects[0].StoreCreate? && o.effects[1].IndexUpload?
            && t.index == s.index[ext.freshId := SearchDocument(
                 ext.freshId, req.body.repository, req.body.organization, req.body.project, req.body.readme,
                 Content.NormalizeContent(ext.fetch(req.body.readme)), req.body.author, req.body.tags)]
  {
    EmptyQueryMeansNoMatch(s.store, req.body.organization, req.body.project, repos);
    var o := Respond(tokens, req, env, ext, repos);
    RunPair(s, o.effects[0], o.effects[1]);
    assert o.effects == [o.effects[0], o.effects[1]];
  }

  /** Writes happen only on a 200 answer to a POST, and then there are
      exactly two: a store write and, after it, an index write to the same id. */
  lemma DualWrite(tokens: map<string, Token>, req: Request, env: Env, ext: Externals, repos: seq<Repository>)
    ensures var o := Respond(tokens, req, env, ext, repos);
            && (o.effects != [] <==> req.verb == "POST" && o.response.status == 200)
            && (o.effects != [] ==>
                  && |o.effects| == 2
                  && o.effects[0].IsStoreWrite()
                  && o.effects[1].IsIndexWrite()
                  && o.effects[0].Target() == o.effects[1].Target())
  {
  }

  /** Records already stored keep their id, account and creation time across
      any request: an existing record changes owner never. */
  lemma IdentityFieldsPreserved(tokens: map<string, Token>, s: State, req: Request, env: Env, ext: Externals, repos: seq<Repository>)
    requires IsQueryResult(s.store, req.body.organization, req.body.project, repos)
    requires ext.freshId !in s.store
    ensures var t := Run(s, Respond(tokens, req, env, ext, repos).effects);
            forall id :: id in s.store ==>
              && id in t.store
              && t.store[id].id == s.store[id].id
              && t.store[id].account == s.store[id].account
              && t.store[id].created == s.store[id].created
              && Key(t.store[id]) == Key(s.store[id])
  {
    var o := Respond(tokens, req, env, ext, repos);
    if o.effects != [] {
      DualWrite(tokens, req, env, ext, repos);
      RunPair(s, o.effects[0], o.effects[1]);
      assert o.effects == [o.effects[0], o.effects[1]];
    }
  }

  /** The store and the index stay in step: every request keeps `Synced`. */
  lemma SyncedPreserved(tokens: map<string, Token>, s: State, req: Request, env: Env, ext: Externals, repos: seq<Repository>)
    requires Synced(s)
    requires IsQueryResult(s.store, req.body.organization, req.body.project, repos)
    ensures Synced(Run(s, Respond(tokens, req, env, ext, repos).effects))
  {
    var o := Respond(tokens, req, env, ext, repos);
    if o.effects != [] {
      DualWrite(tokens, req, env, ext, repos);
      RunPair(s, o.effects[0], o.effects[1]);
      assert o.effects == [o.effects[0], o.effects[1]];
    }
  }

  /** At most one record per (account, organization, project) before a
      request means the same after it, when the query result is exact. */
  lemma UniquenessPreserved(tokens: map<string, Token>, s: State, req: Request, env: Env, ext: Externals, repos: seq<Repository>)
    requires UniquePerAccount(s.store)
    requires IsQueryResult(s.store, req.body.organization, req.body.project, repos)
    requires ext.freshId !in s.store
    ensures UniquePerAccount(Run(s, Respond(tokens, req, env, ext, repos).effects).store)
  {
    var o := Respond(tokens, req, env, ext, repos);
    var t := Run(s, o.effects);
    IdentityFieldsPreserved(tokens, s, req, env, ext, repos);
    if o.effects != [] {
      DualWrite(tokens, req, env, ext, repos);
      RunPair(s, o.effects[0], o.effects[1]);
      assert o.effects == [o.effects[0], o.effects[1]];
      if o.effects[0].StoreCreate? {
        EmptyQueryMeansNoMatch(s.store, req.body.organization, req.body.project, repos);
        assert t.store == s.store[ext.freshId := o.effects[0].repo];
        forall a, b | a in t.store && b in t.store && Key(t.store[a]) == Key(t.store[b])
          ensures a == b
        {
          if a != ext.freshId && b != ext.freshId {
            assert Key(s.store[a]) == Key(s.store[b]);
          } else if a == ext.freshId && b != ext.freshId {
            assert Matches(s.store[b], req.body.organization, req.body.project);
          } else if b == ext.freshId && a != ext.freshId {
            assert Matches(s.store[a], req.body.organization, req.body.project);
          }
        }
      } else {
        assert t.store.Keys == s.store.Keys;
        forall a, b | a in t.store && b in t.store && Key(t.store[a]) == Key(t.store[b])
          ensures a == b
        {
          assert Key(s.store[a]) == Key(s.store[b]);
        }
      }
    }
  }

  /** Once the caller has created the record for (organization, project), the
      same submission again is refused as a duplicate. */
  lemma ResubmissionAfterCreateConflicts(
    tokens: map<string, Token>, s: State, req: Request, env: Env,
    ext: Externals, repos: seq<Repository>, ext2: Externals, repos2: seq<Repository>)
    requires Admitted(tokens, req, env)
    requires IsQueryResult(s.store, req.body.organization, req.body.project, repos)
    requires ext.freshId !in s.store
    requires |repos| == 0
    requires IsQueryResult(Run(s, Respond(tokens, req, env, ext, repos).effects).store,
                           req.body.organization, req.body.project, repos2)
    ensures Respond(tokens, req, env, ext2, repos2) == Outcome(AlreadyExists, [])
  {
    var o := Respond(tokens, req, env, ext, repos);
    var t := Run(s, o.effects);
    RunPair(s, o.effects[0], o.effects[1]);
    assert o.effects == [o.effects[0], o.effects[1]];
    var created := t.store[ext.freshId];
    assert Matches(created, req.body.organization, req.body.project);
    assert created in repos2;
    var i :| 0 <= i < |repos2| && repos2[i] == created;
    ConflictRejected(tokens, req, env, ext2, repos2);
  }

  /** A submission whose (organization, project) is held only by other
      accounts creates nothing: it rewrites the first such record, which
      stays theirs, and a repeat of it is again an update, not a conflict. */
  lemma OtherAccountsRecordIsRewritten(
    tokens: map<string, Token>, s: State, req: Request, env: Env,
    ext: Externals, repos: seq<Repository>, ext2: Externals, repos2: seq<Repository>)
    requires Admitted(tokens, req, env)
    requires IsQueryResult(s.store, req.body.organization, req.body.project, repos)
    requires ext.freshId !in s.store
    requires exists id :: id in s.store && Matches(s.store[id], req.body.organization, req.body.project)
    requires forall id :: id in s.store && Matches(s.store[id], req.body.organization, req.body.project) ==>
               s.store[id].account != Caller(tokens, req)
    requires IsQueryResult(Run(s, Respond(tokens, req, env, ext, repos).effects).store,
                           req.body.organization, req.body.project, repos2)
    requires ext2.freshId !in Run(s, Respond(tokens, req, env, ext, repos).effects).store
    ensures var t := Run(s, Respond(tokens, req, env, ext, repos).effects);
            && t.store.Keys == s.store.Keys
            && t.store[repos[0].id].account == s.store[repos[0].id].account != Caller(tokens, req)
            && |repos2| != 0
            && Respond(tokens, req, env, ext2, repos2).response == Ok(Record(repos2[0]))
  {
    var o := Respond(tokens, req, env, ext, repos);
    var t := Run(s, o.effects);
    var id0 :| id0 in s.store && Matches(s.store[id0], req.body.organization, req.body.project);
    assert s.store[id0] in repos;
    forall i | 0 <= i < |repos| ensures repos[i].account != Caller(tokens, req) {
      assert s.store[repos[i].id] == repos[i];
    }
    UpdatePath(tokens, s, req, env, ext, repos);
    IdentityFieldsPreserved(tokens, s, req, env, ext, repos);
    assert t.store[id0] in repos2;
    forall i | 0 <= i < |repos2| ensures repos2[i].account != Caller(tokens, req) {
      var id := repos2[i].id;
      assert t.store[id] == repos2[i];
      assert Key(t.store[id]) == Key(s.store[id]);
    }
    ConflictRejected(tokens, req, env, ext2, repos2);
  }

  /** On the update path the index is built from the record as it was before
      the write: when the submission changes the source URL, the indexed url
      and the stored `repository` differ afterwards. */
  lemma UpdateLeavesIndexStale(tokens: map<string, Token>, s: State, req: Request, env: Env, ext: Externals, repos: seq<Repository>)
    requires Admitted(tokens, req, env)
    requires IsQueryResult(s.store, req.body.organization, req.body.project, repos)
    requires |repos| != 0
    requires forall i :: 0 <= i < |repos| ==> repos[i].account != Caller(tokens, req)
    requires req.body.repository != repos[0].repository
    ensures var t := Run(s, Respond(tokens, req, env, ext, repos).effects);
            && repos[0].id in t.store && repos[0].id in t.index
            && t.index[repos[0].id].url != t.store[repos[0].id].repository
  {
    UpdatePath(tokens, s, req, env, ext, repos);
  }
}
