/** The two external services the POST branch writes to, as abstract state:
    the repository store (records by id) and the search index (documents by
    id). A write the handler issues is an `Effect`; `Run` gives the state
    after a sequence of writes, applied in order. */
module Stores {
  import opened Types

  datatype State = State(store: map<string, Repository>, index: map<string, SearchDocument>)

  /** One call to an external service: `createRepository`/`updateRepository`
      on the store, `upload`/`update` on the search index. */
  datatype Effect =
    | StoreCreate(repo: Repository)
    | StoreUpdate(id: string, repo: Repository)
    | IndexUpload(doc: SearchDocument)
    | IndexUpdate(doc: SearchDocument)
  {
    predicate IsStoreWrite() { StoreCreate? || StoreUpdate? }
    predicate IsIndexWrite() { IndexUpload? || IndexUpdate? }

    /** The id the write is addressed to. */
    function Target(): string {
      match this
      case StoreCreate(repo) => repo.id
      case StoreUpdate(id, _) => id
      case IndexUpload(doc) => doc.id
      case IndexUpdate(doc) => doc.id
    }
  }

  /** The state after one write. Both index operations store the whole
      document under its id. */
  function Apply(s: State, e: Effect): State {
    match e
    case StoreCreate(repo) => s.(store := s.store[repo.id := repo])
    case StoreUpdate(id, repo) => s.(store := s.store[id := repo])
    case IndexUpload(doc) => s.(index := s.index[doc.id := doc])
    case IndexUpdate(doc) => s.(index := s.index[doc.id := doc])
  }

  /** The state after the writes `effects`, first to last. */
  function Run(s: State, effects: seq<Effect>): State
    decreases |effects|
  {
    if effects == [] then s else Run(Apply(s, effects[0]), effects[1..])
  }

  /** A store write followed by an index write: the two writes of one request. */
  lemma RunPair(s: State, first: Effect, second: Effect)
    ensures Run(s, [first, second]) == Apply(Apply(s, first), second)
  {
    assert [first, second][1..] == [second];
    calc {
      Run(s, [first, second]);
      Run(Apply(s, first), [second]);
      { assert [second][1..] == []; }
      Run(Apply(Apply(s, first), second), []);
    }
  }

  predicate Matches(r: Repository, organization: string, project: string) {
    r.organization == organization && r.project == project
  }

  /** `repos` is what `readRepositoryByOrganizationAndProject(organization,
      project)` returns on `store`: stored records only, each matching the
      pair, and every matching record among them, in an order the store
      chooses. A row is found through the key it is stored under, so this
      presumes the store keys each record by its own id, as the database
      does: a store holding a matching record under another key has no
      query result. */
  ghost predicate IsQueryResult(store: map<string, Repository>, organization: string, project: string, repos: seq<Repository>) {
    && (forall i :: 0 <= i < |repos| ==>
          Matches(repos[i], organization, project) && repos[i].id in store && store[repos[i].id] == repos[i])
    && (forall id :: id in store && Matches(store[id], organization, project) ==> store[id] in repos)
  }

  /** Every record is stored under its own id, every document is indexed
      under its own id, and the store and the index hold the same ids. */
  ghost predicate Synced(s: State) {
    && s.store.Keys == s.index.Keys
    && (forall id :: id in s.store ==> s.store[id].id == id)
    && (forall id :: id in s.index ==> s.index[id].id == id)
  }

  /** The per-account natural key of a record. */
  function Key(r: Repository): (string, string, string) {
    (r.account, r.organization, r.project)
  }

  /** At most one record per (account, organization, project). */
  ghost predicate UniquePerAccount(store: map<string, Repository>) {
    forall a, b :: a in store && b in store && Key(store[a]) == Key(store[b]) ==> a == b
  }
}
