/**
 * `UpdateAlmanaxBonusIndex` of server.go: for every language but "pt", fetch
 * the bonus listing, turn it into index documents and either rebuild the
 * language's index (full mode) or upsert the documents a limit-1 search does
 * not find by name (incremental mode). The first failure ends the run with the
 * count so far.
 */
module Reconciler {
  import opened Wrappers
  import opened Strings
  import opened Strconv
  import opened Types
  import opened Meili
  import opened Server

  /** `http.Get` of the listing endpoint followed by JSON decoding. */
  datatype FetchResult = TransportError | DecodeError | Fetched(bonuses: seq<AlmanaxBonusListing>)

  const URL_PREFIX: string := "https://api.dofusdu.de/dofus2/meta/"
  const URL_SUFFIX: string := "/almanax/bonuses"

  function BonusesUrl(lang: string): string {
    URL_PREFIX + lang + URL_SUFFIX
  }

  /** Different languages are fetched from different URLs. */
  lemma BonusesUrlDiffers(a: string, b: string)
    requires a != b
    ensures BonusesUrl(a) != BonusesUrl(b)
  {
    var n := |URL_PREFIX|;
    if |a| == |b| {
      assert BonusesUrl(a)[n..n + |a|] == a;
      assert BonusesUrl(b)[n..n + |b|] == b;
    }
  }

  /** The documents for one listing: document `i` has surrogate id `Itoa(i)`. */
  function Project(bonuses: seq<AlmanaxBonusListing>): (r: seq<Doc>)
    ensures |r| == |bonuses|
  {
    seq(|bonuses|, i requires 0 <= i < |bonuses| => AlmanaxBonusListingMeili(Itoa(i), bonuses[i].id, bonuses[i].name))
  }

  /** An index that holds exactly the documents of a listing. */
  function ProjectIndex(bonuses: seq<AlmanaxBonusListing>): Index {
    UpsertAll(map[], Project(bonuses))
  }

  /** Surrogate ids never collide within one listing. */
  lemma ProjectDistinct(bonuses: seq<AlmanaxBonusListing>)
    ensures DistinctIds(Project(bonuses))
  {
    var docs := Project(bonuses);
    forall i, j | 0 <= i < j < |docs| ensures docs[i].id != docs[j].id {
      if docs[i].id == docs[j].id {
        ItoaInjective(i, j);
      }
    }
  }

  /** Entry `i` of a listing is stored under key `Itoa(i)`. */
  lemma ProjectIndexValues(bonuses: seq<AlmanaxBonusListing>)
    ensures forall i :: 0 <= i < |bonuses| ==>
      Itoa(i) in ProjectIndex(bonuses) &&
      ProjectIndex(bonuses)[Itoa(i)] == AlmanaxBonusListingMeili(Itoa(i), bonuses[i].id, bonuses[i].name)
  {
    var docs := Project(bonuses);
    var idx := ProjectIndex(bonuses);
    ProjectDistinct(bonuses);
    UpsertAllPlaces(map[], docs);
    forall i | 0 <= i < |bonuses|
      ensures Itoa(i) in idx && idx[Itoa(i)] == AlmanaxBonusListingMeili(Itoa(i), bonuses[i].id, bonuses[i].name)
    {
      assert docs[i].id == Itoa(i);
    }
  }

  /** `k` is the surrogate id of one of the first `n` entries. */
  predicate IsSurrogateId(k: string, n: nat) {
    exists i: nat :: i < n && k == Itoa(i)
  }

  /** A key of the rebuilt index is the surrogate id of some entry. */
  lemma ProjectIndexKey(bonuses: seq<AlmanaxBonusListing>, k: string)
    requires k in ProjectIndex(bonuses)
    ensures IsSurrogateId(k, |bonuses|)
  {
    var docs := Project(bonuses);
    UpsertAllKeys(map[], docs);
    assert k in Ids(docs);
    var i :| 0 <= i < |docs| && docs[i].id == k;
    assert docs[i].id == Itoa(i);
  }

  /** Every key of the rebuilt index is the surrogate id of some entry. */
  lemma ProjectIndexKeys(bonuses: seq<AlmanaxBonusListing>)
    ensures forall k :: k in ProjectIndex(bonuses) ==> IsSurrogateId(k, |bonuses|)
  {
    forall k | k in ProjectIndex(bonuses) ensures IsSurrogateId(k, |bonuses|) {
      ProjectIndexKey(bonuses, k);
    }
  }

  /**
   * The rebuilt index: one document per listing entry, under key `Itoa(i)`,
   * carrying the entry's slug and name, and nothing else.
   */
  lemma ProjectIndexExact(bonuses: seq<AlmanaxBonusListing>)
    ensures |ProjectIndex(bonuses)| == |bonuses|
    ensures forall i :: 0 <= i < |bonuses| ==>
      Itoa(i) in ProjectIndex(bonuses) &&
      ProjectIndex(bonuses)[Itoa(i)] == AlmanaxBonusListingMeili(Itoa(i), bonuses[i].id, bonuses[i].name)
    ensures forall k :: k in ProjectIndex(bonuses) ==> IsSurrogateId(k, |bonuses|)
  {
    ProjectDistinct(bonuses);
    UpsertAllSize(map[], Project(bonuses));
    ProjectIndexValues(bonuses);
    ProjectIndexKeys(bonuses);
  }

  /** The count so far, the service contents, and whether the run got to the end. */
  datatype Run = Run(added: nat, indexes: map<string, Index>, completed: bool)

  /** `k` documents were added before the rest of the run `r`. */
  function Then(k: nat, r: Run): Run {
    Run(k + r.added, r.indexes, r.completed)
  }

  /**
   * Make sure the index exists: a lookup error that says "not found" leads to
   * creating it, and a failed creation task is tolerated only when its message
   * says "already exists". `None` aborts the run.
   */
  function EnsureIndex(o: Oracle, name: string, s: map<string, Index>): (r: Option<map<string, Index>>)
    ensures r.Some? ==> r.value == s || (name !in s && r.value == s[name := map[]])
    ensures o.getIndex(name).IndexFound? ==> r == Some(s)
  {
    match o.getIndex(name)
    case IndexFound => Some(s)
    case IndexError(msg) =>
      if !Contains(msg, "not found") then None
      else
        var t := o.createIndex(name);
        if t.EnqueueError? || t.WaitError? then None
        else if t.Failed? && !Contains(t.message, "already exists") then None
        else Some(AfterCreate(s, name, t))
  }

  /** Full mode for one index: clear it, then add every document in one task. */
  function FullRebuild(o: Oracle, name: string, docs: seq<Doc>, s: map<string, Index>): (r: Run)
    ensures s.Keys <= r.indexes.Keys
    ensures r.completed ==> r.added == |docs| && DocsOf(r.indexes, name) == UpsertAll(map[], docs)
    ensures !r.completed ==> r.added == 0
    ensures forall n :: n != name ==> (n in r.indexes <==> n in s) && (n in s ==> r.indexes[n] == s[n])
  {
    var cleared := o.deleteAllDocuments(name);
    if !cleared.Succeeded? then Run(0, s, false)
    else
      var s1 := AfterClear(s, name, cleared);
      var t := o.addDocuments(name, docs);
      if !t.Succeeded? then Run(0, s1, false)
      else Run(|docs|, AfterAdd(s1, name, docs, t), true)
  }

  /** The top hit carries exactly this name. */
  predicate FoundIdentical(hit: SearchOutcome, name: string) {
    hit.TopHit? && hit.name == Some(name)
  }

  /** Incremental mode for one index: per document, search by name, upsert it alone if not found. */
  function Incremental(o: Oracle, name: string, docs: seq<Doc>, s: map<string, Index>): (r: Run)
    ensures r.added <= |docs|
    ensures s.Keys <= r.indexes.Keys
    decreases |docs|
  {
    if docs == [] then Run(0, s, true)
    else
      var doc := docs[0];
      var hit := o.search(name, doc.name, DocsOf(s, name));
      if hit.SearchError? then Run(0, s, false)
      else if FoundIdentical(hit, doc.name) then Incremental(o, name, docs[1..], s)
      else
        var t := o.addDocuments(name, [doc]);
        if !t.Succeeded? then Run(0, s, false)
        else Then(1, Incremental(o, name, docs[1..], AfterAdd(s, name, [doc], t)))
  }

  /** One language: fetch, project, ensure the index, then rebuild or reconcile. */
  function LanguageStep(init: bool, fetch: string -> FetchResult, o: Oracle, lang: string, s: map<string, Index>): (r: Run)
    ensures s.Keys <= r.indexes.Keys
  {
    match fetch(BonusesUrl(lang))
    case TransportError => Run(0, s, false)
    case DecodeError => Run(0, s, false)
    case Fetched(bonuses) =>
      var name := IndexName(lang);
      match EnsureIndex(o, name, s)
      case None => Run(0, s, false)
      case Some(s1) =>
        if init then FullRebuild(o, name, Project(bonuses), s1) else Incremental(o, name, Project(bonuses), s1)
  }

  /** The languages in order, skipping "pt"; an aborted language ends the run. */
  function Reconcile(init: bool, fetch: string -> FetchResult, o: Oracle, langs: seq<string>, s: map<string, Index>): (r: Run)
    ensures s.Keys <= r.indexes.Keys
    decreases |langs|
  {
    if langs == [] then Run(0, s, true)
    else if langs[0] == "pt" then Reconcile(init, fetch, o, langs[1..], s)
    else
      var r := LanguageStep(init, fetch, o, langs[0], s);
      if !r.completed then r else Then(r.added, Reconcile(init, fetch, o, langs[1..], r.indexes))
  }

  /** What becomes of the languages `rest` after one language ended as `r`. */
  function Continue(init: bool, fetch: string -> FetchResult, o: Oracle, rest: seq<string>, r: Run): Run {
    if !r.completed then r else Then(r.added, Reconcile(init, fetch, o, rest, r.indexes))
  }

  lemma ContinueThen(init: bool, fetch: string -> FetchResult, o: Oracle, rest: seq<string>, k: nat, r: Run)
    ensures Continue(init, fetch, o, rest, Then(k, r)) == Then(k, Continue(init, fetch, o, rest, r))
  {
  }

  /** The `counter` loop: document `i` gets surrogate id `Itoa(i)`. */
  method ProjectListing(bonuses: seq<AlmanaxBonusListing>) returns (bonusesMeili: seq<Doc>)
    ensures bonusesMeili == Project(bonuses)
  {
    bonusesMeili := [];
    var counter := 0;
    for i := 0 to |bonuses|
      invariant counter == i && |bonusesMeili| == i
      invariant forall j :: 0 <= j < i ==> bonusesMeili[j] == Project(bonuses)[j]
    {
      bonusesMeili := bonusesMeili + [AlmanaxBonusListingMeili(Itoa(counter), bonuses[i].id, bonuses[i].name)];
      counter := counter + 1;
    }
  }

  /** The incremental branch: per document, a limit-1 search by name, then an upsert when it is not found. */
  method UpsertMissing(client: Client, indexName: string, bonusesMeili: seq<Doc>) returns (added: nat, completed: bool)
    modifies client
    ensures Run(added, client.indexes, completed) == Incremental(client.oracle, indexName, bonusesMeili, old(client.indexes))
  {
    ghost var o := client.oracle;
    ghost var total := Incremental(o, indexName, bonusesMeili, client.indexes);
    added := 0;
    for i := 0 to |bonusesMeili|
      invariant Then(added, Incremental(o, indexName, bonusesMeili[i..], client.indexes)) == total
    {
      var bonus := bonusesMeili[i];
      assert bonusesMeili[i..][1..] == bonusesMeili[i + 1..];
      var searchResp := client.Search(indexName, bonus.name);
      if searchResp.SearchError? {
        return added, false;
      }
      var foundIdentical := searchResp.TopHit? && searchResp.name == Some(bonus.name);
      if !foundIdentical {
        var t := client.AddDocuments(indexName, [bonus]);
        if !t.Succeeded? {
          return added, false;
        }
        added := added + 1;
      }
    }
    return added, true;
  }

  /** The body of the language loop for one language other than "pt". */
  method ProcessLanguage(init: bool, fetch: string -> FetchResult, client: Client, lang: string) returns (added: nat, completed: bool)
    modifies client
    ensures Run(added, client.indexes, completed) == LanguageStep(init, fetch, client.oracle, lang, old(client.indexes))
  {
    ghost var s0 := client.indexes;
    var fetched := fetch(BonusesUrl(lang));
    if !fetched.Fetched? {
      return 0, false;
    }
    var bonuses := fetched.bonuses;
    var bonusesMeili := ProjectListing(bonuses);

    var indexName := IndexName(lang);
    var found := client.GetIndex(indexName);
    if found.IndexError? {
      if Contains(found.message, "not found") {
        var t := client.CreateIndex(indexName);
        if t.EnqueueError? || t.WaitError? {
          return 0, false;
        }
        if t.Failed? && !Contains(t.message, "already exists") {
          return 0, false;
        }
      } else {
        return 0, false;
      }
    }
    assert EnsureIndex(client.oracle, indexName, s0) == Some(client.indexes);

    if init {
      var t := client.DeleteAllDocuments(indexName);
      if !t.Succeeded? {
        return 0, false;
      }
      t := client.AddDocuments(indexName, bonusesMeili);
      if !t.Succeeded? {
        return 0, false;
      }
      return |bonuses|, true;
    } else {
      added, completed := UpsertMissing(client, indexName, bonusesMeili);
    }
  }

  /** `UpdateAlmanaxBonusIndex(init)`, returning the number of documents added. */
  method UpdateAlmanaxBonusIndex(init: bool, fetch: string -> FetchResult, client: Client) returns (added: nat)
    modifies client
    ensures added == Reconcile(init, fetch, client.oracle, LANGUAGES, old(client.indexes)).added
    ensures client.indexes == Reconcile(init, fetch, client.oracle, LANGUAGES, old(client.indexes)).indexes
  {
    ghost var o := client.oracle;
    ghost var total := Reconcile(init, fetch, o, LANGUAGES, client.indexes);
    added := 0;
    for k := 0 to |LANGUAGES|
      invariant Then(added, Reconcile(init, fetch, o, LANGUAGES[k..], client.indexes)) == total
    {
      var lang := LANGUAGES[k];
      assert LANGUAGES[k..][1..] == LANGUAGES[k + 1..];
      if lang == "pt" {
        continue;
      }
      var n, completed := ProcessLanguage(init, fetch, client, lang);
      added := added + n;
      if !completed {
        return;
      }
    }
  }
}
