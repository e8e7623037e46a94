/**
 * The slice of the Meilisearch search service the reconciler talks to.
 * What the service answers is given by an `Oracle`; what it stores is a map
 * from index name to documents keyed by the primary key "id".
 */
module Meili {
  import opened Wrappers
  import opened Types

  type Doc = AlmanaxBonusListingMeili

  /** The documents of one index, by primary key. */
  type Index = map<string, Doc>

  /**
   * The outcome of an asynchronous task and the bounded wait for it: the call
   * that enqueues it fails, the wait fails (for example on timeout), the task
   * ends with status "failed" and a message, or it does not fail.
   */
  datatype TaskOutcome = EnqueueError | WaitError | Failed(message: string) | Succeeded

  datatype GetIndexResult = IndexFound | IndexError(message: string)

  /** A search with limit 1: an error, no hit, or a top hit whose "name" attribute, if a string, is given. */
  datatype SearchOutcome = SearchError | NoHits | TopHit(name: Option<string>)

  /** The answers of the service, per call. */
  datatype Oracle = Oracle(
    getIndex: string -> GetIndexResult,
    createIndex: string -> TaskOutcome,
    deleteAllDocuments: string -> TaskOutcome,
    addDocuments: (string, seq<Doc>) -> TaskOutcome,
    search: (string, string, Index) -> SearchOutcome)

  /** The documents of a named index; an index that does not exist holds none. */
  function DocsOf(indexes: map<string, Index>, name: string): Index {
    if name in indexes then indexes[name] else map[]
  }

  /** Add-or-replace by primary key, in order, as Meilisearch's `AddDocuments` does. */
  function UpsertAll(idx: Index, docs: seq<Doc>): (r: Index)
    ensures idx.Keys <= r.Keys
    ensures docs != [] ==> docs[|docs| - 1].id in r && r[docs[|docs| - 1].id] == docs[|docs| - 1]
    decreases |docs|
  {
    if docs == [] then idx else UpsertAll(idx[docs[0].id := docs[0]], docs[1..])
  }

  /** A creation task never touches an existing index; a successful one makes `name` exist. */
  function AfterCreate(indexes: map<string, Index>, name: string, t: TaskOutcome): (r: map<string, Index>)
    ensures r.Keys == if t.Succeeded? then indexes.Keys + {name} else indexes.Keys
    ensures forall n :: n in indexes ==> r[n] == indexes[n]
    ensures name in r && name !in indexes ==> r[name] == map[]
  {
    if t.Succeeded? && name !in indexes then indexes[name := map[]] else indexes
  }

  /** A successful clearing task empties `name`; nothing else changes. */
  function AfterClear(indexes: map<string, Index>, name: string, t: TaskOutcome): (r: map<string, Index>)
    ensures r.Keys == if t.Succeeded? then indexes.Keys + {name} else indexes.Keys
    ensures t.Succeeded? ==> r[name] == map[]
    ensures forall n :: n in indexes && (n != name || !t.Succeeded?) ==> r[n] == indexes[n]
  {
    if t.Succeeded? then indexes[name := map[]] else indexes
  }

  /** A successful add task gives `name` the documents' ids and deletes none; nothing else changes. */
  function AfterAdd(indexes: map<string, Index>, name: string, docs: seq<Doc>, t: TaskOutcome): (r: map<string, Index>)
    ensures r.Keys == if t.Succeeded? then indexes.Keys + {name} else indexes.Keys
    ensures t.Succeeded? ==> r[name].Keys == DocsOf(indexes, name).Keys + Ids(docs)
    ensures forall n :: n in indexes && (n != name || !t.Succeeded?) ==> r[n] == indexes[n]
  {
    UpsertAllKeys(DocsOf(indexes, name), docs);
    if t.Succeeded? then indexes[name := UpsertAll(DocsOf(indexes, name), docs)] else indexes
  }

  /** The documents carry pairwise different primary keys. */
  ghost predicate DistinctIds(docs: seq<Doc>) {
    forall i, j :: 0 <= i < j < |docs| ==> docs[i].id != docs[j].id
  }

  ghost function Ids(docs: seq<Doc>): set<string> {
    set i | 0 <= i < |docs| :: docs[i].id
  }

  lemma IdsCons(docs: seq<Doc>)
    requires docs != []
    ensures Ids(docs) == {docs[0].id} + Ids(docs[1..])
  {
    var rest := docs[1..];
    forall k | k in Ids(docs) ensures k in {docs[0].id} + Ids(rest) {
      var i :| 0 <= i < |docs| && docs[i].id == k;
      if i > 0 { assert rest[i - 1] == docs[i]; }
    }
    forall k | k in Ids(rest) ensures k in Ids(docs) {
      var i :| 0 <= i < |rest| && rest[i].id == k;
      assert docs[i + 1] == rest[i];
    }
  }

  /** Upserting adds exactly the documents' keys. */
  lemma {:induction false} UpsertAllKeys(idx: Index, docs: seq<Doc>)
    ensures UpsertAll(idx, docs).Keys == idx.Keys + Ids(docs)
    decreases |docs|
  {
    if docs != [] {
      IdsCons(docs);
      UpsertAllKeys(idx[docs[0].id := docs[0]], docs[1..]);
    }
  }

  /** A key that no document carries keeps its document. */
  lemma {:induction false} UpsertAllKeepsOthers(idx: Index, docs: seq<Doc>, k: string)
    requires k !in Ids(docs)
    ensures k in UpsertAll(idx, docs) <==> k in idx
    ensures k in idx ==> UpsertAll(idx, docs)[k] == idx[k]
    decreases |docs|
  {
    if docs != [] {
      IdsCons(docs);
      UpsertAllKeepsOthers(idx[docs[0].id := docs[0]], docs[1..], k);
    }
  }

  lemma DistinctTail(docs: seq<Doc>)
    requires docs != [] && DistinctIds(docs)
    ensures DistinctIds(docs[1..]) && docs[0].id !in Ids(docs[1..])
  {
    var rest := docs[1..];
    forall i, j | 0 <= i < j < |rest| ensures rest[i].id != rest[j].id {
      assert rest[i] == docs[i + 1] && rest[j] == docs[j + 1];
    }
    forall j | 0 <= j < |rest| ensures rest[j].id != docs[0].id {
      assert rest[j] == docs[j + 1];
    }
  }

  /** With distinct keys, every document ends up under its own key. */
  lemma {:induction false} UpsertAllPlaces(idx: Index, docs: seq<Doc>)
    requires DistinctIds(docs)
    ensures forall i :: 0 <= i < |docs| ==> docs[i].id in UpsertAll(idx, docs) && UpsertAll(idx, docs)[docs[i].id] == docs[i]
    decreases |docs|
  {
    if docs != [] {
      var rest := docs[1..];
      var next := idx[docs[0].id := docs[0]];
      DistinctTail(docs);
      UpsertAllPlaces(next, rest);
      UpsertAllKeepsOthers(next, rest, docs[0].id);
      forall i | 0 < i < |docs|
        ensures docs[i].id in UpsertAll(idx, docs) && UpsertAll(idx, docs)[docs[i].id] == docs[i]
      {
        assert rest[i - 1] == docs[i];
      }
    }
  }

  /** With distinct keys none of which is present yet, each document adds one entry. */
  lemma {:induction false} UpsertAllSize(idx: Index, docs: seq<Doc>)
    requires DistinctIds(docs)
    requires forall i :: 0 <= i < |docs| ==> docs[i].id !in idx
    ensures |UpsertAll(idx, docs)| == |idx| + |docs|
    decreases |docs|
  {
    if docs != [] {
      var rest := docs[1..];
      var next := idx[docs[0].id := docs[0]];
      DistinctTail(docs);
      forall i | 0 <= i < |rest| ensures rest[i].id !in next {
        assert rest[i] == docs[i + 1];
      }
      UpsertAllSize(next, rest);
    }
  }

  /** The service as a client sees it: its fixed behaviour and its current contents. */
  class Client {
    const oracle: Oracle
    var indexes: map<string, Index>

    constructor (oracle: Oracle, indexes: map<string, Index>)
      ensures this.oracle == oracle && this.indexes == indexes
    {
      this.oracle := oracle;
      this.indexes := indexes;
    }

    method GetIndex(name: string) returns (r: GetIndexResult)
      ensures r == oracle.getIndex(name)
    {
      r := oracle.getIndex(name);
    }

    /** `CreateIndex` with primary key "id", then `WaitForTask`. */
    method CreateIndex(name: string) returns (t: TaskOutcome)
      modifies this
      ensures t == oracle.createIndex(name)
      ensures indexes == AfterCreate(old(indexes), name, t)
    {
      t := oracle.createIndex(name);
      indexes := AfterCreate(indexes, name, t);
    }

    /** `DeleteAllDocuments`, then `WaitForTask`. */
    method DeleteAllDocuments(name: string) returns (t: TaskOutcome)
      modifies this
      ensures t == oracle.deleteAllDocuments(name)
      ensures indexes == AfterClear(old(indexes), name, t)
    {
      t := oracle.deleteAllDocuments(name);
      indexes := AfterClear(indexes, name, t);
    }

    /** `AddDocuments`, then `WaitForTask`. */
    method AddDocuments(name: string, docs: seq<Doc>) returns (t: TaskOutcome)
      modifies this
      ensures t == oracle.addDocuments(name, docs)
      ensures indexes == AfterAdd(old(indexes), name, docs, t)
    {
      t := oracle.addDocuments(name, docs);
      indexes := AfterAdd(indexes, name, docs, t);
    }

    method Search(name: string, query: string) returns (r: SearchOutcome)
      ensures r == oracle.search(name, query, DocsOf(indexes, name))
    {
      r := oracle.search(name, query, DocsOf(indexes, name));
    }
  }
}
