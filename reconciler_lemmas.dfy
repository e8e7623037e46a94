/** What a reconciliation run does, stated over the `Reconcile` specification. */
module ReconcilerLemmas {
  import opened Wrappers
  import opened Strings
  import opened Strconv
  import opened Types
  import opened Meili
  import opened Server
  import opened Reconciler

  /** `a` and `b` hold the same entry (or none) under `k`. */
  predicate Agree<K, V(==)>(a: map<K, V>, b: map<K, V>, k: K) {
    (k in a <==> k in b) && (k in a ==> a[k] == b[k])
  }

  /** The index names a run over `langs` may change. */
  ghost function Touched(langs: seq<string>): set<string> {
    set l | l in langs && l != "pt" :: IndexName(l)
  }

  predicate NoDuplicates(langs: seq<string>) {
    forall i, j :: 0 <= i < j < |langs| ==> langs[i] != langs[j]
  }

  lemma NoDuplicatesTail(langs: seq<string>)
    requires langs != [] && NoDuplicates(langs)
    ensures NoDuplicates(langs[1..]) && langs[0] !in langs[1..]
  {
    var rest := langs[1..];
    forall i, j | 0 <= i < j < |rest| ensures rest[i] != rest[j] {
      assert rest[i] == langs[i + 1] && rest[j] == langs[j + 1];
    }
    forall j | 0 <= j < |rest| ensures rest[j] != langs[0] {
      assert rest[j] == langs[j + 1];
    }
  }

  /** The sum of the listing lengths of the languages a run visits. */
  ghost function FullCount(fetch: string -> FetchResult, langs: seq<string>): nat
    decreases |langs|
  {
    if langs == [] then 0
    else if langs[0] == "pt" then FullCount(fetch, langs[1..])
    else
      (match fetch(BonusesUrl(langs[0])) case Fetched(b) => |b| case _ => 0) + FullCount(fetch, langs[1..])
  }

  /** A successful single-document upsert changes that one key of that one index. */
  lemma AfterAddOne(s: map<string, Index>, name: string, doc: Doc)
    ensures DocsOf(AfterAdd(s, name, [doc], Succeeded), name) == DocsOf(s, name)[doc.id := doc]
    ensures forall n :: n != name ==> Agree(AfterAdd(s, name, [doc], Succeeded), s, n)
  {
    assert [doc][1..] == [];
    assert UpsertAll(DocsOf(s, name), [doc]) == UpsertAll(DocsOf(s, name)[doc.id := doc], []);
  }

  // ---------------------------------------------------------------------------
  // Only the index of the processed language changes.

  lemma {:induction false} IncrementalTouchesOnly(o: Oracle, name: string, docs: seq<Doc>, s: map<string, Index>)
    ensures forall n :: n != name ==> Agree(Incremental(o, name, docs, s).indexes, s, n)
    decreases |docs|
  {
    if docs != [] {
      var doc := docs[0];
      var hit := o.search(name, doc.name, DocsOf(s, name));
      if !hit.SearchError? {
        if FoundIdentical(hit, doc.name) {
          IncrementalTouchesOnly(o, name, docs[1..], s);
        } else {
          var t := o.addDocuments(name, [doc]);
          if t.Succeeded? {
            var s1 := AfterAdd(s, name, [doc], t);
            AfterAddOne(s, name, doc);
            IncrementalTouchesOnly(o, name, docs[1..], s1);
            var r := Incremental(o, name, docs[1..], s1);
            assert Incremental(o, name, docs, s) == Then(1, r);
            forall n | n != name ensures Agree(r.indexes, s, n) {
              assert Agree(r.indexes, s1, n) && Agree(s1, s, n);
            }
          }
        }
      }
    }
  }

  lemma LanguageStepTouchesOnly(init: bool, fetch: string -> FetchResult, o: Oracle, lang: string, s: map<string, Index>)
    ensures forall n :: n != IndexName(lang) ==> Agree(LanguageStep(init, fetch, o, lang, s).indexes, s, n)
  {
    if fetch(BonusesUrl(lang)).Fetched? {
      var name := IndexName(lang);
      var ensured := EnsureIndex(o, name, s);
      if ensured.Some? {
        var docs := Project(fetch(BonusesUrl(lang)).bonuses);
        if init {
          var cleared := o.deleteAllDocuments(name);
          if cleared.Succeeded? {
            var s1 := AfterClear(ensured.value, name, cleared);
            assert forall n :: n != name ==> Agree(s1, ensured.value, n);
          }
        } else {
          IncrementalTouchesOnly(o, name, docs, ensured.value);
          var r := Incremental(o, name, docs, ensured.value);
          forall n | n != name ensures Agree(r.indexes, s, n) {
            assert Agree(r.indexes, ensured.value, n) && Agree(ensured.value, s, n);
          }
        }
      }
    }
  }

  /** A run changes no index but those of the languages it visits; "pt" is never visited. */
  lemma {:induction false} ReconcileTouchesOnly(init: bool, fetch: string -> FetchResult, o: Oracle, langs: seq<string>, s: map<string, Index>)
    ensures forall n :: n !in Touched(langs) ==> Agree(Reconcile(init, fetch, o, langs, s).indexes, s, n)
    decreases |langs|
  {
    if langs != [] {
      var rest := langs[1..];
      assert Touched(rest) <= Touched(langs);
      if langs[0] == "pt" {
        ReconcileTouchesOnly(init, fetch, o, rest, s);
      } else {
        var r := LanguageStep(init, fetch, o, langs[0], s);
        LanguageStepTouchesOnly(init, fetch, o, langs[0], s);
        assert IndexName(langs[0]) in Touched(langs);
        if r.completed {
          ReconcileTouchesOnly(init, fetch, o, rest, r.indexes);
          var r2 := Reconcile(init, fetch, o, rest, r.indexes);
          forall n | n !in Touched(langs) ensures Agree(r2.indexes, s, n) {
            assert Agree(r2.indexes, r.indexes, n) && Agree(r.indexes, s, n);
          }
        }
      }
    }
  }

  /** The "pt" index keeps whatever it held. */
  lemma PtIndexUntouched(init: bool, fetch: string -> FetchResult, o: Oracle, s: map<string, Index>)
    ensures Agree(Reconcile(init, fetch, o, LANGUAGES, s).indexes, s, IndexName("pt"))
  {
    forall l | l in LANGUAGES && l != "pt" ensures IndexName(l) != IndexName("pt") {
      IndexNameDiffers(l, "pt");
    }
    ReconcileTouchesOnly(init, fetch, o, LANGUAGES, s);
  }

  /** The "pt" listing is never fetched: what its URL would answer does not matter. */
  lemma {:induction false} PtNeverFetched(init: bool, f: string -> FetchResult, g: string -> FetchResult, o: Oracle, langs: seq<string>, s: map<string, Index>)
    requires forall u :: u != BonusesUrl("pt") ==> f(u) == g(u)
    ensures Reconcile(init, f, o, langs, s) == Reconcile(init, g, o, langs, s)
    decreases |langs|
  {
    if langs != [] {
      if langs[0] == "pt" {
        PtNeverFetched(init, f, g, o, langs[1..], s);
      } else {
        BonusesUrlDiffers(langs[0], "pt");
        var r := LanguageStep(init, f, o, langs[0], s);
        assert r == LanguageStep(init, g, o, langs[0], s);
        if r.completed {
          PtNeverFetched(init, f, g, o, langs[1..], r.indexes);
        }
      }
    }
  }

  // ---------------------------------------------------------------------------
  // The abort policy.

  /** A run over `a + b` is the run over `a`, continued over `b` only if it got to the end. */
  lemma {:induction false} ReconcileSplit(init: bool, fetch: string -> FetchResult, o: Oracle, a: seq<string>, b: seq<string>, s: map<string, Index>)
    ensures Reconcile(init, fetch, o, a + b, s) == Continue(init, fetch, o, b, Reconcile(init, fetch, o, a, s))
    decreases |a|
  {
    if a == [] {
      assert a + b == b;
    } else {
      assert (a + b)[0] == a[0] && (a + b)[1..] == a[1..] + b;
      if a[0] == "pt" {
        ReconcileSplit(init, fetch, o, a[1..], b, s);
      } else {
        var r := LanguageStep(init, fetch, o, a[0], s);
        if r.completed {
          ReconcileSplit(init, fetch, o, a[1..], b, r.indexes);
          ContinueThen(init, fetch, o, b, r.added, Reconcile(init, fetch, o, a[1..], r.indexes));
        }
      }
    }
  }

  /**
   * When the k-th language aborts, the run returns what the earlier languages
   * added plus what that language added before failing, and no later language
   * is processed.
   */
  lemma AbortStopsRun(init: bool, fetch: string -> FetchResult, o: Oracle, s: map<string, Index>, k: nat)
    requires k < |LANGUAGES| && LANGUAGES[k] != "pt"
    requires Reconcile(init, fetch, o, LANGUAGES[..k], s).completed
    requires !LanguageStep(init, fetch, o, LANGUAGES[k], Reconcile(init, fetch, o, LANGUAGES[..k], s).indexes).completed
    ensures var before := Reconcile(init, fetch, o, LANGUAGES[..k], s);
      Reconcile(init, fetch, o, LANGUAGES, s) == Then(before.added, LanguageStep(init, fetch, o, LANGUAGES[k], before.indexes))
    ensures var before := Reconcile(init, fetch, o, LANGUAGES[..k], s);
      forall n :: n != IndexName(LANGUAGES[k]) ==> Agree(Reconcile(init, fetch, o, LANGUAGES, s).indexes, before.indexes, n)
  {
    var before := Reconcile(init, fetch, o, LANGUAGES[..k], s);
    ReconcileSplit(init, fetch, o, LANGUAGES[..k], LANGUAGES[k..], s);
    assert LANGUAGES[..k] + LANGUAGES[k..] == LANGUAGES;
    assert LANGUAGES[k..][0] == LANGUAGES[k];
    LanguageStepTouchesOnly(init, fetch, o, LANGUAGES[k], before.indexes);
  }

  /** A failed fetch of the k-th language commits exactly what the earlier languages did. */
  lemma FetchFailureStopsRun(init: bool, fetch: string -> FetchResult, o: Oracle, s: map<string, Index>, k: nat)
    requires k < |LANGUAGES| && LANGUAGES[k] != "pt"
    requires !fetch(BonusesUrl(LANGUAGES[k])).Fetched?
    requires Reconcile(init, fetch, o, LANGUAGES[..k], s).completed
    ensures var before := Reconcile(init, fetch, o, LANGUAGES[..k], s);
      Reconcile(init, fetch, o, LANGUAGES, s) == Run(before.added, before.indexes, false)
  {
    AbortStopsRun(init, fetch, o, s, k);
  }

  // ---------------------------------------------------------------------------
  // Full mode.

  /** A completed full-mode language leaves its index holding exactly the projected listing. */
  lemma FullModeLanguage(fetch: string -> FetchResult, o: Oracle, lang: string, s: map<string, Index>)
    requires fetch(BonusesUrl(lang)).Fetched?
    ensures var r := LanguageStep(true, fetch, o, lang, s);
      r.completed ==>
        && r.added == |fetch(BonusesUrl(lang)).bonuses|
        && DocsOf(r.indexes, IndexName(lang)) == ProjectIndex(fetch(BonusesUrl(lang)).bonuses)
  {
  }

  /**
   * A completed full-mode run over distinct languages leaves every visited index
   * holding exactly its projected listing, and counts every listing entry.
   */
  lemma {:induction false} FullRunContents(fetch: string -> FetchResult, o: Oracle, langs: seq<string>, s: map<string, Index>)
    requires NoDuplicates(langs)
    requires Reconcile(true, fetch, o, langs, s).completed
    ensures forall l :: l in langs && l != "pt" ==>
      && fetch(BonusesUrl(l)).Fetched?
      && DocsOf(Reconcile(true, fetch, o, langs, s).indexes, IndexName(l)) == ProjectIndex(fetch(BonusesUrl(l)).bonuses)
    ensures Reconcile(true, fetch, o, langs, s).added == FullCount(fetch, langs)
    decreases |langs|
  {
    if langs != [] {
      var rest := langs[1..];
      NoDuplicatesTail(langs);
      if langs[0] == "pt" {
        FullRunContents(fetch, o, rest, s);
      } else {
        var lang := langs[0];
        var r0 := LanguageStep(true, fetch, o, lang, s);
        assert r0.completed && fetch(BonusesUrl(lang)).Fetched?;
        FullModeLanguage(fetch, o, lang, s);
        FullRunContents(fetch, o, rest, r0.indexes);
        LaterLanguagesKeep(true, fetch, o, lang, rest, r0.indexes);
      }
    }
  }

  /** Languages other than `lang` leave the index of `lang` as it was. */
  lemma LaterLanguagesKeep(init: bool, fetch: string -> FetchResult, o: Oracle, lang: string, rest: seq<string>, s: map<string, Index>)
    requires lang !in rest
    ensures Agree(Reconcile(init, fetch, o, rest, s).indexes, s, IndexName(lang))
  {
    forall l | l in rest && l != "pt" ensures IndexName(l) != IndexName(lang) {
      IndexNameDiffers(l, lang);
    }
    ReconcileTouchesOnly(init, fetch, o, rest, s);
  }

  /** Two completed full-mode runs in a row leave the same contents and report the same count. */
  lemma FullRunIdempotent(fetch: string -> FetchResult, o: Oracle, s: map<string, Index>)
    requires Reconcile(true, fetch, o, LANGUAGES, s).completed
    requires Reconcile(true, fetch, o, LANGUAGES, Reconcile(true, fetch, o, LANGUAGES, s).indexes).completed
    ensures var first := Reconcile(true, fetch, o, LANGUAGES, s);
      var second := Reconcile(true, fetch, o, LANGUAGES, first.indexes);
      && second.added == first.added
      && forall l :: l in LANGUAGES ==> DocsOf(second.indexes, IndexName(l)) == DocsOf(first.indexes, IndexName(l))
  {
    var first := Reconcile(true, fetch, o, LANGUAGES, s);
    assert NoDuplicates(LANGUAGES);
    FullRunContents(fetch, o, LANGUAGES, s);
    FullRunContents(fetch, o, LANGUAGES, first.indexes);
    PtIndexUntouched(true, fetch, o, first.indexes);
  }

  // ---------------------------------------------------------------------------
  // Incremental mode.

  /**
   * Incremental mode issues no delete: every key stays, a key that no document
   * carries keeps its document, and at most one document is counted per entry.
   */
  lemma {:induction false} IncrementalKeepsOthers(o: Oracle, name: string, docs: seq<Doc>, s: map<string, Index>)
    ensures var r := Incremental(o, name, docs, s);
      && r.added <= |docs|
      && DocsOf(s, name).Keys <= DocsOf(r.indexes, name).Keys
      && forall k :: k !in Ids(docs) ==> Agree(DocsOf(r.indexes, name), DocsOf(s, name), k)
    decreases |docs|
  {
    if docs != [] {
      IdsCons(docs);
      var doc := docs[0];
      var hit := o.search(name, doc.name, DocsOf(s, name));
      if !hit.SearchError? {
        if FoundIdentical(hit, doc.name) {
          IncrementalKeepsOthers(o, name, docs[1..], s);
        } else {
          var t := o.addDocuments(name, [doc]);
          if t.Succeeded? {
            var s1 := AfterAdd(s, name, [doc], t);
            AfterAddOne(s, name, doc);
            IncrementalKeepsOthers(o, name, docs[1..], s1);
          }
        }
      }
    }
  }

  /** When the search finds every name, nothing is upserted and nothing is counted. */
  lemma {:induction false} IncrementalSkipsIdentical(o: Oracle, name: string, docs: seq<Doc>, s: map<string, Index>)
    requires forall i :: 0 <= i < |docs| ==> FoundIdentical(o.search(name, docs[i].name, DocsOf(s, name)), docs[i].name)
    ensures Incremental(o, name, docs, s) == Run(0, s, true)
    decreases |docs|
  {
    if docs != [] {
      var rest := docs[1..];
      forall i | 0 <= i < |rest| ensures FoundIdentical(o.search(name, rest[i].name, DocsOf(s, name)), rest[i].name) {
        assert rest[i] == docs[i + 1];
      }
      IncrementalSkipsIdentical(o, name, rest, s);
    }
  }

  /** A search that misses a name: no error and no top hit with that exact name. */
  predicate Misses(hit: SearchOutcome, name: string) {
    !hit.SearchError? && !FoundIdentical(hit, name)
  }

  /** When every search misses and every upsert succeeds, each document is upserted and counted once. */
  lemma {:induction false} IncrementalAllNew(o: Oracle, name: string, docs: seq<Doc>, s: map<string, Index>)
    requires forall idx: Index, i :: 0 <= i < |docs| ==> Misses(o.search(name, docs[i].name, idx), docs[i].name)
    requires forall i :: 0 <= i < |docs| ==> o.addDocuments(name, [docs[i]]).Succeeded?
    ensures var r := Incremental(o, name, docs, s);
      && r.completed
      && r.added == |docs|
      && DocsOf(r.indexes, name) == UpsertAll(DocsOf(s, name), docs)
    decreases |docs|
  {
    if docs != [] {
      var doc := docs[0];
      var rest := docs[1..];
      assert o.addDocuments(name, [doc]).Succeeded?;
      var s1 := AfterAdd(s, name, [doc], o.addDocuments(name, [doc]));
      AfterAddOne(s, name, doc);
      forall idx: Index, i | 0 <= i < |rest| ensures Misses(o.search(name, rest[i].name, idx), rest[i].name) {
        assert rest[i] == docs[i + 1];
      }
      forall i | 0 <= i < |rest| ensures o.addDocuments(name, [rest[i]]).Succeeded? {
        assert rest[i] == docs[i + 1];
      }
      IncrementalAllNew(o, name, rest, s1);
    }
  }

  /**
   * Surrogate ids are positions in the current listing, so an incremental upsert
   * replaces whatever document already sits under that id, even one for another
   * bonus: here the document for "old-slug" disappears from the index.
   */
  lemma IncrementalReplacesById()
    ensures
      var name := IndexName("en");
      var o := Oracle(
        (n: string) => IndexFound, (n: string) => Succeeded, (n: string) => Succeeded,
        (n: string, d: seq<Doc>) => Succeeded, (n: string, q: string, idx: Index) => NoHits);
      var s := map[name := map["0" := AlmanaxBonusListingMeili("0", "old-slug", "Old name")]];
      var r := Incremental(o, name, Project([AlmanaxBonusListing("new-slug", "New name")]), s);
      && r.completed && r.added == 1
      && DocsOf(r.indexes, name) == map["0" := AlmanaxBonusListingMeili("0", "new-slug", "New name")]
  {
    assert Itoa(0) == "0";
    var doc := AlmanaxBonusListingMeili("0", "new-slug", "New name");
    assert Project([AlmanaxBonusListing("new-slug", "New name")]) == [doc];
    AfterAddOne(map[IndexName("en") := map["0" := AlmanaxBonusListingMeili("0", "old-slug", "Old name")]], IndexName("en"), doc);
  }

  /** Index creation is tolerated to fail only with an "already exists" message. */
  lemma IndexCreationPolicy(o: Oracle, name: string, s: map<string, Index>)
    ensures EnsureIndex(o, name, s).Some? <==>
      || o.getIndex(name).IndexFound?
      || (&& o.getIndex(name).IndexError?
          && Contains(o.getIndex(name).message, "not found")
          && (|| o.createIndex(name).Succeeded?
              || (o.createIndex(name).Failed? && Contains(o.createIndex(name).message, "already exists"))))
    ensures EnsureIndex(o, name, s).Some? ==> forall n :: n != name ==> Agree(EnsureIndex(o, name, s).value, s, n)
  {
  }
}
