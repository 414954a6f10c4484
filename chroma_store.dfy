/** `app/core/chroma_store.py`: the wrapper around the Chroma collection
    `docs`. The collection is a table of entries in insertion order; the
    embedding service, the similarity ranking and failures of the store
    itself are parameters. */
module ChromaStore {
  import opened Outcomes

  /** An embedding vector. Its values are never computed on here. */
  type Vector = seq<real>

  /** A Chroma metadata record. */
  type Metadata = map<string, string>

  /** One stored record: id, document text, embedding and metadata. */
  datatype Entry = Entry(id: string, document: string, embedding: Vector, metadata: Metadata)

  /** The record `{"filename": filename}` attached to every chunk. */
  function FilenameRecord(filename: string): (m: Metadata)
    ensures m.Keys == {"filename"} && m["filename"] == filename
  {
    map["filename" := filename]
  }

  /** Matches `where={"filename": filename}`. */
  predicate TaggedWith(e: Entry, filename: string) {
    "filename" in e.metadata && e.metadata["filename"] == filename
  }

  /** Matches `where={"filename": {"$in": files}}`. */
  predicate InScope(e: Entry, files: seq<string>) {
    "filename" in e.metadata && e.metadata["filename"] in files
  }

  function IdsOf(entries: seq<Entry>): set<string> {
    set e | e in entries :: e.id
  }

  /** Chroma keys entries by id: no two entries share one. */
  predicate DistinctIds(entries: seq<Entry>) {
    forall i, j :: 0 <= i < j < |entries| ==> entries[i].id != entries[j].id
  }

  /** New ids for a batch: pairwise distinct and not already stored (what
      `uuid4` gives in practice). */
  predicate FreshIds(ids: seq<string>, entries: seq<Entry>) {
    && (forall i, j :: 0 <= i < j < |ids| ==> ids[i] != ids[j])
    && (forall i :: 0 <= i < |ids| ==> ids[i] !in IdsOf(entries))
  }

  /** The documents of a run of entries, in order. */
  function Documents(entries: seq<Entry>): (ds: seq<string>)
    ensures |ds| == |entries|
    ensures forall i :: 0 <= i < |entries| ==> ds[i] == entries[i].document
  {
    seq(|entries|, i requires 0 <= i < |entries| => entries[i].document)
  }

  // ---------------------------------------------------------------------
  // add_documents_to_vector_store (lines 12-23)
  // ---------------------------------------------------------------------

  predicate AllEmbeddable(docs: seq<string>, embed: string -> Option<Vector>) {
    forall i :: 0 <= i < |docs| ==> embed(docs[i]).Some?
  }

  /** The embeddings of `docs`, in order (only read when every call
      succeeds; a failed call stands as `[]`). */
  function Embeddings(docs: seq<string>, embed: string -> Option<Vector>): (vs: seq<Vector>)
    ensures |vs| == |docs|
    ensures forall i :: 0 <= i < |docs| && embed(docs[i]).Some? ==> vs[i] == embed(docs[i]).value
  {
    seq(|docs|, i requires 0 <= i < |docs| => if embed(docs[i]).Some? then embed(docs[i]).value else [])
  }

  /** `[get_embedding(text) for text in docs]`: stops at the first text whose
      embedding call raises. */
  method EmbedAll(docs: seq<string>, embed: string -> Option<Vector>) returns (vectors: Option<seq<Vector>>)
    ensures vectors.Some? <==> AllEmbeddable(docs, embed)
    ensures vectors.Some? ==> vectors.value == Embeddings(docs, embed)
  {
    var vs: seq<Vector> := [];
    for i := 0 to |docs|
      invariant AllEmbeddable(docs[..i], embed)
      invariant |vs| == i
      invariant forall k :: 0 <= k < i ==> vs[k] == embed(docs[k]).value
    {
      var v := embed(docs[i]);
      if v.None? {
        return None;
      }
      vs := vs + [v.value];
    }
    assert docs[..|docs|] == docs;
    return Some(vs);
  }

  /** The entries one successful add inserts: chunk `k` under `ids[k]`, with
      its embedding and the metadata `{"filename": filename}`. */
  function Batch(docs: seq<string>, ids: seq<string>, vectors: seq<Vector>, filename: string): (b: seq<Entry>)
    requires |ids| == |docs| == |vectors|
    ensures |b| == |docs|
    ensures forall k :: 0 <= k < |b| ==> b[k] == Entry(ids[k], docs[k], vectors[k], FilenameRecord(filename))
  {
    seq(|docs|, k requires 0 <= k < |docs| => Entry(ids[k], docs[k], vectors[k], FilenameRecord(filename)))
  }

  /** The `ValueError` an add raises, if any: an embedding call failing is
      reported before the collection is touched; Chroma refuses an empty
      batch; otherwise the collection call itself may fail. */
  function AddError(docs: seq<string>, embed: string -> Option<Vector>, storeOk: bool): Option<ValueError> {
    if !AllEmbeddable(docs, embed) then Some(AddFailed(EmbeddingUnavailable))
    else if docs == [] || !storeOk then Some(AddFailed(StoreRejected))
    else None
  }

  // ---------------------------------------------------------------------
  // query_similar_documents (lines 25-40)
  // ---------------------------------------------------------------------

  /** The entries the `$in` filter lets through, in insertion order. */
  function Candidates(entries: seq<Entry>, files: seq<string>): (cs: seq<Entry>)
    ensures forall e :: e in cs ==> e in entries && InScope(e, files)
    ensures forall e :: e in entries && InScope(e, files) ==> e in cs
  {
    if entries == [] then []
    else (if InScope(entries[0], files) then [entries[0]] else []) + Candidates(entries[1..], files)
  }

  /** The first candidate with the given id. */
  function Lookup(cands: seq<Entry>, id: string): (r: Option<Entry>)
    ensures r.Some? ==> r.value in cands && r.value.id == id
    ensures r.None? ==> forall e :: e in cands ==> e.id != id
  {
    if cands == [] then None
    else if cands[0].id == id then Some(cands[0])
    else Lookup(cands[1..], id)
  }

  /** The candidates' documents in the order of the ranking `order`, a list of
      ids from nearest to farthest; ids that are not candidates are skipped. */
  function Ranked(cands: seq<Entry>, order: seq<string>): (docs: seq<string>)
    ensures |docs| <= |order|
    ensures forall d :: d in docs ==> exists e :: e in cands && e.document == d
  {
    if order == [] then []
    else
      var here := Lookup(cands, order[0]);
      (if here.Some? then [here.value.document] else []) + Ranked(cands, order[1..])
  }

  /** `results["documents"][0]`: at most `k` of the ranked documents. */
  function Take(docs: seq<string>, k: int): (r: seq<string>)
    ensures |r| == if k <= 0 then 0 else if k < |docs| then k else |docs|
    ensures r <= docs
  {
    if k <= 0 then [] else if k >= |docs| then docs else docs[..k]
  }

  /** The `top_k` a caller gets by not passing one. */
  const DefaultTopK: int := 3

  /** `query_similar_documents` over the collection's entries. `liveFiles` is
      the listing of the upload folder, `rank` the similarity order the index
      gives a query vector, `storeOk` whether the collection call succeeds. */
  function QuerySimilar(entries: seq<Entry>, query: string, topK: int, liveFiles: seq<string>,
                        embed: string -> Option<Vector>, rank: Vector -> seq<string>, storeOk: bool): (r: Result<seq<string>>)
    ensures liveFiles == [] ==> r == Ok([])
    ensures liveFiles != [] && embed(query).None? ==> r == Err(QueryFailed(EmbeddingUnavailable))
    ensures liveFiles != [] && embed(query).Some? && (topK <= 0 || !storeOk) ==> r == Err(QueryFailed(StoreRejected))
    ensures r.Ok? ==> |r.value| <= (if liveFiles == [] then 0 else topK)
    ensures r.Ok? ==> forall d :: d in r.value ==>
      exists e :: e in entries && InScope(e, liveFiles) && e.document == d
  {
    if |liveFiles| == 0 then Ok([])
    else match embed(query)
      case None => Err(QueryFailed(EmbeddingUnavailable))
      case Some(v) =>
        if topK <= 0 || !storeOk then Err(QueryFailed(StoreRejected))
        else
          var ranked := Ranked(Candidates(entries, liveFiles), rank(v));
          var top := Take(ranked, topK);
          assert forall d :: d in top ==> d in ranked;
          Ok(top)
  }

  // ---------------------------------------------------------------------
  // delete_document_by_filename (lines 42-56)
  // ---------------------------------------------------------------------

  /** `collection.get(where={"filename": filename})["ids"]`. */
  function MatchingIds(entries: seq<Entry>, filename: string): (ids: seq<string>)
    ensures forall e :: e in entries && TaggedWith(e, filename) ==> e.id in ids
    ensures forall id :: id in ids ==> exists e :: e in entries && TaggedWith(e, filename) && e.id == id
  {
    if entries == [] then []
    else (if TaggedWith(entries[0], filename) then [entries[0].id] else []) + MatchingIds(entries[1..], filename)
  }

  /** `collection.delete(ids=ids)`. */
  function RemoveIds(entries: seq<Entry>, ids: seq<string>): seq<Entry> {
    if entries == [] then []
    else (if entries[0].id in ids then [] else [entries[0]]) + RemoveIds(entries[1..], ids)
  }

  /** The collection with every entry of `filename` gone and the rest in
      order: the specification of a delete that found something. */
  function Without(entries: seq<Entry>, filename: string): (r: seq<Entry>)
    ensures forall e :: e in r ==> e in entries && !TaggedWith(e, filename)
    ensures forall e :: e in entries && !TaggedWith(e, filename) ==> e in r
  {
    if entries == [] then []
    else (if TaggedWith(entries[0], filename) then [] else [entries[0]]) + Without(entries[1..], filename)
  }

  /** The entries stored for one file, in order. */
  function OfFile(entries: seq<Entry>, filename: string): (r: seq<Entry>)
    ensures forall e :: e in r ==> e in entries && TaggedWith(e, filename)
  {
    if entries == [] then []
    else (if TaggedWith(entries[0], filename) then [entries[0]] else []) + OfFile(entries[1..], filename)
  }

  predicate HasFile(entries: seq<Entry>, filename: string) {
    exists e :: e in entries && TaggedWith(e, filename)
  }

  /** The in-memory stand-in for the module-level Chroma collection. */
  class Collection {
    var entries: seq<Entry>

    ghost predicate Valid()
      reads this
    {
      DistinctIds(entries)
    }

    constructor ()
      ensures Valid() && entries == []
    {
      entries := [];
    }

    /** `add_documents_to_vector_store(docs, ids, filename)`: embeds every
        document first, then inserts all of them in one collection call. If
        anything raises, nothing of the batch is stored. */
    method Add(docs: seq<string>, ids: seq<string>, filename: string,
               embed: string -> Option<Vector>, storeOk: bool) returns (r: Result<()>)
      requires Valid()
      requires |ids| == |docs|
      requires FreshIds(ids, entries)
      modifies this
      ensures Valid()
      ensures r.Err? <==> AddError(docs, embed, storeOk).Some?
      ensures r.Err? ==> r.error == AddError(docs, embed, storeOk).value && entries == old(entries)
      ensures r.Ok? ==> entries == old(entries) + Batch(docs, ids, Embeddings(docs, embed), filename)
    {
      var vectors := EmbedAll(docs, embed);
      if vectors.None? {
        return Err(AddFailed(EmbeddingUnavailable));
      }
      if docs == [] || !storeOk {
        return Err(AddFailed(StoreRejected));
      }
      var batch := Batch(docs, ids, vectors.value, filename);
      AppendFreshKeepsDistinct(entries, batch);
      entries := entries + batch;
      return Ok(());
    }

    /** `delete_document_by_filename(filename)`: looks up the ids tagged with
        the filename; none means `False` and no change; otherwise deletes them
        all in one call and returns `True`. */
    method DeleteByFilename(filename: string, storeOk: bool) returns (r: Result<bool>)
      requires Valid()
      modifies this
      ensures Valid()
      ensures !storeOk ==> r == Err(DeleteFailed(StoreRejected)) && entries == old(entries)
      ensures storeOk ==> r == Ok(HasFile(old(entries), filename))
      ensures storeOk ==> entries == Without(old(entries), filename)
      ensures storeOk && r == Ok(false) ==> entries == old(entries)
    {
      if !storeOk {
        return Err(DeleteFailed(StoreRejected));
      }
      var ids := MatchingIds(entries, filename);
      if ids == [] {
        NothingToDelete(entries, filename);
        return Ok(false);
      }
      assert ids[0] in ids;
      RemoveMatchingIsWithout(entries, filename);
      WithoutKeepsDistinct(entries, filename);
      entries := RemoveIds(entries, ids);
      return Ok(true);
    }
  }

  // ---------------------------------------------------------------------
  // Lemmas
  // ---------------------------------------------------------------------

  lemma IdsOfAppend(a: seq<Entry>, b: seq<Entry>)
    ensures IdsOf(a + b) == IdsOf(a) + IdsOf(b)
  {
    assert forall e :: e in a + b <==> e in a || e in b;
  }

  /** Appending a batch under fresh ids keeps the ids distinct. */
  lemma AppendFreshKeepsDistinct(entries: seq<Entry>, batch: seq<Entry>)
    requires DistinctIds(entries)
    requires FreshIds(Ids(batch), entries)
    ensures DistinctIds(entries + batch)
  {
    var all := entries + batch;
    forall i, j | 0 <= i < j < |all| ensures all[i].id != all[j].id {
      if j >= |entries| {
        assert all[j] == batch[j - |entries|];
        assert Ids(batch)[j - |entries|] == all[j].id;
        if i < |entries| {
          assert all[i] in entries;
        } else {
          assert Ids(batch)[i - |entries|] == all[i].id;
        }
      }
    }
  }

  function Ids(entries: seq<Entry>): (ids: seq<string>)
    ensures |ids| == |entries|
    ensures forall i :: 0 <= i < |entries| ==> ids[i] == entries[i].id
  {
    seq(|entries|, i requires 0 <= i < |entries| => entries[i].id)
  }

  /** A batch carries exactly one `{"filename": filename}` record per
      document, in order, and its ids are the given ones. */
  lemma BatchTagged(docs: seq<string>, ids: seq<string>, vectors: seq<Vector>, filename: string)
    requires |ids| == |docs| == |vectors|
    ensures Documents(Batch(docs, ids, vectors, filename)) == docs
    ensures Ids(Batch(docs, ids, vectors, filename)) == ids
    ensures forall e :: e in Batch(docs, ids, vectors, filename) ==> e.metadata == FilenameRecord(filename)
    ensures OfFile(Batch(docs, ids, vectors, filename), filename) == Batch(docs, ids, vectors, filename)
    ensures forall g :: g != filename ==> OfFile(Batch(docs, ids, vectors, filename), g) == []
  {
    var b := Batch(docs, ids, vectors, filename);
    AllTaggedOfFile(b, filename);
    forall g | g != filename ensures OfFile(b, g) == [] {
      NoneTaggedOfFile(b, g);
    }
  }

  lemma {:induction false} AllTaggedOfFile(es: seq<Entry>, f: string)
    requires forall e :: e in es ==> TaggedWith(e, f)
    ensures OfFile(es, f) == es
  {
    if es != [] {
      AllTaggedOfFile(es[1..], f);
      assert es == [es[0]] + es[1..];
    }
  }

  lemma {:induction false} NoneTaggedOfFile(es: seq<Entry>, f: string)
    requires forall e :: e in es ==> !TaggedWith(e, f)
    ensures OfFile(es, f) == []
  {
    if es != [] {
      NoneTaggedOfFile(es[1..], f);
    }
  }

  lemma {:induction false} OfFileAppend(a: seq<Entry>, b: seq<Entry>, f: string)
    ensures OfFile(a + b, f) == OfFile(a, f) + OfFile(b, f)
  {
    if a != [] {
      assert (a + b)[1..] == a[1..] + b;
      OfFileAppend(a[1..], b, f);
    } else {
      assert a + b == b;
    }
  }

  /** A successful add changes what is stored for its own file only: that
      file's entries gain the batch, every other file's are as before. */
  lemma AddOnlyTouchesItsFile(entries: seq<Entry>, docs: seq<string>, ids: seq<string>,
                              vectors: seq<Vector>, filename: string, g: string)
    requires |ids| == |docs| == |vectors|
    ensures OfFile(entries + Batch(docs, ids, vectors, filename), g) ==
      OfFile(entries, g) + (if g == filename then Batch(docs, ids, vectors, filename) else [])
  {
    OfFileAppend(entries, Batch(docs, ids, vectors, filename), g);
    BatchTagged(docs, ids, vectors, filename);
  }

  /** When no entry has the filename, the lookup finds no id and the
      collection is already the specified result. */
  lemma {:induction false} NothingToDelete(entries: seq<Entry>, filename: string)
    requires MatchingIds(entries, filename) == []
    ensures !HasFile(entries, filename)
    ensures Without(entries, filename) == entries
  {
    if entries != [] {
      assert !TaggedWith(entries[0], filename);
      NothingToDelete(entries[1..], filename);
      assert entries == [entries[0]] + entries[1..];
    }
  }

  /** Deleting by a list of ids that picks out exactly the entries tagged with
      the filename removes exactly those entries. */
  lemma {:induction false} RemoveIdsIsWithout(entries: seq<Entry>, ids: seq<string>, filename: string)
    requires forall e :: e in entries ==> (e.id in ids <==> TaggedWith(e, filename))
    ensures RemoveIds(entries, ids) == Without(entries, filename)
  {
    if entries != [] {
      RemoveIdsIsWithout(entries[1..], ids, filename);
    }
  }

  /** With distinct ids, the ids the lookup returns belong to the tagged
      entries only, so the two-step delete is the specified one. */
  lemma RemoveMatchingIsWithout(entries: seq<Entry>, filename: string)
    requires DistinctIds(entries)
    ensures RemoveIds(entries, MatchingIds(entries, filename)) == Without(entries, filename)
  {
    var ids := MatchingIds(entries, filename);
    forall e | e in entries ensures e.id in ids <==> TaggedWith(e, filename) {
      if e.id in ids {
        var e' :| e' in entries && TaggedWith(e', filename) && e'.id == e.id;
        var i :| 0 <= i < |entries| && entries[i] == e;
        var j :| 0 <= j < |entries| && entries[j] == e';
        assert i == j;
      }
    }
    RemoveIdsIsWithout(entries, ids, filename);
  }

  lemma {:induction false} WithoutIsSubsequence(entries: seq<Entry>, filename: string)
    ensures DistinctIds(entries) ==> DistinctIds(Without(entries, filename))
  {
    if entries != [] {
      WithoutIsSubsequence(entries[1..], filename);
      if DistinctIds(entries) {
        assert DistinctIds(entries[1..]) by {
          forall i, j | 0 <= i < j < |entries| - 1
            ensures entries[1..][i].id != entries[1..][j].id
          {
            assert entries[1..][i] == entries[i + 1] && entries[1..][j] == entries[j + 1];
          }
        }
        var rest := Without(entries[1..], filename);
        var w := Without(entries, filename);
        if !TaggedWith(entries[0], filename) {
          assert w == [entries[0]] + rest;
          forall j | 0 <= j < |rest| ensures rest[j].id != entries[0].id {
            assert rest[j] in entries[1..];
            var m :| 0 <= m < |entries[1..]| && entries[1..][m] == rest[j];
            assert entries[m + 1] == rest[j];
          }
          forall i, j | 0 <= i < j < |w| ensures w[i].id != w[j].id {
            if i > 0 {
              assert w[i] == rest[i - 1] && w[j] == rest[j - 1];
            } else {
              assert w[j] == rest[j - 1];
            }
          }
        }
      }
    }
  }

  lemma WithoutKeepsDistinct(entries: seq<Entry>, filename: string)
    requires DistinctIds(entries)
    ensures DistinctIds(Without(entries, filename))
  {
    WithoutIsSubsequence(entries, filename);
  }

  /** After a delete that found the file, nothing of that file remains. */
  lemma {:induction false} WithoutRemovesFile(entries: seq<Entry>, filename: string)
    ensures OfFile(Without(entries, filename), filename) == []
    ensures !HasFile(Without(entries, filename), filename)
  {
    NoneTaggedOfFile(Without(entries, filename), filename);
  }

  /** A delete leaves every other file's entries exactly as they were. */
  lemma {:induction false} WithoutKeepsOtherFiles(entries: seq<Entry>, filename: string, g: string)
    requires g != filename
    ensures OfFile(Without(entries, filename), g) == OfFile(entries, g)
  {
    if entries != [] {
      WithoutKeepsOtherFiles(entries[1..], filename, g);
      var head := if TaggedWith(entries[0], filename) then [] else [entries[0]];
      OfFileAppend(head, Without(entries[1..], filename), g);
      if TaggedWith(entries[0], filename) {
        assert !TaggedWith(entries[0], g);
        assert OfFile(head, g) == [];
      }
    }
  }

  /** Deleting a file that is not in scope does not change which entries a
      query may return. */
  lemma {:induction false} WithoutKeepsCandidates(entries: seq<Entry>, filename: string, files: seq<string>)
    requires filename !in files
    ensures Candidates(Without(entries, filename), files) == Candidates(entries, files)
  {
    if entries != [] {
      WithoutKeepsCandidates(entries[1..], filename, files);
      var head := if TaggedWith(entries[0], filename) then [] else [entries[0]];
      CandidatesAppend(head, Without(entries[1..], filename), files);
      if TaggedWith(entries[0], filename) {
        assert !InScope(entries[0], files);
      }
    }
  }

  lemma {:induction false} CandidatesAppend(a: seq<Entry>, b: seq<Entry>, files: seq<string>)
    ensures Candidates(a + b, files) == Candidates(a, files) + Candidates(b, files)
  {
    if a != [] {
      assert (a + b)[1..] == a[1..] + b;
      CandidatesAppend(a[1..], b, files);
    } else {
      assert a + b == b;
    }
  }

  /** No id occurs twice. */
  predicate NoDup(ids: seq<string>) {
    forall i, j :: 0 <= i < j < |ids| ==> ids[i] != ids[j]
  }

  /** Some entry that the `$in` filter lets through carries `id`. */
  predicate IdInScope(entries: seq<Entry>, files: seq<string>, id: string) {
    exists e :: e in entries && e.id == id && InScope(e, files)
  }

  /** `d` is the document of an in-scope entry with id `id`. */
  predicate DocumentOf(entries: seq<Entry>, files: seq<string>, id: string, d: string) {
    exists e :: e in entries && e.id == id && InScope(e, files) && e.document == d
  }

  /** The ids of the ranking that name an in-scope entry, in ranking order:
      what a filtered nearest-neighbour search walks through. */
  function ScopedIds(entries: seq<Entry>, files: seq<string>, order: seq<string>): seq<string> {
    if order == [] then []
    else (if IdInScope(entries, files, order[0]) then [order[0]] else []) + ScopedIds(entries, files, order[1..])
  }

  /** Looking an id up among the candidates finds an entry exactly when an
      in-scope entry has that id. */
  lemma LookupInScope(entries: seq<Entry>, files: seq<string>, id: string)
    ensures var r := Lookup(Candidates(entries, files), id);
      && (r.Some? <==> IdInScope(entries, files, id))
      && (r.Some? ==> r.value in entries && r.value.id == id && InScope(r.value, files))
  {
  }

  /** `docs[k]` is the document of an in-scope entry with id `ids[k]`, for
      every `k`. */
  predicate DocumentsOf(entries: seq<Entry>, files: seq<string>, ids: seq<string>, docs: seq<string>) {
    |docs| == |ids| && forall k :: 0 <= k < |ids| ==> DocumentOf(entries, files, ids[k], docs[k])
  }

  lemma DocumentsOfCons(entries: seq<Entry>, files: seq<string>, id: string, d: string,
                        ids: seq<string>, docs: seq<string>)
    requires DocumentOf(entries, files, id, d) && DocumentsOf(entries, files, ids, docs)
    ensures DocumentsOf(entries, files, [id] + ids, [d] + docs)
  {
    assert forall k :: 1 <= k < |ids| + 1 ==> ([id] + ids)[k] == ids[k - 1] && ([d] + docs)[k] == docs[k - 1];
  }

  /** The ranked documents follow the ranking: the `k`-th is the document of
      the `k`-th in-scope id, and every in-scope id contributes one. */
  lemma {:induction false} RankedFollowsOrder(entries: seq<Entry>, files: seq<string>, order: seq<string>)
    ensures DocumentsOf(entries, files, ScopedIds(entries, files, order), Ranked(Candidates(entries, files), order))
    decreases |order|
  {
    if order != [] {
      var c := Candidates(entries, files);
      RankedFollowsOrder(entries, files, order[1..]);
      LookupInScope(entries, files, order[0]);
      var here := Lookup(c, order[0]);
      if here.Some? {
        assert DocumentOf(entries, files, order[0], here.value.document);
        DocumentsOfCons(entries, files, order[0], here.value.document,
                        ScopedIds(entries, files, order[1..]), Ranked(c, order[1..]));
      }
    }
  }

  /** Filtering a ranking without repeated ids gives ids without repeats, all
      taken from the ranking. */
  lemma {:induction false} ScopedIdsNoDup(entries: seq<Entry>, files: seq<string>, order: seq<string>)
    requires NoDup(order)
    ensures NoDup(ScopedIds(entries, files, order))
    ensures forall id :: id in ScopedIds(entries, files, order) ==> id in order
    decreases |order|
  {
    if order != [] {
      assert NoDup(order[1..]) by {
        forall i, j | 0 <= i < j < |order| - 1 ensures order[1..][i] != order[1..][j] {
          assert order[1..][i] == order[i + 1] && order[1..][j] == order[j + 1];
        }
      }
      ScopedIdsNoDup(entries, files, order[1..]);
      var restIds := ScopedIds(entries, files, order[1..]);
      if IdInScope(entries, files, order[0]) {
        var ids := [order[0]] + restIds;
        forall j | 1 <= j < |ids| ensures ids[j] != order[0] {
          assert ids[j] in order[1..];
          var m :| 0 <= m < |order[1..]| && order[1..][m] == ids[j];
          assert order[m + 1] == ids[j];
        }
        assert forall i, j :: 1 <= i < j < |ids| ==> ids[i] == restIds[i - 1] && ids[j] == restIds[j - 1];
      }
    }
  }

  /** A query that reaches the index returns the documents of the first
      `min(top_k, n)` in-scope ids of the ranking, in ranking order, where `n`
      is the number of in-scope ids the ranking lists. */
  lemma QueryReturnsTopRanked(entries: seq<Entry>, query: string, topK: int, liveFiles: seq<string>,
                              embed: string -> Option<Vector>, rank: Vector -> seq<string>, storeOk: bool)
    requires liveFiles != [] && embed(query).Some? && topK > 0 && storeOk
    ensures var ids := ScopedIds(entries, liveFiles, rank(embed(query).value));
      var r := QuerySimilar(entries, query, topK, liveFiles, embed, rank, storeOk);
      && r.Ok?
      && |r.value| == (if topK < |ids| then topK else |ids|)
      && DocumentsOf(entries, liveFiles, ids[..|r.value|], r.value)
  {
    RankedFollowsOrder(entries, liveFiles, rank(embed(query).value));
  }

  /** When the ranking lists each id once, no entry is returned twice: the
      results come from entries with pairwise different ids. */
  lemma QueryNoRepeats(entries: seq<Entry>, query: string, topK: int, liveFiles: seq<string>,
                       embed: string -> Option<Vector>, rank: Vector -> seq<string>, storeOk: bool)
    requires liveFiles != [] && embed(query).Some? && topK > 0 && storeOk
    requires NoDup(rank(embed(query).value))
    ensures var ids := ScopedIds(entries, liveFiles, rank(embed(query).value));
      var r := QuerySimilar(entries, query, topK, liveFiles, embed, rank, storeOk);
      r.Ok? && |r.value| <= |ids| && NoDup(ids)
  {
    QueryReturnsTopRanked(entries, query, topK, liveFiles, embed, rank, storeOk);
    ScopedIdsNoDup(entries, liveFiles, rank(embed(query).value));
  }

  /** An id is among the in-scope ids of a ranking iff the ranking lists it
      and an in-scope entry carries it. */
  lemma {:induction false} InScopedIds(entries: seq<Entry>, files: seq<string>, order: seq<string>, id: string)
    ensures id in ScopedIds(entries, files, order) <==> id in order && IdInScope(entries, files, id)
    decreases |order|
  {
    if order != [] {
      InScopedIds(entries, files, order[1..], id);
      assert order == [order[0]] + order[1..];
    }
  }

  /** A list without repeats has as many distinct elements as it is long. */
  lemma {:induction false} NoDupCard(s: seq<string>)
    requires NoDup(s)
    ensures |set x | x in s| == |s|
  {
    if s != [] {
      forall i, j | 0 <= i < j < |s| - 1 ensures s[1..][i] != s[1..][j] {
        assert s[1..][i] == s[i + 1] && s[1..][j] == s[j + 1];
      }
      NoDupCard(s[1..]);
      forall m | 0 <= m < |s| - 1 ensures s[1..][m] != s[0] {
        assert s[1..][m] == s[m + 1];
      }
      assert s[0] !in s[1..];
      assert (set x | x in s) == {s[0]} + (set x | x in s[1..]);
    }
  }

  /** Entries with distinct ids have as many ids as there are entries. */
  lemma IdsOfCard(es: seq<Entry>)
    requires DistinctIds(es)
    ensures |IdsOf(es)| == |es|
  {
    var ids := Ids(es);
    NoDupCard(ids);
    forall x ensures x in ids <==> x in IdsOf(es) {
      if x in ids {
        var i :| 0 <= i < |ids| && ids[i] == x;
        assert es[i] in es;
      }
      if x in IdsOf(es) {
        var e :| e in es && e.id == x;
        var i :| 0 <= i < |es| && es[i] == e;
        assert ids[i] == x;
      }
    }
    assert (set x | x in ids) == IdsOf(es);
  }

  /** The `$in` filter keeps ids distinct. */
  lemma {:induction false} CandidatesKeepDistinct(entries: seq<Entry>, files: seq<string>)
    requires DistinctIds(entries)
    ensures DistinctIds(Candidates(entries, files))
  {
    if entries != [] {
      var rest := entries[1..];
      assert DistinctIds(rest) by {
        forall i, j | 0 <= i < j < |rest| ensures rest[i].id != rest[j].id {
          assert rest[i] == entries[i + 1] && rest[j] == entries[j + 1];
        }
      }
      CandidatesKeepDistinct(rest, files);
      var tail := Candidates(rest, files);
      if InScope(entries[0], files) {
        var cs := [entries[0]] + tail;
        forall j | 1 <= j < |cs| ensures cs[j].id != entries[0].id {
          assert cs[j] in rest;
          var m :| 0 <= m < |rest| && rest[m] == cs[j];
          assert entries[m + 1] == cs[j];
        }
        assert forall i, j :: 1 <= i < j < |cs| ==> cs[i] == tail[i - 1] && cs[j] == tail[j - 1];
      }
    }
  }

  /** When the ranking lists every stored id exactly once, as an exact index
      does, a query returns `min(top_k, n)` documents, where `n` is the number
      of in-scope entries. */
  lemma QueryExactIndex(entries: seq<Entry>, query: string, topK: int, liveFiles: seq<string>,
                        embed: string -> Option<Vector>, rank: Vector -> seq<string>, storeOk: bool)
    requires liveFiles != [] && embed(query).Some? && topK > 0 && storeOk
    requires DistinctIds(entries)
    requires NoDup(rank(embed(query).value))
    requires forall e :: e in entries ==> e.id in rank(embed(query).value)
    ensures var n := |Candidates(entries, liveFiles)|;
      var r := QuerySimilar(entries, query, topK, liveFiles, embed, rank, storeOk);
      r.Ok? && |r.value| == (if topK < n then topK else n)
  {
    var order := rank(embed(query).value);
    var ids := ScopedIds(entries, liveFiles, order);
    var cs := Candidates(entries, liveFiles);
    QueryReturnsTopRanked(entries, query, topK, liveFiles, embed, rank, storeOk);
    ScopedIdsNoDup(entries, liveFiles, order);
    NoDupCard(ids);
    CandidatesKeepDistinct(entries, liveFiles);
    IdsOfCard(cs);
    forall id ensures id in ids <==> id in IdsOf(cs) {
      InScopedIds(entries, liveFiles, order, id);
    }
    assert (set x | x in ids) == IdsOf(cs);
  }

  /** Called without `top_k`, a query returns at most three texts. */
  lemma QueryDefaultTopK(entries: seq<Entry>, query: string, liveFiles: seq<string>,
                         embed: string -> Option<Vector>, rank: Vector -> seq<string>, storeOk: bool)
    ensures var r := QuerySimilar(entries, query, DefaultTopK, liveFiles, embed, rank, storeOk);
      r.Ok? ==> |r.value| <= 3
  {
  }

  /** A query with no uploaded files returns `[]` whatever the collection,
      the embedding service, the ranking and the store would do. */
  lemma QueryWithoutFiles(entries: seq<Entry>, query: string, topK: int,
                          embed: string -> Option<Vector>, rank: Vector -> seq<string>, storeOk: bool)
    ensures QuerySimilar(entries, query, topK, [], embed, rank, storeOk) == Ok([])
  {
  }

  /** After a delete of `filename`, a query scoped to that file alone finds
      nothing, even bypassing the folder listing. */
  lemma QueryAfterDelete(entries: seq<Entry>, filename: string, query: string, topK: int,
                         embed: string -> Option<Vector>, rank: Vector -> seq<string>, storeOk: bool)
    ensures var r := QuerySimilar(Without(entries, filename), query, topK, [filename], embed, rank, storeOk);
      r.Ok? ==> r.value == []
  {
    var w := Without(entries, filename);
    NoCandidates(w, filename);
    match embed(query)
    case None =>
    case Some(v) => NothingRanked(rank(v));
  }

  lemma {:induction false} NoCandidates(entries: seq<Entry>, filename: string)
    requires forall e :: e in entries ==> !TaggedWith(e, filename)
    ensures Candidates(entries, [filename]) == []
  {
    if entries != [] {
      NoCandidates(entries[1..], filename);
    }
  }

  lemma {:induction false} NothingRanked(order: seq<string>)
    ensures Ranked([], order) == []
  {
    if order != [] {
      NothingRanked(order[1..]);
    }
  }

  /** Deleting one file leaves every query that is not scoped to it exactly as
      it was. */
  lemma QueryUnaffectedByOtherDelete(entries: seq<Entry>, filename: string, query: string, topK: int,
                                     liveFiles: seq<string>, embed: string -> Option<Vector>,
                                     rank: Vector -> seq<string>, storeOk: bool)
    requires filename !in liveFiles
    ensures QuerySimilar(Without(entries, filename), query, topK, liveFiles, embed, rank, storeOk)
         == QuerySimilar(entries, query, topK, liveFiles, embed, rank, storeOk)
  {
    WithoutKeepsCandidates(entries, filename, liveFiles);
  }
}
