/** The browser client's session state and the handlers that change it:
    the ordered `pages` list, `fileMap`, `uploadedFiles` and the two image
    caches, as the upload, delete, rotate, reorder, thumbnail and preview
    code of the client script updates them. */
module Session {
  import opened Wrappers
  import opened Seqs
  import opened PageModel
  import opened PageCache

  /** The default `batchSize` of `cachePagesBatched`. */
  const ThumbnailBatchSize: nat := 5

  /** The output name used when the name box is left empty. */
  const DefaultMergeName: string := "merged"

  function NotId(id: string): Page -> bool {
    (p: Page) => p.id != id
  }

  function FromFile(filename: string): Page -> bool {
    (p: Page) => p.file == filename
  }

  function NotFromFile(filename: string): Page -> bool {
    (p: Page) => p.file != filename
  }

  function NotNamed(filename: string): FileEntry -> bool {
    (e: FileEntry) => e.filename != filename
  }

  /** The ids of the pages that deleting `filename` removes. */
  function IdsFromFile(ps: seq<Page>, filename: string): set<string> {
    set p | p in ps && p.file == filename :: p.id
  }

  /** The merge button: nothing is sent when there are no pages; otherwise
      the whole page order and file map go with the typed name, or
      "merged" when the box is empty. */
  function MergeRequest(pages: seq<Page>, fileMap: map<string, string>, nameInput: string): (r: Option<MergeBody>)
    ensures r.None? <==> pages == []
    ensures r.Some? ==> r.value.order == pages && r.value.fileMap == fileMap && r.value.newName != ""
    ensures r.Some? && nameInput != "" ==> r.value.newName == nameInput
    ensures r.Some? && nameInput == "" ==> r.value.newName == DefaultMergeName
  {
    if pages == [] then None
    else Some(MergeBody(pages, fileMap, if nameInput != "" then nameInput else DefaultMergeName))
  }

  /** Filtering a list of pages with distinct ids keeps the ids distinct. */
  lemma {:induction false} FilterKeepsIdsDistinct(ps: seq<Page>, keep: Page -> bool)
    requires NoDuplicates(Ids(ps))
    ensures NoDuplicates(Ids(Filter(ps, keep)))
  {
    var r := Filter(ps, keep);
    var idx := FilterKeepsOrder(ps, keep);
    forall i, j | 0 <= i < j < |r|
      ensures Ids(r)[i] != Ids(r)[j]
    {
      assert Ids(ps)[idx[i]] == r[i].id && Ids(ps)[idx[j]] == r[j].id;
    }
  }

  /** Deleting a page keeps every other id present. */
  lemma {:induction false} PageDeleteKeepsOtherIds(ps: seq<Page>, id: string)
    ensures IdSet(ps) - {id} <= IdSet(Filter(ps, NotId(id)))
  {
    forall x | x in IdSet(ps) - {id}
      ensures x in IdSet(Filter(ps, NotId(id)))
    {
      var p :| p in ps && p.id == x;
      assert p in Filter(ps, NotId(id));
    }
  }

  /** Deleting a file keeps every id that is not one of its pages' ids. */
  lemma {:induction false} FileDeleteKeepsOtherIds(ps: seq<Page>, filename: string)
    ensures IdSet(ps) - IdsFromFile(ps, filename) <= IdSet(Filter(ps, NotFromFile(filename)))
  {
    forall x | x in IdSet(ps) - IdsFromFile(ps, filename)
      ensures x in IdSet(Filter(ps, NotFromFile(filename)))
    {
      var p :| p in ps && p.id == x;
      assert p in Filter(ps, NotFromFile(filename));
    }
  }

  /** A reorder whose ids are a permutation of the current ids keeps the
      set of ids. */
  lemma {:induction false} ReorderKeepsIdSet(ps: seq<Page>, domIds: seq<string>)
    requires forall k :: 0 <= k < |domIds| ==> domIds[k] in Ids(ps)
    ensures multiset(domIds) == multiset(Ids(ps)) ==> IdSet(Reordered(ps, domIds)) == IdSet(ps)
  {
    var r := Reordered(ps, domIds);
    if multiset(domIds) == multiset(Ids(ps)) {
      forall x | x in IdSet(ps)
        ensures x in IdSet(r)
      {
        var q :| q in ps && q.id == x;
        var i :| 0 <= i < |ps| && ps[i] == q;
        assert Ids(ps)[i] == x;
        assert x in multiset(domIds);
        var j :| 0 <= j < |domIds| && domIds[j] == x;
        assert r[j] in r && r[j].id == x;
      }
      forall x | x in IdSet(r)
        ensures x in IdSet(ps)
      {
        var q :| q in r && q.id == x;
        assert q in ps;
      }
    }
  }

  /** Filling with pages whose ids are all in `ids` keeps a cache whose
      keys are in `ids` within `ids`. */
  lemma {:induction false} FillStaysWithinPages(cache: map<string, Image>, ps: seq<Page>, render: Page -> Option<Image>, ids: set<string>)
    ensures cache.Keys <= ids && (forall p :: p in ps ==> p.id in ids) ==> FillAll(cache, ps, render).cache.Keys <= ids
  {
    if cache.Keys <= ids && (forall p :: p in ps ==> p.id in ids) {
      FillFrame(cache, ps, render);
      forall id | id in FillAll(cache, ps, render).cache
        ensures id in ids
      {
        if id !in cache {
          var k :| 0 <= k < |ps| && ps[k].id == id && render(ps[k]).Some?;
          assert ps[k] in ps;
        }
      }
    }
  }

  /** Changing one page's rotation keeps the ids, position by position,
      and the file of every page. */
  lemma {:induction false} RotateOneKeepsIds(ps: seq<Page>, i: nat, rotation: int)
    requires i < |ps|
    ensures var qs := ps[i := ps[i].(rotation := rotation)];
      && Ids(qs) == Ids(ps)
      && IdSet(qs) == IdSet(ps)
      && forall p :: p in qs ==> exists q :: q in ps && q.file == p.file
  {
    var qs := ps[i := ps[i].(rotation := rotation)];
    assert forall k :: 0 <= k < |ps| ==> qs[k].id == ps[k].id && qs[k].file == ps[k].file;
    forall p | p in qs
      ensures exists q :: q in ps && q.file == p.file
    {
      var k :| 0 <= k < |qs| && qs[k] == p;
      assert ps[k] in ps;
    }
    forall x | x in IdSet(ps)
      ensures x in IdSet(qs)
    {
      var q :| q in ps && q.id == x;
      var k :| 0 <= k < |ps| && ps[k] == q;
      assert qs[k] in qs;
    }
    forall x | x in IdSet(qs)
      ensures x in IdSet(ps)
    {
      var q :| q in qs && q.id == x;
      var k :| 0 <= k < |qs| && qs[k] == q;
      assert ps[k] in ps;
    }
  }

  class Session {
    var pages: seq<Page>
    var fileMap: map<string, string>
    var uploadedFiles: seq<FileEntry>
    var pageCache: map<string, Image>
    var highResPageCache: map<string, Image>
    /** Every page handed to the thumbnail renderer, in call order. */
    ghost var thumbnailRenders: seq<Page>
    /** Every page handed to the preview renderer, in call order. */
    ghost var previewRenders: seq<Page>

    /** Every page refers to a file the session knows the stored path of. */
    ghost predicate FilesKnown()
      reads this
    {
      forall p :: p in pages ==> p.file in fileMap
    }

    /** Cache entries exist only for ids of pages still in the list. */
    ghost predicate CachesWithinPages()
      reads this
    {
      pageCache.Keys <= IdSet(pages) && highResPageCache.Keys <= IdSet(pages)
    }

    constructor ()
      ensures pages == [] && fileMap == map[] && uploadedFiles == []
      ensures pageCache == map[] && highResPageCache == map[]
      ensures thumbnailRenders == [] && previewRenders == []
      ensures FilesKnown() && CachesWithinPages()
    {
      pages, fileMap, uploadedFiles := [], map[], [];
      pageCache, highResPageCache := map[], map[];
      thumbnailRenders, previewRenders := [], [];
    }

    /** The state change of a successful upload: the new pages go after the
        existing ones, the response's file map entries are merged in (its
        keys win) and its file names are appended. */
    method AppendUpload(response: UploadResponse)
      modifies this
      ensures pages == old(pages) + response.pages
      ensures pages[..|old(pages)|] == old(pages)
      ensures fileMap.Keys == old(fileMap).Keys + response.fileMap.Keys
      ensures forall f :: f in response.fileMap ==> fileMap[f] == response.fileMap[f]
      ensures forall f :: f in old(fileMap) && f !in response.fileMap ==> fileMap[f] == old(fileMap)[f]
      ensures uploadedFiles == old(uploadedFiles) + response.fileNames
      ensures pageCache == old(pageCache) && highResPageCache == old(highResPageCache)
      ensures thumbnailRenders == old(thumbnailRenders) && previewRenders == old(previewRenders)
      ensures old(FilesKnown()) && (forall p :: p in response.pages ==> p.file in response.fileMap) ==> FilesKnown()
      ensures old(CachesWithinPages()) ==> CachesWithinPages()
    {
      pages := pages + response.pages;
      fileMap := fileMap + response.fileMap;
      uploadedFiles := uploadedFiles + response.fileNames;
    }

    /** `cachePagesBatched`: the pages are visited batch by batch, in order,
        each with one thumbnail get-or-render. The renders of one batch run
        concurrently in the client; here they run one after the other. */
    method CachePagesBatched(newPages: seq<Page>, batchSize: nat, render: Page -> Option<Image>)
      returns (ghost batches: seq<seq<Page>>)
      requires batchSize > 0
      modifies this
      ensures pageCache == FillAll(old(pageCache), newPages, render).cache
      ensures thumbnailRenders == old(thumbnailRenders) + FillAll(old(pageCache), newPages, render).rendered
      ensures batches == Batches(newPages, batchSize)
      ensures pages == old(pages) && fileMap == old(fileMap) && uploadedFiles == old(uploadedFiles)
      ensures highResPageCache == old(highResPageCache) && previewRenders == old(previewRenders)
      ensures old(CachesWithinPages()) && (forall p :: p in newPages ==> p.id in IdSet(pages)) ==> CachesWithinPages()
    {
      var i := 0;
      batches := [];
      assert newPages[i..] == newPages;
      while i < |newPages|
        invariant 0 <= i <= |newPages|
        invariant pageCache == FillAll(old(pageCache), newPages[..i], render).cache
        invariant thumbnailRenders == old(thumbnailRenders) + FillAll(old(pageCache), newPages[..i], render).rendered
        invariant Batches(newPages, batchSize) == batches + Batches(newPages[i..], batchSize)
        invariant pages == old(pages) && fileMap == old(fileMap) && uploadedFiles == old(uploadedFiles)
        invariant highResPageCache == old(highResPageCache) && previewRenders == old(previewRenders)
      {
        var end := BatchEnd(|newPages|, i, batchSize);
        var batch := newPages[i..end];
        BatchesAdvance(newPages, batches, i, batchSize);
        FillAllSlices(old(pageCache), newPages, i, end, render);
        ghost var before := FillAll(old(pageCache), newPages[..i], render).rendered;
        CacheBatch(batch, render);
        ghost var added := FillAll(FillAll(old(pageCache), newPages[..i], render).cache, batch, render).rendered;
        assert (old(thumbnailRenders) + before) + added == old(thumbnailRenders) + (before + added);
        batches := batches + [batch];
        i := end;
      }
      assert newPages[..i] == newPages;
      assert newPages[i..] == [];
      FillStaysWithinPages(old(pageCache), newPages, render, IdSet(pages));
    }

    /** One batch of `cachePagesBatched`: a thumbnail get-or-render for each
        of its pages. */
    method CacheBatch(batch: seq<Page>, render: Page -> Option<Image>)
      modifies this
      ensures pageCache == FillAll(old(pageCache), batch, render).cache
      ensures thumbnailRenders == old(thumbnailRenders) + FillAll(old(pageCache), batch, render).rendered
      ensures pages == old(pages) && fileMap == old(fileMap) && uploadedFiles == old(uploadedFiles)
      ensures highResPageCache == old(highResPageCache) && previewRenders == old(previewRenders)
    {
      var j := 0;
      while j < |batch|
        invariant 0 <= j <= |batch|
        invariant pageCache == FillAll(old(pageCache), batch[..j], render).cache
        invariant thumbnailRenders == old(thumbnailRenders) + FillAll(old(pageCache), batch[..j], render).rendered
        invariant pages == old(pages) && fileMap == old(fileMap) && uploadedFiles == old(uploadedFiles)
        invariant highResPageCache == old(highResPageCache) && previewRenders == old(previewRenders)
      {
        var p := batch[j];
        assert batch[..j + 1] == batch[..j] + [p];
        FillAllSnoc(old(pageCache), batch[..j], p, render);
        if !Cached(pageCache, p.id) {
          thumbnailRenders := thumbnailRenders + [p];
          var image := render(p);
          if image.Some? {
            pageCache := pageCache[p.id := image.value];
          }
        }
        j := j + 1;
      }
      assert batch[..j] == batch;
    }

    /** The upload request's completion handler: on success, append the
        response and then fill the thumbnail cache for the new pages; on
        failure, change nothing. */
    method OnUploadLoad(response: Option<UploadResponse>, render: Page -> Option<Image>)
      modifies this
      ensures response.None? ==> pages == old(pages) && fileMap == old(fileMap) && uploadedFiles == old(uploadedFiles)
      ensures response.None? ==> pageCache == old(pageCache) && thumbnailRenders == old(thumbnailRenders)
      ensures response.Some? ==> pages == old(pages) + response.value.pages
      ensures response.Some? ==> fileMap == old(fileMap) + response.value.fileMap
      ensures response.Some? ==> uploadedFiles == old(uploadedFiles) + response.value.fileNames
      ensures response.Some? ==> pageCache == FillAll(old(pageCache), response.value.pages, render).cache
      ensures response.Some? ==> thumbnailRenders == old(thumbnailRenders) + FillAll(old(pageCache), response.value.pages, render).rendered
      ensures highResPageCache == old(highResPageCache) && previewRenders == old(previewRenders)
      ensures old(CachesWithinPages()) ==> CachesWithinPages()
    {
      if response.Some? {
        AppendUpload(response.value);
        forall p | p in response.value.pages
          ensures p.id in IdSet(pages)
        {
          assert p in pages;
        }
        var _ := CachePagesBatched(response.value.pages, ThumbnailBatchSize, render);
      }
    }

    /** `getHighResPageDataUrl`: a hit returns the stored image without
        rendering; a miss renders, and a success is stored and returned,
        while a failure returns "" and stores nothing. */
    method GetHighResPageDataUrl(page: Page, render: Page -> Option<Image>) returns (url: Image)
      modifies this
      ensures Cached(old(highResPageCache), page.id) ==>
        url == old(highResPageCache)[page.id] && previewRenders == old(previewRenders)
      ensures !Cached(old(highResPageCache), page.id) ==>
        url == render(page).GetOr("") && previewRenders == old(previewRenders) + [page]
      ensures highResPageCache == FillOne(old(highResPageCache), page, render)
      ensures pages == old(pages) && fileMap == old(fileMap) && uploadedFiles == old(uploadedFiles)
      ensures pageCache == old(pageCache) && thumbnailRenders == old(thumbnailRenders)
      ensures old(CachesWithinPages()) && page.id in IdSet(pages) ==> CachesWithinPages()
    {
      if Cached(highResPageCache, page.id) {
        return highResPageCache[page.id];
      }
      previewRenders := previewRenders + [page];
      var image := render(page);
      match image
      case Some(dataUrl) =>
        highResPageCache := highResPageCache[page.id := dataUrl];
        url := dataUrl;
      case None =>
        url := "";
    }

    /** A page's delete button (and a middle click on it): every page with
        that id leaves the list, the rest keep their order, and both caches
        drop that id and nothing else. */
    method DeletePage(id: string)
      modifies this
      ensures pages == Filter(old(pages), NotId(id))
      ensures forall p :: p in pages <==> p in old(pages) && p.id != id
      ensures pageCache == old(pageCache) - {id}
      ensures highResPageCache == old(highResPageCache) - {id}
      ensures fileMap == old(fileMap) && uploadedFiles == old(uploadedFiles)
      ensures thumbnailRenders == old(thumbnailRenders) && previewRenders == old(previewRenders)
      ensures old(NoDuplicates(Ids(pages))) ==> NoDuplicates(Ids(pages))
      ensures old(FilesKnown()) ==> FilesKnown()
      ensures old(CachesWithinPages()) ==> CachesWithinPages()
    {
      if NoDuplicates(Ids(pages)) {
        FilterKeepsIdsDistinct(pages, NotId(id));
      }
      PageDeleteKeepsOtherIds(pages, id);
      pages := Filter(pages, NotId(id));
      pageCache := pageCache - {id};
      highResPageCache := highResPageCache - {id};
    }

    /** The grid item's auxiliary-click handler: only the middle button
        (button 1) deletes the page. */
    method AuxClick(button: int, id: string)
      modifies this
      ensures button == 1 ==> pages == Filter(old(pages), NotId(id))
      ensures button == 1 ==> pageCache == old(pageCache) - {id} && highResPageCache == old(highResPageCache) - {id}
      ensures button != 1 ==> pages == old(pages) && pageCache == old(pageCache) && highResPageCache == old(highResPageCache)
      ensures fileMap == old(fileMap) && uploadedFiles == old(uploadedFiles)
      ensures thumbnailRenders == old(thumbnailRenders) && previewRenders == old(previewRenders)
    {
      if button == 1 {
        DeletePage(id);
      }
    }

    /** A file's delete button: both caches lose the ids of that file's
        pages, then the file leaves `uploadedFiles`, its pages leave `pages`
        (the rest keep their order) and its entry leaves `fileMap`. */
    method DeleteFile(filename: string)
      modifies this
      ensures pages == Filter(old(pages), NotFromFile(filename))
      ensures forall p :: p in pages <==> p in old(pages) && p.file != filename
      ensures pageCache == old(pageCache) - IdsFromFile(old(pages), filename)
      ensures highResPageCache == old(highResPageCache) - IdsFromFile(old(pages), filename)
      ensures uploadedFiles == Filter(old(uploadedFiles), NotNamed(filename))
      ensures fileMap == old(fileMap) - {filename}
      ensures thumbnailRenders == old(thumbnailRenders) && previewRenders == old(previewRenders)
      ensures old(NoDuplicates(Ids(pages))) ==> NoDuplicates(Ids(pages))
      ensures old(FilesKnown()) ==> FilesKnown()
      ensures old(CachesWithinPages()) ==> CachesWithinPages()
    {
      var pagesToRemove := Filter(pages, FromFile(filename));
      EvictAll(pagesToRemove);
      assert IdSet(pagesToRemove) == IdsFromFile(pages, filename);
      if NoDuplicates(Ids(pages)) {
        FilterKeepsIdsDistinct(pages, NotFromFile(filename));
      }
      FileDeleteKeepsOtherIds(pages, filename);
      uploadedFiles := Filter(uploadedFiles, NotNamed(filename));
      pages := Filter(pages, NotFromFile(filename));
      fileMap := fileMap - {filename};
    }

    /** The eviction loop of the file delete handler: each listed page's id
        leaves both caches. */
    method EvictAll(toRemove: seq<Page>)
      modifies this
      ensures pageCache == old(pageCache) - IdSet(toRemove)
      ensures highResPageCache == old(highResPageCache) - IdSet(toRemove)
      ensures pages == old(pages) && fileMap == old(fileMap) && uploadedFiles == old(uploadedFiles)
      ensures thumbnailRenders == old(thumbnailRenders) && previewRenders == old(previewRenders)
    {
      var k := 0;
      while k < |toRemove|
        invariant 0 <= k <= |toRemove|
        invariant pageCache == old(pageCache) - IdSet(toRemove[..k])
        invariant highResPageCache == old(highResPageCache) - IdSet(toRemove[..k])
        invariant pages == old(pages) && fileMap == old(fileMap) && uploadedFiles == old(uploadedFiles)
        invariant thumbnailRenders == old(thumbnailRenders) && previewRenders == old(previewRenders)
      {
        assert toRemove[..k + 1] == toRemove[..k] + [toRemove[k]];
        assert IdSet(toRemove[..k + 1]) == IdSet(toRemove[..k]) + {toRemove[k].id};
        pageCache := pageCache - {toRemove[k].id};
        highResPageCache := highResPageCache - {toRemove[k].id};
        k := k + 1;
      }
      assert toRemove[..k] == toRemove;
    }

    /** A page's rotate button: the first page with that id (the one
        `pages.find` returns) turns by 90 degrees modulo 360; every other
        page, the order and the caches stay as they were. With no such page
        the handler throws before changing anything. */
    method Rotate(id: string)
      modifies this
      ensures |pages| == |old(pages)| && Ids(pages) == Ids(old(pages))
      ensures match FindIndex(old(pages), id)
        case None => pages == old(pages)
        case Some(i) =>
          && pages[i] == old(pages)[i].(rotation := RotatedBy90(old(pages)[i].rotation))
          && forall k :: 0 <= k < |pages| && k != i ==> pages[k] == old(pages)[k]
      ensures fileMap == old(fileMap) && uploadedFiles == old(uploadedFiles)
      ensures pageCache == old(pageCache) && highResPageCache == old(highResPageCache)
      ensures thumbnailRenders == old(thumbnailRenders) && previewRenders == old(previewRenders)
      ensures old(FilesKnown()) ==> FilesKnown()
      ensures old(CachesWithinPages()) ==> CachesWithinPages()
    {
      var found := FindIndex(pages, id);
      if found.Some? {
        var i := found.value;
        RotateOneKeepsIds(pages, i, RotatedBy90(pages[i].rotation));
        pages := pages[i := pages[i].(rotation := RotatedBy90(pages[i].rotation))];
      }
    }

    /** The drag-reorder `onEnd` handler: the new list holds, position by
        position, the page carrying the k-th id of the grid. Every grid item
        is drawn from a current page, so every id names one. */
    method Reorder(domIds: seq<string>)
      requires forall k :: 0 <= k < |domIds| ==> domIds[k] in Ids(pages)
      modifies this
      ensures pages == Reordered(old(pages), domIds)
      ensures |pages| == |domIds| && Ids(pages) == domIds
      ensures forall k :: 0 <= k < |domIds| ==> Find(old(pages), domIds[k]) == Some(pages[k])
      ensures old(NoDuplicates(Ids(pages))) && multiset(domIds) == multiset(Ids(old(pages))) ==>
        multiset(pages) == multiset(old(pages))
      ensures old(CachesWithinPages()) && multiset(domIds) == multiset(Ids(old(pages))) ==> CachesWithinPages()
      ensures fileMap == old(fileMap) && uploadedFiles == old(uploadedFiles)
      ensures pageCache == old(pageCache) && highResPageCache == old(highResPageCache)
      ensures thumbnailRenders == old(thumbnailRenders) && previewRenders == old(previewRenders)
      ensures old(FilesKnown()) ==> FilesKnown()
    {
      var newOrder: seq<Page> := [];
      var k := 0;
      while k < |domIds|
        invariant 0 <= k <= |domIds|
        invariant newOrder == Reordered(pages, domIds[..k])
      {
        var pageObj := Find(pages, domIds[k]);
        newOrder := newOrder + [pageObj.value];
        k := k + 1;
      }
      assert domIds[..k] == domIds;
      if NoDuplicates(Ids(pages)) && multiset(domIds) == multiset(Ids(pages)) {
        ReorderPermutes(pages, domIds);
      }
      ReorderKeepsIdSet(pages, domIds);
      pages := newOrder;
    }
  }
}
