/** The server's `/upload` handler: every stored upload becomes one page
    descriptor per page, in request order, together with the file map and
    the list of file names. One unreadable file fails the whole request. */
module Ingest {
  import opened Wrappers
  import opened Seqs
  import opened PageIds
  import opened PageModel

  /** What the multipart decoder reports for one stored upload. */
  datatype StoredFile = StoredFile(filename: string, path: string, originalname: string)

  /** Page `i` of `f` as the handler synthesises it. */
  function Descriptor(f: StoredFile, i: nat): (p: Page)
    ensures p.id == PageId(p.file, p.pageIndex) && p.originalPage == p.pageIndex + 1
  {
    Page(PageId(f.filename, i), f.filename, i, f.originalname, i + 1, 0)
  }

  /** The descriptors of the first `count` pages of `f`. */
  function FilePages(f: StoredFile, count: nat): (ps: seq<Page>)
    ensures |ps| == count && forall i :: 0 <= i < count ==> ps[i] == Descriptor(f, i)
  {
    seq(count, i requires 0 <= i < count => Descriptor(f, i))
  }

  /** The stored file names of the request. */
  function Filenames(files: seq<StoredFile>): set<string> {
    set f | f in files :: f.filename
  }

  /** What the handler responds for `files`, given the page count reading
      and parsing each stored path yields (`None` when either throws). */
  function Ingest(files: seq<StoredFile>, pageCount: string -> Option<nat>): (r: Option<UploadResponse>)
    ensures r.Some? ==> |r.value.fileNames| == |files| && r.value.fileMap.Keys == Filenames(files)
    decreases |files|
  {
    if files == [] then Some(UploadResponse([], map[], []))
    else match Ingest(files[..|files| - 1], pageCount)
      case None => None
      case Some(r) =>
        var f := files[|files| - 1];
        match pageCount(f.path)
        case None => None
        case Some(n) =>
          Some(UploadResponse(
            r.pages + FilePages(f, n),
            r.fileMap[f.filename := f.path],
            r.fileNames + [FileEntry(f.filename, f.originalname)]))
  }

  /** The handler: the nested loops push descriptors and file names and
      record each file's path; the first failing file ends it with an error
      and nothing else is returned. */
  method HandleUpload(files: seq<StoredFile>, pageCount: string -> Option<nat>) returns (response: Option<UploadResponse>)
    ensures response == Ingest(files, pageCount)
  {
    var pages: seq<Page> := [];
    var fileMap: map<string, string> := map[];
    var fileNames: seq<FileEntry> := [];
    var k := 0;
    while k < |files|
      invariant 0 <= k <= |files|
      invariant Ingest(files[..k], pageCount) == Some(UploadResponse(pages, fileMap, fileNames))
    {
      var file := files[k];
      assert files[..k + 1][..k] == files[..k];
      var count := pageCount(file.path);
      if count.None? {
        IngestFailureStays(files, pageCount, k + 1);
        assert files[..|files|] == files;
        return None;
      }
      fileNames := fileNames + [FileEntry(file.filename, file.originalname)];
      ghost var before := pages;
      var i := 0;
      while i < count.value
        invariant 0 <= i <= count.value
        invariant pages == before + FilePages(file, i)
      {
        pages := pages + [Page(PageId(file.filename, i), file.filename, i, file.originalname, i + 1, 0)];
        assert FilePages(file, i + 1) == FilePages(file, i) + [Descriptor(file, i)];
        i := i + 1;
      }
      fileMap := fileMap[file.filename := file.path];
      k := k + 1;
    }
    assert files[..k] == files;
    response := Some(UploadResponse(pages, fileMap, fileNames));
  }

  /** Once a prefix of the request fails, the whole request fails. */
  lemma {:induction false} IngestFailureStays(files: seq<StoredFile>, pageCount: string -> Option<nat>, k: nat)
    requires k <= |files| && Ingest(files[..k], pageCount).None?
    ensures Ingest(files, pageCount).None?
    decreases |files| - k
  {
    if k < |files| {
      assert files[..k + 1][..k] == files[..k];
      IngestFailureStays(files, pageCount, k + 1);
    } else {
      assert files[..k] == files;
    }
  }

  /** The request fails exactly when some file's page count cannot be read. */
  lemma {:induction false} IngestFailsIff(files: seq<StoredFile>, pageCount: string -> Option<nat>)
    ensures Ingest(files, pageCount).None? <==> exists k :: 0 <= k < |files| && pageCount(files[k].path).None?
    decreases |files|
  {
    if files != [] {
      var init := files[..|files| - 1];
      IngestFailsIff(init, pageCount);
      if exists k :: 0 <= k < |init| && pageCount(init[k].path).None? {
        var k :| 0 <= k < |init| && pageCount(init[k].path).None?;
        assert files[k] == init[k];
      }
      if exists k :: 0 <= k < |files| && pageCount(files[k].path).None? {
        var k :| 0 <= k < |files| && pageCount(files[k].path).None?;
        if k < |init| {
          assert init[k] == files[k];
        }
      }
    }
  }

  /** `fileNames` lists every file, in request order. */
  lemma {:induction false} IngestFileNames(files: seq<StoredFile>, pageCount: string -> Option<nat>)
    requires Ingest(files, pageCount).Some?
    ensures var r := Ingest(files, pageCount).value;
      && |r.fileNames| == |files|
      && forall k :: 0 <= k < |files| ==> r.fileNames[k] == FileEntry(files[k].filename, files[k].originalname)
    decreases |files|
  {
    if files != [] {
      IngestFileNames(files[..|files| - 1], pageCount);
    }
  }

  /** `fileMap` has a key for each file name of the request and maps it to
      the path of the last file stored under that name. */
  lemma {:induction false} IngestFileMap(files: seq<StoredFile>, pageCount: string -> Option<nat>)
    requires Ingest(files, pageCount).Some?
    ensures var r := Ingest(files, pageCount).value;
      && r.fileMap.Keys == Filenames(files)
      && forall k :: 0 <= k < |files| && (forall j :: k < j < |files| ==> files[j].filename != files[k].filename) ==>
           r.fileMap[files[k].filename] == files[k].path
    decreases |files|
  {
    if files != [] {
      var init := files[..|files| - 1];
      IngestFileMap(init, pageCount);
      assert files == init + [files[|files| - 1]];
      assert Filenames(files) == Filenames(init) + {files[|files| - 1].filename};
      forall k | 0 <= k < |files| - 1 && (forall j :: k < j < |files| ==> files[j].filename != files[k].filename)
        ensures forall j :: k < j < |init| ==> init[j].filename != init[k].filename
      {
        assert forall j :: k < j < |init| ==> init[j] == files[j];
      }
    }
  }

  /** Every descriptor carries the id derived from its file and index,
      counts its page from one, starts unrotated, and names a file of the
      file map. */
  lemma {:induction false} IngestPagesWellFormed(files: seq<StoredFile>, pageCount: string -> Option<nat>)
    requires Ingest(files, pageCount).Some?
    ensures var r := Ingest(files, pageCount).value;
      forall q :: q in r.pages ==>
        && q.id == PageId(q.file, q.pageIndex)
        && q.originalPage == q.pageIndex + 1
        && q.rotation == 0
        && q.file in r.fileMap
    decreases |files|
  {
    if files != [] {
      IngestPagesWellFormed(files[..|files| - 1], pageCount);
    }
  }

  /** The stored paths of the request. */
  function Paths(files: seq<StoredFile>): set<string> {
    set f | f in files :: f.path
  }

  /** With distinct stored file names, every descriptor's file maps to a
      stored path whose page count exceeds the descriptor's page index. */
  lemma {:induction false} IngestPagesInRange(files: seq<StoredFile>, pageCount: string -> Option<nat>)
    requires Ingest(files, pageCount).Some?
    requires forall i, j :: 0 <= i < j < |files| ==> files[i].filename != files[j].filename
    ensures var r := Ingest(files, pageCount).value;
      forall q :: q in r.pages ==> PageInRange(r, Paths(files), pageCount, q)
    decreases |files|
  {
    if files != [] {
      var n := |files| - 1;
      var init, f := files[..n], files[n];
      IngestPagesInRange(init, pageCount);
      var prev := Ingest(init, pageCount).value;
      var r := Ingest(files, pageCount).value;
      assert files == init + [f];
      assert Paths(files) == Paths(init) + {f.path};
      assert f.filename !in Filenames(init);
      forall q | q in r.pages
        ensures PageInRange(r, Paths(files), pageCount, q)
      {
        PageInRangeExtends(prev, Paths(init), f, pageCount, q);
      }
    }
  }

  /** Descriptor `q`'s file is mapped to one of `paths`, whose page count
      exceeds `q`'s page index. */
  ghost predicate PageInRange(r: UploadResponse, paths: set<string>, pageCount: string -> Option<nat>, q: Page) {
    && q.file in r.fileMap
    && r.fileMap[q.file] in paths
    && pageCount(r.fileMap[q.file]).Some?
    && q.pageIndex < pageCount(r.fileMap[q.file]).value
  }

  /** Appending the descriptors and the map entry of a file `f` with a new
      name keeps every descriptor in range. */
  lemma {:induction false} PageInRangeExtends(prev: UploadResponse, paths: set<string>, f: StoredFile, pageCount: string -> Option<nat>, q: Page)
    requires pageCount(f.path).Some? && f.filename !in prev.fileMap
    requires forall p :: p in prev.pages ==> PageInRange(prev, paths, pageCount, p)
    requires q in prev.pages + FilePages(f, pageCount(f.path).value)
    ensures PageInRange(UploadResponse(prev.pages + FilePages(f, pageCount(f.path).value),
                                       prev.fileMap[f.filename := f.path], prev.fileNames + [FileEntry(f.filename, f.originalname)]),
                        paths + {f.path}, pageCount, q)
  {
    var added := FilePages(f, pageCount(f.path).value);
    if q in prev.pages {
      assert PageInRange(prev, paths, pageCount, q);
    } else {
      assert q in added;
      var i :| 0 <= i < |added| && added[i] == q;
    }
  }

  function Sum(s: seq<nat>): nat {
    if s == [] then 0 else Sum(s[..|s| - 1]) + s[|s| - 1]
  }

  /** The descriptors of file `f`, page by page, fill `pages` from the
      offset `Sum(counts[..k])` on, where `counts[k]` is its page count. */
  ghost predicate FileAt(pages: seq<Page>, counts: seq<nat>, k: nat, f: StoredFile)
    requires k < |counts|
  {
    var lo := Sum(counts[..k]);
    lo + counts[k] <= |pages| && pages[lo..lo + counts[k]] == FilePages(f, counts[k])
  }

  /** When file k has `counts[k]` pages, the response holds their sum of
      descriptors, grouped by file in request order and by page within a
      file: the descriptors of file k come right after those of the files
      before it. */
  lemma {:induction false} IngestLayout(files: seq<StoredFile>, pageCount: string -> Option<nat>, counts: seq<nat>)
    requires |counts| == |files|
    requires forall k :: 0 <= k < |files| ==> pageCount(files[k].path) == Some(counts[k])
    ensures Ingest(files, pageCount).Some?
    ensures var r := Ingest(files, pageCount).value;
      && |r.pages| == Sum(counts)
      && forall k :: 0 <= k < |files| ==> FileAt(r.pages, counts, k, files[k])
    decreases |files|
  {
    if files != [] {
      var n := |files| - 1;
      var init, initCounts := files[..n], counts[..n];
      IngestLayout(init, pageCount, initCounts);
      var prev := Ingest(init, pageCount).value;
      var r := Ingest(files, pageCount).value;
      assert r.pages == prev.pages + FilePages(files[n], counts[n]);
      assert Sum(counts) == Sum(initCounts) + counts[n];
      forall k | 0 <= k < |files|
        ensures FileAt(r.pages, counts, k, files[k])
      {
        if k < n {
          assert FileAt(prev.pages, initCounts, k, init[k]);
          assert files[k] == init[k];
          FileAtExtends(prev.pages, FilePages(files[n], counts[n]), counts, k, files[k]);
        } else {
          assert counts[..k] == initCounts;
        }
      }
    }
  }

  /** Appending the next file's descriptors keeps the earlier files' blocks. */
  lemma {:induction false} FileAtExtends(pages: seq<Page>, added: seq<Page>, counts: seq<nat>, k: nat, f: StoredFile)
    requires k + 1 < |counts|
    requires FileAt(pages, counts[..|counts| - 1], k, f)
    ensures FileAt(pages + added, counts, k, f)
  {
    var initCounts := counts[..|counts| - 1];
    assert initCounts[k] == counts[k];
    assert initCounts[..k] == counts[..k];
    var lo := Sum(counts[..k]);
    assert lo + counts[k] <= |pages|;
    assert (pages + added)[lo..lo + counts[k]] == pages[lo..lo + counts[k]];
  }

  /** With distinct stored file names (as the decoder generates them), no
      two descriptors of the response share an id. */
  lemma {:induction false} IngestIdsDistinct(files: seq<StoredFile>, pageCount: string -> Option<nat>)
    requires Ingest(files, pageCount).Some?
    requires forall i, j :: 0 <= i < j < |files| ==> files[i].filename != files[j].filename
    ensures NoDuplicates(Ids(Ingest(files, pageCount).value.pages))
    decreases |files|
  {
    if files != [] {
      var n := |files| - 1;
      var init := files[..n];
      var f := files[n];
      IngestIdsDistinct(init, pageCount);
      IngestPagesWellFormed(init, pageCount);
      IngestFileMap(init, pageCount);
      var prev := Ingest(init, pageCount).value;
      var added := FilePages(f, pageCount(f.path).value);
      var ps := prev.pages + added;
      assert f.filename !in Filenames(init);
      forall a, b | 0 <= a < b < |ps|
        ensures Ids(ps)[a] != Ids(ps)[b]
      {
        if b < |prev.pages| {
          assert Ids(prev.pages)[a] != Ids(prev.pages)[b];
        } else if a < |prev.pages| {
          var q, q' := ps[a], ps[b];
          assert q in prev.pages;
          PageIdInjective(q.file, q.pageIndex, q'.file, q'.pageIndex);
        } else {
          PageIdInjective(f.filename, a - |prev.pages|, f.filename, b - |prev.pages|);
        }
      }
    }
  }
}
