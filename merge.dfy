/** The server's `/merge` handler: it walks the requested page order,
    loading each source file once, copies the pages (applying any non-zero
    rotation) into a new document, writes it under the requested name,
    delivers it and deletes it, and in every case deletes the source files
    it touched. The file system is the set of paths present on disk. */
module Merge {
  import opened Wrappers
  import opened Seqs
  import opened PageModel

  /** A parsed source document, as far as copying pages needs it. */
  datatype Doc = Doc(pageCount: nat)

  /** One page of the merged document: which source page it copies and the
      rotation set on it, if any. */
  datatype OutPage = OutPage(file: string, pageIndex: nat, rotation: Option<int>)

  /** The rotation is set only when the requested one is truthy, i.e. non-zero. */
  function RotationApplied(rotation: int): (r: Option<int>)
    ensures r.Some? <==> rotation != 0
    ensures r.Some? ==> r.value == rotation
  {
    if rotation != 0 then Some(rotation) else None
  }

  /** The merged page that a requested page becomes. */
  function Planned(p: Page): (o: OutPage)
    ensures o.file == p.file && o.pageIndex == p.pageIndex
    ensures o.rotation.Some? <==> p.rotation != 0
  {
    OutPage(p.file, p.pageIndex, RotationApplied(p.rotation))
  }

  /** The state of the page loop: the documents loaded so far by file name,
      the source paths scheduled for deletion, the files whose loading was
      attempted (in order), the pages copied so far, and whether a step threw. */
  datatype Traversal = Traversal(
    loaded: map<string, Doc>,
    sourcePaths: set<string>,
    attempted: seq<string>,
    out: seq<OutPage>,
    failed: bool)

  /** Copies page `p` out of `doc`; copying an index past the end throws. */
  function Copy(t: Traversal, doc: Doc, p: Page): (r: Traversal)
    ensures r.failed <==> t.failed || doc.pageCount <= p.pageIndex
    ensures p.pageIndex < doc.pageCount ==> r.out == t.out + [Planned(p)]
    ensures doc.pageCount <= p.pageIndex ==> r.out == t.out
    ensures r.loaded == t.loaded && r.sourcePaths == t.sourcePaths && r.attempted == t.attempted
  {
    if p.pageIndex < doc.pageCount then t.(out := t.out + [Planned(p)]) else t.(failed := true)
  }

  /** One iteration of the page loop. A file seen before is taken from the
      loaded documents. Otherwise its path is scheduled for deletion before
      it is read, so a path that then fails to read or parse is still
      deleted; a file with no entry in the file map reads an undefined path,
      which throws and schedules nothing that exists. */
  function Step(t: Traversal, disk: set<string>, fileMap: map<string, string>, load: string -> Option<Doc>, p: Page): (r: Traversal)
    ensures t.failed ==> r == t
    ensures t.sourcePaths <= r.sourcePaths && r.sourcePaths - t.sourcePaths <= fileMap.Values
    ensures |r.out| <= |t.out| + 1
  {
    if t.failed then t
    else if p.file in t.loaded then Copy(t, t.loaded[p.file], p)
    else if p.file !in fileMap then t.(attempted := t.attempted + [p.file], failed := true)
    else
      var path := fileMap[p.file];
      var t1 := t.(sourcePaths := t.sourcePaths + {path}, attempted := t.attempted + [p.file]);
      if path !in disk then t1.(failed := true)
      else match load(path)
        case None => t1.(failed := true)
        case Some(doc) => Copy(t1.(loaded := t1.loaded[p.file := doc]), doc, p)
  }

  /** The page loop over `order`, as a left fold of `Step`. */
  function Traverse(disk: set<string>, fileMap: map<string, string>, load: string -> Option<Doc>, order: seq<Page>): (r: Traversal)
    ensures |r.out| <= |order|
    ensures r.sourcePaths <= fileMap.Values
    decreases |order|
  {
    if order == [] then Traversal(map[], {}, [], [], false)
    else Step(Traverse(disk, fileMap, load, order[..|order| - 1]), disk, fileMap, load, order[|order| - 1])
  }

  const FallbackName: string := "merged"
  const UploadDir: string := "uploads/"

  /** The download name: the requested name, or the fallback when it is empty. */
  function OutName(newName: string): (name: string)
    ensures newName != "" ==> name == newName + ".pdf"
    ensures newName == "" ==> name == "merged.pdf"
  {
    (if newName == "" then FallbackName else newName) + ".pdf"
  }

  /** Where the merged document is written before delivery. */
  function OutPath(newName: string): (path: string)
    ensures |path| >= |UploadDir| + 4
    ensures path[..|UploadDir|] == UploadDir && path[|path| - 4..] == ".pdf"
    ensures path[|UploadDir|..] == OutName(newName)
  {
    UploadDir + OutName(newName)
  }

  /** What the client receives. */
  datatype MergeResponse =
    | Delivered(name: string, pages: seq<OutPage>)
    | DeliveryFailed(name: string)
    | ServerError

  datatype MergeOutcome = MergeOutcome(response: MergeResponse, disk: set<string>)

  /** The whole request: `writeOk` says whether writing the merged document
      succeeds and `deliveryOk` whether the download completes. The source
      paths go in every case; the output file goes once it was written. */
  function HandleMergeSpec(disk: set<string>, body: MergeBody, load: string -> Option<Doc>, writeOk: bool, deliveryOk: bool): (r: MergeOutcome)
    ensures r.disk <= disk
    ensures r.response.ServerError? <==> Traverse(disk, body.fileMap, load, body.order).failed || !writeOk
    ensures r.response.Delivered? ==> r.response.name == OutName(body.newName)
    ensures r.response.DeliveryFailed? ==> r.response.name == OutName(body.newName) && !deliveryOk
    ensures !r.response.ServerError? ==> OutPath(body.newName) !in r.disk
  {
    var t := Traverse(disk, body.fileMap, load, body.order);
    var cleaned := disk - t.sourcePaths;
    if t.failed || !writeOk then MergeOutcome(ServerError, cleaned)
    else
      var name := OutName(body.newName);
      MergeOutcome(
        if deliveryOk then Delivered(name, t.out) else DeliveryFailed(name),
        cleaned - {OutPath(body.newName)})
  }

  /** Once the loop has thrown, the later pages change nothing. */
  lemma {:induction false} TraverseFailureStays(disk: set<string>, fileMap: map<string, string>, load: string -> Option<Doc>, order: seq<Page>, k: nat)
    requires k <= |order| && Traverse(disk, fileMap, load, order[..k]).failed
    ensures Traverse(disk, fileMap, load, order) == Traverse(disk, fileMap, load, order[..k])
    decreases |order| - k
  {
    if k < |order| {
      assert order[..k + 1][..k] == order[..k];
      TraverseFailureStays(disk, fileMap, load, order, k + 1);
    } else {
      assert order[..k] == order;
    }
  }

  /** The handler's page loop (server.mjs, the `for ... of order` loop): it
      stops at the first throw, and its loaded documents, scheduled source
      paths, copied pages and failure are those of `Traverse`. */
  method CopyPages(disk: set<string>, fileMap: map<string, string>, load: string -> Option<Doc>, order: seq<Page>)
    returns (loadedPdfs: map<string, Doc>, sourceFilePaths: set<string>, merged: seq<OutPage>, failed: bool)
    ensures var t := Traverse(disk, fileMap, load, order);
      loadedPdfs == t.loaded && sourceFilePaths == t.sourcePaths && merged == t.out && failed == t.failed
  {
    sourceFilePaths := {};
    loadedPdfs := map[];
    merged := [];
    ghost var attempted: seq<string> := [];
    failed := false;
    var k := 0;
    while k < |order| && !failed
      invariant 0 <= k <= |order|
      invariant Traverse(disk, fileMap, load, order[..k]) == Traversal(loadedPdfs, sourceFilePaths, attempted, merged, failed)
    {
      var pageData := order[k];
      assert order[..k + 1][..k] == order[..k];
      var pdfDoc: Option<Doc> := None;
      if pageData.file in loadedPdfs {
        pdfDoc := Some(loadedPdfs[pageData.file]);
      } else if pageData.file !in fileMap {
        attempted := attempted + [pageData.file];
        failed := true;
      } else {
        var filePath := fileMap[pageData.file];
        sourceFilePaths := sourceFilePaths + {filePath};
        attempted := attempted + [pageData.file];
        if filePath !in disk {
          failed := true;
        } else {
          pdfDoc := load(filePath);
          if pdfDoc.None? {
            failed := true;
          } else {
            loadedPdfs := loadedPdfs[pageData.file := pdfDoc.value];
          }
        }
      }
      if pdfDoc.Some? {
        if pageData.pageIndex < pdfDoc.value.pageCount {
          merged := merged + [OutPage(pageData.file, pageData.pageIndex, if pageData.rotation != 0 then Some(pageData.rotation) else None)];
        } else {
          failed := true;
        }
      }
      k := k + 1;
    }
    if failed {
      TraverseFailureStays(disk, fileMap, load, order, k);
    } else {
      assert order[..k] == order;
    }
  }

  /** The handler: the page loop, then writing and delivering the result,
      then the clean-up loop over the source paths and the deletion of the
      output. */
  method HandleMerge(disk: set<string>, body: MergeBody, load: string -> Option<Doc>, writeOk: bool, deliveryOk: bool)
    returns (response: MergeResponse, diskAfter: set<string>)
    ensures MergeOutcome(response, diskAfter) == HandleMergeSpec(disk, body, load, writeOk, deliveryOk)
  {
    var loadedPdfs, sourceFilePaths, merged, failed := CopyPages(disk, body.fileMap, load, body.order);

    var outPath := OutPath(body.newName);
    var written := false;
    diskAfter := disk;
    if failed || !writeOk {
      response := ServerError;
    } else {
      diskAfter := diskAfter + {outPath};
      written := true;
      response := if deliveryOk then Delivered(OutName(body.newName), merged) else DeliveryFailed(OutName(body.newName));
    }

    diskAfter := DeleteSources(diskAfter, sourceFilePaths);
    if written {
      assert (disk + {outPath}) - sourceFilePaths - {outPath} == disk - sourceFilePaths - {outPath};
      diskAfter := diskAfter - {outPath};
    }
  }

  /** The `finally` clean-up loop: each scheduled source path is unlinked,
      one at a time; a path that is not on disk leaves it as it is. */
  method DeleteSources(disk: set<string>, paths: set<string>) returns (diskAfter: set<string>)
    ensures diskAfter == disk - paths
  {
    diskAfter := disk;
    var remaining := paths;
    while remaining != {}
      invariant remaining <= paths
      invariant diskAfter == disk - (paths - remaining)
      decreases |remaining|
    {
      var filePath :| filePath in remaining;
      diskAfter := diskAfter - {filePath};
      remaining := remaining - {filePath};
    }
  }

  /** Page `p` can be copied: its file has a path in the file map, the path
      is on disk, it parses, and the page index is within its page count. */
  predicate Copyable(disk: set<string>, fileMap: map<string, string>, load: string -> Option<Doc>, p: Page) {
    && p.file in fileMap
    && fileMap[p.file] in disk
    && load(fileMap[p.file]).Some?
    && p.pageIndex < load(fileMap[p.file]).value.pageCount
  }

  /** Every loaded document is what its file's path parses to. */
  lemma {:induction false} LoadedAreParsedPaths(disk: set<string>, fileMap: map<string, string>, load: string -> Option<Doc>, order: seq<Page>)
    ensures var t := Traverse(disk, fileMap, load, order);
      forall f :: f in t.loaded ==> f in fileMap && fileMap[f] in disk && load(fileMap[f]) == Some(t.loaded[f])
    decreases |order|
  {
    if order != [] {
      LoadedAreParsedPaths(disk, fileMap, load, order[..|order| - 1]);
    }
  }

  /** The merge loop completes exactly when every requested page can be copied. */
  lemma {:induction false} TraverseSucceedsIff(disk: set<string>, fileMap: map<string, string>, load: string -> Option<Doc>, order: seq<Page>)
    ensures !Traverse(disk, fileMap, load, order).failed <==> forall k :: 0 <= k < |order| ==> Copyable(disk, fileMap, load, order[k])
    decreases |order|
  {
    if order != [] {
      var n := |order| - 1;
      var init := order[..n];
      TraverseSucceedsIff(disk, fileMap, load, init);
      LoadedAreParsedPaths(disk, fileMap, load, init);
      assert forall k :: 0 <= k < n ==> init[k] == order[k];
    }
  }

  /** The copied pages are the requested ones, in request order, each with
      its rotation applied when non-zero; when the loop throws, they are the
      pages before the one that threw. */
  lemma {:induction false} TraverseOutput(disk: set<string>, fileMap: map<string, string>, load: string -> Option<Doc>, order: seq<Page>)
    ensures var t := Traverse(disk, fileMap, load, order);
      && |t.out| <= |order|
      && t.out == MapSeq(Planned, order[..|t.out|])
      && (!t.failed ==> t.out == MapSeq(Planned, order))
    decreases |order|
  {
    if order != [] {
      var n := |order| - 1;
      var init := order[..n];
      TraverseOutput(disk, fileMap, load, init);
      var prev := Traverse(disk, fileMap, load, init);
      var t := Traverse(disk, fileMap, load, order);
      assert init[..|prev.out|] == order[..|prev.out|];
      if |t.out| != |prev.out| {
        assert !prev.failed && t.out == prev.out + [Planned(order[n])];
        assert order[..|t.out|] == init + [order[n]];
      }
      if !t.failed {
        assert order == init + [order[n]];
      }
    }
  }

  /** When the loop completes, exactly the files of the order have been
      loaded, and loading each was attempted. */
  lemma {:induction false} TraverseLoadsFilesOfOrder(disk: set<string>, fileMap: map<string, string>, load: string -> Option<Doc>, order: seq<Page>)
    ensures var t := Traverse(disk, fileMap, load, order);
      !t.failed ==> t.loaded.Keys == (set f | f in t.attempted) && t.loaded.Keys == (set p | p in order :: p.file)
    decreases |order|
  {
    if order != [] {
      var n := |order| - 1;
      var init := order[..n];
      TraverseLoadsFilesOfOrder(disk, fileMap, load, init);
      var prev := Traverse(disk, fileMap, load, init);
      var t := Traverse(disk, fileMap, load, order);
      if !t.failed {
        assert order == init + [order[n]];
        assert (set p | p in order :: p.file) == (set p | p in init :: p.file) + {order[n].file};
        if order[n].file !in prev.loaded {
          assert t.attempted == prev.attempted + [order[n].file];
          assert (set f | f in t.attempted) == (set f | f in prev.attempted) + {order[n].file};
        }
      }
    }
  }

  /** The paths scheduled for deletion are those of the attempted files. */
  lemma {:induction false} TraverseSourcePaths(disk: set<string>, fileMap: map<string, string>, load: string -> Option<Doc>, order: seq<Page>)
    ensures var t := Traverse(disk, fileMap, load, order);
      t.sourcePaths == (set f | f in t.attempted && f in fileMap :: fileMap[f])
    decreases |order|
  {
    if order != [] {
      var n := |order| - 1;
      TraverseSourcePaths(disk, fileMap, load, order[..n]);
      var prev := Traverse(disk, fileMap, load, order[..n]);
      var t := Traverse(disk, fileMap, load, order);
      if t.attempted != prev.attempted {
        assert t.attempted == prev.attempted + [order[n].file];
        assert (set f | f in t.attempted && f in fileMap :: fileMap[f])
          == (set f | f in prev.attempted && f in fileMap :: fileMap[f])
             + (if order[n].file in fileMap then {fileMap[order[n].file]} else {});
      }
    }
  }

  /** Loading each file is attempted at most once. */
  lemma {:induction false} TraverseLoadsOnce(disk: set<string>, fileMap: map<string, string>, load: string -> Option<Doc>, order: seq<Page>)
    ensures NoDuplicates(Traverse(disk, fileMap, load, order).attempted)
    decreases |order|
  {
    if order != [] {
      var n := |order| - 1;
      var init := order[..n];
      TraverseLoadsOnce(disk, fileMap, load, init);
      TraverseLoadsFilesOfOrder(disk, fileMap, load, init);
      var prev := Traverse(disk, fileMap, load, init);
      var t := Traverse(disk, fileMap, load, order);
      if t.attempted != prev.attempted {
        assert t.attempted == prev.attempted + [order[n].file];
        assert order[n].file !in (set f | f in prev.attempted);
        forall i, j | 0 <= i < j < |t.attempted|
          ensures t.attempted[i] != t.attempted[j]
        {
          if j == |prev.attempted| {
            assert prev.attempted[i] in (set f | f in prev.attempted);
          }
        }
      }
    }
  }

  /** Once the loop completes, the paths scheduled for deletion are those
      the file map gives for the files of the order. */
  lemma {:induction false} CompletedSourcePaths(disk: set<string>, fileMap: map<string, string>, load: string -> Option<Doc>, order: seq<Page>)
    requires !Traverse(disk, fileMap, load, order).failed
    ensures Traverse(disk, fileMap, load, order).sourcePaths
      == (set p | p in order && p.file in fileMap :: fileMap[p.file])
  {
    TraverseLoadsFilesOfOrder(disk, fileMap, load, order);
    TraverseSourcePaths(disk, fileMap, load, order);
    var t := Traverse(disk, fileMap, load, order);
    assert t.loaded.Keys == (set f | f in t.attempted);
    assert t.loaded.Keys == (set q | q in order :: q.file);
    forall path | path in t.sourcePaths
      ensures path in (set p | p in order && p.file in fileMap :: fileMap[p.file])
    {
      var f :| f in t.attempted && f in fileMap && fileMap[f] == path;
      assert f in (set f | f in t.attempted);
      assert f in t.loaded.Keys;
      assert f in (set q | q in order :: q.file);
      var p :| p in order && p.file == f;
    }
    forall path | path in (set p | p in order && p.file in fileMap :: fileMap[p.file])
      ensures path in t.sourcePaths
    {
      var p :| p in order && p.file in fileMap && fileMap[p.file] == path;
      assert p.file in (set q | q in order :: q.file);
      assert p.file in t.loaded.Keys;
      assert p.file in (set f | f in t.attempted);
    }
  }

  /** A completed merge deletes the path of every file it was asked to copy
      from, and the output once it was written; nothing else on disk changes. */
  lemma {:induction false} MergeDeletesSources(disk: set<string>, body: MergeBody, load: string -> Option<Doc>, writeOk: bool, deliveryOk: bool)
    requires forall k :: 0 <= k < |body.order| ==> Copyable(disk, body.fileMap, load, body.order[k])
    ensures HandleMergeSpec(disk, body, load, writeOk, deliveryOk).disk
      == disk - (set p | p in body.order && p.file in body.fileMap :: body.fileMap[p.file])
              - (if writeOk then {OutPath(body.newName)} else {})
  {
    TraverseSucceedsIff(disk, body.fileMap, load, body.order);
    CompletedSourcePaths(disk, body.fileMap, load, body.order);
  }

  /** A merge whose page loop throws still runs the `finally` clean-up: the
      response is a server error, and every path scheduled before the throw
      leaves the disk, including the path whose read or parse failed. No
      output was written, so nothing else changes. */
  lemma {:induction false} MergeFailureCleansUp(disk: set<string>, body: MergeBody, load: string -> Option<Doc>, writeOk: bool, deliveryOk: bool)
    requires Traverse(disk, body.fileMap, load, body.order).failed
    ensures var t := Traverse(disk, body.fileMap, load, body.order);
      var r := HandleMergeSpec(disk, body, load, writeOk, deliveryOk);
      && r.response == ServerError
      && r.disk == disk - (set f | f in t.attempted && f in body.fileMap :: body.fileMap[f])
  {
    TraverseSourcePaths(disk, body.fileMap, load, body.order);
  }

  /** Because the sources are deleted, the same non-empty request cannot be
      merged twice: after a delivered (or undelivered) merge, repeating it
      ends in a server error. */
  lemma {:induction false} RepeatedMergeFails(disk: set<string>, body: MergeBody, load: string -> Option<Doc>, writeOk: bool, deliveryOk: bool, writeOk2: bool, deliveryOk2: bool)
    requires body.order != []
    requires HandleMergeSpec(disk, body, load, writeOk, deliveryOk).response != ServerError
    ensures var after := HandleMergeSpec(disk, body, load, writeOk, deliveryOk).disk;
      HandleMergeSpec(after, body, load, writeOk2, deliveryOk2).response == ServerError
  {
    var order, fileMap := body.order, body.fileMap;
    var after := HandleMergeSpec(disk, body, load, writeOk, deliveryOk).disk;
    TraverseSucceedsIff(disk, fileMap, load, order);
    assert Copyable(disk, fileMap, load, order[0]);
    MergeDeletesSources(disk, body, load, writeOk, deliveryOk);
    assert fileMap[order[0].file] !in after;
    TraverseSucceedsIff(after, fileMap, load, order);
    assert !Copyable(after, fileMap, load, order[0]);
  }
}
