/** How the client's session and the two server handlers fit together: the
    pages the client keeps after any deletes, reorders and rotations still
    name pages the server stored, so merging them succeeds while the
    sources are on disk, and the download carries the name the client saves. */
module Protocol {
  import opened Wrappers
  import opened Seqs
  import opened PageModel
  import opened Ingest
  import opened Merge
  import opened Session

  /** Every page of `order` names the file and page index of an uploaded page. */
  ghost predicate DrawnFrom(order: seq<Page>, uploaded: seq<Page>) {
    forall p :: p in order ==> exists q :: q in uploaded && q.file == p.file && q.pageIndex == p.pageIndex
  }

  /** Deleting pages (one, or all of a file) keeps the rest drawn from the upload. */
  lemma {:induction false} FilterStaysDrawn(order: seq<Page>, uploaded: seq<Page>, keep: Page -> bool)
    requires DrawnFrom(order, uploaded)
    ensures DrawnFrom(Filter(order, keep), uploaded)
  {
    forall p | p in Filter(order, keep)
      ensures exists q :: q in uploaded && q.file == p.file && q.pageIndex == p.pageIndex
    {
      assert p in order;
    }
  }

  /** Reordering keeps the pages drawn from the upload. */
  lemma {:induction false} ReorderedStaysDrawn(order: seq<Page>, uploaded: seq<Page>, domIds: seq<string>)
    requires DrawnFrom(order, uploaded)
    requires forall k :: 0 <= k < |domIds| ==> domIds[k] in Ids(order)
    ensures DrawnFrom(Reordered(order, domIds), uploaded)
  {
    var r := Reordered(order, domIds);
    forall p | p in r
      ensures exists q :: q in uploaded && q.file == p.file && q.pageIndex == p.pageIndex
    {
      var k :| 0 <= k < |r| && r[k] == p;
      assert Find(order, domIds[k]) == Some(p);
      assert p in order;
    }
  }

  /** Rotating a page keeps the pages drawn from the upload. */
  lemma {:induction false} RotatedStaysDrawn(order: seq<Page>, uploaded: seq<Page>, i: nat, rotation: int)
    requires DrawnFrom(order, uploaded) && i < |order|
    ensures DrawnFrom(order[i := order[i].(rotation := rotation)], uploaded)
  {
    var r := order[i := order[i].(rotation := rotation)];
    forall p | p in r
      ensures exists q :: q in uploaded && q.file == p.file && q.pageIndex == p.pageIndex
    {
      var k :| 0 <= k < |r| && r[k] == p;
      assert order[k] in order;
    }
  }

  /** When the stored files have distinct names and each still parses to the
      page count the upload reported, a merge of pages drawn from that upload,
      sent with its file map, copies every page in order and deletes the
      sources and the written output. */
  lemma {:induction false} UploadedPagesMerge(files: seq<StoredFile>, pageCount: string -> Option<nat>,
                           disk: set<string>, load: string -> Option<Doc>, order: seq<Page>, newName: string)
    requires forall i, j :: 0 <= i < j < |files| ==> files[i].filename != files[j].filename
    requires Ingest.Ingest(files, pageCount).Some?
    requires forall f :: f in files ==>
      f.path in disk && load(f.path).Some? && pageCount(f.path) == Some(load(f.path).value.pageCount)
    requires DrawnFrom(order, Ingest.Ingest(files, pageCount).value.pages)
    ensures var r := Ingest.Ingest(files, pageCount).value;
      HandleMergeSpec(disk, MergeBody(order, r.fileMap, newName), load, true, true)
      == MergeOutcome(
           Delivered(OutName(newName), MapSeq(Planned, order)),
           disk - (set p | p in order && p.file in r.fileMap :: r.fileMap[p.file]) - {OutPath(newName)})
  {
    var r := Ingest.Ingest(files, pageCount).value;
    var body := MergeBody(order, r.fileMap, newName);
    IngestPagesInRange(files, pageCount);
    forall k | 0 <= k < |order|
      ensures Copyable(disk, r.fileMap, load, order[k])
    {
      assert order[k] in order;
      var q :| q in r.pages && q.file == order[k].file && q.pageIndex == order[k].pageIndex;
      var path := r.fileMap[q.file];
      assert path in Paths(files);
      var f :| f in files && f.path == path;
    }
    TraverseSucceedsIff(disk, r.fileMap, load, order);
    TraverseOutput(disk, r.fileMap, load, order);
    MergeDeletesSources(disk, body, load, true, true);
  }

  /** The name the server delivers under is the one the client saves the
      download as: the typed name, or "merged" when the field is empty. */
  lemma {:induction false} DownloadNameMatches(pages: seq<Page>, fileMap: map<string, string>, nameInput: string)
    requires pages != []
    ensures var body := MergeRequest(pages, fileMap, nameInput).value;
      && OutName(body.newName) == body.newName + ".pdf"
      && body.newName == (if nameInput != "" then nameInput else FallbackName)
  {
  }
}
