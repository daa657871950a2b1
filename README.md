# PDF merger: page-composition core in Dafny

A Dafny model of the page-composition pipeline of the PDF merger web
application, with proofs about it. It covers three parts:

- **The browser client's session** (`public/script.js`). This is the
  ordered list of page descriptors, the map from stored file names to
  server paths, and the list of uploaded files. It also holds the two image
  caches keyed by page id: `pageCache` for thumbnails and
  `highResPageCache` for previews. The handlers that change this state are
  modelled: append an upload, delete a page, delete a file, rotate a page,
  and drag-reorder. So are the batched thumbnail fill, the get-or-render
  preview lookup, and building the merge request.
- **The server's `/upload` handler** (`server.mjs`). Every stored upload
  becomes one descriptor per page, with id `<stored name>_page_<index>`,
  plus the file map and the file list.
- **The server's `/merge` handler** (`server.mjs`). It walks the requested
  order and loads each source file once. It copies pages and sets a rotation
  when the requested one is non-zero. It writes, delivers and deletes the
  output, and it deletes the touched source files in every case.

Modules:

- `Wrappers`: `Option`.
- `Seqs`: filter, map and permutation lemmas.
- `PageIds`: decimal rendering and the page-id format, with its
  injectivity.
- `PageModel`: the exchanged records, the JavaScript `% 360`, and page
  lookup and reorder.
- `PageCache`: cache hits and fills, and batches.
- `Session`: a `class` whose fields the handlers update in place.
- `Ingest`: `/upload`.
- `Merge`: `/merge`.
- `Protocol`: how the client edits and the two handlers compose.

`HandleUpload` and `HandleMerge` are the handlers. They are written as
methods and proved equal to the left-fold functions `Ingest` and
`HandleMergeSpec`, and the properties are proved about those functions.
`HandleMerge` runs its page loop in `CopyPages` (proved equal to
`Traverse`) and its clean-up loop in `DeleteSources`.
Likewise, `CachePagesBatched` and `Reorder` are proved against `FillAll`,
`Batches` and `Reordered`.

Where the code and the documented behaviour differ, the model follows
the code:

- **Upload failure.** The upload is all-or-nothing. One unreadable file
  fails the whole request (`IngestFailsIff`); it is not skipped.
- **Reorder checks.** The reorder handler does not check that the grid's
  ids are a permutation of the current ones. Without that condition,
  `Reorder` proves nothing about permutation. It is a permutation under the
  condition (`ReorderPermutes`).
- **Preview renders.** Preview lookups do not coalesce concurrent renders.
  A miss renders on every call.
- **Cleanup on merge failure.** A failed merge still deletes every source
  it had started to load, including the one whose read failed
  (`MergeFailureCleansUp`). Files of the order after the failing page stay
  on disk (`TraverseSourcePaths`).
- **Repeated merge.** The client keeps its pages and file map after a
  merge, but the server has deleted the sources. Repeating a successful
  merge therefore ends in a server error (`RepeatedMergeFails`).

Parameters stand in for everything outside the code:

- rasterising a page (`render`);
- the page count the upload reads (`pageCount`);
- parsing a source at merge time (`load`);
- whether writing the output succeeds (`writeOk`);
- whether the download completes (`deliveryOk`).

The disk is the set of paths present on it.

## Model

| member | source | states |
|---|---|---|
| PageModel.JsRemFullTurn | public/script.js:228 | JavaScript `%`: the remainder has the sign of the dividend, lies strictly within one turn of zero, and differs from the dividend by a multiple of 360 |
| PageModel.RotationStaysQuarterTurn | public/script.js:228 | pressing rotate on a page at 0/90/180/270 leaves it at 0/90/180/270 |
| PageModel.RotatedBy90InRange | public/script.js:228 | on [0, 360) one press adds 90 and wraps 270 to 0 |
| PageModel.RotatedBy90Residue | public/script.js:228 | a non-negative rotation turns like its residue modulo 360 |
| PageModel.FourRotationsRestore | public/script.js:228 | four presses bring a non-negative rotation to its residue modulo 360, hence back to itself when below 360 |
| PageModel.RotatedBy90 | public/script.js:228 | one press yields an angle in [0, 360) for any rotation from -90 up |
| PageModel.Ids | public/script.js:188 | the grid's ids, position by position, are the pages' ids |
| PageModel.FindIndex | public/script.js:227 | `pages.find` by id: the first position carrying the id, or none when no page carries it |
| PageModel.Find | public/script.js:264 | a page is found exactly when its id occurs, and the found page carries that id and is in the list |
| PageModel.FindOwnId | public/script.js:227 | with distinct ids, looking up a page's id finds that very position |
| PageModel.Reordered | public/script.js:260-267 | the reordered list has one page per grid id, the k-th being the page carrying the k-th id, so its ids are the grid's ids |
| PageModel.ReorderPermutes | public/script.js:260-267 | when the grid ids are a permutation of the distinct current ids, the new list is a permutation of the old |
| PageIds.Decimal | server.mjs:34 | the decimal rendering of an index is non-empty, all digits, with no leading zero |
| PageIds.ParseDecimalOfDecimal | server.mjs:34 | reading the decimal rendering back gives the index |
| PageIds.PageId | server.mjs:34 | the id is the stored file name, then `_page_`, then the decimal index, each at its own offset |
| PageIds.PageIdInjective | server.mjs:34 | two ids are equal exactly when file name and page index both are |
| Seqs.Filter | public/script.js:237 | the kept elements are exactly those of the input that pass the test |
| Seqs.FilterKeepsOrder | public/script.js:167 | filtering keeps the survivors in their original relative order, and keeps every element that passes |
| Seqs.FilterPartition | public/script.js:161-167 | the pages removed with a file and the pages kept together make up the old list, as a multiset |
| Seqs.MapPreservesPermutation | public/script.js:262-266 | mapping ids to pages maps a permutation to a permutation |
| PageCache.Cached | public/script.js:281 | a hit is an entry that is present and, as a string, truthy (non-empty) |
| PageCache.Lookup | public/script.js:325-326 | the entry is there exactly when the id is a key, and it is the stored image |
| PageCache.FillOne | public/script.js:281-302 | one get-or-render touches no other id; a hit leaves the cache as it was; a miss stores a successful render and keeps the old entry on failure |
| PageCache.FillAll | public/script.js:280-303 | a fill renders at most one image per page |
| PageCache.FillKeepsCached | public/script.js:281 | a truthy cache entry is never re-rendered or overwritten by a fill |
| PageCache.FillRendersOnlyMisses | public/script.js:280-281 | only pages of the batch whose id had no truthy entry are handed to the renderer |
| PageCache.FillStoresSuccesses | public/script.js:299 | every page whose render yields a non-empty image is a hit after the fill |
| PageCache.FillFrame | public/script.js:280-303 | an id is a key after a fill exactly when it was one before or some page with that id rendered; ids of no page keep their entry (which image is stored: FillStoresFirstImage) |
| PageCache.FillMissesUntilImage | public/script.js:281-299 | an id stays a miss while no page carrying it has rendered a non-empty image |
| PageCache.FillStoresFirstImage | public/script.js:299 | in the sequential fill, a missed id ends up holding the image rendered for the first page with that id whose render yields a non-empty image |
| PageCache.FillAllAppend | public/script.js:278-305 | filling batch after batch is filling the concatenation, with the render log concatenated |
| PageCache.Batches | public/script.js:278-279 | there are no more batches than pages, and none exactly when there are no pages |
| PageCache.BatchesCover | public/script.js:278-279 | the batches of `slice(i, i + size)` cover the pages in order, each exactly once, with one to `size` pages per batch |
| Session.MergeRequest | public/script.js:75-88 | no request for an empty list; otherwise the body carries the page order and file map unchanged, and a name that is the typed one or "merged", never empty |
| Session.FilterKeepsIdsDistinct | public/script.js:237 | deleting pages keeps the remaining ids distinct |
| Session.PageDeleteKeepsOtherIds | public/script.js:237 | deleting a page keeps every other id |
| Session.FileDeleteKeepsOtherIds | public/script.js:167 | deleting a file keeps every id that belongs to another file |
| Session.ReorderKeepsIdSet | public/script.js:260-267 | a reorder whose grid ids are a permutation of the current ones keeps the set of ids |
| Session.FillStaysWithinPages | public/script.js:277-306 | filling caches for pages of the list keeps the cache keys within the list's ids |
| Session.RotateOneKeepsIds | public/script.js:227-228 | rotating one page keeps every page's id in place and every page's file |
| Session.Session.AppendUpload | public/script.js:43-47 | the new pages are appended after the old ones, the file maps are merged with the new entries winning, the file list is appended, and nothing else changes |
| Session.Session.OnUploadLoad | public/script.js:41-50 | a successful response appends its pages, file map and files and then fills the thumbnails of the new pages; a failed one changes nothing |
| Session.Session.CachePagesBatched | public/script.js:277-306 | batch by batch of five (or `batchSize`), the thumbnail cache becomes the fill of the new pages and the render log grows by exactly the pages that missed |
| Session.Session.CacheBatch | public/script.js:280-303 | one batch: the cache becomes its fill and the render log grows by its misses |
| Session.Session.GetHighResPageDataUrl | public/script.js:324-352 | a hit returns the stored preview without rendering; a miss renders once, stores success and returns it, returns "" on failure |
| Session.Session.DeletePage | public/script.js:236-241 | every page with the id leaves the list, the order of the rest is kept, both caches lose that id only |
| Session.Session.AuxClick | public/script.js:243-252 | a middle click deletes the page as the delete button does; any other button changes nothing |
| Session.Session.DeleteFile | public/script.js:160-168 | the file's pages leave the list and both caches, its entry leaves the file list and file map, everything else is kept in order |
| Session.Session.EvictAll | public/script.js:161-165 | both caches lose exactly the ids of the given pages |
| Session.Session.Rotate | public/script.js:225-229 | the first page with the id turns by 90 degrees modulo 360 and no other page, id or cache changes |
| Session.Session.Reorder | public/script.js:260-267 | the list becomes the pages of the grid ids in grid order; a permutation of the old list, keeping the cache invariant, when the grid ids permute the distinct current ids |
| Ingest.Descriptor | server.mjs:35-42 | a descriptor's id is derived from its own file and index, and its page number is the index plus one |
| Ingest.Ingest | server.mjs:21-53 | a successful response lists one file entry per file and has a file-map key for each stored name |
| Ingest.FilePages | server.mjs:33-43 | one descriptor per page index below the page count, in index order |
| Ingest.HandleUpload | server.mjs:21-53 | the handler's loops produce exactly the fold `Ingest`, and fail when it fails |
| Ingest.IngestFailureStays | server.mjs:49-51 | once a file fails, the whole request fails |
| Ingest.IngestFailsIff | server.mjs:27-29 | the request fails exactly when some file's page count cannot be read |
| Ingest.IngestFileNames | server.mjs:31 | the file list has one entry per file, in request order, with stored and original names |
| Ingest.IngestFileMap | server.mjs:45 | the file map's keys are the stored names, each mapped to the path of the last file stored under it |
| Ingest.IngestPagesWellFormed | server.mjs:34-42 | every descriptor has the id of its file and index, a one-based page number, rotation 0, and a file in the file map |
| Ingest.IngestPagesInRange | server.mjs:33-45 | with distinct stored names, each descriptor's file maps to a stored path whose page count exceeds its index |
| Ingest.IngestLayout | server.mjs:27-46 | the response holds the sum of the page counts, file k's descriptors right after those of the files before it |
| Ingest.IngestIdsDistinct | server.mjs:34 | with distinct stored names, no two descriptors share an id |
| Merge.RotationApplied | server.mjs:82-84 | a rotation is set exactly when the requested one is non-zero, and it is the requested value |
| Merge.Planned | server.mjs:79-86 | a merged page copies the requested file and index, and carries a rotation exactly when the requested one is non-zero |
| Merge.Copy | server.mjs:79-86 | copying throws exactly when the index is at or past the page count; otherwise the page is appended; nothing else changes |
| Merge.Step | server.mjs:66-86 | after a throw a step changes nothing; the scheduled paths only grow, and only by paths of the file map; at most one page is added |
| Merge.Traverse | server.mjs:65-87 | the loop copies at most one page per requested page, and schedules only paths of the file map |
| Merge.HandleMergeSpec | server.mjs:57-107 | the handler only deletes; it answers a server error exactly when the loop throws or the write fails; otherwise the name is the output name and the output file is gone afterwards |
| Merge.OutPath | server.mjs:91 | the path is `uploads/` followed by the output name, ending in `.pdf` |
| Merge.OutName | server.mjs:90 | the output is named after the request, or "merged" when the name is empty, with `.pdf` appended |
| Merge.TraverseFailureStays | server.mjs:65-87 | once a page throws, the rest of the order changes nothing |
| Merge.CopyPages | server.mjs:65-87 | the page loop stops at the first throw; its loaded documents, scheduled paths, copied pages and failure are those of `Traverse` |
| Merge.DeleteSources | server.mjs:103-105 | the disk afterwards is the disk without the scheduled source paths |
| Merge.HandleMerge | server.mjs:57-107 | the handler's page loop, write, delivery and clean-up loop produce exactly `HandleMergeSpec`: the response and the disk afterwards |
| Merge.LoadedAreParsedPaths | server.mjs:68-77 | every loaded document is what its file's mapped path, present on disk, parses to |
| Merge.TraverseSucceedsIff | server.mjs:65-87 | the merge loop completes exactly when every requested page's file is mapped, on disk, parses, and has the page |
| Merge.TraverseOutput | server.mjs:79-86 | the merged pages are the requested ones in order, with their rotations; after a throw they are the pages before it |
| Merge.TraverseLoadsOnce | server.mjs:68-77 | loading is attempted at most once per file |
| Merge.TraverseLoadsFilesOfOrder | server.mjs:68-77 | when the loop completes, exactly the files of the order were loaded |
| Merge.TraverseSourcePaths | server.mjs:72-73 | the paths scheduled for deletion are the mapped paths of the files whose loading was attempted, including one that then failed |
| Merge.CompletedSourcePaths | server.mjs:72-73 | after a completed loop, the scheduled paths are those of the order's files |
| Merge.MergeFailureCleansUp | server.mjs:72-106 | when the page loop throws, the response is a server error and the disk afterwards is the old disk without the mapped path of every file the loop attempted, the failing one included |
| Merge.MergeDeletesSources | server.mjs:94-106 | a completed merge removes every source path of the order and the written output, and nothing else |
| Merge.RepeatedMergeFails | server.mjs:101-106 | repeating a non-empty merge that went through ends in a server error |
| Protocol.FilterStaysDrawn | public/script.js:237 | deleting pages keeps every remaining page naming an uploaded file and page |
| Protocol.ReorderedStaysDrawn | public/script.js:260-267 | reordering keeps every page naming an uploaded file and page |
| Protocol.RotatedStaysDrawn | public/script.js:228 | rotating keeps every page naming an uploaded file and page |
| Protocol.UploadedPagesMerge | server.mjs:65-106 | pages drawn from one upload with distinct stored names, merged while the sources still parse to their page counts, are delivered in order under the requested name, and sources and output are removed |
| Protocol.DownloadNameMatches | server.mjs:90 | the server delivers under the name the client saves the download as |

## Left out

- Presentation is not modelled: DOM construction, skeletons, the modal, progress bars, alerts, loading states and `renderPages` calls. Only the state they read is modelled.
- Transport is not modelled: XHR, `fetch`, JSON encoding, multipart decoding and static file serving. The upload handler receives the decoder's stored-file records. The client's response is `None` for a non-200 status.
- Storing an upload is not modelled. Where and under what random name the decoder stores it is outside the model, and so is the fact that a failed upload leaves the stored files on disk.
- Rasterisation by pdf.js and parsing, copying and saving by pdf-lib are not modelled; they are the `render`, `pageCount` and `load` parameters. Copying fails only for a page index at or past the page count. `setRotation`'s own checks on its angle are not modelled.
- Session.Session.CacheBatch: the renders of one batch run one after another in list order. The source tests `pageCache[p.id]` for every page of a batch before any render of that batch stores its image. So two pages with one id in the same batch are both rendered, and the image of the render that finishes last is kept. The model renders a later one only when the earlier renders gave no non-empty image, and keeps the first non-empty image; FillRendersOnlyMisses and FillStoresFirstImage describe this sequential fill.
- Concurrency is not modelled: a page deleted while its render is in flight, concurrent merge requests, and the download callback that runs after the clean-up loop has started. The final disk state does not depend on that timing.
- Session.Session.Rotate: changes the page in the list by value. Aliasing between page objects is not modelled. Without a page, the source throws on `undefined`; the model leaves the state unchanged, which is the state the throw leaves.
- Session.Session.Reorder: requires every grid id to name a current page. The grid is built from the list, so the path that pushes `undefined` is not modelled.
- Merge.OutName: the output path is `uploads/` plus the name. `path.join`, `__dirname` and names containing path separators are not modelled.
- Merge.OutPath: the path is the plain concatenation `uploads/` + name. A typed name with `../` or other separators is resolved by `path.join` on the server and can land outside the upload directory; the model does not capture that.
- Page indexes in a merge request are non-negative integers and rotations are integers, as the client sends them. Malformed JSON bodies are not modelled.
