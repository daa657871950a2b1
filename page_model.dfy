/** The values exchanged between the browser client and the server: page
    descriptors, uploaded-file entries, the upload response and the merge
    request body; and the queries on a page sequence that several handlers
    share. */
module PageModel {
  import opened Wrappers
  import opened Seqs

  /** A rendered page image: a data URL string. */
  type Image = string

  /** One page of one uploaded file, as the server synthesises it and the
      client holds it in its ordered `pages` list. */
  datatype Page = Page(
    id: string,
    file: string,           // the stored file name, the key of fileMap
    pageIndex: nat,         // zero-based page within that file
    originalFile: string,   // the name the user uploaded it under
    originalPage: nat,      // one-based page number, for display
    rotation: int)          // degrees

  /** An entry of `fileNames` / `uploadedFiles`. */
  datatype FileEntry = FileEntry(filename: string, original: string)

  /** The JSON body of a successful `/upload` response. */
  datatype UploadResponse = UploadResponse(
    pages: seq<Page>,
    fileMap: map<string, string>,
    fileNames: seq<FileEntry>)

  /** The JSON body the client posts to `/merge`. */
  datatype MergeBody = MergeBody(order: seq<Page>, fileMap: map<string, string>, newName: string)

  /** The divisor of the rotate handler's `% 360`. */
  const FullTurn: int := 360

  /** JavaScript's `a % 360`: the remainder takes the sign of `a`
      (truncating division), unlike Dafny's Euclidean `%`. */
  function JsRemFullTurn(a: int): (r: int)
    ensures a >= 0 ==> 0 <= r < FullTurn
    ensures a < 0 ==> -FullTurn < r <= 0
    ensures (a - r) % FullTurn == 0
  {
    if a >= 0 then a % FullTurn else -((-a) % FullTurn)
  }

  /** The new rotation after one press of a page's rotate button. */
  function RotatedBy90(rotation: int): (r: int)
    ensures rotation >= -90 ==> 0 <= r < FullTurn
  {
    JsRemFullTurn(rotation + 90)
  }

  predicate QuarterTurn(rotation: int) {
    rotation == 0 || rotation == 90 || rotation == 180 || rotation == 270
  }

  /** Rotating a page that is at a quarter turn leaves it at a quarter turn. */
  lemma {:induction false} RotationStaysQuarterTurn(rotation: int)
    requires QuarterTurn(rotation)
    ensures QuarterTurn(RotatedBy90(rotation))
  {
  }

  /** On [0, 360) one rotation adds 90 degrees and wraps past 360. */
  lemma {:induction false} RotatedBy90InRange(rotation: int)
    requires 0 <= rotation < FullTurn
    ensures RotatedBy90(rotation) == if rotation < 270 then rotation + 90 else rotation - 270
  {
  }

  /** A non-negative rotation rotates like its residue modulo 360. */
  lemma {:induction false} RotatedBy90Residue(rotation: int)
    requires rotation >= 0
    ensures RotatedBy90(rotation) == RotatedBy90(rotation % FullTurn)
  {
  }

  /** Four presses of the rotate button bring any non-negative rotation to
      its residue modulo 360, so a rotation in [0, 360) comes back unchanged. */
  lemma {:induction false} FourRotationsRestore(rotation: int)
    requires rotation >= 0
    ensures RotatedBy90(RotatedBy90(RotatedBy90(RotatedBy90(rotation)))) == rotation % FullTurn
    ensures rotation < FullTurn ==> RotatedBy90(RotatedBy90(RotatedBy90(RotatedBy90(rotation)))) == rotation
  {
    var r0 := rotation % FullTurn;
    RotatedBy90Residue(rotation);
    var r1 := RotatedBy90(r0);
    RotatedBy90InRange(r0);
    var r2 := RotatedBy90(r1);
    RotatedBy90InRange(r1);
    var r3 := RotatedBy90(r2);
    RotatedBy90InRange(r2);
    RotatedBy90InRange(r3);
  }

  /** The ids of `ps`, position by position. */
  function Ids(ps: seq<Page>): (ids: seq<string>)
    ensures |ids| == |ps|
    ensures forall k :: 0 <= k < |ps| ==> ids[k] == ps[k].id
  {
    MapSeq((p: Page) => p.id, ps)
  }

  /** The set of ids occurring in `ps`. */
  function IdSet(ps: seq<Page>): set<string> {
    set p | p in ps :: p.id
  }

  /** The position `pages.find(p => p.id === id)` stops at: the first page
      with that id, or none. */
  function FindIndex(ps: seq<Page>, id: string): (r: Option<nat>)
    ensures r.Some? ==> r.value < |ps| && ps[r.value].id == id
    ensures r.Some? ==> forall k :: 0 <= k < r.value ==> ps[k].id != id
    ensures r.None? ==> forall k :: 0 <= k < |ps| ==> ps[k].id != id
  {
    if ps == [] then None
    else if ps[0].id == id then Some(0)
    else match FindIndex(ps[1..], id)
      case None => None
      case Some(k) => Some(k + 1)
  }

  /** `pages.find(p => p.id === id)`; `None` stands for `undefined`. */
  function Find(ps: seq<Page>, id: string): (r: Option<Page>)
    ensures r.Some? <==> id in Ids(ps)
    ensures r.Some? ==> r.value in ps && r.value.id == id
  {
    match FindIndex(ps, id)
    case Some(k) => Some(ps[k])
    case None => None
  }

  /** With distinct ids, looking up a page's own id finds that page. */
  lemma {:induction false} FindOwnId(ps: seq<Page>, k: nat)
    requires NoDuplicates(Ids(ps)) && k < |ps|
    ensures FindIndex(ps, ps[k].id) == Some(k)
  {
    var ids := Ids(ps);
    var r := FindIndex(ps, ps[k].id);
    assert ids[k] == ps[k].id;
    assert r.Some?;
    var j := r.value;
    assert ids[j] == ps[j].id == ps[k].id;
    assert !(j < k) && !(k < j);
  }

  /** The list the drag-reorder handler builds: for each id read from the
      page grid, in grid order, the page that carries it. */
  function Reordered(ps: seq<Page>, domIds: seq<string>): (r: seq<Page>)
    requires forall k :: 0 <= k < |domIds| ==> domIds[k] in Ids(ps)
    ensures |r| == |domIds|
    ensures forall k :: 0 <= k < |domIds| ==> Find(ps, domIds[k]) == Some(r[k])
    ensures Ids(r) == domIds
  {
    seq(|domIds|, k requires 0 <= k < |domIds| => Find(ps, domIds[k]).value)
  }

  /** When the grid shows each current page exactly once (its ids are a
      permutation of the distinct current ids), reordering neither loses nor
      duplicates a page. */
  lemma {:induction false} ReorderPermutes(ps: seq<Page>, domIds: seq<string>)
    requires NoDuplicates(Ids(ps))
    requires forall k :: 0 <= k < |domIds| ==> domIds[k] in Ids(ps)
    requires multiset(domIds) == multiset(Ids(ps))
    ensures multiset(Reordered(ps, domIds)) == multiset(ps)
  {
    if ps == [] {
      assert |domIds| == |multiset(domIds)| == 0;
    } else {
      var fallback := ps[0];
      var lookup := (id: string) => Find(ps, id).GetOr(fallback);
      assert Reordered(ps, domIds) == MapSeq(lookup, domIds);
      forall k | 0 <= k < |ps|
        ensures MapSeq(lookup, Ids(ps))[k] == ps[k]
      {
        FindOwnId(ps, k);
      }
      assert MapSeq(lookup, Ids(ps)) == ps;
      MapPreservesPermutation(lookup, domIds, Ids(ps));
    }
  }
}
