/** The client's two image caches, keyed by page id: `pageCache` (thumbnails)
    and `highResPageCache` (full-size previews). Both follow the same
    get-or-render rule; the thumbnail tier is also filled in batches. */
module PageCache {
  import opened Wrappers
  import opened PageModel

  /** `if (cache[id])`: an entry is a hit only when it is present and, being
      a string, truthy, that is, not empty. */
  predicate Cached(cache: map<string, Image>, id: string)
    ensures Cached(cache, id) <==> Lookup(cache, id).Some? && Lookup(cache, id).value != ""
  {
    id in cache && cache[id] != ""
  }

  /** The entry for `id`, if any. */
  function Lookup(cache: map<string, Image>, id: string): (r: Option<Image>)
    ensures r.Some? <==> id in cache
    ensures r.Some? ==> r.value == cache[id]
  {
    if id in cache then Some(cache[id]) else None
  }

  /** One get-or-render of page `p`: a hit leaves the cache alone; a miss
      renders, stores a successful image and leaves a failure uncached.
      No other id is touched. */
  function FillOne(cache: map<string, Image>, p: Page, render: Page -> Option<Image>): (r: map<string, Image>)
    ensures r - {p.id} == cache - {p.id}
    ensures Cached(cache, p.id) ==> r == cache
    ensures !Cached(cache, p.id) ==> Lookup(r, p.id) == if render(p).Some? then render(p) else Lookup(cache, p.id)
  {
    if Cached(cache, p.id) then cache
    else match render(p)
      case Some(image) => cache[p.id := image]
      case None => cache
  }

  /** A cache and the pages that were handed to the renderer, in call order. */
  datatype Fill = Fill(cache: map<string, Image>, rendered: seq<Page>)

  /** Get-or-render applied to each page of `ps` in turn. */
  function FillAll(cache: map<string, Image>, ps: seq<Page>, render: Page -> Option<Image>): (r: Fill)
    ensures |r.rendered| <= |ps|
    decreases |ps|
  {
    if ps == [] then Fill(cache, [])
    else
      var prev := FillAll(cache, ps[..|ps| - 1], render);
      var p := ps[|ps| - 1];
      Fill(FillOne(prev.cache, p, render),
           prev.rendered + (if Cached(prev.cache, p.id) then [] else [p]))
  }

  /** Filling one more page extends the fill of the prefix. */
  lemma {:induction false} FillAllSnoc(cache: map<string, Image>, ps: seq<Page>, p: Page, render: Page -> Option<Image>)
    ensures var prev := FillAll(cache, ps, render);
      FillAll(cache, ps + [p], render)
        == Fill(FillOne(prev.cache, p, render),
                prev.rendered + (if Cached(prev.cache, p.id) then [] else [p]))
  {
    assert (ps + [p])[..|ps|] == ps;
  }

  /** Filling `a + b` is filling `a`, then filling `b` from where `a` left off. */
  lemma {:induction false} FillAllAppend(cache: map<string, Image>, a: seq<Page>, b: seq<Page>, render: Page -> Option<Image>)
    ensures var first := FillAll(cache, a, render);
      var second := FillAll(first.cache, b, render);
      FillAll(cache, a + b, render) == Fill(second.cache, first.rendered + second.rendered)
    decreases |b|
  {
    if b == [] {
      assert a + b == a;
    } else {
      var b', q := b[..|b| - 1], b[|b| - 1];
      FillAllAppend(cache, a, b', render);
      FillAllAppendStep(cache, a, b', q, render);
      assert b == b' + [q];
    }
  }

  /** The inductive step of FillAllAppend: one more page at the end of `b`. */
  lemma {:induction false} FillAllAppendStep(cache: map<string, Image>, a: seq<Page>, b: seq<Page>, q: Page, render: Page -> Option<Image>)
    requires var first := FillAll(cache, a, render);
      FillAll(cache, a + b, render) == Fill(FillAll(first.cache, b, render).cache, first.rendered + FillAll(first.cache, b, render).rendered)
    ensures var first := FillAll(cache, a, render);
      var second := FillAll(first.cache, b + [q], render);
      FillAll(cache, a + (b + [q]), render) == Fill(second.cache, first.rendered + second.rendered)
  {
    var first := FillAll(cache, a, render);
    var mid := FillAll(first.cache, b, render);
    var tail := if Cached(mid.cache, q.id) then [] else [q];
    assert a + (b + [q]) == (a + b) + [q];
    FillAllSnoc(cache, a + b, q, render);
    FillAllSnoc(first.cache, b, q, render);
    assert first.rendered + (mid.rendered + tail) == (first.rendered + mid.rendered) + tail;
  }

  /** FillAllAppend on the slices `ps[..i]` and `ps[i..end]` of one sequence. */
  lemma {:induction false} FillAllSlices(cache: map<string, Image>, ps: seq<Page>, i: nat, end: nat, render: Page -> Option<Image>)
    requires i <= end <= |ps|
    ensures var first := FillAll(cache, ps[..i], render);
      var second := FillAll(first.cache, ps[i..end], render);
      FillAll(cache, ps[..end], render) == Fill(second.cache, first.rendered + second.rendered)
  {
    assert ps[..end] == ps[..i] + ps[i..end];
    FillAllAppend(cache, ps[..i], ps[i..end], render);
  }

  /** A hit is never overwritten: an entry that was cached keeps its image. */
  lemma {:induction false} FillKeepsCached(cache: map<string, Image>, ps: seq<Page>, render: Page -> Option<Image>, id: string)
    requires Cached(cache, id)
    ensures Lookup(FillAll(cache, ps, render).cache, id) == Some(cache[id])
    decreases |ps|
  {
    if ps != [] {
      FillKeepsCached(cache, ps[..|ps| - 1], render, id);
    }
  }

  /** Only pages of `ps` whose id was not already cached are rendered. */
  lemma {:induction false} FillRendersOnlyMisses(cache: map<string, Image>, ps: seq<Page>, render: Page -> Option<Image>)
    ensures forall q :: q in FillAll(cache, ps, render).rendered ==> q in ps && !Cached(cache, q.id)
    decreases |ps|
  {
    if ps != [] {
      var init := ps[..|ps| - 1];
      var p := ps[|ps| - 1];
      FillRendersOnlyMisses(cache, init, render);
      if Cached(cache, p.id) {
        FillKeepsCached(cache, init, render, p.id);
      }
    }
  }

  /** Every page whose render succeeds with a non-empty image is a hit
      afterwards, whatever happened to the other pages. */
  lemma {:induction false} FillStoresSuccesses(cache: map<string, Image>, ps: seq<Page>, render: Page -> Option<Image>)
    ensures forall k :: 0 <= k < |ps| && render(ps[k]).Some? && render(ps[k]).value != "" ==>
      Cached(FillAll(cache, ps, render).cache, ps[k].id)
    decreases |ps|
  {
    if ps != [] {
      var init := ps[..|ps| - 1];
      var p := ps[|ps| - 1];
      var prev := FillAll(cache, init, render);
      FillStoresSuccesses(cache, init, render);
      forall k | 0 <= k < |init| && render(init[k]).Some? && render(init[k]).value != ""
        ensures Cached(FillOne(prev.cache, p, render), init[k].id)
      {
      }
    }
  }

  /** The entries after the fill are the old entries plus one for each page
      whose render succeeded; an id of a page whose renders all failed stays
      absent, and an id that no page of `ps` carries keeps its old entry. */
  lemma {:induction false} FillFrame(cache: map<string, Image>, ps: seq<Page>, render: Page -> Option<Image>)
    ensures forall id :: id in FillAll(cache, ps, render).cache <==>
      id in cache || exists k :: 0 <= k < |ps| && ps[k].id == id && render(ps[k]).Some?
    ensures forall id :: id !in Ids(ps) ==> Lookup(FillAll(cache, ps, render).cache, id) == Lookup(cache, id)
    decreases |ps|
  {
    if ps != [] {
      var init := ps[..|ps| - 1];
      var p := ps[|ps| - 1];
      FillFrame(cache, init, render);
      var prev := FillAll(cache, init, render);
      forall id
        ensures id in FillOne(prev.cache, p, render) <==>
          id in cache || exists k :: 0 <= k < |ps| && ps[k].id == id && render(ps[k]).Some?
      {
        if exists k :: 0 <= k < |ps| && ps[k].id == id && render(ps[k]).Some? {
          var k :| 0 <= k < |ps| && ps[k].id == id && render(ps[k]).Some?;
          if k < |init| {
            assert init[k] == ps[k];
          }
        }
        if exists k :: 0 <= k < |init| && init[k].id == id && render(init[k]).Some? {
          var k :| 0 <= k < |init| && init[k].id == id && render(init[k]).Some?;
          assert ps[k] == init[k];
        }
      }
      forall id | id !in Ids(ps)
        ensures Lookup(FillOne(prev.cache, p, render), id) == Lookup(cache, id)
      {
        assert Ids(ps)[|ps| - 1] == p.id;
        assert forall k :: 0 <= k < |init| ==> Ids(init)[k] == Ids(ps)[k];
      }
    }
  }

  /** While no page with `id` has rendered a non-empty image, `id` stays a miss. */
  lemma {:induction false} FillMissesUntilImage(cache: map<string, Image>, ps: seq<Page>, render: Page -> Option<Image>, id: string)
    requires !Cached(cache, id)
    requires forall j :: 0 <= j < |ps| && ps[j].id == id ==> render(ps[j]).None? || render(ps[j]).value == ""
    ensures !Cached(FillAll(cache, ps, render).cache, id)
    decreases |ps|
  {
    if ps != [] {
      var init := ps[..|ps| - 1];
      assert forall j :: 0 <= j < |init| ==> init[j] == ps[j];
      FillMissesUntilImage(cache, init, render, id);
    }
  }

  /** The image a fill stores for a missed id is the one rendered for the
      first page with that id whose render yields a non-empty image; later
      pages with the id find it cached and leave it. */
  lemma {:induction false} FillStoresFirstImage(cache: map<string, Image>, ps: seq<Page>, render: Page -> Option<Image>, id: string, k: nat)
    requires !Cached(cache, id)
    requires k < |ps| && ps[k].id == id && render(ps[k]).Some? && render(ps[k]).value != ""
    requires forall j :: 0 <= j < k && ps[j].id == id ==> render(ps[j]).None? || render(ps[j]).value == ""
    ensures Lookup(FillAll(cache, ps, render).cache, id) == render(ps[k])
  {
    var before, rest := ps[..k], ps[k + 1..];
    assert ps[..k + 1] + rest == ps;
    assert ps[..k + 1] == before + [ps[k]];
    assert forall j :: 0 <= j < |before| ==> before[j] == ps[j];
    FillMissesUntilImage(cache, before, render, id);
    var upto := FillAll(cache, before, render);
    FillAllSnoc(cache, before, ps[k], render);
    var mid := FillAll(cache, ps[..k + 1], render);
    assert Lookup(mid.cache, id) == render(ps[k]);
    FillKeepsCached(mid.cache, rest, render, id);
    FillAllAppend(cache, ps[..k + 1], rest, render);
  }

  /** The slices `ps.slice(i, i + size)` for i = 0, size, 2 size, ... taken
      while i < |ps|. */
  function Batches<T>(ps: seq<T>, size: nat): (bs: seq<seq<T>>)
    requires size > 0
    ensures |bs| <= |ps| && (bs == [] <==> ps == [])
    decreases |ps|
  {
    if ps == [] then []
    else
      var n := if |ps| < size then |ps| else size;
      [ps[..n]] + Batches(ps[n..], size)
  }

  /** Where the batch starting at `i` ends: `slice` stops at the end. */
  function BatchEnd(len: nat, i: nat, size: nat): nat {
    if i + size < len then i + size else len
  }

  /** Taking the batch that starts at position `i` moves the split point of
      `Batches(ps, size)` from `i` to the batch's end. */
  lemma {:induction false} BatchesAdvance<T>(ps: seq<T>, done: seq<seq<T>>, i: nat, size: nat)
    requires size > 0 && i < |ps|
    requires Batches(ps, size) == done + Batches(ps[i..], size)
    ensures var end := BatchEnd(|ps|, i, size);
      Batches(ps, size) == (done + [ps[i..end]]) + Batches(ps[end..], size)
  {
    var end := BatchEnd(|ps|, i, size);
    var rest := ps[i..];
    assert rest[..end - i] == ps[i..end];
    assert rest[end - i..] == ps[end..];
    assert Batches(rest, size) == [ps[i..end]] + Batches(ps[end..], size);
  }

  function Flatten<T>(bs: seq<seq<T>>): seq<T> {
    if bs == [] then [] else bs[0] + Flatten(bs[1..])
  }

  /** The batches cover the pages in order, each page exactly once, and each
      batch holds between one and `size` pages. */
  lemma {:induction false} BatchesCover<T>(ps: seq<T>, size: nat)
    requires size > 0
    ensures Flatten(Batches(ps, size)) == ps
    ensures forall b :: b in Batches(ps, size) ==> 0 < |b| <= size
    decreases |ps|
  {
    if ps != [] {
      var n := if |ps| < size then |ps| else size;
      BatchesCover(ps[n..], size);
      var bs := Batches(ps, size);
      assert bs[1..] == Batches(ps[n..], size);
      assert ps == ps[..n] + ps[n..];
    }
  }
}
