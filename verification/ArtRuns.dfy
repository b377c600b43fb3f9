// Runs of the artwork cache: prefetches, requests, collages, restarts that sweep, litter
// left by interrupted writes, and files that something outside removes.

module ArtRuns {
  import opened Wrappers
  import opened ArtCache
  import opened Artwork
  import Runs

  datatype World = World(cache: Cache, now: int)

  datatype Event =
    | Prefetch(key: string, fetched: Fetch, writable: string -> bool)
    | Request(key: string, dir: string, fetched: Fetch, writable: string -> bool)
    | Build(key: string, library: string, artist: string, donors: seq<Donor>, covers: seq<Bytes>, writable: string -> bool)
    | Restart(removable: (string, string) -> bool)
    | Leave(dir: string, name: string, data: Bytes)
    | Lose(name: string)
    | LoseCopy(dir: string, name: string)
    | Wait(secs: nat)

  function Asked(c: Cache, key: string, dir: string, now: int, fetched: Fetch, images: Images, writable: string -> bool): Cache {
    var (found, got) := WithPoster(c, key, now, fetched, writable);
    if got.Have? && dir in SIZES then WithCopy(found, got.data, key, dir, images, false, writable).0 else found
  }

  /** An interrupted write leaves a `.part`, at the top or in a size directory. */
  function Littered(c: Cache, dir: string, name: string, data: Bytes, now: int): Cache {
    if dir == "" then c.(top := c.top[name := File(data, now)]) else c.(copies := c.copies[(dir, name) := data])
  }

  /** Keys are never named like litter, and no answer with an image is empty. */
  ghost predicate Possible(e: Event) {
    match e
    case Prefetch(key, fetched, _) => !Litter(key) && fetched != Poster([])
    case Request(key, _, fetched, _) => !Litter(key) && fetched != Poster([])
    case Build(key, _, _, _, _, _) => !Litter(key)
    case Leave(_, name, _) => Litter(name)
    case _ => true
  }

  ghost predicate Step(images: Images, w: World, e: Event, next: World) {
    Possible(e) &&
    var c := w.cache;
    match e
    case Prefetch(key, fetched, writable) => next == w.(cache := Prefetched(c, key, w.now, fetched, images, writable).0)
    case Request(key, dir, fetched, writable) => next == w.(cache := Asked(c, key, dir, w.now, fetched, images, writable))
    case Build(key, library, artist, donors, covers, writable) =>
      next == w.(cache := WithCollage(c, key, library, artist, donors, covers, w.now, images, writable).0)
    case Restart(removable) =>
      && SweptTop(c, next.cache, w.now, removable) && SweptCopies(c, next.cache, removable)
      && next == w.(cache := next.cache) && next.cache.manifests == c.manifests
    case Leave(dir, name, data) => next == w.(cache := Littered(c, dir, name, data, w.now))
    case Lose(name) => next == w.(cache := c.(top := c.top - {name}))
    case LoseCopy(dir, name) => next == w.(cache := c.(copies := c.copies - {(dir, name)}))
    case Wait(secs) => next == w.(now := w.now + secs)
  }

  ghost predicate Run(images: Images, ws: seq<World>, es: seq<Event>) {
    && Runs.Linked((w, e, next) => Step(images, w, e, next), ws, es)
    && ws[0].cache == Cache(map[], map[], map[])
  }

  /** No file that could be served is empty. */
  ghost predicate Whole(c: Cache) {
    && (forall name :: name in c.top && !Litter(name) ==> c.top[name].data != [])
    && (forall at :: at in c.copies && !Litter(at.1) ==> c.copies[at] != [])
  }

  lemma MissIsLitter(key: string)
    ensures Litter(key + ".miss")
  {
    assert (key + ".miss")[|key|..] == ".miss";
  }

  lemma PosterKeepsWhole(c: Cache, key: string, now: int, fetched: Fetch, writable: string -> bool)
    requires Whole(c) && !Litter(key) && fetched != Poster([])
    ensures Whole(WithPoster(c, key, now, fetched, writable).0)
  {
    MissIsLitter(key);
  }

  lemma CopiesKeepWhole(c: Cache, data: Bytes, key: string, images: Images, writable: string -> bool, n: nat)
    requires images.Sound() && Whole(c) && n <= |SIZES|
    ensures Whole(WithCopies(c, data, key, images, writable, n).0)
  {
    CopiesMade(c, data, key, images, writable, n);
  }

  lemma StepKeepsWhole(images: Images, w: World, e: Event, next: World)
    requires images.Sound() && Whole(w.cache) && Step(images, w, e, next)
    ensures Whole(next.cache)
  {
    match e {
      case Prefetch(key, fetched, writable) =>
        PosterKeepsWhole(w.cache, key, w.now, fetched, writable);
        var (found, got) := WithPoster(w.cache, key, w.now, fetched, writable);
        if got.Have? {
          CopiesKeepWhole(found, got.data, key, images, writable, |SIZES|);
        }
      case Request(key, dir, fetched, writable) =>
        PosterKeepsWhole(w.cache, key, w.now, fetched, writable);
      case Build(key, library, artist, donors, covers, writable) =>
        var collage := images.compose(covers);
        if collage.Some? {
          CopiesKeepWhole(w.cache.(top := w.cache.top[key := File(collage.value, w.now)]), collage.value, key, images, writable, |SIZES|);
        }
      case _ =>
    }
  }

  lemma AlwaysWhole(images: Images, ws: seq<World>, es: seq<Event>, k: nat)
    requires images.Sound() && Run(images, ws, es) && k < |ws|
    ensures Whole(ws[k].cache)
  {
    var step := (w, e, next) => Step(images, w, e, next);
    var good := (w: World) => Whole(w.cache);
    forall w, e, next | good(w) && step(w, e, next)
      ensures good(next)
    {
      StepKeepsWhole(images, w, e, next);
    }
    Runs.KeptThroughout(step, good, ws, es, 0, k);
  }

  /** In every run a prefetch that says yes leaves the original and every size present. */
  lemma ReadyIsComplete(images: Images, ws: seq<World>, es: seq<Event>, k: nat)
    requires images.Sound() && Run(images, ws, es) && k < |es| && es[k].Prefetch?
    requires Prefetched(ws[k].cache, es[k].key, ws[k].now, es[k].fetched, images, es[k].writable).1 == Some(true)
    ensures Complete(ws[k + 1].cache, es[k].key)
  {
    var step := (w, e, next) => Step(images, w, e, next);
    AlwaysWhole(images, ws, es, k);
    assert step(ws[k], es[k], ws[k + 1]);
    PrefetchedIsComplete(ws[k].cache, es[k].key, ws[k].now, es[k].fetched, images, es[k].writable);
  }

  /** Something outside removes one of the files the key stands for. */
  predicate Takes(e: Event, key: string) {
    (e.Lose? && e.name == key) || (e.LoseCopy? && e.name == key)
  }

  lemma StepKeepsComplete(images: Images, w: World, e: Event, next: World, key: string)
    requires images.Sound() && Step(images, w, e, next) && Complete(w.cache, key) && !Litter(key) && !Takes(e, key)
    ensures Complete(next.cache, key)
  {
    match e {
      case Prefetch(k, fetched, writable) =>
        MissIsLitter(k);
        var (found, got) := WithPoster(w.cache, k, w.now, fetched, writable);
        assert Complete(found, key);
        if got.Have? {
          CopiesMade(found, got.data, k, images, writable, |SIZES|);
          GrownStaysComplete(found, WithCopies(found, got.data, k, images, writable, |SIZES|).0, key);
        }
      case Request(k, dir, fetched, writable) =>
        MissIsLitter(k);
        GrownStaysComplete(w.cache, next.cache, key);
      case Build(k, library, artist, donors, covers, writable) =>
        var collage := images.compose(covers);
        if collage.Some? {
          var written := w.cache.(top := w.cache.top[k := File(collage.value, w.now)]);
          CopiesMade(written, collage.value, k, images, writable, |SIZES|);
          assert Complete(written, key);
          GrownStaysComplete(written, WithCopies(written, collage.value, k, images, writable, |SIZES|).0, key);
        }
      case Restart(removable) => SweepKeepsComplete(w.cache, next.cache, w.now, removable, key);
      case _ =>
        forall dir | dir in SIZES
          ensures PresentCopy(next.cache, dir, key)
        {
          assert PresentCopy(w.cache, dir, key);
        }
    }
  }

  lemma GrownStaysComplete(before: Cache, after: Cache, key: string)
    requires Complete(before, key)
    requires key in after.top && after.top[key].data != []
    requires forall at :: at in before.copies ==> at in after.copies && after.copies[at] == before.copies[at]
    ensures Complete(after, key)
  {
    forall dir | dir in SIZES
      ensures PresentCopy(after, dir, key)
    {
      assert PresentCopy(before, dir, key);
    }
  }

  /** And complete it stays, through restarts, sweeps and interrupted writes, until something
      outside takes one of its files away. */
  lemma CompleteStays(images: Images, ws: seq<World>, es: seq<Event>, i: nat, j: nat, key: string)
    requires images.Sound() && Run(images, ws, es) && i <= j < |ws| && Complete(ws[i].cache, key) && !Litter(key)
    requires forall m :: i <= m < j ==> !Takes(es[m], key)
    ensures Complete(ws[j].cache, key)
  {
    var quiet := (w, e, next) => Step(images, w, e, next) && !Takes(e, key);
    var good := (w: World) => Complete(w.cache, key);
    forall w, e, next | good(w) && quiet(w, e, next)
      ensures good(next)
    {
      StepKeepsComplete(images, w, e, next, key);
    }
    var step := (w, e, next) => Step(images, w, e, next);
    forall m | i <= m < j
      ensures quiet(ws[m], es[m], ws[m + 1])
    {
      assert step(ws[m], es[m], ws[m + 1]);
    }
    Runs.KeptThroughout(quiet, good, ws, es, i, j);
  }
}
