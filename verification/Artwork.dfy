// The cache's methods, and what they promise of a cache: a prefetched poster is complete,
// the sweep at a start breaks nothing, and a collage answers for the albums of now.

module Artwork {
  import opened Wrappers
  import opened ArtCache

  predicate MissedWithinTheHour(c: Cache, key: string, now: int) {
    key + ".miss" in c.top && c.top[key + ".miss"].written <= now < c.top[key + ".miss"].written + 3600
  }

  predicate Leftover(name: string) {
    |name| >= 5 && (name[|name| - 5..] == ".miss" || name[|name| - 5..] == ".part")
  }

  predicate SizeDirectory(dir: string) {
    "size-" <= dir && !Leftover(dir)
  }

  predicate Reachable(dir: string) {
    dir in ["size-thumb-96", "size-card1x-320", "size-card-480"]
  }

  /** What the sweep may take: misses and unfinished writes after an hour; of the copies,
      those of a size no longer in use and those whose original is gone. */
  ghost predicate OnlyUseless(before: Cache, after: Cache, now: int, removable: (string, string) -> bool) {
    && (forall name :: name in after.top <==>
          name in before.top && !(Leftover(name) && now - before.top[name].written > 3600 && removable("", name)))
    && (forall dir, name :: !Leftover(name) ==>
          ((dir, name) in after.copies <==>
             (dir, name) in before.copies
             && ((Reachable(dir) && name in before.top) || !SizeDirectory(dir) || !removable(dir, name))))
  }

  lemma Words(name: string)
    ensures Litter(name) <==> Leftover(name)
    ensures IsSize(name) <==> SizeDirectory(name)
    ensures name in SIZES <==> Reachable(name)
    ensures Reachable(name) ==> SizeDirectory(name)
  {
    assert |".miss"| == 5 && |".part"| == 5 && |"size-"| == 5;
    assert "size-" <= name <==> |name| >= 5 && name[..5] == "size-";
  }

  lemma SweptIsUseless(before: Cache, after: Cache, now: int, removable: (string, string) -> bool)
    requires SweptTop(before, after, now, removable) && SweptCopies(before, after, removable)
    ensures OnlyUseless(before, after, now, removable)
  {
    forall name: string
      ensures Litter(name) <==> Leftover(name)
      ensures IsSize(name) <==> SizeDirectory(name)
      ensures name in SIZES <==> Reachable(name)
    {
      Words(name);
    }
  }

  class Artwork {
    var cache: Cache

    constructor (cache: Cache)
      ensures this.cache == cache
    {
      this.cache := cache;
    }

    method RemotePoster(key: string, now: int, fetched: Fetch, writable: string -> bool) returns (got: Got)
      modifies this
      ensures (cache, got) == WithPoster(old(cache), key, now, fetched, writable)
      // What is cached is answered, a miss is remembered for an hour, and only then is it fetched.
      ensures key in old(cache).top ==> cache == old(cache) && got == Have(old(cache).top[key].data)
      ensures key !in old(cache).top && MissedWithinTheHour(old(cache), key, now) ==> cache == old(cache) && got == Missing
      ensures key !in old(cache).top && !MissedWithinTheHour(old(cache), key, now) ==>
        match fetched
        case Unreachable => cache == old(cache) && got == Failed
        case NoPoster => got == Missing && (writable("") ==> MissedWithinTheHour(cache, key, now))
        case Poster(data) =>
          if writable("") then got == Have(data) && cache.top == old(cache).top[key := File(data, now)]
          else got == Failed && cache == old(cache)
      ensures cache.copies == old(cache).copies && cache.manifests == old(cache).manifests
      ensures forall name :: name in cache.top && name != key && name != key + ".miss" ==>
        name in old(cache).top && cache.top[name] == old(cache).top[name]
      ensures old(cache).top.Keys <= cache.top.Keys
    {
      if key in cache.top {
        return Have(cache.top[key].data);
      }
      var miss := key + ".miss";
      if miss in cache.top && 0 <= now - cache.top[miss].written < MISS_TTL {
        return Missing;
      }
      if fetched.Unreachable? {
        return Failed;
      }
      if fetched.NoPoster? {
        if writable("") {
          cache := cache.(top := cache.top[miss := File([], now)]);
        }
        return Missing;
      }
      if !writable("") {
        return Failed;
      }
      cache := cache.(top := cache.top[key := File(fetched.data, now)]);
      return Have(fetched.data);
    }

    method AtFromOriginal(data: Bytes, key: string, dir: string, images: Images, required: bool, writable: string -> bool)
      returns (small: Option<Bytes>)
      modifies this
      ensures (cache, small) == WithCopy(old(cache), data, key, dir, images, required, writable)
      // A copy that is there is served; one that is made is kept if it can be written.
      ensures (dir, key) in old(cache).copies ==> small == Some(old(cache).copies[(dir, key)]) && cache == old(cache)
      ensures (dir, key) !in old(cache).copies ==>
        && small == (if required && !writable(dir) then None else images.resize(data, dir))
        && ((dir, key) in cache.copies <==> writable(dir) && images.resize(data, dir).Some?)
        && ((dir, key) in cache.copies ==> Some(cache.copies[(dir, key)]) == images.resize(data, dir))
      ensures cache.top == old(cache).top && cache.copies - {(dir, key)} == old(cache).copies - {(dir, key)}
    {
      if (dir, key) in cache.copies {
        return Some(cache.copies[(dir, key)]);
      }
      small := images.resize(data, dir);
      if small.None? {
        return;
      }
      if writable(dir) {
        cache := cache.(copies := cache.copies[(dir, key) := small.value]);
      } else if required {
        return None;
      }
    }

    method MakeCopies(data: Bytes, key: string, images: Images, writable: string -> bool) returns (ok: bool)
      modifies this
      ensures (cache, ok) == WithCopies(old(cache), data, key, images, writable, |SIZES|)
    {
      for n := 0 to |SIZES|
        invariant (cache, true) == WithCopies(old(cache), data, key, images, writable, n)
      {
        var small := AtFromOriginal(data, key, SIZES[n], images, true, writable);
        if small.None? {
          StopsHere(old(cache), data, key, images, writable, n + 1, |SIZES|);
          return false;
        }
      }
      return true;
    }

    method PrefetchRemote(key: string, now: int, fetched: Fetch, images: Images, writable: string -> bool)
      returns (ready: Option<bool>)
      modifies this
      ensures (cache, ready) == Prefetched(old(cache), key, now, fetched, images, writable)
    {
      var got := RemotePoster(key, now, fetched, writable);
      match got {
        case Failed => return None;
        case Missing => return Some(false);
        case Have(data) =>
          var ok := MakeCopies(data, key, images, writable);
          return if ok then Some(true) else None;
      }
    }

    method PrefetchCollage(key: string, library: string, artist: string, donors: seq<Donor>, covers: seq<Bytes>,
                           now: int, images: Images, writable: string -> bool) returns (ok: bool)
      modifies this
      ensures (cache, ok) == WithCollage(old(cache), key, library, artist, donors, covers, now, images, writable)
    {
      if covers == [] {
        return true;
      }
      var revision := RevisionOf(library, artist, donors);
      var read := ReadManifest(cache, key);
      if read.Some? && read.value.revision == revision {
        return true;
      }
      var collage := images.compose(covers);
      if collage.None? || !writable("") {
        return false;
      }
      cache := cache.(top := cache.top[key := File(collage.value, now)]);
      ok := MakeCopies(collage.value, key, images, writable);
      if ok {
        cache := cache.(manifests := cache.manifests[key := Manifest(revision, Ids(donors))]);
      }
    }

    /** The start-up sweep, in whatever order directories are read. `removable` says which
        removals succeed, of a file at the top or of one in a size directory. What it
        leaves of the copies is stated for names that are not litter themselves. */
    method SweepStaleSizes(now: int, removable: (string, string) -> bool)
      modifies this
      ensures SweptTop(old(cache), cache, now, removable) && SweptCopies(old(cache), cache, removable)
      ensures cache.manifests == old(cache).manifests
      ensures OnlyUseless(old(cache), cache, now, removable)
    {
      ghost var start := cache;
      var names := cache.top.Keys;
      var dirs := set at | at in cache.copies :: at.0;
      ghost var seenNames: set<string>, seenDirs: set<string> := {}, {};
      while
        invariant names == start.top.Keys - seenNames && seenNames <= start.top.Keys
        invariant forall at :: at in start.copies ==> at.0 in dirs || at.0 in seenDirs
        invariant cache.manifests == start.manifests && Midway(start, cache, now, removable, seenNames, seenDirs)
        decreases names, dirs
      {
        case names != {} =>
          var name :| name in names;
          NameRead(start, cache, now, removable, seenNames, seenDirs, name);
          if Litter(name) && now - cache.top[name].written > MISS_TTL && removable("", name) {
            cache := cache.(top := cache.top - {name});
          }
          names, seenNames := names - {name}, seenNames + {name};
        case dirs != {} =>
          var dir :| dir in dirs;
          ghost var before := cache;
          SweepSize(dir, removable);
          DirRead(start, before, cache, now, removable, seenNames, seenDirs, dir);
          dirs, seenDirs := dirs - {dir}, seenDirs + {dir};
      }
      SweepEnds(start, cache, now, removable, seenNames, seenDirs);
      SweptIsUseless(start, cache, now, removable);
    }

    /** One directory: a retired size goes whole, a current one loses its orphans. */
    method SweepSize(dir: string, removable: (string, string) -> bool)
      modifies this
      ensures cache.top == old(cache).top && cache.manifests == old(cache).manifests
      ensures SizeSwept(old(cache), cache, dir, removable)
    {
      if !IsSize(dir) {
        return;
      }
      var c := cache;
      if dir !in SIZES {
        cache := c.(copies := map at | at in c.copies && !(at.0 == dir && removable(dir, at.1)) :: c.copies[at]);
        return;
      }
      cache := c.(copies := map at | at in c.copies && !(at.0 == dir && at.1 !in c.top && removable(dir, at.1)) :: c.copies[at]);
    }
  }

  ghost predicate SizeSwept(before: Cache, after: Cache, dir: string, removable: (string, string) -> bool) {
    && (forall at :: at in after.copies <==>
          at in before.copies && !(at.0 == dir && OutOfReach(before, dir, at.1) && removable(dir, at.1)))
    && forall at :: at in after.copies ==> after.copies[at] == before.copies[at]
  }

  ghost predicate SweptTop(before: Cache, after: Cache, now: int, removable: (string, string) -> bool) {
    && (forall name :: name in after.top <==>
          name in before.top && !(StaleLitter(before, name, now) && removable("", name)))
    && forall name :: name in after.top ==> after.top[name] == before.top[name]
  }

  /** Litter goes as its entry is read, and what it shares its name with may follow. */
  ghost predicate Midway(start: Cache, c: Cache, now: int, removable: (string, string) -> bool,
                         names: set<string>, dirs: set<string>)
  {
    && (forall name :: name in c.top <==>
          name in start.top && !(name in names && StaleLitter(start, name, now) && removable("", name)))
    && (forall name :: name in c.top ==> c.top[name] == start.top[name])
    && (forall at :: at in c.copies ==> at in start.copies && c.copies[at] == start.copies[at])
    && (forall at :: at in start.copies && !Litter(at.1) ==>
          (at in c.copies <==> !(at.0 in dirs && OutOfReach(start, at.0, at.1) && removable(at.0, at.1))))
  }

  lemma NameRead(start: Cache, c: Cache, now: int, removable: (string, string) -> bool,
                 names: set<string>, dirs: set<string>, name: string)
    requires Midway(start, c, now, removable, names, dirs) && name in start.top && name !in names
    ensures name in c.top
    ensures var goes := Litter(name) && now - c.top[name].written > MISS_TTL && removable("", name);
            Midway(start, if goes then c.(top := c.top - {name}) else c, now, removable, names + {name}, dirs)
  {
    var goes := Litter(name) && now - c.top[name].written > MISS_TTL && removable("", name);
    var after := if goes then c.(top := c.top - {name}) else c;
    assert after.copies == c.copies;
  }

  lemma DirRead(start: Cache, before: Cache, after: Cache, now: int, removable: (string, string) -> bool,
                names: set<string>, dirs: set<string>, dir: string)
    requires Midway(start, before, now, removable, names, dirs) && SizeSwept(before, after, dir, removable)
    requires after.top == before.top
    ensures Midway(start, after, now, removable, names, dirs + {dir})
  {
    forall at | at in start.copies && !Litter(at.1)
      ensures at in after.copies <==> !(at.0 in dirs + {dir} && OutOfReach(start, at.0, at.1) && removable(at.0, at.1))
    {
      assert at.1 in before.top <==> at.1 in start.top;
    }
  }

  lemma SweepEnds(start: Cache, c: Cache, now: int, removable: (string, string) -> bool,
                  names: set<string>, dirs: set<string>)
    requires Midway(start, c, now, removable, names, dirs) && names == start.top.Keys
    requires forall at :: at in start.copies ==> at.0 in dirs
    ensures SweptTop(start, c, now, removable) && SweptCopies(start, c, removable)
  {
  }

  /** Of the copies exactly those out of reach go; one whose own name is litter may go or
      stay with the original of its name. */
  ghost predicate SweptCopies(before: Cache, after: Cache, removable: (string, string) -> bool) {
    && (forall dir, name :: !Litter(name) ==>
          ((dir, name) in after.copies <==>
             (dir, name) in before.copies && !(OutOfReach(before, dir, name) && removable(dir, name))))
    && forall at :: at in after.copies ==> at in before.copies && after.copies[at] == before.copies[at]
  }

  lemma {:induction false} StopsHere(c: Cache, data: Bytes, key: string, images: Images, writable: string -> bool, k: nat, n: nat)
    requires k <= n <= |SIZES| && !WithCopies(c, data, key, images, writable, k).1
    ensures WithCopies(c, data, key, images, writable, n) == WithCopies(c, data, key, images, writable, k)
    decreases n
  {
    if k < n {
      StopsHere(c, data, key, images, writable, k, n - 1);
    }
  }

  // ------------------------------------------------------------------- prefetching

  lemma {:induction false} CopiesMade(c: Cache, data: Bytes, key: string, images: Images, writable: string -> bool, n: nat)
    requires n <= |SIZES|
    ensures var (after, ok) := WithCopies(c, data, key, images, writable, n);
            && after.top == c.top && after.manifests == c.manifests
            && (forall at :: at in c.copies ==> at in after.copies && after.copies[at] == c.copies[at])
            && (forall at :: at in after.copies && at !in c.copies ==> at.1 == key && images.resize(data, at.0) == Some(after.copies[at]))
            && (ok ==> forall k :: 0 <= k < n ==> (SIZES[k], key) in after.copies)
  {
    if n > 0 {
      CopiesMade(c, data, key, images, writable, n - 1);
    }
  }

  /** A size is there or can be made. */
  predicate Reached(c: Cache, data: Bytes, key: string, images: Images, writable: string -> bool, dir: string) {
    (dir, key) in c.copies || (images.resize(data, dir).Some? && writable(dir))
  }

  lemma {:induction false} CopiesSucceed(c: Cache, data: Bytes, key: string, images: Images, writable: string -> bool, n: nat)
    requires n <= |SIZES|
    ensures WithCopies(c, data, key, images, writable, n).1 <==>
            forall k :: 0 <= k < n ==> Reached(c, data, key, images, writable, SIZES[k])
  {
    if n > 0 {
      CopiesSucceed(c, data, key, images, writable, n - 1);
      CopiesNamed(c, data, key, images, writable, n - 1);
      SizesApart(n - 1);
    }
  }

  lemma SizesApart(n: nat)
    requires n < |SIZES|
    ensures SIZES[n] !in SIZES[..n]
  {
    assert |SIZES[0]| == 13 && |SIZES[1]| == 15 && |SIZES[2]| == 13 && SIZES[0][5] == 't' && SIZES[2][5] == 'c';
    assert n == 0 || n == 1 || n == 2;
  }

  lemma {:induction false} CopiesNamed(c: Cache, data: Bytes, key: string, images: Images, writable: string -> bool, n: nat)
    requires n <= |SIZES|
    ensures forall at :: at in WithCopies(c, data, key, images, writable, n).0.copies && at !in c.copies ==> at.0 in SIZES[..n]
    ensures forall at :: at in c.copies ==> at in WithCopies(c, data, key, images, writable, n).0.copies
  {
    if n > 0 {
      CopiesNamed(c, data, key, images, writable, n - 1);
      assert SIZES[..n] == SIZES[..n - 1] + [SIZES[n - 1]];
    }
  }

  lemma EverySize(c: Cache, data: Bytes, key: string, images: Images, writable: string -> bool)
    ensures WithCopies(c, data, key, images, writable, 3).1 <==>
            && Reached(c, data, key, images, writable, "size-thumb-96")
            && Reached(c, data, key, images, writable, "size-card1x-320")
            && Reached(c, data, key, images, writable, "size-card-480")
  {
    CopiesSucceed(c, data, key, images, writable, 3);
    assert forall k :: 0 <= k < 3 ==> SIZES[k] == SIZES[0] || SIZES[k] == SIZES[1] || SIZES[k] == SIZES[2];
  }

  /** When a prefetch says yes: an original is cached or can be, and each of the three sizes is
      there or can be made of it. It says no for a poster that is known or found to be missing. */
  lemma PrefetchAnswers(c: Cache, key: string, now: int, fetched: Fetch, images: Images, writable: string -> bool)
    ensures var answer, missed := Prefetched(c, key, now, fetched, images, writable).1, MissedWithinTheHour(c, key, now);
            && (answer == Some(false) <==> key !in c.top && (missed || fetched.NoPoster?))
            && (answer == Some(true) <==>
                  && (key !in c.top ==> !missed && fetched.Poster? && writable(""))
                  && var data := if key in c.top then c.top[key].data else fetched.data;
                     && Reached(c, data, key, images, writable, "size-thumb-96")
                     && Reached(c, data, key, images, writable, "size-card1x-320")
                     && Reached(c, data, key, images, writable, "size-card-480"))
  {
    var (found, got) := WithPoster(c, key, now, fetched, writable);
    assert found.copies == c.copies;
    if got.Have? {
      EverySize(found, got.data, key, images, writable);
    }
  }

  /** Nothing that stands for this key is an empty file. */
  predicate NoneEmpty(c: Cache, key: string) {
    (key in c.top ==> c.top[key].data != []) && forall dir :: dir in SIZES && (dir, key) in c.copies ==> c.copies[(dir, key)] != []
  }

  /** A prefetch that says yes leaves the original and every size, and they can be relied
      on exactly when none of these files was empty before and the provider's answer, if
      it was asked, was not. */
  lemma PrefetchedIsComplete(c: Cache, key: string, now: int, fetched: Fetch, images: Images, writable: string -> bool)
    requires images.Sound() && Prefetched(c, key, now, fetched, images, writable).1 == Some(true)
    ensures var after := Prefetched(c, key, now, fetched, images, writable).0;
            && key in after.top && (forall dir :: dir in SIZES ==> (dir, key) in after.copies)
            && (Complete(after, key) <==> NoneEmpty(c, key) && (key in c.top || fetched != Poster([])))
  {
    var (found, got) := WithPoster(c, key, now, fetched, writable);
    CopiesMade(found, got.data, key, images, writable, |SIZES|);
    var after := WithCopies(found, got.data, key, images, writable, |SIZES|).0;
    forall dir | dir in SIZES
      ensures (dir, key) in after.copies
      ensures (dir, key) in c.copies ==> after.copies[(dir, key)] == c.copies[(dir, key)]
      ensures (dir, key) !in c.copies ==> after.copies[(dir, key)] != []
    {
      var k :| 0 <= k < |SIZES| && SIZES[k] == dir;
    }
  }

  /** An input for which it says yes over an empty copy. */
  lemma EmptyCopyIsBelieved(c: Cache, key: string, data: Bytes, now: int, fetched: Fetch, images: Images, writable: string -> bool)
    requires data != [] && c.top == map[key := File(data, now)]
    requires forall dir: string, name: string :: (dir, name) in c.copies <==> dir in SIZES && name == key
    requires c.copies[(CARD, key)] == []
    ensures Prefetched(c, key, now, fetched, images, writable) == (c, Some(true)) && !Complete(c, key)
  {
    BelievedAsIs(c, key, data, images, writable, |SIZES|);
    assert CARD in SIZES;
  }

  lemma {:induction false} BelievedAsIs(c: Cache, key: string, data: Bytes, images: Images, writable: string -> bool, n: nat)
    requires n <= |SIZES| && forall dir :: dir in SIZES ==> (dir, key) in c.copies
    ensures WithCopies(c, data, key, images, writable, n) == (c, true)
  {
    if n > 0 {
      BelievedAsIs(c, key, data, images, writable, n - 1);
    }
  }

  // ------------------------------------------------------------------------ the sweep

  /** The sweep never breaks a complete key, even when removals fail, and where they succeed
      it leaves no copy of a size in use, or of one retired, without its original. */
  lemma SweepKeepsComplete(before: Cache, after: Cache, now: int, removable: (string, string) -> bool, key: string)
    requires SweptTop(before, after, now, removable) && SweptCopies(before, after, removable)
    ensures !Litter(key) && Complete(before, key) ==> Complete(after, key)
    ensures !Litter(key) ==> (key in after.top <==> key in before.top)
    ensures forall dir :: !Litter(key) && removable(dir, key) && IsSize(dir) && (dir, key) in after.copies ==>
              dir in SIZES && key in after.top
  {
    forall dir | dir in SIZES && !Litter(key) && Complete(before, key)
      ensures PresentCopy(after, dir, key)
    {
      assert PresentCopy(before, dir, key);
      assert !OutOfReach(before, dir, key);
    }
  }

  // ---------------------------------------------------------------------- collages

  /** What is served answers for the albums as they are: the manifest's own record of them,
      version and poster included, equals the current one. */
  lemma ServedForCurrentAlbums(c: Cache, key: string, library: string, artist: string, available: seq<Donor>)
    ensures Served(c, key, library, artist, available).Some? <==>
              && Complete(c, key) && key in c.manifests
              && exists donors :: Current(available, c.manifests[key].albums) == Some(donors)
                                  && c.manifests[key].revision == RevisionOf(library, artist, donors)
    ensures Served(c, key, library, artist, available).Some? ==>
              Served(c, key, library, artist, available) == Some(c.copies[(CARD, key)])
  {
    assert CARD in SIZES;
    assert Complete(c, key) ==> PresentCopy(c, CARD, key);
  }

  lemma {:induction false} CurrentOfThemselves(available: seq<Donor>, donors: seq<Donor>)
    requires forall d :: d in donors ==> DonorNamed(available, d.id) == Some(d)
    ensures Current(available, Ids(donors)) == Some(donors)
  {
    if donors != [] {
      var before, last := donors[..|donors| - 1], donors[|donors| - 1];
      CurrentOfThemselves(available, before);
      assert Ids(donors)[..|donors| - 1] == Ids(before) && donors == before + [last];
    }
  }

  /** When a collage is settled: there is nothing to show, or what is there shows it, or it can
      be composed, written and resized. */
  lemma CollageAnswers(c: Cache, key: string, library: string, artist: string, donors: seq<Donor>, covers: seq<Bytes>,
                       now: int, images: Images, writable: string -> bool)
    ensures var shown := Complete(c, key) && key in c.manifests && c.manifests[key].revision == RevisionOf(library, artist, donors);
            WithCollage(c, key, library, artist, donors, covers, now, images, writable).1 <==>
            || covers == [] || shown
            || (images.compose(covers).Some? && writable("")
                && var data := images.compose(covers).value;
                   && Reached(c, data, key, images, writable, "size-thumb-96")
                   && Reached(c, data, key, images, writable, "size-card1x-320")
                   && Reached(c, data, key, images, writable, "size-card-480"))
  {
    if images.compose(covers).Some? {
      var data := images.compose(covers).value;
      EverySize(c.(top := c.top[key := File(data, now)]), data, key, images, writable);
    }
  }

  /** After a collage is built its card is the new one exactly when there was no card before:
      a copy that is there is never made again. */
  lemma CollageCard(c: Cache, key: string, library: string, artist: string, donors: seq<Donor>, covers: seq<Bytes>,
                    now: int, images: Images, writable: string -> bool)
    requires images.Sound() && covers != [] && WithCollage(c, key, library, artist, donors, covers, now, images, writable).1
    requires !(ReadManifest(c, key).Some? && ReadManifest(c, key).value.revision == RevisionOf(library, artist, donors))
    ensures images.compose(covers).Some?
    ensures var after := WithCollage(c, key, library, artist, donors, covers, now, images, writable).0;
            && (CARD, key) in after.copies
            && (if (CARD, key) in c.copies then after.copies[(CARD, key)] == c.copies[(CARD, key)]
                else images.resize(images.compose(covers).value, CARD) == Some(after.copies[(CARD, key)]))
            && key in after.manifests && after.manifests[key] == Manifest(RevisionOf(library, artist, donors), Ids(donors))
            && after.top == c.top[key := File(images.compose(covers).value, now)]
  {
    var collage := images.compose(covers).value;
    var written := c.(top := c.top[key := File(collage, now)]);
    CopiesMade(written, collage, key, images, writable, |SIZES|);
    assert SIZES[2] == CARD;
  }

  /** So the card of an earlier collage is served for the albums of now: built once and then,
      after an album changed, again, the collage is answered with the first card. */
  lemma FirstCardIsServed(c: Cache, key: string, library: string, artist: string, first: seq<Donor>, second: seq<Donor>,
                          covers: seq<Bytes>, newCovers: seq<Bytes>, now: int, images: Images, writable: string -> bool)
    requires images.Sound() && covers != [] && newCovers != [] && first != second
    requires c == Cache(map[], map[], map[]) && forall d :: d in second ==> DonorNamed(second, d.id) == Some(d)
    requires var (one, ok) := WithCollage(c, key, library, artist, first, covers, now, images, writable);
             ok && WithCollage(one, key, library, artist, second, newCovers, now, images, writable).1
    ensures var one := WithCollage(c, key, library, artist, first, covers, now, images, writable).0;
            var two := WithCollage(one, key, library, artist, second, newCovers, now, images, writable).0;
            && images.compose(covers).Some?
            && images.compose(newCovers).Some? && key in two.top && two.top[key].data == images.compose(newCovers).value
            && Served(two, key, library, artist, second) == images.resize(images.compose(covers).value, CARD)
            && Served(two, key, library, artist, second).Some?
  {
    var one := WithCollage(c, key, library, artist, first, covers, now, images, writable).0;
    var two := WithCollage(one, key, library, artist, second, newCovers, now, images, writable).0;
    CollageCard(c, key, library, artist, first, covers, now, images, writable);
    CollageCard(one, key, library, artist, second, newCovers, now, images, writable);
    CollageComplete(c, key, library, artist, first, covers, now, images, writable);
    CollageComplete(one, key, library, artist, second, newCovers, now, images, writable);
    CurrentOfThemselves(second, second);
    ServedForCurrentAlbums(two, key, library, artist, second);
  }

  /** A collage that was built is complete, over whatever copies were not empty. */
  lemma CollageComplete(c: Cache, key: string, library: string, artist: string, donors: seq<Donor>, covers: seq<Bytes>,
                        now: int, images: Images, writable: string -> bool)
    requires images.Sound() && covers != [] && WithCollage(c, key, library, artist, donors, covers, now, images, writable).1
    requires !(ReadManifest(c, key).Some? && ReadManifest(c, key).value.revision == RevisionOf(library, artist, donors))
    requires forall dir :: dir in SIZES && (dir, key) in c.copies ==> c.copies[(dir, key)] != []
    ensures Complete(WithCollage(c, key, library, artist, donors, covers, now, images, writable).0, key)
  {
    var collage := images.compose(covers).value;
    var written := c.(top := c.top[key := File(collage, now)]);
    CopiesMade(written, collage, key, images, writable, |SIZES|);
    var after := WithCopies(written, collage, key, images, writable, |SIZES|).0;
    forall dir | dir in SIZES
      ensures PresentCopy(after, dir, key)
    {
      var k :| 0 <= k < |SIZES| && SIZES[k] == dir;
    }
  }
}
