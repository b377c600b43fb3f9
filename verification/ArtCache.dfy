// The hub's artwork cache: originals, the resized copies made of them, and album artist
// collages. Fetching, resizing and composing are functions passed in; a write that fails
// leaves nothing but litter.

module ArtCache {
  import opened Wrappers

  type Bytes = seq<Byte>

  /** A file beside the size directories, and when it was written. */
  datatype File = File(data: Bytes, written: int)

  /** What a collage shows: an album, its revision and its poster. */
  datatype Donor = Donor(id: string, revision: int, poster: string)

  /** The digest of all a collage depends on, taken to be injective. */
  datatype Revision = RevisionOf(library: string, artist: string, donors: seq<Donor>)

  datatype Manifest = Manifest(revision: Revision, albums: seq<string>)

  /** The files of the cache directory, those of its size directories, and what the collage
      manifests among the former say. */
  datatype Cache = Cache(top: map<string, File>, copies: map<(string, string), Bytes>, manifests: map<string, Manifest>)

  const CARD := "size-card-480"
  const SIZES := ["size-thumb-96", "size-card1x-320", CARD]
  const MISS_TTL := 3600

  /** What resizing for a size makes of a file, and what composing makes of covers. */
  datatype Images = Images(resize: (Bytes, string) -> Option<Bytes>, compose: seq<Bytes> -> Option<Bytes>) {
    /** Nothing is no image, and no image is nothing. */
    ghost predicate Sound() {
      && (forall dir: string :: resize([], dir) == None)
      && (forall data: Bytes, dir: string :: resize(data, dir).Some? ==> resize(data, dir).value != [])
      && (forall covers: seq<Bytes> :: compose(covers).Some? ==> compose(covers).value != [])
    }
  }

  datatype Fetch = Unreachable | NoPoster | Poster(data: Bytes)

  datatype Got = Failed | Missing | Have(data: Bytes)

  predicate EndsWith(s: string, end: string) {
    |end| <= |s| && s[|s| - |end|..] == end
  }

  /** A remembered miss, or what an interrupted write left. */
  predicate Litter(name: string) {
    EndsWith(name, ".miss") || EndsWith(name, ".part")
  }

  // -------------------------------------------------------------------- readiness

  predicate Present(c: Cache, key: string) {
    key in c.top && c.top[key].data != []
  }

  predicate PresentCopy(c: Cache, dir: string, key: string) {
    (dir, key) in c.copies && c.copies[(dir, key)] != []
  }

  predicate Complete(c: Cache, key: string) {
    Present(c, key) && forall dir :: dir in SIZES ==> PresentCopy(c, dir, key)
  }

  // ------------------------------------------------------------------- operations

  predicate Remembered(c: Cache, key: string, now: int) {
    var miss := key + ".miss";
    miss in c.top && 0 <= now - c.top[miss].written < MISS_TTL
  }

  function WithPoster(c: Cache, key: string, now: int, fetched: Fetch, writable: string -> bool): (Cache, Got) {
    if key in c.top then (c, Have(c.top[key].data))
    else if Remembered(c, key, now) then (c, Missing)
    else match fetched
      case Unreachable => (c, Failed)
      case NoPoster => (if writable("") then c.(top := c.top[key + ".miss" := File([], now)]) else c, Missing)
      case Poster(data) =>
        if writable("") then (c.(top := c.top[key := File(data, now)]), Have(data)) else (c, Failed)
  }

  /** A copy that is there is served as it is. */
  function WithCopy(c: Cache, data: Bytes, key: string, dir: string, images: Images, required: bool, writable: string -> bool)
    : (Cache, Option<Bytes>)
  {
    if (dir, key) in c.copies then (c, Some(c.copies[(dir, key)]))
    else match images.resize(data, dir)
      case None => (c, None)
      case Some(small) =>
        if writable(dir) then (c.(copies := c.copies[(dir, key) := small]), Some(small))
        else (c, if required then None else Some(small))
  }

  /** The first n sizes made, or as many as could be. */
  function WithCopies(c: Cache, data: Bytes, key: string, images: Images, writable: string -> bool, n: nat): (Cache, bool)
    requires n <= |SIZES|
  {
    if n == 0 then (c, true)
    else
      var (before, ok) := WithCopies(c, data, key, images, writable, n - 1);
      if !ok then (before, false)
      else
        var (after, small) := WithCopy(before, data, key, SIZES[n - 1], images, true, writable);
        (after, small.Some?)
  }

  /** None is the source's error. */
  function Prefetched(c: Cache, key: string, now: int, fetched: Fetch, images: Images, writable: string -> bool)
    : (Cache, Option<bool>)
  {
    var (found, got) := WithPoster(c, key, now, fetched, writable);
    match got
    case Failed => (found, None)
    case Missing => (found, Some(false))
    case Have(data) =>
      var (after, ok) := WithCopies(found, data, key, images, writable, |SIZES|);
      (after, if ok then Some(true) else None)
  }

  function ReadManifest(c: Cache, key: string): Option<Manifest> {
    if key in c.manifests && Complete(c, key) then Some(c.manifests[key]) else None
  }

  function Ids(donors: seq<Donor>): seq<string> {
    seq(|donors|, i requires 0 <= i < |donors| => donors[i].id)
  }

  function WithCollage(c: Cache, key: string, library: string, artist: string, donors: seq<Donor>, covers: seq<Bytes>,
                       now: int, images: Images, writable: string -> bool): (Cache, bool)
  {
    var revision := RevisionOf(library, artist, donors);
    if covers == [] then (c, true)
    else if ReadManifest(c, key).Some? && ReadManifest(c, key).value.revision == revision then (c, true)
    else match images.compose(covers)
      case None => (c, false)
      case Some(collage) =>
        if !writable("") then (c, false)
        else
          var (after, ok) := WithCopies(c.(top := c.top[key := File(collage, now)]), collage, key, images, writable, |SIZES|);
          if !ok then (after, false)
          else (after.(manifests := after.manifests[key := Manifest(revision, Ids(donors))]), true)
  }

  function DonorNamed(available: seq<Donor>, id: string): (r: Option<Donor>)
    ensures r.Some? ==> r.value in available && r.value.id == id
    ensures r.None? ==> forall d :: d in available ==> d.id != id
  {
    if available == [] then None
    else if available[0].id == id then Some(available[0])
    else DonorNamed(available[1..], id)
  }

  /** Each album as it is now, or nothing when one is gone. */
  function Current(available: seq<Donor>, albums: seq<string>): (r: Option<seq<Donor>>)
    ensures r.Some? ==> |r.value| == |albums|
                        && forall i :: 0 <= i < |albums| ==> DonorNamed(available, albums[i]) == Some(r.value[i])
  {
    if albums == [] then Some([])
    else
      match (Current(available, albums[..|albums| - 1]), DonorNamed(available, albums[|albums| - 1]))
      case (Some(before), Some(last)) => Some(before + [last])
      case _ => None
  }

  function Served(c: Cache, key: string, library: string, artist: string, available: seq<Donor>): Option<Bytes> {
    match ReadManifest(c, key)
    case None => None
    case Some(m) =>
      match Current(available, m.albums)
      case None => None
      case Some(donors) =>
        if RevisionOf(library, artist, donors) != m.revision || (CARD, key) !in c.copies then None
        else Some(c.copies[(CARD, key)])
  }

  // ---------------------------------------------------------------------- the sweep

  predicate IsSize(dir: string) {
    |dir| >= 5 && dir[..5] == "size-" && !Litter(dir)
  }

  predicate StaleLitter(c: Cache, name: string, now: int) {
    name in c.top && Litter(name) && now - c.top[name].written > MISS_TTL
  }

  /** A copy no request can reach: of a retired size, or of an original that is gone. */
  predicate OutOfReach(c: Cache, dir: string, name: string) {
    IsSize(dir) && (dir !in SIZES || name !in c.top)
  }
}
