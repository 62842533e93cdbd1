/**
 * The filesystem watcher's side of the cache (src/broker/resolve/watcher.rs):
 * evicting a changed path together with all its ancestors, and draining the
 * pending change events.
 */
module CacheWatcher {
  import opened Wrappers
  import opened Messages
  import opened ProductCache

  /** The unwatch calls made while evicting the ancestors of `p` with `k`
   *  components or more, longest first, given the paths watched before. */
  function UnwatchCalls(p: Path, k: nat, w: set<Path>): seq<WatchCall>
    requires k <= |p.parts|
    decreases |p.parts| - k
  {
    var here := if Prefix(p, k) in w then [Unwatch(Prefix(p, k))] else [];
    if k == |p.parts| then here else UnwatchCalls(p, k + 1, w) + here
  }

  /** Every call made while evicting a lineage is an unwatch of a path of
   *  that lineage that was watched. */
  lemma {:induction false} UnwatchCallsWatched(p: Path, k: nat, w: set<Path>)
    requires k <= |p.parts|
    ensures forall i :: 0 <= i < |UnwatchCalls(p, k, w)| ==>
      UnwatchCalls(p, k, w)[i].Unwatch? && UnwatchCalls(p, k, w)[i].path in w * Above(p, k)
    decreases |p.parts| - k
  {
    if k < |p.parts| {
      UnwatchCallsWatched(p, k + 1, w);
    }
  }

  /** One step of the walk up: the paths above `k` are those above `k + 1`
   *  and the ancestor with `k` components, which is not among them. */
  lemma AboveStep(p: Path, k: nat)
    requires k < |p.parts|
    ensures Above(p, k) == Above(p, k + 1) + {Prefix(p, k)}
    ensures Prefix(p, k) !in Above(p, k + 1)
  {
    forall q | q in Above(p, k + 1) ensures |q.parts| > k { }
  }

  /** One step of the unwatch calls: the ancestors above come first, then
   *  the ancestor with `k` components when it was watched. */
  lemma UnwatchCallsStep(p: Path, k: nat, w: set<Path>)
    requires k < |p.parts|
    ensures UnwatchCalls(p, k, w) ==
      UnwatchCalls(p, k + 1, w) + (if Prefix(p, k) in w then [Unwatch(Prefix(p, k))] else [])
  {
  }

  /** Appending to a log in two steps appends both parts. */
  lemma CallsAppend(a: seq<WatchCall>, b: seq<WatchCall>, c: seq<WatchCall>)
    ensures (a + b) + c == a + (b + c)
  {
  }

  /** Removing keys one set after another removes their union. */
  lemma RemoveKeysStep<K, V>(m: map<K, V>, a: set<K>, x: K)
    ensures (m - a) - {x} == m - (a + {x})
  {
  }

  /** Popping the ancestor with `k + 1` components gives the one with `k`. */
  lemma PopPrefix(p: Path, k: nat)
    requires k < |p.parts|
    ensures Pop(Prefix(p, k + 1)) == (Prefix(p, k), true)
  {
    assert p.parts[..k + 1][..k] == p.parts[..k];
  }

  /** `recursive_evict`: evicts `path`, then pops it one component at a
   *  time and evicts each ancestor, until `pop` fails. Exactly the lineage
   *  of `path` leaves the cache; descendants and siblings stay. */
  method RecursiveEvict(cache: Cache, path: Path)
    requires cache.Valid()
    modifies cache
    ensures cache.Valid()
    ensures cache.products == old(cache.products) - Lineage(path)
    ensures cache.calls == old(cache.calls) + UnwatchCalls(path, 0, old(cache.watching))
  {
    ghost var w0 := cache.watching;
    ghost var m0 := cache.products;
    var p := path;
    cache.EvictByPath(p);
    assert path.parts[..|path.parts|] == path.parts;
    assert Above(path, |path.parts|) == {path} by {
      assert Prefix(path, |path.parts|) == path;
    }
    var next := Pop(p);
    while next.1
      invariant cache.Valid()
      invariant |p.parts| <= |path.parts| && p == Prefix(path, |p.parts|)
      invariant next == Pop(p)
      invariant cache.products == m0 - Above(path, |p.parts|)
      invariant cache.calls == old(cache.calls) + UnwatchCalls(path, |p.parts|, w0)
      decreases |p.parts|
    {
      var k := |p.parts| - 1;
      PopPrefix(path, k);
      AboveStep(path, k);
      RemoveKeysStep(m0, Above(path, k + 1), Prefix(path, k));
      p := next.0;
      assert p in w0 <==> p in cache.watching;
      UnwatchCallsStep(path, k, w0);
      CallsAppend(old(cache.calls), UnwatchCalls(path, k + 1, w0),
        if p in w0 then [Unwatch(p)] else []);
      cache.EvictByPath(p);
      next := Pop(p);
    }
  }

  /** After a change to `path`, a lookup at `path` or at any of its
   *  ancestors misses, and a lookup anywhere else (a descendant or a
   *  sibling included) finds what it found before. */
  method RecursiveEvictThenGet(cache: Cache, path: Path, pi: ProductIdentifier) returns (r: Option<Product>)
    requires cache.Valid()
    modifies cache
    ensures cache.Valid()
    ensures r == if PathOf(pi.path) in Lineage(path) then None else old(cache.Get(pi))
  {
    RecursiveEvict(cache, path);
    r := cache.Get(pi);
  }

  /** A filesystem change event, as the debouncing watcher reports it. */
  datatype FsEvent =
    | NoticeWrite(path: Path)
    | NoticeRemove(path: Path)
    | Create(path: Path)
    | Write(path: Path)
    | Chmod(path: Path)
    | Remove(path: Path)
    | Rename(from: Path, to: Path)
    | Rescan
    | WatchError(message: string, errorPath: Option<Path>)

  /** The path an event makes `poll` evict, if any: a rename evicts its
   *  source, a rescan nothing, an error only the path it carries. */
  function EvictedPath(e: FsEvent): (r: Option<Path>)
    ensures r.None? <==> e.Rescan? || (e.WatchError? && e.errorPath.None?)
    ensures e.Rename? ==> r == Some(e.from)
    ensures e.WatchError? ==> r == e.errorPath
    ensures r.Some? && !e.Rename? && !e.WatchError? ==> r == Some(e.path)
  {
    match e
    case NoticeWrite(p) => Some(p)
    case NoticeRemove(p) => Some(p)
    case Create(p) => Some(p)
    case Write(p) => Some(p)
    case Chmod(p) => Some(p)
    case Remove(p) => Some(p)
    case Rename(from, _) => Some(from)
    case Rescan => None
    case WatchError(_, p) => p
  }

  /** The paths a sequence of events evicts. */
  function EvictedBy(events: seq<FsEvent>): set<Path> {
    if |events| == 0 then {}
    else
      var last := events[|events| - 1];
      EvictedBy(events[..|events| - 1]) +
        (match EvictedPath(last) case Some(p) => Lineage(p) case None => {})
  }

  /** A path is evicted by some events exactly when one of them evicts a
   *  descendant of it (or the path itself). */
  lemma {:induction false} EvictedByIff(events: seq<FsEvent>, q: Path)
    ensures q in EvictedBy(events) <==>
      exists i :: 0 <= i < |events| && EvictedPath(events[i]).Some? && q in Lineage(EvictedPath(events[i]).value)
  {
    if |events| > 0 {
      var n := |events| - 1;
      EvictedByIff(events[..n], q);
      if q in EvictedBy(events[..n]) {
        var i :| 0 <= i < n && EvictedPath(events[..n][i]).Some? && q in Lineage(EvictedPath(events[..n][i]).value);
        assert events[i] == events[..n][i];
      }
      if exists i :: 0 <= i < |events| && EvictedPath(events[i]).Some? && q in Lineage(EvictedPath(events[i]).value) {
        var i :| 0 <= i < |events| && EvictedPath(events[i]).Some? && q in Lineage(EvictedPath(events[i]).value);
        if i < n {
          assert events[..n][i] == events[i];
        }
      }
    }
  }

  /** The watcher calls made while handling some events, given the paths
   *  watched before the first one. */
  function PollCalls(events: seq<FsEvent>, w: set<Path>): seq<WatchCall> {
    if |events| == 0 then []
    else
      var n := |events| - 1;
      PollCalls(events[..n], w) +
        (match EvictedPath(events[n])
         case Some(p) => UnwatchCalls(p, 0, w - EvictedBy(events[..n]))
         case None => [])
  }

  /** `poll`'s answer: the future never completes. */
  datatype Async = Ready | NotReady

  /** `Watcher::poll`: handles every pending event in order, evicting the
   *  path each one names together with its ancestors, and reports that it
   *  is not ready. */
  method Poll(cache: Cache, events: seq<FsEvent>) returns (r: Async)
    requires cache.Valid()
    modifies cache
    ensures r == NotReady
    ensures cache.Valid()
    ensures cache.products == old(cache.products) - EvictedBy(events)
    ensures cache.calls == old(cache.calls) + PollCalls(events, old(cache.watching))
  {
    ghost var w0 := cache.watching;
    var i := 0;
    while i < |events|
      invariant 0 <= i <= |events|
      invariant cache.Valid()
      invariant cache.products == old(cache.products) - EvictedBy(events[..i])
      invariant cache.calls == old(cache.calls) + PollCalls(events[..i], w0)
    {
      assert events[..i + 1][..i] == events[..i];
      var target := EvictedPath(events[i]);
      if target.Some? {
        RecursiveEvict(cache, target.value);
      }
      i := i + 1;
    }
    assert events[..|events|] == events;
    r := NotReady;
  }
}
