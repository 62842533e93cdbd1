/**
 * The broker's product cache (broker/src/resolve/cache.rs, and the older
 * src/broker/resolve/cache.rs, which differs only in asserting that added
 * paths are absolute): products stored by file path and descriptor, plus
 * the set of paths handed to the filesystem watcher.
 */
module ProductCache {
  import opened Wrappers
  import opened Text
  import opened Messages

  // ---------------------------------------------------------------------
  // Paths
  // ---------------------------------------------------------------------

  /** A `PathBuf` as its component list: whether it starts at the root, and
   *  the names after that. `PathBuf`s compare by components, so two strings
   *  that differ only in repeated or trailing '/' are the same key. */
  datatype Path = Path(absolute: bool, parts: seq<string>)

  /** The normal components of '/'-separated pieces: empty pieces and "."
   *  are not components. */
  function NormalParts(pieces: seq<string>): (r: seq<string>)
    ensures |r| <= |pieces|
    ensures forall k :: 0 <= k < |r| ==> r[k] != "" && r[k] != "."
    ensures forall k :: 0 <= k < |r| ==> r[k] in pieces
  {
    if |pieces| == 0 then []
    else (if pieces[0] == "" || pieces[0] == "." then [] else [pieces[0]]) + NormalParts(pieces[1..])
  }

  /** The components are kept in order: taking components distributes over
   *  concatenation, so a piece that is not a component is simply skipped. */
  lemma {:induction false} NormalPartsAppend(a: seq<string>, b: seq<string>)
    ensures NormalParts(a + b) == NormalParts(a) + NormalParts(b)
  {
    if |a| == 0 {
      assert a + b == b;
    } else {
      assert (a + b)[1..] == a[1..] + b;
      NormalPartsAppend(a[1..], b);
    }
  }

  /** Every piece that is a component is kept, and nothing else. */
  lemma {:induction false} NormalPartsMembers(pieces: seq<string>, x: string)
    ensures x in NormalParts(pieces) <==> x in pieces && x != "" && x != "."
  {
    if |pieces| > 0 {
      NormalPartsMembers(pieces[1..], x);
      assert x in pieces <==> x == pieces[0] || x in pieces[1..];
    }
  }

  /** Pieces that are all components are kept as they are. */
  lemma {:induction false} NormalPartsKeeps(pieces: seq<string>)
    requires forall k :: 0 <= k < |pieces| ==> pieces[k] != "" && pieces[k] != "."
    ensures NormalParts(pieces) == pieces
  {
    if |pieces| > 0 {
      NormalPartsKeeps(pieces[1..]);
    }
  }

  /** `PathBuf::from(s)`, read as components: a leading '/' makes the path
   *  absolute, and a leading "." of a relative path is kept as the current
   *  directory component. */
  function PathOf(s: string): (r: Path)
    ensures r.absolute <==> |s| > 0 && s[0] == '/'
    ensures forall k :: 0 <= k < |r.parts| ==> r.parts[k] != "" && '/' !in r.parts[k]
  {
    var pieces := Split(s, '/');
    var absolute := |s| > 0 && s[0] == '/';
    var lead := if !absolute && pieces[0] == "." then ["."] else [];
    Path(absolute, lead + NormalParts(pieces))
  }

  /** A path written out with '/' between its components, after a leading
   *  '/' when it is absolute. */
  function PathString(p: Path): string {
    (if p.absolute then "/" else "") + (if |p.parts| == 0 then "" else Join(p.parts, '/'))
  }

  /** Two strings with the same root, the same first piece and the same
   *  components give the same path. */
  lemma SamePieces(s: string, t: string)
    requires (|s| > 0 && s[0] == '/') == (|t| > 0 && t[0] == '/')
    requires Split(s, '/')[0] == Split(t, '/')[0]
    requires NormalParts(Split(s, '/')) == NormalParts(Split(t, '/'))
    ensures PathOf(s) == PathOf(t)
  {
  }

  /** The pieces of the written form of a path of names. */
  lemma PathStringPieces(p: Path)
    requires forall k :: 0 <= k < |p.parts| ==> p.parts[k] != "" && p.parts[k] != "." && '/' !in p.parts[k]
    ensures p.absolute ==> Split(PathString(p), '/') == [""] + (if |p.parts| == 0 then [""] else p.parts)
    ensures !p.absolute ==> Split(PathString(p), '/') == (if |p.parts| == 0 then [""] else p.parts)
  {
    var j := if |p.parts| == 0 then "" else Join(p.parts, '/');
    var pj := if |p.parts| == 0 then [""] else p.parts;
    assert Split(j, '/') == pj by {
      if |p.parts| > 0 { SplitJoin(p.parts, '/'); }
    }
    if p.absolute {
      assert PathString(p) == "/" + j;
      RootedPieces(j);
    } else {
      assert PathString(p) == j;
    }
  }

  /** A leading '/' adds one empty piece in front. */
  lemma RootedPieces(j: string)
    ensures Split("/" + j, '/') == [""] + Split(j, '/')
  {
    assert "/" + j == "" + ['/'] + j;
    SplitAppend("", j, '/');
  }

  /** A path whose components are names (not empty, not ".", without '/')
   *  reads back from its written form. */
  lemma PathOfPathString(p: Path)
    requires forall k :: 0 <= k < |p.parts| ==> p.parts[k] != "" && p.parts[k] != "." && '/' !in p.parts[k]
    ensures PathOf(PathString(p)) == p
  {
    var s := PathString(p);
    PathStringPieces(p);
    NormalPartsKeeps(p.parts);
    assert NormalParts([""]) == [] by {
      assert [""][1..] == [];
    }
    if p.absolute {
      NormalPartsAppend([""], if |p.parts| == 0 then [""] else p.parts);
      assert s[0] == '/';
    } else if |p.parts| > 0 {
      SplitHead(s, '/');
      assert s[0] == p.parts[0][0];
    } else {
      assert s == "";
    }
  }

  /** The pieces of `a//b` are those of `a/b` with one empty piece more. */
  lemma DoubleSlashPieces(a: string, b: string)
    ensures Split(a + "//" + b, '/') == Split(a, '/') + ([""] + Split(b, '/'))
    ensures Split(a + "/" + b, '/') == Split(a, '/') + Split(b, '/')
  {
    assert a + "//" + b == a + ['/'] + ("" + ['/'] + b);
    assert a + "/" + b == a + ['/'] + b;
    SplitAppend(a, "" + ['/'] + b, '/');
    SplitAppend("", b, '/');
    SplitAppend(a, b, '/');
  }

  /** An empty piece contributes no component. */
  lemma NormalPartsSkipsEmpty(pa: seq<string>, pb: seq<string>)
    ensures NormalParts(pa + ([""] + pb)) == NormalParts(pa + pb)
  {
    NormalPartsAppend(pa, [""] + pb);
    NormalPartsAppend([""], pb);
    NormalPartsAppend(pa, pb);
    assert NormalParts([""]) == [] by {
      assert [""][1..] == [];
    }
  }

  /** Doubling a '/' does not change the path. */
  lemma PathOfDoubleSlash(a: string, b: string)
    ensures PathOf(a + "//" + b) == PathOf(a + "/" + b)
  {
    var s, t := a + "//" + b, a + "/" + b;
    DoubleSlashPieces(a, b);
    NormalPartsSkipsEmpty(Split(a, '/'), Split(b, '/'));
    assert |a| > 0 ==> s[0] == a[0] && t[0] == a[0];
    assert |a| == 0 ==> s[0] == '/' && t[0] == '/';
    SamePieces(s, t);
  }

  /** A trailing '/' does not change a non-empty path. */
  lemma PathOfTrailingSlash(a: string)
    requires |a| > 0
    ensures PathOf(a + "/") == PathOf(a)
  {
    var s := a + "/";
    assert s == a + ['/'] + "";
    SplitAppend(a, "", '/');
    assert Split("", '/') == [""];
    NormalPartsAppend(Split(a, '/'), [""]);
    assert s[0] == a[0];
    SamePieces(s, a);
  }

  /** "a//b/" and "a/b" are the same key; "/a" and "a" are not. */
  lemma PathOfExamples()
    ensures PathOf("a//b/") == PathOf("a/b")
    ensures PathOf("/a") != PathOf("a")
  {
    PathOfDoubleSlash("a", "b/");
    assert "a" + "//" + "b/" == "a//b/";
    assert "a" + "/" + "b/" == "a/b" + "/";
    PathOfTrailingSlash("a/b");
    assert "/a"[0] == '/';
    assert "a"[0] == 'a';
  }

  /** `PathBuf::pop`: drops the last component and reports true, or, for the
   *  root or the empty path, changes nothing and reports false. */
  function Pop(p: Path): (r: (Path, bool))
    ensures r.1 <==> |p.parts| > 0
    ensures r.1 ==> r.0.absolute == p.absolute && r.0.parts + [p.parts[|p.parts| - 1]] == p.parts
    ensures !r.1 ==> r.0 == p
  {
    if |p.parts| == 0 then (p, false) else (Path(p.absolute, p.parts[..|p.parts| - 1]), true)
  }

  /** The ancestor of `p` (or `p` itself) with `k` components. */
  function Prefix(p: Path, k: nat): Path
    requires k <= |p.parts|
  {
    Path(p.absolute, p.parts[..k])
  }

  /** `p` and its ancestors with at least `k` components. */
  function Above(p: Path, k: nat): set<Path>
    requires k <= |p.parts|
  {
    set j | k <= j <= |p.parts| :: Prefix(p, j)
  }

  /** `p` and all its ancestors: what repeated `pop` visits. */
  function Lineage(p: Path): set<Path> {
    Above(p, 0)
  }

  /** The lineage of `p` is exactly the paths of the same kind whose
   *  components are a prefix of `p`'s; descendants and siblings of `p`
   *  are not in it. */
  lemma LineageIsPrefixes(p: Path, q: Path)
    ensures q in Lineage(p) <==> q.absolute == p.absolute && q.parts <= p.parts
  {
    if q.absolute == p.absolute && q.parts <= p.parts {
      assert q == Prefix(p, |q.parts|);
    }
  }

  // ---------------------------------------------------------------------
  // The stored products, as a value
  // ---------------------------------------------------------------------

  /** Products by path, then by descriptor. */
  type Store = map<Path, map<ProductDescriptor, Json>>

  /** The lookup `Cache::get` performs: a hit returns a product with the
   *  requested name, language and path string, holding the value stored
   *  under that path and descriptor. */
  function Lookup(store: Store, pi: ProductIdentifier): (r: Option<Product>)
    ensures r.Some? <==> PathOf(pi.path) in store && DescriptorOf(pi) in store[PathOf(pi.path)]
    ensures r.Some? ==> IdentifierOf(r.value) == pi && r.value.value == store[PathOf(pi.path)][DescriptorOf(pi)]
  {
    var path := PathOf(pi.path);
    if path in store && DescriptorOf(pi) in store[path] then
      Some(Product(pi.name, pi.language, pi.path, store[path][DescriptorOf(pi)]))
    else None
  }

  /** The update `Cache::add` performs. */
  function Inserted(store: Store, p: Product): Store {
    var path := PathOf(p.path);
    store[path := (if path in store then store[path] else map[])[ProductDescriptor(p.name, p.language) := p.value]]
  }

  /** After an insertion, a lookup with the product's path (as any string
   *  naming the same components), name and language finds the new value;
   *  every other lookup is unaffected. */
  lemma LookupInserted(store: Store, p: Product, pi: ProductIdentifier)
    ensures Lookup(Inserted(store, p), pi) ==
      if PathOf(pi.path) == PathOf(p.path) && DescriptorOf(pi) == ProductDescriptor(p.name, p.language)
      then Some(Product(pi.name, pi.language, pi.path, p.value))
      else Lookup(store, pi)
  {
  }

  /** After removing some paths, lookups at those paths miss and the
   *  others are unaffected. */
  lemma LookupRemoved(store: Store, paths: set<Path>, pi: ProductIdentifier)
    ensures Lookup(store - paths, pi) == if PathOf(pi.path) in paths then None else Lookup(store, pi)
  {
  }

  // ---------------------------------------------------------------------
  // The cache
  // ---------------------------------------------------------------------

  /** A call made on the filesystem watcher. */
  datatype WatchCall = Watch(path: Path) | Unwatch(path: Path)

  class Cache {
    /** Products by path, then by descriptor. */
    var products: Store
    /** The paths the watcher has been asked to watch. */
    var watching: set<Path>
    /** Every call made on the watcher, in order; whether the watcher
     *  reported an error (which is only logged) is not recorded. */
    var calls: seq<WatchCall>

    /** Exactly the paths holding products are watched. */
    ghost predicate Valid()
      reads this
    {
      watching == products.Keys
    }

    /** `Cache::new`: nothing cached, nothing watched. */
    constructor()
      ensures Valid()
      ensures products == map[] && watching == {} && calls == []
    {
      products := map[];
      watching := {};
      calls := [];
    }

    /** `Cache::get`: the lookup on the current products; it reads the
     *  cache and changes nothing. */
    function Get(pi: ProductIdentifier): (r: Option<Product>)
      reads this
      ensures r == Lookup(products, pi)
    {
      Lookup(products, pi)
    }

    /** `Cache::add` (broker/src/resolve/cache.rs): the value is stored
     *  under the product's path and descriptor, replacing what was there;
     *  everything else stays. A watch is requested only for a path not
     *  already watched. */
    method Add(p: Product)
      requires Valid()
      modifies this
      ensures Valid()
      ensures products == Inserted(old(products), p)
      ensures calls == old(calls) + (if PathOf(p.path) in old(watching) then [] else [Watch(PathOf(p.path))])
      ensures forall pi ::
                Get(pi) == if PathOf(pi.path) == PathOf(p.path) && DescriptorOf(pi) == ProductDescriptor(p.name, p.language)
                           then Some(Product(pi.name, pi.language, pi.path, p.value))
                           else old(Get(pi))
    {
      var desc := ProductDescriptor(p.name, p.language);
      var path := PathOf(p.path);
      var entry := if path in products then products[path] else map[];
      products := products[path := entry[desc := p.value]];
      if path !in watching {
        watching := watching + {path};
        calls := calls + [Watch(path)];
      }
    }

    /** `Cache::add` of src/broker/resolve/cache.rs: the same update, after
     *  asserting that the path is absolute. */
    method AddAbsolute(p: Product)
      requires Valid()
      requires PathOf(p.path).absolute
      modifies this
      ensures Valid()
      ensures products == Inserted(old(products), p)
      ensures calls == old(calls) + (if PathOf(p.path) in old(watching) then [] else [Watch(PathOf(p.path))])
      ensures forall pi ::
                Get(pi) == if PathOf(pi.path) == PathOf(p.path) && DescriptorOf(pi) == ProductDescriptor(p.name, p.language)
                           then Some(Product(pi.name, pi.language, pi.path, p.value))
                           else old(Get(pi))
    {
      Add(p);
    }

    /** `Cache::evict_by_path`: every product under the path goes, the path
     *  is no longer watched (an unwatch is requested only if it was), and
     *  other paths keep their products. */
    method EvictByPath(path: Path)
      requires Valid()
      modifies this
      ensures Valid()
      ensures products == old(products) - {path}
      ensures calls == old(calls) + (if path in old(watching) then [Unwatch(path)] else [])
      ensures forall pi :: Get(pi) == if PathOf(pi.path) == path then None else old(Get(pi))
    {
      products := products - {path};
      if path in watching {
        watching := watching - {path};
        calls := calls + [Unwatch(path)];
      }
    }
  }

  /** Adding a product and asking for it by the same path string, name and
   *  language finds exactly that product. */
  method AddThenGet(c: Cache, p: Product) returns (r: Option<Product>)
    requires c.Valid()
    modifies c
    ensures c.Valid()
    ensures r == Some(p)
  {
    c.Add(p);
    r := c.Get(IdentifierOf(p));
  }

  /** Evicting a path makes every lookup at that path miss. */
  method EvictThenGet(c: Cache, pi: ProductIdentifier) returns (r: Option<Product>)
    requires c.Valid()
    modifies c
    ensures c.Valid()
    ensures r == None
  {
    c.EvictByPath(PathOf(pi.path));
    r := c.Get(pi);
  }
}
