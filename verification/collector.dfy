/** The recursive module collector `require_all`: from the files a directory walk
    found under `root`, drop those whose base name starts with `_`, sort the rest,
    and fold them into an object keyed by the root-relative path without a
    trailing `.js` (in any letter case), whose values are the loaded modules. */
module Collector {
  import opened Text
  import opened Sorting
  import opened Entries
  import opened Wrappers

  /** `path` names a file strictly inside `root`, as the walk reports it. */
  predicate UnderRoot(root: string, path: string) {
    |path| > |root| + 1 && path[..|root|] == root && path[|root|] == '/'
  }

  /** `path.relative(root, path)` for a path inside `root`. */
  function Relative(root: string, path: string): (rel: string)
    requires UnderRoot(root, path)
    ensures path == root + "/" + rel
    ensures |rel| > 0
  {
    path[|root| + 1..]
  }

  /** `path.basename(path)`: everything after the last `/`. */
  function Basename(path: string): (b: string)
    ensures '/' !in b
    ensures |b| <= |path| && b == path[|path| - |b|..]
    ensures |b| < |path| ==> path[|path| - |b| - 1] == '/'
    decreases |path|
  {
    if |path| == 0 || path[|path| - 1] == '/' then []
    else Basename(path[..|path| - 1]) + [path[|path| - 1]]
  }

  /** The leading-underscore convention for files that are not to be loaded. */
  predicate IsPrivate(path: string) {
    var b := Basename(path);
    |b| > 0 && b[0] == '_'
  }

  /** The key a module is stored under. */
  function ModuleKey(root: string, path: string): (k: string)
    requires UnderRoot(root, path)
    ensures var rel := Relative(root, path);
      && |k| <= |rel| && k == rel[..|k|]
      && (EndsWithIgnoringCase(rel, ".js") ==> |k| + 3 == |rel|)
      && (!EndsWithIgnoringCase(rel, ".js") ==> k == rel)
  {
    StripSuffixIgnoringCase(Relative(root, path), ".js")
  }

  /** The walk's files without the private ones, in walk order. */
  function Visible(walk: seq<string>): (r: seq<string>)
    ensures forall f :: f in r <==> f in walk && !IsPrivate(f)
    decreases |walk|
  {
    if |walk| == 0 then []
    else if IsPrivate(walk[0]) then Visible(walk[1..])
    else [walk[0]] + Visible(walk[1..])
  }

  /** One `{[key]: require(path)}` entry per path, in the given order. */
  function Loaded<V>(root: string, paths: seq<string>, load: string -> V): (r: seq<Entry<V>>)
    requires forall f <- paths :: UnderRoot(root, f)
    ensures |r| == |paths|
    ensures forall i :: 0 <= i < |paths| ==> r[i] == Entry(ModuleKey(root, paths[i]), load(paths[i]))
    decreases |paths|
  {
    if |paths| == 0 then [] else [Entry(ModuleKey(root, paths[0]), load(paths[0]))] + Loaded(root, paths[1..], load)
  }

  /** The files that are loaded, in the order they are loaded. */
  function LoadOrder(walk: seq<string>): (r: seq<string>)
    ensures Sorted(r)
    ensures multiset(r) == multiset(Visible(walk))
    ensures forall f :: f in r <==> f in walk && !IsPrivate(f)
  {
    var r := Sort(Visible(walk));
    assert forall f :: f in r <==> f in multiset(r);
    r
  }

  /** `require_all(root)`, given the walk's result and the module loader. */
  function Collect<V>(root: string, walk: seq<string>, load: string -> V): seq<Entry<V>>
    requires forall f <- walk :: UnderRoot(root, f)
  {
    Fold(Loaded(root, LoadOrder(walk), load))
  }

  /** `f` is a file of the walk that the collector loads under key `k`. */
  predicate LoadsAs(root: string, walk: seq<string>, f: string, k: string)
    requires forall g <- walk :: UnderRoot(root, g)
  {
    f in walk && !IsPrivate(f) && ModuleKey(root, f) == k
  }

  /** A key is present exactly when some non-private file of the walk derives it. */
  lemma CollectKeys<V>(root: string, walk: seq<string>, load: string -> V, k: string)
    requires forall f <- walk :: UnderRoot(root, f)
    ensures k in Keys(Collect(root, walk, load)) <==> exists f :: LoadsAs(root, walk, f, k)
  {
    var sorted := LoadOrder(walk);
    var pairs := Loaded(root, sorted, load);
    FoldKeysDistinct(pairs);
    if k in Keys(pairs) {
      var i :| 0 <= i < |pairs| && Keys(pairs)[i] == k;
      assert LoadsAs(root, walk, sorted[i], k);
    }
    if exists f :: LoadsAs(root, walk, f, k) {
      var f :| LoadsAs(root, walk, f, k);
      var i :| 0 <= i < |sorted| && sorted[i] == f;
      assert Keys(pairs)[i] == k;
    }
  }

  /** Each key is stored once, in the order its first file comes in the sorted walk. */
  lemma CollectDistinct<V>(root: string, walk: seq<string>, load: string -> V)
    requires forall f <- walk :: UnderRoot(root, f)
    ensures Distinct(Keys(Collect(root, walk, load)))
    ensures Keys(Collect(root, walk, load)) == FirstOccurrences(Keys(Loaded(root, LoadOrder(walk), load)))
  {
    FoldKeys(Loaded(root, LoadOrder(walk), load));
  }

  /** On a key collision the file that sorts last wins: the stored value is the
      loaded module of a non-private file with that key that no other such file
      follows in sort order. */
  lemma CollectLastWins<V>(root: string, walk: seq<string>, load: string -> V, k: string, v: V)
    requires forall f <- walk :: UnderRoot(root, f)
    requires Lookup(Collect(root, walk, load), k) == Some(v)
    ensures exists f :: LoadsAs(root, walk, f, k) && v == load(f) &&
                       (forall g :: LoadsAs(root, walk, g, k) ==> LexLe(g, f))
  {
    var sorted := LoadOrder(walk);
    var pairs := Loaded(root, sorted, load);
    FoldHasKey(pairs, k);
    var i :| 0 <= i < |pairs| && Keys(pairs)[i] == k;
    var j := LastIndex(pairs, k, i);
    FoldLastWins(pairs, k, j);
    var f := sorted[j];
    assert v == load(f);
    assert LoadsAs(root, walk, f, k);
    LastIsGreatest(root, walk, load, k, j);
  }

  /** The file behind the last entry with key `k` follows every other file with that key. */
  lemma LastIsGreatest<V>(root: string, walk: seq<string>, load: string -> V, k: string, j: int)
    requires forall f <- walk :: UnderRoot(root, f)
    requires IsLastWithKey(Loaded(root, LoadOrder(walk), load), k, j)
    ensures forall g :: LoadsAs(root, walk, g, k) ==> LexLe(g, LoadOrder(walk)[j])
  {
    var sorted := LoadOrder(walk);
    var pairs := Loaded(root, sorted, load);
    forall g | LoadsAs(root, walk, g, k)
      ensures LexLe(g, sorted[j])
    {
      var m :| 0 <= m < |sorted| && sorted[m] == g;
      assert pairs[m].key == k;
      if m == j {
        LexLeReflexive(g);
      }
    }
  }

  /** Some entry of `pairs` at or after `i` is the last one with key `k`. */
  lemma {:induction false} LastIndex<V>(pairs: seq<Entry<V>>, k: string, i: nat) returns (j: nat)
    requires i < |pairs| && pairs[i].key == k
    ensures i <= j && IsLastWithKey(pairs, k, j)
    decreases |pairs| - i
  {
    if exists j' :: i < j' < |pairs| && pairs[j'].key == k {
      var j' :| i < j' < |pairs| && pairs[j'].key == k;
      j := LastIndex(pairs, k, j');
    } else {
      j := i;
    }
  }

  /** The result depends only on which files the walk found, not on the order it
      reported them in. */
  lemma CollectOrderIndependent<V>(root: string, a: seq<string>, b: seq<string>, load: string -> V)
    requires forall f <- a :: UnderRoot(root, f)
    requires multiset(a) == multiset(b)
    ensures forall f <- b :: UnderRoot(root, f)
    ensures Collect(root, a, load) == Collect(root, b, load)
  {
    forall f <- b ensures UnderRoot(root, f) {
      assert f in multiset(a);
    }
    VisibleMultiset(a, b);
    SortedUnique(LoadOrder(a), LoadOrder(b));
  }

  lemma VisibleMultiset(a: seq<string>, b: seq<string>)
    requires multiset(a) == multiset(b)
    ensures multiset(Visible(a)) == multiset(Visible(b))
  {
    forall f ensures multiset(Visible(a))[f] == multiset(Visible(b))[f] {
      VisibleCount(a, f);
      VisibleCount(b, f);
    }
  }

  /** Filtering keeps every non-private file as often as the walk reported it. */
  lemma {:induction false} VisibleCount(a: seq<string>, f: string)
    ensures multiset(Visible(a))[f] == if IsPrivate(f) then 0 else multiset(a)[f]
    decreases |a|
  {
    if |a| > 0 {
      VisibleCount(a[1..], f);
      assert a == [a[0]] + a[1..];
      assert multiset(a) == multiset{a[0]} + multiset(a[1..]);
      if IsPrivate(a[0]) {
        assert Visible(a) == Visible(a[1..]);
      } else {
        assert Visible(a) == [a[0]] + Visible(a[1..]);
        assert multiset(Visible(a)) == multiset{a[0]} + multiset(Visible(a[1..]));
      }
    }
  }

  /** The base name of `dir/name` is `name`, whatever `dir` is. */
  lemma {:induction false} BasenameOfJoin(dir: string, name: string)
    requires '/' !in name
    ensures Basename(dir + "/" + name) == name
    decreases |name|
  {
    if |name| > 0 {
      var init := name[..|name| - 1];
      assert (dir + "/" + name)[..|dir + "/" + name| - 1] == dir + "/" + init;
      BasenameOfJoin(dir, init);
      assert init + [name[|name| - 1]] == name;
    }
  }

  /** Only the file's own name decides whether it is private: a file under a
      directory whose name starts with `_` is loaded unless its own name starts
      with `_` too. */
  lemma PrivateByOwnName(dir: string, name: string)
    requires '/' !in name
    ensures IsPrivate(dir + "/" + name) <==> |name| > 0 && name[0] == '_'
  {
    BasenameOfJoin(dir, name);
  }

  /** Adding a private file to the walk changes nothing. */
  lemma PrivateFileIgnored<V>(root: string, walk: seq<string>, f: string, load: string -> V)
    requires forall g <- walk :: UnderRoot(root, g)
    requires UnderRoot(root, f) && IsPrivate(f)
    ensures forall g <- walk + [f] :: UnderRoot(root, g)
    ensures Collect(root, walk + [f], load) == Collect(root, walk, load)
  {
    LoadOrderIgnoresPrivate(walk, f);
  }

  lemma LoadOrderIgnoresPrivate(walk: seq<string>, f: string)
    requires IsPrivate(f)
    ensures LoadOrder(walk + [f]) == LoadOrder(walk)
  {
    forall g ensures multiset(Visible(walk + [f]))[g] == multiset(Visible(walk))[g] {
      VisibleCount(walk + [f], g);
      VisibleCount(walk, g);
    }
    assert multiset(Visible(walk + [f])) == multiset(Visible(walk));
    SortedUnique(LoadOrder(walk + [f]), LoadOrder(walk));
  }

  /** The key drops exactly one trailing `.js`, in any letter case. */
  lemma ModuleKeyStripsJs(root: string, rel: string, ext: string)
    requires |rel| > 0
    requires SameIgnoringCase(ext, ".js")
    ensures UnderRoot(root, root + "/" + rel + ext)
    ensures ModuleKey(root, root + "/" + rel + ext) == rel
  {
    var path := root + "/" + rel + ext;
    assert path[..|root|] == root;
    assert path[|root| + 1..] == rel + ext;
    StripSuffixRoundTrip(rel, ext, ".js");
  }

  /** A file whose name does not end in `.js` (in any case), such as `data.json`,
      keeps its whole relative path as its key. */
  lemma ModuleKeyKeepsOtherExtensions(root: string, rel: string)
    requires |rel| > 0 && Lower(rel[|rel| - 1]) != 's'
    ensures UnderRoot(root, root + "/" + rel)
    ensures ModuleKey(root, root + "/" + rel) == rel
  {
    var path := root + "/" + rel;
    assert path[..|root|] == root;
    assert path[|root| + 1..] == rel;
    StripSuffixKeepsOtherEndings(rel, ".js");
  }
}
