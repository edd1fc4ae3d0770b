/**
  Grafting on plain tries: the subtrie found at one prefix is put under another
  prefix of a destination trie.
 */
module CopyTrie {
  import opened Options
  import opened YellowPaper
  import opened MerkleCompute
  import opened TrieLookup

  // ---- lookups as a function of the key ----

  /** The value stored under `key`. */
  function Get(t: Trie, key: Nibbles): Option<Bytes>
    decreases |key|
  {
    if !(t.path <= key) then None
    else if |key| == |t.path| then t.value
    else
      match KidAt(t.kids, key[|t.path|])
      case None => None
      case Some(kid) => Get(kid, key[|t.path| + 1..])
  }

  /** It is the value of the node a lookup finds. */
  lemma {:induction false} GetIsLocate(t: Trie, key: Nibbles)
    ensures
      var r := Locate(t, 0, key);
      r.Found? && Get(t, key) == if r.code == Success then r.node.value else None
    decreases |key|
  {
    LocateFound(t, 0, key);
    assert t.path[0..] == t.path;
    if t.path <= key {
      LocateStep(t, 0, key);
      var rest := key[|t.path|..];
      if rest != [] && KidAt(t.kids, rest[0]).Some? {
        assert rest[1..] == key[|t.path| + 1..];
        GetIsLocate(KidAt(t.kids, rest[0]).value, rest[1..]);
      }
    } else {
      LocateStays(t, 0, key);
    }
  }

  /** And so the value in the map the trie holds. */
  lemma GetIsEntry(t: Trie, key: Nibbles)
    requires Ordered(t.kids, 0)
    ensures key in Entries(t, []) <==> Get(t, key).Some?
    ensures key in Entries(t, []) ==> Get(t, key) == Some(Entries(t, [])[key])
  {
    assert [] + key == key;
    GetIsLocate(t, key);
    LookupIsMap(t, [], key);
  }

  // ---- grafting on plain tries ----

  /** Length of the longest common prefix. */
  function Common(a: Nibbles, b: Nibbles): (n: nat)
    ensures n <= |a| && n <= |b| && a[..n] == b[..n] && (n < |a| && n < |b| ==> a[n] != b[n])
  {
    if a == [] || b == [] || a[0] != b[0] then 0 else CommonTails(a, b); 1 + Common(a[1..], b[1..])
  }

  lemma CommonTails(a: Nibbles, b: Nibbles)
    requires a != [] && b != [] && a[0] == b[0]
    ensures forall n :: 0 <= n <= |a[1..]| && n <= |b[1..]| && a[1..][..n] == b[1..][..n] ==> a[..n + 1] == b[..n + 1]
  {
    forall n | 0 <= n <= |a[1..]| && n <= |b[1..]| && a[1..][..n] == b[1..][..n]
      ensures a[..n + 1] == b[..n + 1]
    {
      assert a[..n + 1] == [a[0]] + a[1..][..n] && b[..n + 1] == [b[0]] + b[1..][..n];
    }
  }

  /** A child added at branch `n`, in branch order. */
  function AddKid(kids: KidList, n: nat, t: Trie): KidList {
    if kids.NoKids? || n <= kids.branch then Kid(n, t, kids) else Kid(kids.branch, kids.sub, AddKid(kids.rest, n, t))
  }

  /** The child at branch `n` replaced. */
  function ReplaceKid(kids: KidList, n: nat, t: Trie): KidList {
    if kids.NoKids? then NoKids
    else if kids.branch == n then Kid(n, t, kids.rest)
    else Kid(kids.branch, kids.sub, ReplaceKid(kids.rest, n, t))
  }

  /** `make_node(src_node, path, ...)`: the source node under another path. */
  function Repathed(src: Trie, path: Nibbles): Trie {
    Trie(path, src.value, src.kids)
  }

  /** The first `n` nibbles of the path with two children: the graft and the rest of the node. */
  function Split(t: Trie, n: nat, key: Nibbles, src: Trie): Trie
    requires n < |t.path| && n < |key|
  {
    Trie(t.path[..n], None,
         AddKid(AddKid(NoKids, key[n], Repathed(src, key[n + 1..])), t.path[n], Repathed(t, t.path[n + 1..])))
  }

  /** The trie with the subtrie of `src` under `key`; none if `key` ends inside a node's path. */
  function Graft(t: Trie, key: Nibbles, src: Trie): Option<Trie>
    decreases |key|
  {
    var n := Common(t.path, key);
    if n < |t.path| then (if n < |key| then Some(Split(t, n, key, src)) else None)
    else if |key| == n then Some(Repathed(src, t.path))
    else
      match KidAt(t.kids, key[n])
      case None => Some(t.(kids := AddKid(t.kids, key[n], Repathed(src, key[n + 1..]))))
      case Some(kid) =>
        match Graft(kid, key[n + 1..], src)
        case None => None
        case Some(kid') => Some(t.(kids := ReplaceKid(t.kids, key[n], kid')))
  }

  lemma {:induction false} KidAtAdded(kids: KidList, lo: nat, n: nat, t: Trie, m: nat)
    requires Ordered(kids, lo)
    ensures KidAt(AddKid(kids, n, t), m) == if m == n then Some(t) else KidAt(kids, m)
    decreases kids
  {
    if kids.Kid? {
      KidAtAdded(kids.rest, kids.branch + 1, n, t, m);
    }
  }

  lemma {:induction false} KidAtReplaced(kids: KidList, n: nat, t: Trie, m: nat)
    requires KidAt(kids, n).Some?
    ensures KidAt(ReplaceKid(kids, n, t), m) == if m == n then Some(t) else KidAt(kids, m)
    decreases kids
  {
    if kids.branch != n {
      KidAtReplaced(kids.rest, n, t, m);
    }
  }

  lemma {:induction false} AddedOrdered(kids: KidList, lo: nat, n: nat, t: Trie)
    requires Ordered(kids, lo) && Ordered(t.kids, 0) && lo <= n < 16 && KidAt(kids, n).None?
    ensures Ordered(AddKid(kids, n, t), lo)
    decreases kids
  {
    if kids.Kid? && kids.branch < n {
      AddedOrdered(kids.rest, kids.branch + 1, n, t);
    }
  }

  lemma {:induction false} ReplacedOrdered(kids: KidList, lo: nat, n: nat, t: Trie)
    requires Ordered(kids, lo) && Ordered(t.kids, 0)
    ensures Ordered(ReplaceKid(kids, n, t), lo)
    decreases kids
  {
    if kids.Kid? {
      ReplacedOrdered(kids.rest, kids.branch + 1, n, t);
    }
  }

  /** A lookup in a node under another path. */
  lemma RepathedGet(src: Trie, path: Nibbles, key: Nibbles)
    ensures Get(Repathed(src, path), key) == if path <= key then Get(Repathed(src, []), key[|path|..]) else None
  {
    if path <= key {
      var rest := key[|path|..];
      assert |key| > |path| ==> rest[0] == key[|path|] && rest[1..] == key[|path| + 1..];
    }
  }

  lemma SplitKids(t: Trie, n: nat, key: Nibbles, src: Trie, m: nat)
    requires n < |t.path| && n < |key| && t.path[n] != key[n] && key[n] < 16
    requires Ordered(src.kids, 0)
    ensures KidAt(Split(t, n, key, src).kids, m) ==
            if m == t.path[n] then Some(Repathed(t, t.path[n + 1..]))
            else if m == key[n] then Some(Repathed(src, key[n + 1..])) else None
  {
    var one := AddKid(NoKids, key[n], Repathed(src, key[n + 1..]));
    AddedOrdered(NoKids, 0, key[n], Repathed(src, key[n + 1..]));
    KidAtAdded(NoKids, 0, key[n], Repathed(src, key[n + 1..]), m);
    KidAtAdded(one, 0, t.path[n], Repathed(t, t.path[n + 1..]), m);
  }

  ghost predicate IsKey(key: Nibbles) {
    forall i :: 0 <= i < |key| ==> key[i] < 16
  }

  /** What the graft promises for one key. */
  ghost predicate Grafted(t: Trie, key: Nibbles, src: Trie, t': Trie, k: Nibbles) {
    Get(t', k) == if key <= k then Get(Repathed(src, []), k[|key|..]) else Get(t, k)
  }

  /** A prefix, split at one of its nibbles. */
  lemma PrefixAt(a: Nibbles, n: nat, k: Nibbles)
    requires n < |a|
    ensures a <= k <==> n < |k| && a[..n] == k[..n] && a[n] == k[n] && a[n + 1..] <= k[n + 1..]
  {
    assert a == a[..n] + [a[n]] + a[n + 1..];
    if n < |k| {
      assert k == k[..n] + [k[n]] + k[n + 1..];
    }
    if a <= k {
      assert a[n + 1..] == k[n + 1..|a|] && a[..n] == k[..n];
    }
  }

  lemma SplitGrafts(t: Trie, n: nat, key: Nibbles, src: Trie, k: Nibbles)
    requires n < |t.path| && n < |key| && t.path[..n] == key[..n] && t.path[n] != key[n] && key[n] < 16
    requires Ordered(src.kids, 0)
    ensures Grafted(t, key, src, Split(t, n, key, src), k)
  {
    var s := Split(t, n, key, src);
    PrefixAt(t.path, n, k);
    PrefixAt(key, n, k);
    if t.path[..n] <= k && n < |k| {
      var rest := k[n + 1..];
      assert k[..n] == t.path[..n];
      SplitKids(t, n, key, src, k[n]);
      RepathedGet(t, t.path[n + 1..], rest);
      RepathedGet(src, key[n + 1..], rest);
      if t.path <= k {
        assert rest[|t.path| - n - 1..] == k[|t.path|..];
        RepathedGet(t, t.path, k);
        assert Repathed(t, t.path) == t;
      }
      if key <= k {
        assert rest[|key| - n - 1..] == k[|key|..];
      }
    }
  }

  /** The same for a child that may not have been there. */
  ghost predicate KidGrafted(was: Option<Trie>, key: Nibbles, src: Trie, kid': Trie, k: Nibbles) {
    Get(kid', k) ==
    if key <= k then Get(Repathed(src, []), k[|key|..]) else if was.Some? then Get(was.value, k)
    else None
  }

  /** Replacing or adding the child at `key[|path|]`. */
  lemma KidGrafts(t: Trie, key: Nibbles, src: Trie, kids': KidList, kid': Trie, k: Nibbles)
    requires t.path < key
    requires |t.path| < |k| ==>
      KidAt(kids', k[|t.path|]) == if k[|t.path|] == key[|t.path|] then Some(kid') else KidAt(t.kids, k[|t.path|])
    requires |t.path| < |k| ==> KidGrafted(KidAt(t.kids, key[|t.path|]), key[|t.path| + 1..], src, kid',
                                           k[|t.path| + 1..])
    ensures Grafted(t, key, src, t.(kids := kids'), k)
  {
    var n := |t.path|;
    PrefixAt(key, n, k);
    if t.path <= k && n < |k| {
      assert key[..n] == t.path && k[..n] == t.path;
      if key <= k {
        assert k[n + 1..][|key| - n - 1..] == k[|key|..];
      }
    }
  }

  /** A new branch for the source. */
  lemma AddedGrafts(t: Trie, key: Nibbles, src: Trie, k: Nibbles)
    requires Ordered(t.kids, 0) && Ordered(src.kids, 0) && IsKey(key) && t.path < key &&
             KidAt(t.kids, key[|t.path|]).None?
    ensures
      var n := |t.path|;
      Grafted(t, key, src, t.(kids := AddKid(t.kids, key[n], Repathed(src, key[n + 1..]))), k)
  {
    var n := |t.path|;
    var kid' := Repathed(src, key[n + 1..]);
    RepathedGet(src, key[n + 1..], if n < |k| then k[n + 1..] else []);
    if n < |k| { KidAtAdded(t.kids, 0, key[n], kid', k[n]); }
    KidGrafts(t, key, src, AddKid(t.kids, key[n], kid'), kid', k);
  }

  /**
    Under the destination prefix the grafted trie holds exactly the source
    subtrie, everywhere else exactly what it held before.
   */
  lemma {:induction false} GraftIsReplacement(t: Trie, key: Nibbles, src: Trie, k: Nibbles)
    requires Ordered(t.kids, 0) && Ordered(src.kids, 0) && IsKey(key) && Graft(t, key, src).Some?
    ensures Grafted(t, key, src, Graft(t, key, src).value, k)
    decreases |key|
  {
    var n := Common(t.path, key);
    if n < |t.path| {
      SplitGrafts(t, n, key, src, k);
    } else if |key| == n {
      assert t.path == key;
      RepathedGet(src, t.path, k);
    } else {
      assert key[..n] == t.path && t.path < key;
      var rest, was := key[n + 1..], KidAt(t.kids, key[n]);
      var j := if n < |k| then k[n + 1..] else [];
      if was.Some? {
        KidOrdered(t.kids, 0, key[n]);
        var kid' := Graft(was.value, rest, src).value;
        GraftIsReplacement(was.value, rest, src, j);
        if n < |k| { KidAtReplaced(t.kids, key[n], kid', k[n]); }
        KidGrafts(t, key, src, ReplaceKid(t.kids, key[n], kid'), kid', k);
      } else {
        AddedGrafts(t, key, src, k);
      }
    }
  }

  /** All paths are made of nibbles. */
  ghost predicate NibblePaths(kids: KidList) {
    kids.Kid? ==> IsKey(kids.sub.path) && NibblePaths(kids.sub.kids) && NibblePaths(kids.rest)
  }

  lemma {:induction false} KidNibblePath(kids: KidList, n: nat)
    requires NibblePaths(kids) && KidAt(kids, n).Some?
    ensures IsKey(KidAt(kids, n).value.path) && NibblePaths(KidAt(kids, n).value.kids)
  {
    if kids.branch != n {
      KidNibblePath(kids.rest, n);
    }
  }

  /** The graft keeps the children in order. */
  lemma {:induction false} GraftOrdered(t: Trie, key: Nibbles, src: Trie)
    requires Ordered(t.kids, 0) && Ordered(src.kids, 0) && IsKey(key) && Graft(t, key, src).Some?
    requires IsKey(t.path) && NibblePaths(t.kids)
    ensures Ordered(Graft(t, key, src).value.kids, 0)
    decreases |key|
  {
    var n := Common(t.path, key);
    if n < |t.path| {
      var one := Repathed(src, key[n + 1..]);
      AddedOrdered(NoKids, 0, key[n], one);
      KidAtAdded(NoKids, 0, key[n], one, t.path[n]);
      AddedOrdered(AddKid(NoKids, key[n], one), 0, t.path[n], Repathed(t, t.path[n + 1..]));
    } else if n < |key| {
      var rest, was := key[n + 1..], KidAt(t.kids, key[n]);
      if was.Some? {
        KidOrdered(t.kids, 0, key[n]);
        KidNibblePath(t.kids, key[n]);
        GraftOrdered(was.value, rest, src);
        ReplacedOrdered(t.kids, 0, key[n], Graft(was.value, rest, src).value);
      } else {
        AddedOrdered(t.kids, 0, key[n], Repathed(src, rest));
      }
    }
  }

  /** The destination is refused exactly when the prefix ends inside the path of some node on its way. */
  ghost predicate EndsInside(t: Trie, key: Nibbles)
    decreases |key|
  {
    if key < t.path then true
    else t.path < key && KidAt(t.kids, key[|t.path|]).Some? &&
         EndsInside(KidAt(t.kids, key[|t.path|]).value, key[|t.path| + 1..])
  }

  lemma {:induction false} GraftRefusedIff(t: Trie, key: Nibbles, src: Trie)
    ensures Graft(t, key, src).None? <==> EndsInside(t, key)
    decreases |key|
  {
    var n := Common(t.path, key);
    assert n == |t.path| ==> key[..n] == t.path;
    assert n == |key| ==> t.path[..n] == key;
    if n == |t.path| && n < |key| && KidAt(t.kids, key[n]).Some? {
      GraftRefusedIff(KidAt(t.kids, key[n]).value, key[n + 1..], src);
    }
  }
}
