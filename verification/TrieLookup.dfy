/**
  The three lookups: blocking, on a fiber, and as a self re-entering sender.
  With every node at hand they return the same result, and it is the lookup of
  the map the trie holds.
 */
module TrieLookup {
  import opened Options
  import opened YellowPaper
  import opened MerkleCompute

  datatype Code =
    | Success
    | RootIsNull
    | KeyMismatch
    | BranchNotExist
    | KeyEndsEarlier

  /** Result code, and the node and position in its path where the lookup stopped. */
  datatype Found = NotStarted(code: Code) | Found(code: Code, node: Trie, index: nat)

  datatype Cursor = NoCursor | Cursor(node: Trie, index: nat)

  ghost predicate ValidCursor(c: Cursor) {
    c.Cursor? ==> c.index <= |c.node.path|
  }

  /** One nibble at a time. */
  function Locate(t: Trie, i: nat, key: Nibbles): Found
    requires i <= |t.path|
    decreases |key|
  {
    if key == [] then Found(if i == |t.path| then Success else KeyEndsEarlier, t, i)
    else if i < |t.path| then
      if key[0] != t.path[i] then Found(KeyMismatch, t, i) else Locate(t, i + 1, key[1..])
    else
      match KidAt(t.kids, key[0])
      case None => Found(BranchNotExist, t, i)
      case Some(kid) => Locate(kid, 0, key[1..])
  }

  function LocateFrom(c: Cursor, key: Nibbles): Found
    requires ValidCursor(c)
  {
    if c.NoCursor? then NotStarted(RootIsNull) else Locate(c.node, c.index, key)
  }

  /** `find_blocking`. */
  method FindBlocking(root: Cursor, key: Nibbles) returns (r: Found)
    requires ValidCursor(root)
    ensures r == LocateFrom(root, key)
  {
    if root.NoCursor? {
      return NotStarted(RootIsNull);
    }
    var node := root.node;
    var nodeIndex: nat, index: nat := root.index, 0;
    assert key[0..] == key;
    while index < |key|
      invariant index <= |key| && nodeIndex <= |node.path|
      invariant Locate(node, nodeIndex, key[index..]) == Locate(root.node, root.index, key)
      decreases |key| - index
    {
      var nibble := key[index];
      assert key[index..][1..] == key[index + 1..];
      if |node.path| == nodeIndex {
        var kid := KidAt(node.kids, nibble);
        if kid.None? {
          return Found(BranchNotExist, node, nodeIndex);
        }
        node, nodeIndex, index := kid.value, 0, index + 1;
      } else {
        if nibble != node.path[nodeIndex] {
          return Found(KeyMismatch, node, nodeIndex);
        }
        index, nodeIndex := index + 1, nodeIndex + 1;
      }
    }
    if nodeIndex != |node.path| {
      return Found(KeyEndsEarlier, node, nodeIndex);
    }
    return Found(Success, node, nodeIndex);
  }

  /** Compare a node's path with the key, as the fiber and sender lookups do. */
  method MatchPath(t: Trie, i: nat, key: Nibbles) returns (index: nat, nodeIndex: nat, code: Code)
    requires i <= |t.path|
    ensures nodeIndex == i + index <= |t.path| && index <= |key|
    ensures code == Success ==> nodeIndex == |t.path| && Locate(t, i, key) == Locate(t, nodeIndex, key[index..])
    ensures code != Success ==> Locate(t, i, key) == Found(code, t, nodeIndex)
  {
    index, nodeIndex := 0, i;
    assert key[0..] == key;
    while nodeIndex < |t.path|
      invariant nodeIndex == i + index <= |t.path| && index <= |key|
      invariant Locate(t, nodeIndex, key[index..]) == Locate(t, i, key)
      decreases |t.path| - nodeIndex
    {
      if index >= |key| {
        return index, nodeIndex, KeyEndsEarlier;
      }
      if key[index] != t.path[nodeIndex] {
        return index, nodeIndex, KeyMismatch;
      }
      assert key[index..][1..] == key[index + 1..];
      nodeIndex, index := nodeIndex + 1, index + 1;
    }
    code := Success;
  }

  /** `find_notify_fiber_future`: the descent is recursive. */
  method FindFiber(root: Cursor, key: Nibbles) returns (r: Found)
    requires ValidCursor(root)
    ensures r == LocateFrom(root, key)
    decreases |key|
  {
    if root.NoCursor? {
      return NotStarted(RootIsNull);
    }
    var node := root.node;
    var index, nodeIndex, code := MatchPath(node, root.index, key);
    if code != Success {
      return Found(code, node, nodeIndex);
    }
    if index == |key| {
      return Found(Success, node, nodeIndex);
    }
    var kid := KidAt(node.kids, key[index]);
    if kid.None? {
      return Found(BranchNotExist, node, nodeIndex);
    }
    assert key[index..][1..] == key[index + 1..];
    r := FindFiber(Cursor(kid.value, 0), key[index + 1..]);
  }

  /** `find_request_sender`: the initiation re-enters itself with the rest of the key. */
  method FindSender(root: Cursor, key: Nibbles) returns (r: Found)
    requires ValidCursor(root) && root.Cursor?
    ensures r == LocateFrom(root, key)
  {
    var at, rest := root, key;
    while true
      invariant ValidCursor(at) && at.Cursor? && LocateFrom(at, rest) == LocateFrom(root, key)
      decreases |rest|
    {
      var index, nodeIndex, code := MatchPath(at.node, at.index, rest);
      if code != Success {
        return Found(code, at.node, nodeIndex);
      }
      if index == |rest| {
        return Found(Success, at.node, nodeIndex);
      }
      var kid := KidAt(at.node.kids, rest[index]);
      if kid.None? {
        return Found(BranchNotExist, at.node, nodeIndex);
      }
      assert rest[index..][1..] == rest[index + 1..];
      at, rest := Cursor(kid.value, 0), rest[index + 1..];
    }
  }

  // ---- what success means ----

  /** `key` spells the rest of the path of `t`, then branches and paths down to the end of `n`. */
  ghost predicate Spells(t: Trie, i: nat, key: Nibbles, n: Trie)
    requires i <= |t.path|
    decreases |key|
  {
    var path := t.path[i..];
    path <= key &&
    if key == path then n == t
    else KidAt(t.kids, key[|path|]).Some? && Spells(KidAt(t.kids, key[|path|]).value, 0, key[|path| + 1..], n)
  }

  lemma {:induction false} LocateStep(t: Trie, i: nat, key: Nibbles)
    requires i <= |t.path| && t.path[i..] <= key
    ensures Locate(t, i, key) == Locate(t, |t.path|, key[|t.path| - i..])
    decreases |t.path| - i
  {
    if i < |t.path| {
      assert t.path[i..][1..] == t.path[i + 1..] && t.path[i] == t.path[i..][0];
      assert t.path[i + 1..] <= key[1..];
      LocateStep(t, i + 1, key[1..]);
      assert key[1..][|t.path| - (i + 1)..] == key[|t.path| - i..];
    } else {
      assert key[0..] == key;
    }
  }

  lemma {:induction false} LocateStays(t: Trie, i: nat, key: Nibbles)
    requires i <= |t.path| && !(t.path[i..] <= key)
    ensures Locate(t, i, key).code != Success
    decreases |t.path| - i
  {
    if key != [] && i < |t.path| && key[0] == t.path[i] {
      assert t.path[i..] == [t.path[i]] + t.path[i + 1..] && key == [key[0]] + key[1..];
      LocateStays(t, i + 1, key[1..]);
    }
  }

  /** Success holds exactly when the key spells the way to the end of the returned node. */
  lemma {:induction false} SuccessIffSpells(t: Trie, i: nat, key: Nibbles, n: Trie)
    requires i <= |t.path|
    ensures Locate(t, i, key) == Found(Success, n, |n.path|) <==> Spells(t, i, key, n)
    ensures Locate(t, i, key).Found? && (Locate(t, i, key).code == Success ==>
                                         Locate(t, i, key).index == |Locate(t, i, key).node.path|)
    decreases |key|
  {
    var path := t.path[i..];
    if path <= key {
      LocateStep(t, i, key);
      var rest := key[|path|..];
      if rest == [] {
        assert key == path;
      } else {
        assert key != path && rest[0] == key[|path|] && rest[1..] == key[|path| + 1..];
        if KidAt(t.kids, rest[0]).Some? {
          SuccessIffSpells(KidAt(t.kids, rest[0]).value, 0, rest[1..], n);
        }
      }
    } else {
      LocateStays(t, i, key);
      LocateFound(t, i, key);
    }
  }

  lemma {:induction false} LocateFound(t: Trie, i: nat, key: Nibbles)
    requires i <= |t.path|
    ensures Locate(t, i, key).Found?
    decreases |key|
  {
    if key != [] {
      if i < |t.path| {
        if key[0] == t.path[i] { LocateFound(t, i + 1, key[1..]); }
      } else if KidAt(t.kids, key[0]).Some? {
        LocateFound(KidAt(t.kids, key[0]).value, 0, key[1..]);
      }
    }
  }

  // ---- what failure means ----

  /** `key` spells the way from position `i` of `t` to position `index` of `n`. */
  ghost predicate Reaches(t: Trie, i: nat, key: Nibbles, n: Trie, index: nat)
    requires i <= |t.path|
    decreases |key|
  {
    var path := t.path[i..];
    (n == t && i <= index <= |t.path| && key == t.path[i..index]) ||
    (path < key && KidAt(t.kids, key[|path|]).Some? &&
     Reaches(KidAt(t.kids, key[|path|]).value, 0, key[|path| + 1..], n, index))
  }

  lemma ReachesFurther(t: Trie, i: nat, key: Nibbles, n: Trie, index: nat)
    requires i < |t.path| && Reaches(t, i + 1, key, n, index)
    ensures Reaches(t, i, [t.path[i]] + key, n, index)
  {
    var more, path := [t.path[i]] + key, t.path[i + 1..];
    assert t.path[i..] == [t.path[i]] + path;
    if n == t && i + 1 <= index <= |t.path| && key == t.path[i + 1..index] {
      assert more == t.path[i..index];
    } else {
      assert more[|path| + 1] == key[|path|] && more[|path| + 2..] == key[|path| + 1..];
    }
  }

  lemma ReachesKid(t: Trie, key: Nibbles, b: nat, n: Trie, index: nat)
    requires KidAt(t.kids, b).Some? && Reaches(KidAt(t.kids, b).value, 0, key, n, index)
    ensures Reaches(t, |t.path|, [b] + key, n, index)
  {
    assert ([b] + key)[1..] == key && t.path[|t.path|..] == [];
  }

  /** Why a lookup that has come to position `index` of `n` goes no further into the rest of its key. */
  ghost predicate Stops(code: Code, n: Trie, index: nat, rest: Nibbles) {
    match code
    case Success => rest == [] && index == |n.path|
    case KeyEndsEarlier => rest == [] && index < |n.path|
    case KeyMismatch => rest != [] && index < |n.path| && rest[0] != n.path[index]
    case BranchNotExist => rest != [] && index == |n.path| && KidAt(n.kids, rest[0]).None?
    case RootIsNull => false
  }

  lemma KeyStep(key: Nibbles, j: nat, k: nat)
    requires key != [] && k == j + 1 <= |key|
    ensures [key[0]] + key[1..][..j] == key[..k] && key[1..][j..] == key[k..]
  {
  }

  /** Every result names the place that a prefix of the key leads to, and the reason why it ends there. */
  lemma {:induction false} LocateStops(t: Trie, i: nat, key: Nibbles) returns (k: nat)
    requires i <= |t.path|
    ensures
      var r := Locate(t, i, key);
      r.Found? && k <= |key| && Reaches(t, i, key[..k], r.node, r.index) && Stops(r.code, r.node, r.index, key[k..])
    decreases |key|
  {
    k := 0;
    assert key[..0] == t.path[i..i] && key[0..] == key;
    if key != [] {
      if i < |t.path| {
        if key[0] == t.path[i] {
          var j := LocateStops(t, i + 1, key[1..]);
          var r := Locate(t, i, key);
          ReachesFurther(t, i, key[1..][..j], r.node, r.index);
          k := j + 1;
          KeyStep(key, j, k);
        }
      } else if KidAt(t.kids, key[0]).Some? {
        var j := LocateStops(KidAt(t.kids, key[0]).value, 0, key[1..]);
        var r := Locate(t, i, key);
        ReachesKid(t, key[1..][..j], key[0], r.node, r.index);
        k := j + 1;
        KeyStep(key, j, k);
      }
    }
  }

  // ---- the lookup of the map ----

  lemma {:induction false} KidOrdered(kids: KidList, lo: nat, n: nat)
    requires Ordered(kids, lo) && KidAt(kids, n).Some?
    ensures Ordered(KidAt(kids, n).value.kids, 0)
    decreases kids
  {
    if kids.branch != n {
      KidOrdered(kids.rest, kids.branch + 1, n);
    }
  }

  /** A key that leaves the path is not in the map, and one that ends with it has the node's own value. */
  lemma OwnEntry(t: Trie, p: Nibbles, key: Nibbles)
    requires !(t.path < key)
    ensures p + key in Entries(t, p) <==> key == t.path && t.value.Some?
    ensures p + key in Entries(t, p) ==> Entries(t, p)[p + key] == t.value.value
  {
    var q := p + t.path;
    if p + key in Entries(t, p) {
      EntryPrefix(t, p, p + key);
      assert (p + key)[|p|..] == key && q[|p|..] == t.path;
    }
    if p + key in KidEntries(t.kids, q) {
      KidPrefix(t.kids, q, p + key);
    }
  }

  /** Below the path the entry is the child's. */
  lemma KidEntry(t: Trie, p: Nibbles, key: Nibbles)
    requires Ordered(t.kids, 0) && t.path < key
    ensures
      var q, n := p + t.path, key[|t.path|];
      var below, j := Below(t.kids, n, q), Entries(t, p);
      (p + key in j <==> p + key in below) && (p + key in j ==> j[p + key] == below[p + key])
  {
    var q, k := p + t.path, p + key;
    assert q < k && k[|q|] == key[|t.path|];
    KidEntryAt(t.kids, 0, q, key[|t.path|], k);
  }

  /** A lookup succeeds on a node with a value exactly when the key is in the map, and the value is the map's. */
  lemma {:induction false} LookupIsMap(t: Trie, p: Nibbles, key: Nibbles)
    requires Ordered(t.kids, 0)
    ensures
      var r := Locate(t, 0, key);
      r.Found? && (p + key in Entries(t, p) <==> r.code == Success && r.node.value.Some?) &&
      (p + key in Entries(t, p) ==> Entries(t, p)[p + key] == r.node.value.value)
    decreases |key|
  {
    LocateFound(t, 0, key);
    assert t.path[0..] == t.path;
    if !(t.path <= key) {
      LocateStays(t, 0, key);
      OwnEntry(t, p, key);
    } else {
      LocateStep(t, 0, key);
      var rest := key[|t.path|..];
      if rest == [] {
        assert key == t.path;
        OwnEntry(t, p, key);
      } else {
        KidEntry(t, p, key);
        var q, n := p + t.path, rest[0];
        if KidAt(t.kids, n).Some? {
          KidOrdered(t.kids, 0, n);
          LookupIsMap(KidAt(t.kids, n).value, q + [n], rest[1..]);
          assert q + [n] + rest[1..] == p + key;
        }
      }
    }
  }
}
