/**
  The way down through node objects: which object a key reaches, the parents
  passed on the way to a destination, and where the source lies among them.
 */
module CopyDescent {
  import opened Options
  import opened YellowPaper
  import opened MerkleCompute
  import opened TrieLookup
  import opened CopyTrie
  import opened NodeStore

  // ---- nodes reached through memory ----

  /** The object reached from `r` by loaded pointers when `key` ends at the end of its path. */
  function MemAt(mem: Memory, r: Ref, key: Nibbles): Option<Ref>
    decreases |key|
  {
    if r !in mem || !(mem[r].path <= key) then None
    else if |key| == |mem[r].path| then Some(r)
    else
      match Points(mem, r, key[|mem[r].path|])
      case None => None
      case Some(x) => MemAt(mem, x, key[|mem[r].path| + 1..])
  }

  lemma {:induction false} MemAtLoads(mem: Memory, mem': Memory, r: Ref, key: Nibbles)
    requires Loads(mem, mem') && MemAt(mem, r, key).Some?
    ensures MemAt(mem', r, key) == MemAt(mem, r, key)
    decreases |key|
  {
    assert Stored(mem'[r]) == Stored(mem[r]);
    if |key| != |mem[r].path| {
      MemAtLoads(mem, mem', Points(mem, r, key[|mem[r].path|]).value, key[|mem[r].path| + 1..]);
    }
  }

  /** One more child. */
  lemma {:induction false} MemAtSnoc(mem: Memory, r: Ref, key: Nibbles, q: Ref, b: nat, x: Ref)
    requires MemAt(mem, r, key) == Some(q) && Points(mem, q, b) == Some(x) && x in mem
    ensures MemAt(mem, r, key + [b] + mem[x].path) == Some(x)
    decreases |key|
  {
    var p, longer := mem[r].path, key + [b] + mem[x].path;
    if |key| == |p| {
      assert longer[|p| + 1..] == mem[x].path;
    } else {
      var rest := key[|p| + 1..];
      assert longer[|p| + 1..] == rest + [b] + mem[x].path;
      MemAtSnoc(mem, Points(mem, r, key[|p|]).value, rest, q, b, x);
    }
  }

  /** The last pointer followed. */
  lemma MemAtDown(mem: Memory, r: Ref, b: nat, x: Ref, rest: Nibbles)
    requires r in mem && Points(mem, r, b) == Some(x)
    ensures MemAt(mem, r, mem[r].path + [b] + rest) == MemAt(mem, x, rest)
  {
    var p, longer := mem[r].path, mem[r].path + [b] + rest;
    assert p <= longer && longer[|p|] == b && longer[|p| + 1..] == rest;
  }

  lemma KeyParts(key: Nibbles, p: Nibbles, init: Nibbles, b: nat, tail: Nibbles)
    requires p <= key && |p| < |key| && key[|p| + 1..] == init + [b] + tail
    ensures key == p + [key[|p|]] + init + [b] + tail
  {
    assert key == key[..|p|] + [key[|p|]] + key[|p| + 1..];
  }

  lemma {:induction false} LastStep(mem: Memory, r: Ref, key: Nibbles) returns (q: Ref, b: nat, init: Nibbles)
    requires MemAt(mem, r, key).Some? && r in mem && |key| != |mem[r].path|
    ensures Points(mem, q, b) == MemAt(mem, r, key) && MemAt(mem, r, init) == Some(q) && |init| < |key|
    ensures MemAt(mem, r, key).value in mem && key == init + [b] + mem[MemAt(mem, r, key).value].path
    decreases |key|
  {
    var p := mem[r].path;
    var x, rest := Points(mem, r, key[|p|]).value, key[|p| + 1..];
    if |rest| == |mem[x].path| {
      q, b, init := r, key[|p|], p;
      assert key == p + [key[|p|]] + rest;
    } else {
      q, b, init := LastStep(mem, x, rest);
      MemAtDown(mem, r, key[|p|], x, init);
      KeyParts(key, p, init, b, mem[MemAt(mem, x, rest).value].path);
      init := p + [key[|p|]] + init;
    }
  }

  /** With one pointer to each node, a node is reached from one root by one key. */
  lemma {:induction false} MemAtUnique(mem: Memory, r: Ref, k: Nibbles, s: Ref, j: Nibbles)
    requires Single(mem) && Unowned(mem, r) && Unowned(mem, s) && MemAt(mem, r, k).Some? &&
             MemAt(mem, r, k) == MemAt(mem, s, j)
    ensures r == s && k == j
    decreases |k|
  {
    if |k| != |mem[r].path| {
      var q, b, init := LastStep(mem, r, k);
      if |j| != |mem[s].path| {
        var q', b', init' := LastStep(mem, s, j);
        assert q == q' && b == b';
        MemAtUnique(mem, r, init, s, init');
      }
    } else if |j| != |mem[s].path| {
      var q', b', init' := LastStep(mem, s, j);
    }
  }

  // ---- parents ----

  /** The pointers followed from `root` to `node`. */
  ghost predicate Chain(mem: Memory, root: Ref, frames: seq<Frame>, node: Ref) {
    if frames == [] then node == root
    else
      var top := frames[|frames| - 1];
      Points(mem, top.node, top.branch) == Some(node) && Chain(mem, root, frames[..|frames| - 1], top.node)
  }

  lemma ChainSnoc(mem: Memory, root: Ref, frames: seq<Frame>, f: Frame, node: Ref)
    requires Chain(mem, root, frames, f.node) && Points(mem, f.node, f.branch) == Some(node)
    ensures Chain(mem, root, frames + [f], node)
  {
    assert (frames + [f])[..|frames|] == frames;
  }

  lemma {:induction false} ChainPrefix(mem: Memory, root: Ref, frames: seq<Frame>, node: Ref, x: nat)
    requires Chain(mem, root, frames, node) && x < |frames|
    ensures Chain(mem, root, frames[..x], frames[x].node)
    ensures Points(mem, frames[x].node, frames[x].branch) == Some(if x + 1 < |frames| then frames[x + 1].node else node)
    decreases |frames|
  {
    var init := frames[..|frames| - 1];
    if x < |init| {
      ChainPrefix(mem, root, init, frames[|init|].node, x);
      assert init[..x] == frames[..x];
    } else {
      assert init == frames[..x];
    }
  }

  lemma {:induction false} ChainLength(mem: Memory, root: Ref, f: seq<Frame>, g: seq<Frame>, node: Ref)
    requires Single(mem) && Unowned(mem, root) && Chain(mem, root, f, node) && Chain(mem, root, g, node)
    ensures |f| == |g|
    decreases |f|
  {
    if f != [] && g != [] {
      var a, b := f[|f| - 1], g[|g| - 1];
      assert a == b;
      ChainLength(mem, root, f[..|f| - 1], g[..|g| - 1], a.node);
    }
  }

  /** No node lies twice on the way. */
  lemma ChainDistinct(mem: Memory, root: Ref, frames: seq<Frame>, node: Ref, x: nat)
    requires Single(mem) && Unowned(mem, root) && Chain(mem, root, frames, node) && x < |frames|
    ensures frames[x].node != node
  {
    ChainPrefix(mem, root, frames, node, x);
    if frames[x].node == node {
      ChainLength(mem, root, frames, frames[..x], node);
    }
  }

  /** Where, along `key`, the paths of the nodes the descent passes end. */
  function Parents(t: Trie, key: Nibbles, at: nat): seq<nat>
    decreases |key|
  {
    if t.path < key && KidAt(t.kids, key[|t.path|]).Some?
    then [at + |t.path|] + Parents(KidAt(t.kids, key[|t.path|]).value, key[|t.path| + 1..], at + |t.path| + 1)
    else []
  }

  /** The source node is a parent on the way to the destination, other than the last one. */
  predicate Severed(t: Trie, srcPrefix: Nibbles, destPrefix: Nibbles) {
    var ends := Parents(t, destPrefix, 0);
    srcPrefix <= destPrefix && ends != [] && |srcPrefix| in ends[..|ends| - 1]
  }

  // ---- carrying a result up ----

  ghost function PlugOne(t: Trie, branch: nat, o: Option<Trie>): Option<Trie> {
    if o.None? then None else Some(t.(kids := ReplaceKid(t.kids, branch, o.value)))
  }

  ghost predicate InMemory(mem: Memory, frames: seq<Frame>) {
    forall i :: 0 <= i < |frames| ==> frames[i].node in mem
  }

  /** A result for the current node, carried up through its parents. */
  ghost function Plug(disk: Disk, mem: Memory, frames: seq<Frame>, o: Option<Trie>): Option<Trie>
    requires InMemory(mem, frames)
  {
    if frames == [] then o
    else
      var top := frames[|frames| - 1];
      Plug(disk, mem, frames[..|frames| - 1], PlugOne(Shape(disk, mem[top.node]), top.branch, o))
  }

  ghost predicate SameShapes(disk: Disk, mem: Memory, disk': Disk, mem': Memory, frames: seq<Frame>) {
    InMemory(mem, frames) && InMemory(mem', frames) &&
    forall i :: 0 <= i < |frames| ==> Shape(disk', mem'[frames[i].node]) == Shape(disk, mem[frames[i].node])
  }

  lemma {:induction false} PlugSame(disk: Disk, mem: Memory, disk': Disk, mem': Memory, frames: seq<Frame>,
                                    o: Option<Trie>)
    requires SameShapes(disk, mem, disk', mem', frames)
    ensures Plug(disk', mem', frames, o) == Plug(disk, mem, frames, o)
    decreases |frames|
  {
    if frames != [] {
      var init, top := frames[..|frames| - 1], frames[|frames| - 1];
      PlugSame(disk, mem, disk', mem', init, PlugOne(Shape(disk, mem[top.node]), top.branch, o));
    }
  }

  lemma PlugSnoc(disk: Disk, mem: Memory, frames: seq<Frame>, f: Frame, o: Option<Trie>)
    requires InMemory(mem, frames) && f.node in mem
    ensures InMemory(mem, frames + [f])
    ensures Plug(disk, mem, frames + [f], o) == Plug(disk, mem, frames, PlugOne(Shape(disk, mem[f.node]), f.branch, o))
  {
    assert (frames + [f])[..|frames|] == frames;
  }

  lemma {:induction false} PlugNothing(disk: Disk, mem: Memory, frames: seq<Frame>)
    requires InMemory(mem, frames)
    ensures Plug(disk, mem, frames, None) == None
    decreases |frames|
  {
    if frames != [] {
      PlugNothing(disk, mem, frames[..|frames| - 1]);
    }
  }

  lemma {:induction false} PlugSomething(disk: Disk, mem: Memory, frames: seq<Frame>, t: Trie)
    requires InMemory(mem, frames)
    ensures Plug(disk, mem, frames, Some(t)).Some?
    decreases |frames|
  {
    if frames != [] {
      var top := frames[|frames| - 1];
      PlugSomething(disk, mem, frames[..|frames| - 1], PlugOne(Shape(disk, mem[top.node]), top.branch, Some(t)).value);
    }
  }

  lemma {:induction false} ReplaceTwice(kids: KidList, n: nat, t: Trie)
    ensures ReplaceKid(ReplaceKid(kids, n, t), n, t) == ReplaceKid(kids, n, t)
    decreases kids
  {
    if kids.Kid? && kids.branch != n {
      ReplaceTwice(kids.rest, n, t);
    }
  }

  /** A node that keeps its stored form keeps its shape when the disk grows. */
  lemma ShapeKept(disk: Disk, mem: Memory, disk': Disk, mem': Memory, x: Ref)
    requires Offsets(disk, mem) && disk <= disk' && x in mem && x in mem' && Stored(mem'[x]) == Stored(mem[x])
    ensures Shape(disk', mem'[x]) == Shape(disk, mem[x])
  {
    var more := disk'[|disk|..];
    assert disk' == disk + more;
    WholeAppend(disk, more, Stored(mem[x]));
  }

  lemma KeepsShapes(disk: Disk, mem: Memory, disk': Disk, mem': Memory, frames: seq<Frame>)
    requires Offsets(disk, mem) && disk <= disk' && Keeps(mem, mem') && InMemory(mem, frames)
    ensures SameShapes(disk, mem, disk', mem', frames)
  {
    forall i | 0 <= i < |frames|
      ensures frames[i].node in mem' && Shape(disk', mem'[frames[i].node]) == Shape(disk, mem[frames[i].node])
    {
      ShapeKept(disk, mem, disk', mem', frames[i].node);
    }
  }

  // ---- one step of the descent ----

  /** The first `n` nibbles agree and that is all. */
  lemma CommonIs(a: Nibbles, b: Nibbles, n: nat)
    requires n <= |a| && n <= |b| && a[..n] == b[..n] && (n == |a| || n == |b| || a[n] != b[n])
    ensures Common(a, b) == n
  {
  }

  /** The graft below a matched path is the graft into the child. */
  lemma DescendStep(t: Trie, rest: Nibbles, src: Trie, next: Trie)
    requires |t.path| < |rest| && rest[..|t.path|] == t.path && KidAt(t.kids, rest[|t.path|]) == Some(next)
    ensures Graft(t, rest, src) == PlugOne(t, rest[|t.path|], Graft(next, rest[|t.path| + 1..], src))
  {
    CommonIs(t.path, rest, |t.path|);
  }

  /** Where the descent stops: at the end of the key, at a nibble that differs, or at a missing branch. */
  ghost predicate Stopped(node: MemNode, nodeIndex: nat, rest: Nibbles) {
    nodeIndex <= |node.path| && nodeIndex <= |rest| && node.path[..nodeIndex] == rest[..nodeIndex] &&
    (nodeIndex == |rest| ||
     if nodeIndex < |node.path| then node.path[nodeIndex] != rest[nodeIndex]
     else ChildAt(node.kids, rest[nodeIndex]).None?)
  }

  // ---- the trail of parents ----

  /** The parents passed, last one first: the stack of the descent. */
  datatype Trail = Start | Passed(up: Trail, node: Ref, branch: nat)

  function Frames(trail: Trail): seq<Frame> {
    if trail.Start? then [] else Frames(trail.up) + [Frame(trail.node, trail.branch)]
  }

  /** The trail follows pointers from `root` to `node`. */
  ghost predicate Came(mem: Memory, root: Ref, trail: Trail, node: Ref) {
    if trail.Start? then node == root
    else trail.node in mem && Points(mem, trail.node, trail.branch) == Some(node) &&
         Came(mem, root, trail.up, trail.node)
  }

  function PathAt(mem: Memory, r: Ref): Nibbles {
    if r in mem then mem[r].path else []
  }

  /** The nibbles along the trail. */
  function Spelled(mem: Memory, trail: Trail): Nibbles {
    if trail.Start? then [] else Spelled(mem, trail.up) + PathAt(mem, trail.node) + [trail.branch]
  }

  /** Where, along those nibbles, the paths of the parents end. */
  function Ends(mem: Memory, trail: Trail): seq<nat> {
    if trail.Start? then [] else Ends(mem, trail.up) + [|Spelled(mem, trail.up)| + |PathAt(mem, trail.node)|]
  }

  lemma {:induction false} CameLoads(mem: Memory, mem': Memory, root: Ref, trail: Trail, node: Ref)
    requires Loads(mem, mem') && Came(mem, root, trail, node)
    ensures Came(mem', root, trail, node) && Spelled(mem', trail) == Spelled(mem, trail)
    decreases trail
  {
    if trail.Passed? {
      assert Stored(mem'[trail.node]) == Stored(mem[trail.node]);
      CameLoads(mem, mem', root, trail.up, trail.node);
    }
  }

  lemma {:induction false} CameChain(mem: Memory, root: Ref, trail: Trail, node: Ref)
    requires Came(mem, root, trail, node)
    ensures Chain(mem, root, Frames(trail), node) && InMemory(mem, Frames(trail)) &&
            |Ends(mem, trail)| == |Frames(trail)|
    decreases trail
  {
    if trail.Passed? {
      CameChain(mem, root, trail.up, trail.node);
      ChainSnoc(mem, root, Frames(trail.up), Frame(trail.node, trail.branch), node);
    }
  }

  lemma {:induction false} CameMemAt(mem: Memory, root: Ref, trail: Trail, node: Ref)
    requires Came(mem, root, trail, node) && node in mem
    ensures MemAt(mem, root, Spelled(mem, trail) + mem[node].path) == Some(node)
    decreases trail
  {
    if trail.Passed? {
      CameMemAt(mem, root, trail.up, trail.node);
      MemAtSnoc(mem, root, Spelled(mem, trail.up) + mem[trail.node].path, trail.node, trail.branch, node);
    } else {
      assert [] + mem[node].path == mem[node].path;
    }
  }

  /** Each parent is reached by the part of the key up to the end of its path. */
  lemma {:induction false} EndReached(mem: Memory, root: Ref, trail: Trail, node: Ref, key: Nibbles, x: nat)
    requires Came(mem, root, trail, node) && Spelled(mem, trail) <= key && x < |Frames(trail)| &&
             |Ends(mem, trail)| == |Frames(trail)|
    ensures Ends(mem, trail)[x] <= |key| && MemAt(mem, root, key[..Ends(mem, trail)[x]]) == Some(Frames(trail)[x].node)
    decreases trail
  {
    var up := trail.up;
    CameChain(mem, root, up, trail.node);
    var to := Spelled(mem, up) + mem[trail.node].path;
    assert to <= Spelled(mem, trail) <= key && Spelled(mem, up) <= key;
    if x < |Frames(up)| {
      EndReached(mem, root, up, trail.node, key, x);
    } else {
      CameMemAt(mem, root, up, trail.node);
      assert key[..|to|] == to;
    }
  }

  /** The way so far: the parents, the current node, and how much of the key is used up. */
  datatype Way = Way(trail: Trail, node: Ref, done: nat)

  ghost predicate OnWay(mem: Memory, root: Ref, key: Nibbles, way: Way) {
    way.node in mem && Came(mem, root, way.trail, way.node) && way.done <= |key| &&
    Spelled(mem, way.trail) == key[..way.done]
  }

  lemma OnWayLoads(mem: Memory, mem': Memory, root: Ref, key: Nibbles, way: Way)
    requires Loads(mem, mem') && OnWay(mem, root, key, way)
    ensures OnWay(mem', root, key, way)
  {
    CameLoads(mem, mem', root, way.trail, way.node);
  }

  /** The child at nibble `e` of the key can be entered. */
  ghost predicate CanEnter(mem: Memory, key: Nibbles, way: Way, e: nat) {
    way.node in mem && e == way.done + |mem[way.node].path| < |key| && key[way.done..e] == mem[way.node].path &&
    ChildAt(mem[way.node].kids, key[e]).Some?
  }

  /** The way one node further. */
  function Further(key: Nibbles, way: Way, x: Ref, e: nat): Way
    requires e < |key|
  {
    Way(Passed(way.trail, way.node, key[e]), x, e + 1)
  }

  lemma Entered(mem: Memory, root: Ref, key: Nibbles, way: Way, x: Ref, e: nat)
    requires OnWay(mem, root, key, way) && e == way.done + |mem[way.node].path| < |key| &&
             key[way.done..e] == mem[way.node].path
    requires x in mem && Points(mem, way.node, key[e]) == Some(x)
    ensures OnWay(mem, root, key, Further(key, way, x, e))
  {
    assert key[..way.done] + key[way.done..e] + [key[e]] == key[..e + 1];
  }

  /** The child was loaded and is entered. */
  lemma LoadedEntered(mem: Memory, mem': Memory, root: Ref, key: Nibbles, way: Way, x: Ref, e: nat)
    requires OnWay(mem, root, key, way) && CanEnter(mem, key, way, e) && Loads(mem, mem')
    requires x in mem' && Points(mem', way.node, key[e]) == Some(x)
    ensures OnWay(mem', root, key, Further(key, way, x, e))
  {
    OnWayLoads(mem, mem', root, key, way);
    assert Stored(mem'[way.node]) == Stored(mem[way.node]);
    Entered(mem', root, key, way, x, e);
  }

  // ---- what the descent says about the graft ----

  lemma ParentsStep(t: Trie, rest: Nibbles, at: nat, next: Trie)
    requires |t.path| < |rest| && rest[..|t.path|] == t.path && KidAt(t.kids, rest[|t.path|]) == Some(next)
    ensures Parents(t, rest, at) == [at + |t.path|] + Parents(next, rest[|t.path| + 1..], at + |t.path| + 1)
  {
    assert t.path < rest;
  }

  lemma SlicesAgree(key: Nibbles, done: nat, e: nat)
    requires done <= e < |key|
    ensures key[done..][..e - done] == key[done..e] && key[done..][e - done] == key[e] &&
            key[done..][e - done + 1..] == key[e + 1..]
  {
  }

  lemma EnterParents(s: Trie, rest: Nibbles, done: nat, next: Trie, ends: seq<nat>, after: Nibbles, e: nat)
    requires e == done + |s.path| && |s.path| < |rest| && rest[..|s.path|] == s.path && rest[|s.path| + 1..] == after
    requires KidAt(s.kids, rest[|s.path|]) == Some(next)
    ensures ends + Parents(s, rest, done) == (ends + [e]) + Parents(next, after, e + 1)
  {
    ParentsStep(s, rest, done, next);
    assert ends + ([e] + Parents(next, after, e + 1)) == (ends + [e]) + Parents(next, after, e + 1);
  }

  /** A loaded child stands for the child of the trie. */
  lemma PointsToKid(disk: Disk, mem: Memory, r: Ref, b: nat)
    requires Ok(disk, mem) && r in mem && Points(mem, r, b).Some?
    ensures Points(mem, r, b).value in mem && KidAt(Shape(disk, mem[r]).kids, b) ==
            Some(Shape(disk, mem[Points(mem, r, b).value]))
  {
    assert Faithful(disk, mem, r, b);
    ChildView(disk, mem[r].kids, b);
    WholeIsView(disk, OffAt(mem, r, b));
  }

  /** The trail spells the first `done` nibbles of the key and goes from child to child. */
  ghost predicate Tied(disk: Disk, mem: Memory, root: Ref, trail: Trail, node: Ref, key: Nibbles, done: nat) {
    root in mem && node in mem && done <= |key| &&
    if trail.Start? then node == root && done == 0
    else
      trail.node in mem && |mem[trail.node].path| < done &&
      var e := done - 1;
      var from := e - |mem[trail.node].path|;
      key[from..e] == mem[trail.node].path && key[e] == trail.branch &&
      KidAt(Shape(disk, mem[trail.node]).kids, trail.branch) == Some(Shape(disk, mem[node])) &&
      Tied(disk, mem, root, trail.up, trail.node, key, from)
  }

  lemma {:induction false} CameTied(disk: Disk, mem: Memory, root: Ref, trail: Trail, node: Ref, key: Nibbles,
                                    done: nat)
    requires Ok(disk, mem) && root in mem && node in mem && Came(mem, root, trail, node) && done <= |key| &&
             Spelled(mem, trail) == key[..done]
    ensures Tied(disk, mem, root, trail, node, key, done) && done == |Spelled(mem, trail)|
    decreases trail
  {
    if trail.Passed? {
      SplitPrefix(Spelled(mem, trail.up), mem[trail.node].path, trail.branch, key, done);
      PointsToKid(disk, mem, trail.node, trail.branch);
      CameTied(disk, mem, root, trail.up, trail.node, key, |Spelled(mem, trail.up)|);
    }
  }

  /** The graft still to come, from wherever the trail has come to. */
  lemma {:induction false} TrailGraft(disk: Disk, mem: Memory, root: Ref, trail: Trail, node: Ref, key: Nibbles,
                                      done: nat, src: Trie)
    requires Tied(disk, mem, root, trail, node, key, done)
    ensures InMemory(mem, Frames(trail))
    ensures Graft(Shape(disk, mem[root]), key, src) == Plug(disk, mem, Frames(trail),
                                                            Graft(Shape(disk, mem[node]), key[done..], src))
    decreases trail
  {
    if trail.Start? {
      assert key[done..] == key;
    } else {
      var from := done - 1 - |mem[trail.node].path|;
      TrailGraft(disk, mem, root, trail.up, trail.node, key, from, src);
      GraftFurther(disk, mem, Frames(trail.up), trail.node, trail.branch, node, key, from, done - 1, done, src);
      assert Frames(trail) == Frames(trail.up) + [Frame(trail.node, trail.branch)];
    }
  }

  lemma GraftFurther(disk: Disk, mem: Memory, frames: seq<Frame>, n: Ref, b: nat, node: Ref, key: Nibbles, from: nat,
                     e: nat, done: nat, src: Trie)
    requires n in mem && node in mem && InMemory(mem, frames) && e == from + |mem[n].path| < |key| &&
             key[from..e] == mem[n].path && key[e] == b
    requires done == e + 1
    requires KidAt(Shape(disk, mem[n]).kids, b) == Some(Shape(disk, mem[node]))
    ensures InMemory(mem, frames + [Frame(n, b)])
    ensures Plug(disk, mem, frames, Graft(Shape(disk, mem[n]), key[from..], src)) ==
            Plug(disk, mem, frames + [Frame(n, b)], Graft(Shape(disk, mem[node]), key[done..], src))
  {
    SlicesAgree(key, from, e);
    DescendStep(Shape(disk, mem[n]), key[from..], src, Shape(disk, mem[node]));
    PlugSnoc(disk, mem, frames, Frame(n, b), Graft(Shape(disk, mem[node]), key[done..], src));
  }

  /** The parents still to come. */
  lemma EndsSnoc(mem: Memory, trail: Trail, e: nat)
    requires trail.Passed? && trail.node in mem && e == |Spelled(mem, trail.up)| + |mem[trail.node].path|
    ensures Ends(mem, trail) == Ends(mem, trail.up) + [e]
  {
  }

  lemma {:induction false} TrailParents(disk: Disk, mem: Memory, root: Ref, trail: Trail, node: Ref, key: Nibbles,
                                        done: nat)
    requires Tied(disk, mem, root, trail, node, key, done)
    ensures Parents(Shape(disk, mem[root]), key, 0) == Ends(mem, trail) +
            Parents(Shape(disk, mem[node]), key[done..], done)
    decreases trail
  {
    if trail.Start? {
      assert key[done..] == key;
    } else {
      var t := Shape(disk, mem[trail.node]);
      var from := done - 1 - |t.path|;
      TrailParents(disk, mem, root, trail.up, trail.node, key, from);
      TiedLength(disk, mem, root, trail.up, trail.node, key, from);
      EndsSnoc(mem, trail, done - 1);
      ParentsFurther(t, key, from, done - 1, done, Shape(disk, mem[node]), Ends(mem, trail.up));
    }
  }

  lemma {:induction false} TiedLength(disk: Disk, mem: Memory, root: Ref, trail: Trail, node: Ref, key: Nibbles,
                                      done: nat)
    requires Tied(disk, mem, root, trail, node, key, done)
    ensures |Spelled(mem, trail)| == done
    decreases trail
  {
    if trail.Passed? {
      TiedLength(disk, mem, root, trail.up, trail.node, key, done - 1 - |mem[trail.node].path|);
    }
  }

  lemma ParentsFurther(t: Trie, key: Nibbles, from: nat, e: nat, done: nat, next: Trie, ends: seq<nat>)
    requires e == from + |t.path| < |key| && key[from..e] == t.path && KidAt(t.kids, key[e]) == Some(next) &&
             done == e + 1
    ensures ends + Parents(t, key[from..], from) == (ends + [e]) + Parents(next, key[done..], done)
  {
    SlicesAgree(key, from, e);
    EnterParents(t, key[from..], from, next, ends, key[done..], e);
  }

  /** The lookup still to come. */
  lemma {:induction false} TrailLocate(disk: Disk, mem: Memory, root: Ref, trail: Trail, node: Ref, key: Nibbles,
                                       done: nat)
    requires Tied(disk, mem, root, trail, node, key, done)
    ensures Locate(Shape(disk, mem[root]), 0, key) == Locate(Shape(disk, mem[node]), 0, key[done..])
    decreases trail
  {
    if trail.Start? {
      assert key[0..] == key;
    } else {
      var t := Shape(disk, mem[trail.node]);
      var from := done - 1 - |t.path|;
      TrailLocate(disk, mem, root, trail.up, trail.node, key, from);
      assert t.path[..|t.path|] == t.path;
      LocateFurther(t, key, from, |t.path|);
      assert key[done - 1..][1..] == key[done..];
    }
  }

  /** A lookup past the first `i` nibbles of a path. */
  lemma {:induction false} LocateFurther(t: Trie, key: Nibbles, from: nat, i: nat)
    requires i <= |t.path| && from + i <= |key| && key[from..from + i] == t.path[..i]
    ensures Locate(t, 0, key[from..]) == Locate(t, i, key[from + i..])
    decreases i
  {
    if i > 0 {
      assert key[from..from + i][..i - 1] == key[from..from + i - 1] && t.path[..i][..i - 1] == t.path[..i - 1];
      LocateFurther(t, key, from, i - 1);
      assert key[from..from + i][i - 1] == key[from + i - 1] && t.path[..i][i - 1] == t.path[i - 1];
      assert key[from + i - 1..][1..] == key[from + i..];
    }
  }

  lemma SplitPrefix(before: Nibbles, path: Nibbles, b: nat, key: Nibbles, done: nat)
    requires done <= |key| && key[..done] == before + path + [b]
    ensures
      var e := |before| + |path|;
      done == e + 1 && key[..|before|] == before && key[|before|..e] == path && key[e] == b
  {
    var whole, e := before + path + [b], |before| + |path|;
    forall i | 0 <= i < done
      ensures key[i] == whole[i]
    {
      assert key[..done][i] == key[i];
    }
    assert key[..|before|] == before;
    assert key[|before|..e] == path;
  }

  /** The key follows exactly `n` nibbles of the path. */
  ghost predicate Following(path: Nibbles, rest: Nibbles, n: nat) {
    n <= |path| && n <= |rest| && path[..n] == rest[..n] && (n == |path| || n == |rest| || path[n] != rest[n])
  }

  ghost predicate Follows(mem: Memory, key: Nibbles, way: Way, n: nat) {
    way.node in mem && way.done <= |key| && Following(mem[way.node].path, key[way.done..], n)
  }

  lemma FollowsOn(mem: Memory, key: Nibbles, way: Way, n: nat)
    requires Follows(mem, key, way, n)
    ensures
      if way.done + n < |key| && n == |mem[way.node].path| && ChildAt(mem[way.node].kids, key[way.done + n]).Some?
      then CanEnter(mem, key, way, way.done + n)
      else Stopped(mem[way.node], n, key[way.done..])
  {
    if way.done + n < |key| {
      SlicesAgree(key, way.done, way.done + n);
    }
  }

  // ---- where the source node lies ----

  /** The source node is on the way above the last parent exactly when the prefixes say so. */
  lemma SeveredIff(mem: Memory, root: Ref, t: Trie, key: Nibbles, trail: Trail, node: Ref, srcRoot: Ref,
                   srcPrefix: Nibbles, s: Ref)
    requires Single(mem) && Unowned(mem, root) && Unowned(mem, srcRoot)
    requires Came(mem, root, trail, node) && Spelled(mem, trail) <= key && Ends(mem, trail) == Parents(t, key, 0)
    requires MemAt(mem, srcRoot, srcPrefix) == Some(s)
    ensures (exists x :: 0 <= x < |Frames(trail)| - 1 && Frames(trail)[x].node == s) <==>
            srcRoot == root && Severed(t, srcPrefix, key)
  {
    var frames, ends := Frames(trail), Ends(mem, trail);
    CameChain(mem, root, trail, node);
    forall x | 0 <= x < |frames|
      ensures EndsAt(ends, key, x) && (frames[x].node == s <==> srcRoot == root && srcPrefix == key[..ends[x]])
    {
      EndReached(mem, root, trail, node, key, x);
      if frames[x].node == s {
        MemAtUnique(mem, root, key[..ends[x]], srcRoot, srcPrefix);
      }
    }
    SomeEnd(frames, ends, s, srcRoot == root, srcPrefix, key);
  }

  ghost predicate EndsAt(ends: seq<nat>, key: Nibbles, x: nat) {
    x < |ends| && ends[x] <= |key|
  }

  /** One of the frames but the last is at `s` exactly when the prefix ends there. */
  lemma SomeEnd(frames: seq<Frame>, ends: seq<nat>, s: Ref, same: bool, prefix: Nibbles, key: Nibbles)
    requires |frames| == |ends|
    requires forall x :: 0 <= x < |frames| ==>
      EndsAt(ends, key, x) &&
      (frames[x].node == s <==> same && prefix == key[..ends[x]])
    ensures (exists x :: 0 <= x < |frames| - 1 && frames[x].node == s) <==>
            same && prefix <= key && ends != [] && |prefix| in ends[..|ends| - 1]
  {
    if same && prefix <= key && ends != [] && |prefix| in ends[..|ends| - 1] {
      var x :| 0 <= x < |ends| - 1 && ends[..|ends| - 1][x] == |prefix|;
      assert EndsAt(ends, key, x) && prefix == key[..ends[x]] && frames[x].node == s;
    }
    if x :| 0 <= x < |frames| - 1 && frames[x].node == s {
      assert EndsAt(ends, key, x) && ends[..|ends| - 1][x] == |prefix|;
    }
  }

  // ---- lookups in memory ----

  /** The lookup stands at position `index` of the path of the current node, after `used` nibbles of the key. */
  ghost predicate Placed(mem: Memory, root: Ref, key: Nibbles, way: Way, index: nat, used: nat) {
    OnWay(mem, root, key, way) && used == way.done + index <= |key| && index <= |mem[way.node].path| &&
    key[way.done..used] == mem[way.node].path[..index]
  }

  lemma PlacedNibble(mem: Memory, root: Ref, key: Nibbles, way: Way, index: nat, used: nat)
    requires Placed(mem, root, key, way, index, used) && used < |key| && index < |mem[way.node].path| &&
             key[used] == mem[way.node].path[index]
    ensures Placed(mem, root, key, way, index + 1, used + 1)
  {
    assert key[way.done..used + 1] == key[way.done..used] + [key[used]];
  }

  lemma PlacedEnd(mem: Memory, root: Ref, key: Nibbles, way: Way, index: nat, used: nat)
    requires Placed(mem, root, key, way, index, used) && used == |key| && index == |mem[way.node].path|
    ensures MemAt(mem, root, key) == Some(way.node)
  {
    CameMemAt(mem, root, way.trail, way.node);
    assert mem[way.node].path[..index] == mem[way.node].path;
    assert key[..way.done] + mem[way.node].path == key;
  }

  /** The lookup of the whole key is the lookup of its rest from here. */
  lemma PlacedLocate(disk: Disk, mem: Memory, root: Ref, key: Nibbles, way: Way, index: nat, used: nat)
    requires Ok(disk, mem) && root in mem && Placed(mem, root, key, way, index, used)
    ensures
      var here := Shape(disk, mem[way.node]);
      Locate(Shape(disk, mem[root]), 0, key) == Locate(here, index, key[used..]) &&
      (used < |key| && index == |here.path| ==>
        KidAt(here.kids, key[used]).Some? ==
        ChildAt(mem[way.node].kids, key[used]).Some?)
  {
    CameTied(disk, mem, root, way.trail, way.node, key, way.done);
    TrailLocate(disk, mem, root, way.trail, way.node, key, way.done);
    LocateFurther(Shape(disk, mem[way.node]), key, way.done, index);
    if used < |key| {
      ChildView(disk, mem[way.node].kids, key[used]);
    }
  }

  /** Where the lookup loop ends and what it returns there. */
  ghost predicate Answer(mem: Memory, key: Nibbles, node: Ref, index: nat, used: nat, code: Code) {
    node in mem && index <= |mem[node].path| && used <= |key| &&
    if used == |key| then code ==
    if index == |mem[node].path| then Success else KeyEndsEarlier
    else if index < |mem[node].path| then code == KeyMismatch && key[used] != mem[node].path[index]
    else code == BranchNotExist && ChildAt(mem[node].kids, key[used]).None?
  }

  lemma AnswerIsLocate(disk: Disk, mem: Memory, root: Ref, key: Nibbles, way: Way, index: nat, used: nat, code: Code)
    requires Ok(disk, mem) && root in mem && Placed(mem, root, key, way, index, used) &&
             Answer(mem, key, way.node, index, used, code)
    ensures Locate(Shape(disk, mem[root]), 0, key) == Found(code, Shape(disk, mem[way.node]), index)
    ensures code == Success ==> MemAt(mem, root, key) == Some(way.node)
  {
    PlacedLocate(disk, mem, root, key, way, index, used);
    if code == Success {
      PlacedEnd(mem, root, key, way, index, used);
    }
  }

  lemma OneMoreNibble(a: Nibbles, b: Nibbles, n: nat)
    requires n < |a| && n < |b| && a[..n] == b[..n] && a[n] == b[n]
    ensures a[..n + 1] == b[..n + 1]
  {
    assert a[..n + 1] == a[..n] + [a[n]] && b[..n + 1] == b[..n] + [b[n]];
  }
}
