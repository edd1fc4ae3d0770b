/**
  Grafting with node objects that are partly loaded. Source and destination may
  be the same trie, so the source node can lie on the way to the destination.
 */
module CopyTrieOnDisk {
  import opened Options
  import opened YellowPaper
  import opened MerkleCompute
  import opened TrieLookup
  import opened CopyTrie
  import opened NodeStore
  import opened CopyDescent
  import opened CopyClimb

  /** How a copy ends: with a root, at one of two assertions, or at a pointer that is not there. */
  datatype Outcome = Done(root: Ref) | NoSource | InsidePath | NoRootValue | NullPointer

  class TrieStore {
    var disk: Disk
    var mem: Memory
    var nextRef: Ref

    constructor (d: Disk, m: Memory, n: Ref)
      requires Ok(d, m) && forall r :: r in m ==> r < n
      ensures Valid() && disk == d && mem == m
    {
      disk, mem, nextRef := d, m, n;
    }

    ghost predicate Valid()
      reads this
    {
      Ok(disk, mem) && forall r :: r in mem ==> r < nextRef
    }

    /** The child at branch `b`, loaded if it was not. */
    method EnsureLoaded(r: Ref, b: nat) returns (x: Ref)
      requires Valid() && r in mem && ChildAt(mem[r].kids, b).Some?
      modifies this
      ensures Valid() && disk == old(disk) && Loads(old(mem), mem)
      ensures Points(mem, r, b) == Some(x) && x in mem && KidAt(Shape(disk, old(mem)[r]).kids, b) ==
              Some(Shape(disk, mem[x]))
    {
      ChildView(disk, mem[r].kids, b);
      WholeIsView(disk, OffAt(mem, r, b));
      var c := Points(mem, r, b);
      if c.Some? {
        x := c.value;
        assert Faithful(disk, mem, r, b);
      } else {
        x := nextRef;
        LoadOk(disk, mem, r, b, x);
        LoadPoints(disk, mem, r, b, x, r, b);
        LoadKeeps(disk, mem, r, b, x);
        mem := AfterLoad(disk, mem, r, b, x);
        nextRef := nextRef + 1;
      }
    }

    /** Load the child at the next nibble and go there. */
    method Enter(ghost root: Ref, key: Nibbles, way: Way, e: nat) returns (way': Way)
      requires Valid() && OnWay(mem, root, key, way) && CanEnter(mem, key, way, e)
      modifies this
      ensures Valid() && disk == old(disk) && Loads(old(mem), mem)
      ensures OnWay(mem, root, key, way') && way'.done == e + 1
    {
      ghost var before := mem;
      var x := EnsureLoaded(way.node, key[e]);
      LoadedEntered(before, mem, root, key, way, x, e);
      way' := Further(key, way, x, e);
    }

    /** One round of the lookup loop: a nibble of the path, or a child. */
    method SearchStep(ghost root: Ref, key: Nibbles, way: Way, index: nat, used: nat)
        returns (stop: Option<Code>, way': Way, index': nat)
      requires Valid() && Placed(mem, root, key, way, index, used) && used < |key|
      modifies this
      ensures Valid() && disk == old(disk) && Loads(old(mem), mem)
      ensures
        if stop.None? then Placed(mem, root, key, way', index', used + 1)
        else way' == way && index' == index && Placed(mem, root, key, way, index, used) &&
             Answer(mem, key, way.node, index, used, stop.value)
    {
      if |mem[way.node].path| == index {
        if ChildAt(mem[way.node].kids, key[used]).None? {
          return Some(BranchNotExist), way, index;
        }
        assert mem[way.node].path[..index] == mem[way.node].path;
        way' := Enter(root, key, way, used);
        return None, way', 0;
      }
      if key[used] != mem[way.node].path[index] {
        return Some(KeyMismatch), way, index;
      }
      PlacedNibble(mem, root, key, way, index, used);
      return None, way, index + 1;
    }

    /** `find_blocking` on node objects. */
    method FindBlocking(root: Ref, key: Nibbles) returns (code: Code, node: Ref, index: nat)
      requires Valid() && root in mem
      modifies this
      ensures Valid() && disk == old(disk) && Loads(old(mem), mem) && node in mem
      ensures Locate(Shape(disk, old(mem)[root]), 0, key) == Found(code, Shape(disk, mem[node]), index)
      ensures code == Success ==> MemAt(mem, root, key) == Some(node)
    {
      var way, used := Way(Start, root, 0), 0;
      var stop: Option<Code> := None;
      index := 0;
      while used < |key| && stop.None?
        invariant Valid() && disk == old(disk) && Loads(old(mem), mem)
        invariant Placed(mem, root, key, way, index, used)
        invariant stop.Some? ==> Answer(mem, key, way.node, index, used, stop.value)
        decreases |key| - used, stop.None?
      {
        ghost var before := mem;
        stop, way, index := SearchStep(root, key, way, index, used);
        LoadsChain(old(mem), before, mem);
        used := if stop.None? then used + 1 else used;
      }
      node := way.node;
      code := if stop.Some? then stop.value else if index != |mem[node].path| then KeyEndsEarlier else Success;
      AnswerIsLocate(disk, mem, root, key, way, index, used, code);
      ShapeKept(disk, old(mem), disk, mem, root);
    }

    /** `make_node` from another node. */
    method MakeNode(s: Ref, path: Nibbles, value: Option<Bytes>) returns (f: Ref)
      requires Valid() && s in mem
      modifies this
      ensures Valid() && disk == old(disk) && f !in old(mem) && mem == AfterMove(old(mem), s, f, path, value)
      ensures Keeps(old(mem), mem) && Unowned(mem, f) && forall x :: x in old(mem) && Unowned(old(mem), x) ==>
              Unowned(mem, x)
    {
      f := nextRef;
      MoveOk(disk, mem, s, f, path, value);
      mem := AfterMove(mem, s, f, path, value);
      nextRef := nextRef + 1;
    }

    /** A new node without children. */
    method Alloc(path: Nibbles, value: Option<Bytes>) returns (g: Ref)
      requires Valid()
      modifies this
      ensures Valid() && disk == old(disk) && g !in old(mem) && mem == old(mem)[g := MemNode(path, value, NoMemKids)]
      ensures Keeps(old(mem), mem) && Unowned(mem, g) && forall x :: x in old(mem) && Unowned(old(mem), x) ==>
              Unowned(mem, x)
      ensures forall x, c :: Points(mem, x, c) == Points(old(mem), x, c)
    {
      g := nextRef;
      AllocOk(disk, mem, g, path, value);
      mem := mem[g := MemNode(path, value, NoMemKids)];
      nextRef := nextRef + 1;
    }

    /** Write `f` and make it a child of `g`. */
    method Attach(g: Ref, n: nat, f: Ref)
      requires Valid() && g in mem && f in mem && g != f && Unowned(mem, g) && Unowned(mem, f)
      modifies this
      ensures Valid() && disk == old(disk) + [Stored(old(mem)[f])] && mem == AfterLink(old(mem), g, n, |old(disk)|, f)
      ensures Unowned(mem, g) && (forall x :: x != f && Unowned(old(mem), x) ==> Unowned(mem, x))
      ensures forall x, c :: Points(mem, x, c) == if x == g && c == n then Some(f) else Points(old(mem), x, c)
      ensures
        var t := Shape(old(disk), old(mem)[g]);
        Shape(disk, mem[g]) == t.(kids := AddKid(t.kids, n, Shape(old(disk), old(mem)[f])))
    {
      var off := |disk|;
      WriteOk(disk, mem, Stored(mem[f]));
      Written(disk, Stored(mem[f]));
      LinkOk(disk + [Stored(mem[f])], mem, g, n, off, f);
      AddChildView(disk + [Stored(mem[f])], mem[g].kids, n, off, Some(f));
      WholeAppend(disk, [Stored(mem[f])], Stored(mem[g]));
      disk := disk + [Stored(mem[f])];
      mem := AfterLink(mem, g, n, off, f);
    }

    /** The destination node exists: the source takes its place. */
    method Replace(node: Ref, s: Ref) returns (g: Ref)
      requires Valid() && node in mem && s in mem
      modifies this
      ensures Valid() && Rebuilt(old(disk), old(mem), disk, mem, node, s, g)
      ensures Shape(disk, mem[g]) == Repathed(Shape(old(disk), old(mem)[s]), old(mem)[node].path)
    {
      ghost var before := mem;
      g := MakeNode(s, mem[node].path, mem[s].value);
      MovedRebuilt(disk, before, node, s, g, before[node].path, before[s].value);
    }

    /** `create_node_add_new_branch`: the source, moved to a new node, becomes a child of what was `node`. */
    method AddBranch(node: Ref, rest: Nibbles, s: Ref, value: Option<Bytes>) returns (g: Ref)
      requires Valid() && node in mem && s in mem && rest != []
      modifies this
      ensures Valid() && Rebuilt(old(disk), old(mem), disk, mem, node, s, g)
      ensures
        var t := Shape(old(disk), old(mem)[node]);
        Shape(disk, mem[g]) == Trie(t.path, value, AddKid(t.kids, rest[0],
                                                          Repathed(Shape(old(disk), old(mem)[s]), rest[1..])))
    {
      ghost var m0, d0 := mem, disk;
      var f := MakeNode(s, rest[1..], mem[s].value);
      ghost var m1 := mem;
      g := MakeNode(node, mem[node].path, value);
      ghost var m2 := mem;
      MovedTwice(disk, m0, m1, m2, node, s, f, rest[1..], m0[s].value, g, m1[node].path, value);
      Attach(g, rest[0], f);
      AttachedRebuilt(d0, m0, d0, m2, disk, mem, node, s, g, rest[0], |d0|, f);
    }

    /** `create_node_with_two_children`: the graft and the rest of the split node. */
    method SplitNode(node: Ref, n: nat, rest: Nibbles, s: Ref, value: Option<Bytes>) returns (g: Ref)
      requires Valid() && node in mem && s in mem && n < |mem[node].path| && n < |rest|
      modifies this
      ensures Valid() && Rebuilt(old(disk), old(mem), disk, mem, node, s, g)
      ensures Shape(disk, mem[g]) == Split(Shape(old(disk), old(mem)[node]), n, rest,
                                           Shape(old(disk), old(mem)[s])).(value := value)
    {
      ghost var m0, d0 := mem, disk;
      var path := mem[node].path;
      var f := MakeNode(s, rest[n + 1..], mem[s].value);
      ghost var m1 := mem;
      var h := MakeNode(node, path[n + 1..], mem[node].value);
      ghost var m2 := mem;
      MovedTwice(d0, m0, m1, m2, node, s, f, rest[n + 1..], m0[s].value, h, path[n + 1..], m1[node].value);
      g := Alloc(path[..n], value);
      ghost var m3 := mem;
      AllocRebuilt(d0, m0, d0, m2, m3, node, s, h, g, path[..n], value);
      Attach(g, rest[n], f);
      ghost var m4, d4 := mem, disk;
      AttachedRebuilt(d0, m0, d0, m3, d4, m4, node, s, g, rest[n], |d0|, f);
      ShapeKept(d0, m3, d4, m4, h);
      Attach(g, path[n], h);
      AttachedRebuilt(d0, m0, d4, m4, disk, mem, node, s, g, path[n], |d4|, h);
    }

    /** The node that takes the place of the one where the descent stopped. */
    method Rebuild(node: Ref, n: nat, rest: Nibbles, s: Ref, atRoot: bool, rootValue: Option<Bytes>)
        returns (made: Option<Ref>)
      requires Valid() && node in mem && s in mem && Stopped(mem[node], n, rest)
      modifies this
      ensures Valid()
      ensures made.None? ==> disk == old(disk) && mem == old(mem)
      ensures made.Some? ==> Rebuilt(old(disk), old(mem), disk, mem, node, s, made.value)
      ensures
        var g := Graft(Shape(old(disk), old(mem)[node]), rest, Shape(old(disk), old(mem)[s]));
        g.Some? == made.Some? &&
        (made.Some? ==>
          Shape(disk, mem[made.value]) ==
          if atRoot && rest != old(mem)[node].path then g.value.(value := rootValue)
          else g.value)
    {
      StoppedGraft(disk, mem[node], n, rest, Shape(disk, mem[s]));
      if n == |rest| {
        if n != |mem[node].path| {
          return None;
        }
        assert rest[..n] == rest && mem[node].path[..n] == mem[node].path;
        var g := Replace(node, s);
        return Some(g);
      } else if n < |mem[node].path| {
        var g := SplitNode(node, n, rest, s, if atRoot then rootValue else None);
        return Some(g);
      } else {
        assert rest[n..][0] == rest[n] && rest[n..][1..] == rest[n + 1..];
        var g := AddBranch(node, rest[n..], s, if atRoot then rootValue else mem[node].value);
        return Some(g);
      }
    }

    /** How much of the node's path the key follows. */
    method FollowPath(path: Nibbles, rest: Nibbles) returns (n: nat)
      ensures Following(path, rest, n)
    {
      n := 0;
      while n < |rest| && n < |path| && rest[n] == path[n]
        invariant n <= |path| && n <= |rest| && path[..n] == rest[..n]
      {
        OneMoreNibble(path, rest, n);
        n := n + 1;
      }
    }

    /** The descent of `copy_trie_impl`. */
    method Descend(root: Ref, key: Nibbles) returns (way: Way, n: nat)
      requires Valid() && root in mem
      modifies this
      ensures Valid() && disk == old(disk) && Loads(old(mem), mem)
      ensures OnWay(mem, root, key, way) && Stopped(mem[way.node], n, key[way.done..])
    {
      way := Way(Start, root, 0);
      n := FollowPath(mem[root].path, key[0..]);
      while way.done + n < |key| && n == |mem[way.node].path| && ChildAt(mem[way.node].kids, key[way.done + n]).Some?
        invariant Valid() && disk == old(disk) && Loads(old(mem), mem)
        invariant OnWay(mem, root, key, way) && Follows(mem, key, way, n)
        decreases |key| - way.done
      {
        ghost var before := mem;
        FollowsOn(mem, key, way, n);
        way := Enter(root, key, way, way.done + n);
        LoadsChain(old(mem), before, mem);
        n := FollowPath(mem[way.node].path, key[way.done..]);
      }
      FollowsOn(mem, key, way, n);
    }

    /** `set_fnext(async_write_node_set_spare(...))`: write the child of a parent and store its offset there. */
    method WriteTop(ghost frames: seq<Frame>, ghost made: Ref, ghost broken: int, ghost j: nat, ghost stale: set<Frame>,
                    ghost target: Option<Trie>, top: Frame, child: Ref)
      requires Climbing(disk, mem, frames, made, broken, j, stale, target) && Apart(frames, made)
      requires 0 < j && top == frames[j - 1] && Points(mem, top.node, top.branch) == Some(child)
      modifies this`disk, this`mem
      ensures Climbing(disk, mem, frames, made, broken, if j == |frames| then j else j - 1, Above(frames, j), target)
      ensures Climbing(disk, mem, frames, made, broken, j - 1, Above(frames, j), target)
      ensures old(disk) <= disk && OnlyFrames(old(mem), mem, frames)
    {
      ClimbStep(disk, mem, frames, made, broken, j, stale, target);
      disk, mem := disk + [Stored(mem[child])], AfterSet(mem, top.node, top.branch, |disk|, child);
    }

    /**
      Set the last parent's pointer to the new node, then write the nodes of the
      insertion path, each with its new offset stored in its parent. The last
      parent is on the stack twice. A parent without a pointer stops it.
     */
    method Unwind(frames: seq<Frame>, made: Ref, ghost broken: int) returns (ok: bool)
      requires Valid() && frames != [] && made in mem && Unowned(mem, made) && Unowned(mem, frames[0].node)
      requires Apart(frames, made) && Strung(mem, frames, broken) && broken < |frames| - 1
      modifies this`disk, this`mem
      ensures ok <==> broken < 0
      ensures ok ==> Valid() && old(disk) <= disk && frames[0].node in mem && InMemory(old(mem), frames)
      ensures ok ==>
        Some(Shape(disk, mem[frames[0].node])) ==
        Plug(old(disk), old(mem), frames, Some(Shape(old(disk), old(mem)[made])))
      ensures ok ==> OnlyFrames(old(mem), mem, frames)
    {
      ghost var m0, target := mem, Plug(disk, mem, frames, Some(Shape(disk, mem[made])));
      HangStarts(disk, mem, frames, made, broken);
      HangOnly(mem, frames, made);
      mem := HungMemory(mem, frames, made);
      ghost var m1 := mem;
      ok := WriteStack(frames, made, broken, target);
      ClimbedRefs(m0, m1, mem, frames, nextRef);
    }

    /** The loop that writes the insertion path. */
    method WriteStack(frames: seq<Frame>, ghost made: Ref, ghost broken: int, ghost target: Option<Trie>)
        returns (ok: bool)
      requires frames != [] && Apart(frames, made) && broken < |frames| - 1
      requires Climbing(disk, mem, frames, made, broken, |frames|, {frames[|frames| - 1]}, target)
      modifies this`disk, this`mem
      ensures ok <==> broken < 0
      ensures ok ==> Ok(disk, mem) && frames[0].node in mem && Some(Shape(disk, mem[frames[0].node])) == target
      ensures old(disk) <= disk && OnlyFrames(old(mem), mem, frames)
    {
      var stack := frames + [frames[|frames| - 1]];
      ghost var j, stale := |frames|, {frames[|frames| - 1]};
      while stack != []
        invariant Stacked(stack, frames, j)
        invariant Climbing(disk, mem, frames, made, broken, j, stale, target)
        invariant old(disk) <= disk && OnlyFrames(old(mem), mem, frames)
        decreases |stack|
      {
        var top := stack[|stack| - 1];
        StackTop(stack, frames, j);
        var child := Points(mem, top.node, top.branch);
        if child.None? {
          return false;
        }
        ghost var before := mem;
        WriteTop(frames, made, broken, j, stale, target, top, child.value);
        OnlyFramesChain(old(mem), before, mem, frames);
        stale := Above(frames, j);
        j := if |stack| == j then j - 1 else j;
        stack := stack[..|stack| - 1];
      }
      RisenOk(disk, mem, frames, made, stale, target);
      ok := true;
    }

    /** No destination yet: a new root with one child. */
    method NewRoot(key: Nibbles, s: Ref, rootValue: Option<Bytes>) returns (g: Ref)
      requires Valid() && s in mem && key != []
      modifies this
      ensures Valid() && old(disk) <= disk && g in mem && Keeps(old(mem), mem)
      ensures Some(Shape(disk, mem[g])) == RootGraft(BLANK, key, Shape(old(disk), old(mem)[s]), rootValue)
    {
      ghost var m0, d0 := mem, disk;
      var f := MakeNode(s, key[1..], mem[s].value);
      ghost var m1 := mem;
      MovedRebuilt(d0, m0, s, s, f, key[1..], m0[s].value);
      g := Alloc([], rootValue);
      ghost var m2 := mem;
      AllocRebuilt(d0, m0, d0, m1, m2, s, s, f, g, [], rootValue);
      Attach(g, key[0], f);
      AttachedRebuilt(d0, m0, d0, m2, disk, mem, s, s, g, key[0], |d0|, f);
      BlankGraft(key, Shape(d0, m0[s]), rootValue);
    }

    /** The descent and the new node. */
    method Replant(root: Ref, key: Nibbles, s: Ref, rootValue: Option<Bytes>, ghost srcRoot: Ref,
                   ghost srcPrefix: Nibbles)
        returns (frames: seq<Frame>, made: Option<Ref>, ghost broken: int)
      requires Valid() && root in mem && Unowned(mem, root) && s in mem
      requires srcRoot in mem && Unowned(mem, srcRoot) && MemAt(mem, srcRoot, srcPrefix) == Some(s)
      modifies this
      ensures Valid() && old(disk) <= disk && Keeps(old(mem), mem)
      ensures made.None? <==> EndsInside(Shape(old(disk), old(mem)[root]), key)
      ensures
        var t, src := Shape(old(disk), old(mem)[root]), Shape(old(disk), old(mem)[s]);
        made.Some? ==>
          made.value in mem && InMemory(mem, frames) &&
          Plug(disk, mem, frames, Some(Shape(disk, mem[made.value]))) == RootGraft(t, key, src, rootValue) &&
          (frames == [] ==> !Severed(t, srcPrefix, key) && (AtRoot(t, key) <==> key != t.path)) &&
          (frames != [] ==> !AtRoot(t, key)) &&
          (frames != [] ==> ReadyToClimb(mem, root, frames, made.value, broken) &&
                            (broken < 0 <==> !(srcRoot == root && Severed(t, srcPrefix, key))) &&
                            (srcRoot != root ==> forall x :: 0 <= x < |frames| ==> frames[x].node != srcRoot))
    {
      ghost var t, src := Shape(disk, mem[root]), Shape(disk, mem[s]);
      ghost var m0 := mem;
      var way, n := Descend(root, key);
      ghost var m1, d1 := mem, disk;
      ShapeKept(d1, m0, d1, m1, root);
      ShapeKept(d1, m0, d1, m1, s);
      MemAtLoads(m0, m1, srcRoot, srcPrefix);
      CopyPlan(disk, mem, root, key, src, way, n);
      frames := Frames(way.trail);
      made := Rebuild(way.node, n, key[way.done..], s, frames == [], rootValue);
      broken := FindBroken(frames, s);
      RootBranch(d1, m1, root, key, way);
      if made.Some? && frames == [] {
        assert key[0..] == key;
        RootAfter(d1, m1, root, key, src, n, Shape(disk, mem[made.value]), rootValue);
      } else if made.Some? {
        PlugAfter(d1, m1, disk, mem, root, key, src, way, made.value, rootValue);
        Climbable(d1, m1, disk, mem, root, key, way, s, made.value, srcRoot, srcPrefix, broken);
      }
    }

    /** The copy into an existing destination. */
    method CopyInto(root: Ref, key: Nibbles, s: Ref, rootValue: Option<Bytes>, ghost srcRoot: Ref,
                    ghost srcPrefix: Nibbles) returns (r: Outcome)
      requires Valid() && root in mem && Unowned(mem, root) && s in mem
      requires srcRoot in mem && Unowned(mem, srcRoot) && MemAt(mem, srcRoot, srcPrefix) == Some(s)
      modifies this
      ensures
        var t, src := Shape(old(disk), old(mem)[root]), Shape(old(disk), old(mem)[s]);
        !r.NoSource? && (r.InsidePath? <==> EndsInside(t, key)) &&
        (r.NoRootValue? <==> !EndsInside(t, key) && AtRoot(t, key) && rootValue.None?) &&
        (r.NullPointer? <==> !EndsInside(t, key) && srcRoot == root && Severed(t, srcPrefix, key)) &&
        (r.Done? ==>
          Valid() && old(disk) <= disk && r.root in mem &&
          Some(Shape(disk, mem[r.root])) == RootGraft(t, key, src, rootValue))
      ensures r.Done? && srcRoot != root ==> srcRoot in mem && Stored(mem[srcRoot]) == Stored(old(mem)[srcRoot])
    {
      var frames, made;
      ghost var broken;
      var path := mem[root].path;
      frames, made, broken := Replant(root, key, s, rootValue, srcRoot, srcPrefix);
      if made.None? {
        return InsidePath;
      }
      if frames == [] {
        if key != path && rootValue.None? {
          return NoRootValue;
        }
        return Done(made.value);
      }
      var ok := Unwind(frames, made.value, broken);
      return if ok then Done(root) else NullPointer;
    }

    /** `copy_trie_impl`, without the promise about lookups. */
    method CopyNodes(srcRoot: Ref, srcPrefix: Nibbles, destRoot: Option<Ref>, destPrefix: Nibbles) returns (r: Outcome)
      requires Valid() && srcRoot in mem && Unowned(mem, srcRoot)
      requires if destRoot.Some? then destRoot.value in mem && Unowned(mem, destRoot.value) else destPrefix != []
      modifies this
      ensures
        var from := Shape(old(disk), old(mem)[srcRoot]);
        var before := Destination(old(disk), old(mem), destRoot);
        var found := Locate(from, 0, srcPrefix);
        found.Found? && (r.NoSource? <==> found.code != Success) &&
        (r.InsidePath? <==> found.code == Success && EndsInside(before, destPrefix)) &&
        (r.NoRootValue? <==>
          found.code == Success && !EndsInside(before, destPrefix) && AtRoot(before, destPrefix) &&
          from.value.None?) &&
        (r.NullPointer? <==>
          found.code == Success && !EndsInside(before, destPrefix) && destRoot == Some(srcRoot) &&
          Severed(before, srcPrefix, destPrefix)) &&
        (r.Done? ==> Valid() && old(disk) <= disk && r.root in mem &&
                     RootGraft(before, destPrefix, found.node, from.value) == Some(Shape(disk, mem[r.root])))
      ensures r.Done? && destRoot != Some(srcRoot) ==>
        srcRoot in mem &&
        Stored(mem[srcRoot]) == Stored(old(mem)[srcRoot])
    {
      ghost var m0 := mem;
      var code, s, index := FindBlocking(srcRoot, srcPrefix);
      if code != Success {
        return NoSource;
      }
      ghost var m1 := mem;
      var rootValue := mem[srcRoot].value;
      assert Stored(m1[srcRoot]) == Stored(m0[srcRoot]);
      if destRoot.None? {
        if rootValue.None? {
          return NoRootValue;
        }
        var g := NewRoot(destPrefix, s, rootValue);
        return Done(g);
      }
      ShapeKept(disk, m0, disk, m1, destRoot.value);
      assert Stored(m1[destRoot.value]) == Stored(m0[destRoot.value]);
      r := CopyInto(destRoot.value, destPrefix, s, rootValue, srcRoot, srcPrefix);
    }

    /**
      `copy_trie_impl`. It fails at an assertion when the source prefix is not
      that of a node, the destination prefix ends inside a node's path, or the
      source root has no value for a new root, and at a missing pointer exactly
      when the source lies on the way to the destination above the last parent.
      Otherwise every lookup, made through memory, finds under the destination
      prefix what it found under the source prefix, and elsewhere what it found
      there before, but for a root that is split or gets a branch: its own key
      now has the source root's value. A source in another trie can be looked
      up as before.
     */
    method CopyTrieImpl(srcRoot: Ref, srcPrefix: Nibbles, destRoot: Option<Ref>, destPrefix: Nibbles)
        returns (r: Outcome)
      requires Valid() && srcRoot in mem && Unowned(mem, srcRoot)
      requires if destRoot.Some? then destRoot.value in mem && Unowned(mem, destRoot.value) else destPrefix != []
      modifies this
      ensures
        var from := Shape(old(disk), old(mem)[srcRoot]);
        var before := Destination(old(disk), old(mem), destRoot);
        var found := Locate(from, 0, srcPrefix);
        found.Found? && (r.NoSource? <==> found.code != Success) &&
        (r.InsidePath? <==> found.code == Success && EndsInside(before, destPrefix)) &&
        (r.NoRootValue? <==>
          found.code == Success && !EndsInside(before, destPrefix) && AtRoot(before, destPrefix) &&
          from.value.None?) &&
        (r.NullPointer? <==>
          found.code == Success && !EndsInside(before, destPrefix) && destRoot == Some(srcRoot) &&
          Severed(before, srcPrefix, destPrefix)) &&
        (r.Done? ==> Valid() && old(disk) <= disk && r.root in mem &&
                     RootGraft(before, destPrefix, found.node, from.value) == Some(Shape(disk, mem[r.root]))) &&
        (r.Done? && Proper(before, from, destPrefix) ==>
          forall k: Nibbles ::
            MemGet(disk, mem, mem[r.root], k) == Copied(old(disk), old(mem), srcRoot, srcPrefix, destRoot, destPrefix,
                                                        k))
      ensures r.Done? && destRoot != Some(srcRoot) ==>
        srcRoot in mem &&
        forall k: Nibbles ::
          MemGet(disk, mem, mem[srcRoot], k) == MemGet(old(disk), old(mem), old(mem)[srcRoot], k)
    {
      ghost var d0, m0 := disk, mem;
      r := CopyNodes(srcRoot, srcPrefix, destRoot, destPrefix);
      if r.Done? {
        if Proper(Destination(d0, m0, destRoot), Shape(d0, m0[srcRoot]), destPrefix) {
          LookupsAfter(d0, m0, disk, mem, srcRoot, srcPrefix, destRoot, destPrefix, r.root);
        }
        if destRoot != Some(srcRoot) {
          LookupsKept(d0, m0, disk, mem, srcRoot);
        }
      }
    }
  }

  // ---- a copy that fails ----

  /** Nodes with values at 1, 12 and 123, all on disk. */
  const EXAMPLE_DISK: Disk := [
    DiskNode([], Some([3]), NoDiskKids),
    DiskNode([], Some([2]), DiskKid(3, 0, NoDiskKids)),
    DiskNode([], Some([1]), DiskKid(2, 1, NoDiskKids))]

  /** The root of the example, nothing below it loaded. */
  const EXAMPLE_MEMORY: Memory := map[0 := MemNode([], Some([9]), MemKid(1, 2, None, NoMemKids))]

  lemma ExampleShape()
    ensures
      var leaf := Trie([], Some([3]), NoKids);
      var middle := Trie([], Some([2]), Kid(3, leaf, NoKids));
      var upper := Trie([], Some([1]), Kid(2, middle, NoKids));
      Shape(EXAMPLE_DISK, EXAMPLE_MEMORY[0]) == Trie([], Some([9]), Kid(1, upper, NoKids))
  {
    var d := EXAMPLE_DISK;
    assert View(d, 0) == Trie([], Some([3]), NoKids);
    assert View(d, 1) == Trie([], Some([2]), Kid(3, View(d, 0), NoKids));
    assert View(d, 2) == Trie([], Some([1]), Kid(2, View(d, 1), NoKids));
  }

  lemma ExampleParents()
    ensures Parents(Shape(EXAMPLE_DISK, EXAMPLE_MEMORY[0]), [1, 2, 3, 4], 0) == [0, 1, 2]
  {
    ExampleShape();
    var t := Shape(EXAMPLE_DISK, EXAMPLE_MEMORY[0]);
    var upper := KidAt(t.kids, 1).value;
    var middle := KidAt(upper.kids, 2).value;
    var leaf := KidAt(middle.kids, 3).value;
    assert Parents(leaf, [4], 3) == [];
    assert [3, 4][1..] == [4];
    assert Parents(middle, [3, 4], 2) == [2];
    assert [2, 3, 4][1..] == [3, 4];
    assert Parents(upper, [2, 3, 4], 1) == [1, 2];
    assert [1, 2, 3, 4][1..] == [2, 3, 4];
  }

  lemma ExampleOk()
    ensures Ok(EXAMPLE_DISK, EXAMPLE_MEMORY) && Unowned(EXAMPLE_MEMORY, 0)
  {
    forall r, b
      ensures Points(EXAMPLE_MEMORY, r, b) == None
    {
      if r in EXAMPLE_MEMORY && b != 1 {
        assert ChildAt(EXAMPLE_MEMORY[r].kids, b) == ChildAt(NoMemKids, b);
      }
    }
  }

  lemma ExampleKey()
    ensures
      var t := Shape(EXAMPLE_DISK, EXAMPLE_MEMORY[0]);
      Locate(t, 0, [1]).code == Success && !EndsInside(t, [1, 2, 3, 4])
  {
    ExampleShape();
    var upper := KidAt(Shape(EXAMPLE_DISK, EXAMPLE_MEMORY[0]).kids, 1).value;
    var middle := KidAt(upper.kids, 2).value;
    var leaf := KidAt(middle.kids, 3).value;
    assert [1][1..] == [];
    assert [1, 2, 3, 4][1..] == [2, 3, 4] && [2, 3, 4][1..] == [3, 4] && [3, 4][1..] == [4];
    assert !EndsInside(leaf, [4]);
    assert !EndsInside(middle, [3, 4]) by { assert [3, 4][|middle.path| + 1..] == [4]; }
    assert !EndsInside(upper, [2, 3, 4]) by { assert [2, 3, 4][|upper.path| + 1..] == [3, 4]; }
  }

  /** A valid store where copying the node at 1 to 1234 meets a missing pointer. */
  lemma CopyCanFail()
    ensures Ok(EXAMPLE_DISK, EXAMPLE_MEMORY) && Unowned(EXAMPLE_MEMORY, 0) && EXAMPLE_MEMORY[0].value.Some?
    ensures
      var t := Shape(EXAMPLE_DISK, EXAMPLE_MEMORY[0]);
      Locate(t, 0, [1]).code == Success && !EndsInside(t, [1, 2, 3, 4]) && Severed(t, [1], [1, 2, 3, 4])
  {
    ExampleOk();
    ExampleKey();
    ExampleParents();
    assert [0, 1, 2][..2] == [0, 1] && 1 in [0, 1];
    assert [1] <= [1, 2, 3, 4];
  }

  /** The copy itself, on that store. */
  method CopyOntoOwnPath() returns (r: Outcome)
    ensures r.NullPointer?
  {
    CopyCanFail();
    var store := new TrieStore(EXAMPLE_DISK, EXAMPLE_MEMORY, 1);
    r := store.CopyTrieImpl(0, [1], Some(0), [1, 2, 3, 4]);
  }
}
