/**
  What building the new node and the way back up do to memory, to the disk and
  to the trie they stand for.
 */
module CopyClimb {
  import opened Options
  import opened YellowPaper
  import opened MerkleCompute
  import opened TrieLookup
  import opened CopyTrie
  import opened NodeStore
  import opened CopyDescent

  // ---- the new node ----

  /**
    What building the new node `g` leaves: nothing old changes its stored form,
    the source has no pointers any more, and only the replaced node may have lost its own.
   */
  ghost predicate Rebuilt(disk: Disk, mem: Memory, disk': Disk, mem': Memory, node: Ref, s: Ref, g: Ref) {
    disk <= disk' && Keeps(mem, mem') && g in mem' && g !in mem && Unowned(mem', g) &&
    (forall x :: x in mem && Unowned(mem, x) ==> Unowned(mem', x)) &&
    (forall x, c :: x in mem && x != s && x != node ==> Points(mem', x, c) == Points(mem, x, c)) &&
    (forall c :: Points(mem', s, c) == None)
  }

  lemma MovedRebuilt(disk: Disk, mem: Memory, node: Ref, s: Ref, g: Ref, path: Nibbles, value: Option<Bytes>)
    requires Ok(disk, mem) && s in mem && g !in mem
    ensures Rebuilt(disk, mem, disk, AfterMove(mem, s, g, path, value), node, s, g)
  {
    MoveOk(disk, mem, s, g, path, value);
    forall x, c
      ensures Points(AfterMove(mem, s, g, path, value), x, c) ==
              if x == s then None
              else if x == g then Points(mem, s, c) else Points(mem, x, c)
    {
      MovePoints(mem, s, g, path, value, x, c);
    }
  }

  /** First the source's pointers move to `f`, then those of `node` to `g`. */
  lemma MovedTwice(disk: Disk, m0: Memory, m1: Memory, m2: Memory, node: Ref, s: Ref, f: Ref, fp: Nibbles,
                   fv: Option<Bytes>,
                   g: Ref, gp: Nibbles, gv: Option<Bytes>)
    requires Ok(disk, m0) && s in m0 && node in m0 && f !in m0 && m1 == AfterMove(m0, s, f, fp, fv)
    requires g !in m1 && m2 == AfterMove(m1, node, g, gp, gv)
    ensures Rebuilt(disk, m0, disk, m2, node, s, g)
    ensures f in m2 && f != g && Unowned(m2, f)
    ensures Shape(disk, m2[f]) == Trie(fp, fv, Shape(disk, m0[s]).kids) &&
            Shape(disk, m2[g]) == Trie(gp, gv, Shape(disk, m0[node]).kids)
  {
    MoveOk(disk, m0, s, f, fp, fv);
    MoveOk(disk, m1, node, g, gp, gv);
    forall x, c
      ensures x in m0 ==> Points(m2, x, c) == if x == s || x == node then None else Points(m0, x, c)
    {
      MovePoints(m0, s, f, fp, fv, x, c);
      MovePoints(m1, node, g, gp, gv, x, c);
    }
    assert Stored(m1[node]) == Stored(m0[node]) && Stored(m2[f]) == Stored(m1[f]);
  }

  /** Attaching a node that is new as well to the new node. */
  lemma AttachedRebuilt(disk: Disk, mem: Memory, disk1: Disk, mem1: Memory, disk2: Disk, mem2: Memory, node: Ref,
                        s: Ref, g: Ref, n: nat, off: nat, f: Ref)
    requires Rebuilt(disk, mem, disk1, mem1, node, s, g) && disk1 <= disk2 && f !in mem && s in mem &&
             mem2 == AfterLink(mem1, g, n, off, f)
    requires Unowned(mem2, g) && (forall x :: x != f && Unowned(mem1, x) ==> Unowned(mem2, x))
    requires forall x, c :: Points(mem2, x, c) == if x == g && c == n then Some(f) else Points(mem1, x, c)
    ensures Rebuilt(disk, mem, disk2, mem2, node, s, g)
  {
  }

  /** A fresh node without children takes the place of the new node. */
  lemma AllocRebuilt(disk: Disk, mem: Memory, disk1: Disk, mem1: Memory, mem2: Memory, node: Ref, s: Ref, h: Ref,
                     g: Ref, path: Nibbles, value: Option<Bytes>)
    requires Rebuilt(disk, mem, disk1, mem1, node, s, h) && s in mem && g !in mem1 &&
             mem2 == mem1[g := MemNode(path, value, NoMemKids)]
    requires Keeps(mem1, mem2) && Unowned(mem2, g) && (forall x :: x in mem1 && Unowned(mem1, x) ==> Unowned(mem2, x))
    requires forall x, c :: Points(mem2, x, c) == Points(mem1, x, c)
    ensures Rebuilt(disk, mem, disk1, mem2, node, s, g)
  {
  }

  /** The graft where the descent stops. */
  lemma StoppedGraft(disk: Disk, m: MemNode, n: nat, rest: Nibbles, src: Trie)
    requires Stopped(m, n, rest) && WrittenBefore(StoredKids(m.kids), |disk|)
    ensures
      var t := Shape(disk, m);
      Graft(t, rest, src) ==
      if n == |rest| then (if n == |m.path| then Some(Repathed(src, m.path)) else None)
      else if n < |m.path| then Some(Split(t, n, rest, src))
      else Some(t.(kids := AddKid(t.kids, rest[n], Repathed(src, rest[n + 1..]))))
    ensures !(n < |rest| && n == |m.path| && KidAt(Shape(disk, m).kids, rest[n]).Some?)
  {
    CommonIs(m.path, rest, n);
    if n < |rest| {
      ChildView(disk, m.kids, rest[n]);
    }
  }

  /** Where the descent stops there are no more parents. */
  lemma StoppedParents(disk: Disk, m: MemNode, n: nat, rest: Nibbles, at: nat)
    requires Stopped(m, n, rest) && WrittenBefore(StoredKids(m.kids), |disk|)
    ensures Parents(Shape(disk, m), rest, at) == []
  {
    if n < |rest| {
      ChildView(disk, m.kids, rest[n]);
    }
  }

  // ---- the way up ----

  ghost predicate Apart(frames: seq<Frame>, made: Ref) {
    (forall x, y :: 0 <= x < y < |frames| ==> frames[x].node != frames[y].node) &&
    (forall x :: 0 <= x < |frames| ==> frames[x].node != made)
  }

  /** The parents still point to each other, except that one of them may have lost its pointer. */
  ghost predicate Strung(mem: Memory, frames: seq<Frame>, broken: int) {
    (forall x :: 0 <= x < |frames| ==>
      frames[x].node in mem &&
      ChildAt(mem[frames[x].node].kids, frames[x].branch).Some?) &&
    forall x :: 0 <= x < |frames| - 1 ==> StrungAt(mem, frames, broken, x)
  }

  ghost predicate StrungAt(mem: Memory, frames: seq<Frame>, broken: int, x: int)
    requires 0 <= x < |frames| - 1
  {
    Points(mem, frames[x].node, frames[x].branch) == if x == broken then None else Some(frames[x + 1].node)
  }

  /** The node below parent `x`. */
  ghost function Under(frames: seq<Frame>, made: Ref, x: int): Ref
    requires -1 <= x < |frames|
  {
    if x + 1 < |frames| then frames[x + 1].node else made
  }

  /** The same with the new node below the last parent. */
  ghost predicate Hung(mem: Memory, frames: seq<Frame>, made: Ref, broken: int) {
    made in mem && forall x :: 0 <= x < |frames| ==>
      frames[x].node in mem &&
      Points(mem, frames[x].node, frames[x].branch) == if x == broken then None else Some(Under(frames, made, x))
  }

  /** The pointer to parent `j - 1`. */
  ghost function Above(frames: seq<Frame>, j: nat): set<Frame>
    requires j <= |frames|
  {
    if j < 2 then {} else {frames[j - 2]}
  }

  /**
    Parents `j` and up are written; at most the pointers at parents `j - 1` and
    `j - 2` are stale; the result is on its way up.
   */
  ghost predicate Rising(disk: Disk, mem: Memory, frames: seq<Frame>, made: Ref, j: nat, stale: set<Frame>,
                         target: Option<Trie>) {
    frames != [] && j <= |frames| && Hung(mem, frames, made, -1) && InMemory(mem, frames) &&
    Unowned(mem, frames[0].node) &&
    OkBut(disk, mem, stale) && stale <= Above(frames, j) + (if j == 0 then {} else {frames[j - 1]}) &&
    Plug(disk, mem, frames[..j], Some(Shape(disk, mem[Under(frames, made, j - 1)]))) == target
  }

  /** Memory once the new node hangs below the last parent. */
  function HungMemory(mem: Memory, frames: seq<Frame>, made: Ref): Memory
    requires frames != [] && frames[|frames| - 1].node in mem
  {
    var last := frames[|frames| - 1];
    AfterSet(mem, last.node, last.branch, OffAt(mem, last.node, last.branch), made)
  }

  lemma HangLinks(mem: Memory, frames: seq<Frame>, made: Ref, broken: int)
    requires frames != [] && made in mem && Apart(frames, made) && Strung(mem, frames, broken) && broken < |frames| - 1
    ensures Hung(HungMemory(mem, frames, made), frames, made, broken) && HungMemory(mem, frames, made).Keys == mem.Keys
  {
    var last := frames[|frames| - 1];
    forall x | 0 <= x < |frames|
      ensures Points(HungMemory(mem, frames, made), frames[x].node, frames[x].branch) ==
              if x == broken then None
              else Some(Under(frames, made, x))
    {
      if x < |frames| - 1 {
        assert frames[x].node != frames[|frames| - 1].node;
        assert StrungAt(mem, frames, broken, x);
      }
      SetPoints(mem, last.node, last.branch, OffAt(mem, last.node, last.branch), made, frames[x].node,
                frames[x].branch);
    }
  }

  lemma HangPlugs(disk: Disk, mem: Memory, frames: seq<Frame>, made: Ref)
    requires Ok(disk, mem) && frames != [] && made in mem && Unowned(mem, made) && InMemory(mem, frames)
    requires ChildAt(mem[frames[|frames| - 1].node].kids, frames[|frames| - 1].branch).Some?
    ensures
      var mem' := HungMemory(mem, frames, made);
      InMemory(mem', frames) && made in mem' && OkBut(disk, mem', {frames[|frames| - 1]}) &&
      (forall x :: x != made && Unowned(mem, x) ==> Unowned(mem', x)) &&
      Plug(disk, mem', frames, Some(Shape(disk, mem'[made]))) == Plug(disk, mem, frames, Some(Shape(disk, mem[made])))
  {
    var last := frames[|frames| - 1];
    var mem' := HungMemory(mem, frames, made);
    HangOk(disk, mem, last.node, last.branch, made);
    KeepsShapes(disk, mem, disk, mem', frames);
    ShapeKept(disk, mem, disk, mem', made);
    PlugSame(disk, mem, disk, mem', frames, Some(Shape(disk, mem[made])));
  }

  /** The links, and unless a pointer is missing also the values. */
  ghost predicate Climbing(disk: Disk, mem: Memory, frames: seq<Frame>, made: Ref, broken: int, j: nat,
                           stale: set<Frame>, target: Option<Trie>) {
    j <= |frames| && broken < j && Hung(mem, frames, made, broken) &&
    (broken < 0 ==> Rising(disk, mem, frames, made, j, stale, target))
  }

  lemma HangStarts(disk: Disk, mem: Memory, frames: seq<Frame>, made: Ref, broken: int)
    requires Ok(disk, mem) && frames != [] && made in mem && Unowned(mem, made) && Unowned(mem, frames[0].node)
    requires Apart(frames, made) && Strung(mem, frames, broken) && broken < |frames| - 1 && InMemory(mem, frames)
    ensures
      Climbing(disk, HungMemory(mem, frames, made), frames, made, broken, |frames|, {frames[|frames| - 1]},
               Plug(disk, mem, frames, Some(Shape(disk, mem[made]))))
  {
    HangLinks(mem, frames, made, broken);
    HangPlugs(disk, mem, frames, made);
    assert frames[..|frames|] == frames;
    if broken < 0 {
      assert Hung(HungMemory(mem, frames, made), frames, made, -1);
    }
  }

  /** Writing a child does not change who points to whom. */
  lemma HungStep(disk: Disk, mem: Memory, frames: seq<Frame>, made: Ref, broken: int, j: nat)
    requires Hung(mem, frames, made, broken) && 0 < j <= |frames| &&
             Points(mem, frames[j - 1].node, frames[j - 1].branch).Some?
    ensures
      var p, g := frames[j - 1], Points(mem, frames[j - 1].node, frames[j - 1].branch).value;
      var mem' := AfterSet(mem, p.node, p.branch, |disk|, g);
      g in mem && Hung(mem', frames, made, broken) && mem'.Keys == mem.Keys
  {
    var p, g := frames[j - 1], Points(mem, frames[j - 1].node, frames[j - 1].branch).value;
    forall x | 0 <= x < |frames|
      ensures Points(AfterSet(mem, p.node, p.branch, |disk|, g), frames[x].node, frames[x].branch) ==
              Points(mem, frames[x].node, frames[x].branch)
    {
      SetPoints(mem, p.node, p.branch, |disk|, g, frames[x].node, frames[x].branch);
    }
  }

  /** The parent with the written child has the shape with the child replaced; all others keep theirs. */
  lemma WrittenShapes(disk: Disk, mem: Memory, p: Ref, b: nat, g: Ref, x: Ref)
    requires WellFormed(disk) && Offsets(disk, mem) && p in mem && g in mem && x in mem && ChildAt(mem[p].kids, b).Some?
    ensures
      var disk', mem' := disk + [Stored(mem[g])], AfterSet(mem, p, b, |disk|, g);
      Some(Shape(disk', mem'[x])) ==
      if x == p then PlugOne(Shape(disk, mem[p]), b, Some(Shape(disk, mem[g])))
      else Some(Shape(disk, mem[x]))
  {
    var d := Stored(mem[g]);
    Written(disk, d);
    WholeAppend(disk, [d], Stored(mem[x]));
    WholeAppend(disk, [d], Stored(mem[p]));
    SetChildView(disk + [d], mem[p].kids, b, |disk|, Some(g));
  }

  lemma RiseOk(disk: Disk, mem: Memory, frames: seq<Frame>, made: Ref, j: nat, stale: set<Frame>, target: Option<Trie>)
    requires Rising(disk, mem, frames, made, j, stale, target) && 0 < j && Apart(frames, made)
    ensures
      var p, g := frames[j - 1], Under(frames, made, j - 1);
      var disk', mem' := disk + [Stored(mem[g])], AfterSet(mem, p.node, p.branch, |disk|, g);
      Hung(mem', frames, made, -1) && InMemory(mem', frames) && Unowned(mem', frames[0].node) &&
      OkBut(disk', mem', Above(frames, j))
  {
    var p, g := frames[j - 1], Under(frames, made, j - 1);
    HungStep(disk, mem, frames, made, -1, j);
    forall x, c | Points(mem, x, c) == Some(p.node)
      ensures Frame(x, c) in Above(frames, j)
    {
      if j >= 2 {
        assert Points(mem, frames[j - 2].node, frames[j - 2].branch) == Some(p.node);
      }
    }
    WriteUpOk(disk, mem, stale, p.node, p.branch, g, Above(frames, j));
  }

  lemma RisePlug(disk: Disk, mem: Memory, frames: seq<Frame>, j: nat, g: Ref)
    requires WellFormed(disk) && Offsets(disk, mem) && InMemory(mem, frames) && 0 < j <= |frames| && g in mem &&
             g != frames[j - 1].node
    requires ChildAt(mem[frames[j - 1].node].kids, frames[j - 1].branch).Some?
    requires forall x :: 0 <= x < j - 1 ==> frames[x].node != frames[j - 1].node
    ensures
      var p := frames[j - 1];
      var disk', mem' := disk + [Stored(mem[g])], AfterSet(mem, p.node, p.branch, |disk|, g);
      InMemory(mem', frames) &&
      Plug(disk', mem', frames[..j - 1], Some(Shape(disk', mem'[p.node]))) ==
      Plug(disk, mem, frames[..j], Some(Shape(disk, mem[g]))) &&
      Plug(disk', mem', frames[..j], Some(Shape(disk', mem'[g]))) ==
      Plug(disk, mem, frames[..j], Some(Shape(disk, mem[g])))
  {
    var p, init := frames[j - 1], frames[..j - 1];
    var disk', mem' := disk + [Stored(mem[g])], AfterSet(mem, p.node, p.branch, |disk|, g);
    WrittenShapes(disk, mem, p.node, p.branch, g, p.node);
    WrittenShapes(disk, mem, p.node, p.branch, g, g);
    forall x | 0 <= x < |init|
      ensures Shape(disk', mem'[init[x].node]) == Shape(disk, mem[init[x].node])
    {
      WrittenShapes(disk, mem, p.node, p.branch, g, init[x].node);
    }
    assert frames[..j] == init + [p];
    var was, now, child := Shape(disk, mem[p.node]), Shape(disk', mem'[p.node]), Shape(disk, mem[g]);
    PlugSnoc(disk, mem, init, p, Some(child));
    PlugSnoc(disk', mem', init, p, Some(child));
    ReplaceTwice(was.kids, p.branch, child);
    PlugSame(disk, mem, disk', mem', init, Some(now));
  }

  lemma RiseStep(disk: Disk, mem: Memory, frames: seq<Frame>, made: Ref, j: nat, stale: set<Frame>,
                 target: Option<Trie>)
    requires Rising(disk, mem, frames, made, j, stale, target) && 0 < j && Apart(frames, made)
    ensures
      var p, g := frames[j - 1], Under(frames, made, j - 1);
      var disk', mem' := disk + [Stored(mem[g])], AfterSet(mem, p.node, p.branch, |disk|, g);
      Rising(disk', mem', frames, made, j - 1, Above(frames, j), target) &&
      Rising(disk', mem', frames, made, j, Above(frames, j), target)
  {
    RiseOk(disk, mem, frames, made, j, stale, target);
    RisePlug(disk, mem, frames, j, Under(frames, made, j - 1));
  }

  lemma ClimbStep(disk: Disk, mem: Memory, frames: seq<Frame>, made: Ref, broken: int, j: nat, stale: set<Frame>,
                  target: Option<Trie>)
    requires Climbing(disk, mem, frames, made, broken, j, stale, target) && 0 < j && j - 1 != broken &&
             Apart(frames, made)
    ensures
      var p, g := frames[j - 1], Under(frames, made, j - 1);
      var disk', mem' := disk + [Stored(mem[g])], AfterSet(mem, p.node, p.branch, |disk|, g);
      Points(mem, p.node, p.branch) == Some(g) && mem'.Keys == mem.Keys &&
      Climbing(disk', mem', frames, made, broken, j - 1, Above(frames, j), target) &&
      Climbing(disk', mem', frames, made, broken, j, Above(frames, j), target)
  {
    HungStep(disk, mem, frames, made, broken, j);
    if broken < 0 {
      RiseStep(disk, mem, frames, made, j, stale, target);
    }
  }

  /** The stack is the parents still to be written, the last one perhaps twice. */
  ghost predicate Stacked(stack: seq<Frame>, frames: seq<Frame>, j: int) {
    frames != [] && 0 <= j <= |frames| && (stack == frames[..j] || (j == |frames| && stack == frames + [frames[j - 1]]))
  }

  lemma StackTop(stack: seq<Frame>, frames: seq<Frame>, j: int)
    requires Stacked(stack, frames, j) && stack != []
    ensures 0 < j && stack[|stack| - 1] == frames[j - 1]
    ensures Stacked(stack[..|stack| - 1], frames, if |stack| == j then j - 1 else j)
  {
    if |stack| == j {
      assert stack[..j - 1] == frames[..j - 1];
    } else {
      assert stack[..j] == frames && frames[..j] == frames;
    }
  }

  lemma RisenOk(disk: Disk, mem: Memory, frames: seq<Frame>, made: Ref, stale: set<Frame>, target: Option<Trie>)
    requires Rising(disk, mem, frames, made, 0, stale, target)
    ensures Ok(disk, mem) && frames[0].node in mem && Some(Shape(disk, mem[frames[0].node])) == target
  {
    assert stale == {};
  }

  /** Only the parents changed. */
  ghost predicate OnlyFrames(mem: Memory, mem': Memory, frames: seq<Frame>) {
    mem'.Keys == mem.Keys && forall x :: x in mem && (forall i :: 0 <= i < |frames| ==> frames[i].node != x) ==>
    mem'[x] == mem[x]
  }

  lemma OnlyFramesChain(a: Memory, b: Memory, c: Memory, frames: seq<Frame>)
    requires OnlyFrames(a, b, frames) && OnlyFrames(b, c, frames)
    ensures OnlyFrames(a, c, frames)
  {
  }

  lemma HangOnly(mem: Memory, frames: seq<Frame>, made: Ref)
    requires frames != [] && frames[|frames| - 1].node in mem
    ensures OnlyFrames(mem, HungMemory(mem, frames, made), frames)
  {
  }

  lemma SameRefs(mem: Memory, mem': Memory, frames: seq<Frame>, bound: Ref)
    requires OnlyFrames(mem, mem', frames) && forall r :: r in mem ==> r < bound
    ensures forall r :: r in mem' ==> r < bound
  {
    assert forall r :: r in mem' ==> r in mem.Keys;
  }

  lemma ClimbedRefs(m0: Memory, m1: Memory, m2: Memory, frames: seq<Frame>, bound: Ref)
    requires OnlyFrames(m0, m1, frames) && OnlyFrames(m1, m2, frames) && forall r :: r in m0 ==> r < bound
    ensures OnlyFrames(m0, m2, frames) && forall r :: r in m2 ==> r < bound
  {
    OnlyFramesChain(m0, m1, m2, frames);
    SameRefs(m0, m2, frames, bound);
  }

  // ---- the whole operation ----

  /** The root itself gets a new branch, or is split. */
  ghost predicate AtRoot(t: Trie, key: Nibbles) {
    Parents(t, key, 0) == [] && key != t.path
  }

  /** The key of the root that then takes the place of the old one. */
  ghost function RootKey(t: Trie, key: Nibbles): Nibbles {
    t.path[..Common(t.path, key)]
  }

  /** The graft under a root. A root that gets a new branch or is split takes over the source root's value. */
  ghost function RootGraft(t: Trie, key: Nibbles, src: Trie, rootValue: Option<Bytes>): Option<Trie> {
    var g := Graft(t, key, src);
    if g.Some? && AtRoot(t, key) then Some(g.value.(value := rootValue)) else g
  }

  /** The parent that lost its pointer to the next one when the source's pointers moved away, or -1. */
  ghost predicate BrokenAt(frames: seq<Frame>, s: Ref, broken: int) {
    -1 <= broken && (broken < 0 || (broken < |frames| - 1 && frames[broken].node == s)) &&
    (broken < 0 ==> forall x :: 0 <= x < |frames| - 1 ==> frames[x].node != s)
  }

  lemma ChainApart(mem: Memory, root: Ref, frames: seq<Frame>, node: Ref, x: nat, y: nat)
    requires Single(mem) && Unowned(mem, root) && Chain(mem, root, frames, node) && x < y < |frames|
    ensures frames[x].node != frames[y].node
  {
    ChainPrefix(mem, root, frames, node, y);
    ChainDistinct(mem, root, frames[..y], frames[y].node, x);
  }

  lemma ApartFrames(mem: Memory, root: Ref, frames: seq<Frame>, node: Ref, g: Ref)
    requires Single(mem) && Unowned(mem, root) && Chain(mem, root, frames, node) && InMemory(mem, frames) && g !in mem
    ensures Apart(frames, g)
  {
    forall x, y | 0 <= x < y < |frames|
      ensures frames[x].node != frames[y].node
    {
      ChainApart(mem, root, frames, node, x, y);
    }
  }

  /** Building the new node cuts the chain exactly at the source. */
  lemma RebuiltChain(disk: Disk, mem: Memory, disk': Disk, mem': Memory, root: Ref, frames: seq<Frame>, node: Ref,
                     s: Ref, g: Ref, broken: int)
    requires Single(mem) && Unowned(mem, root) && Chain(mem, root, frames, node) && InMemory(mem, frames) && s in mem
    requires Rebuilt(disk, mem, disk', mem', node, s, g) && BrokenAt(frames, s, broken)
    ensures Strung(mem', frames, broken)
  {
    forall x | 0 <= x < |frames|
      ensures frames[x].node in mem' && ChildAt(mem'[frames[x].node].kids, frames[x].branch).Some?
      ensures frames[x].node != node
      ensures Points(mem, frames[x].node, frames[x].branch) ==
              Some(if x + 1 < |frames| then frames[x + 1].node else node)
    {
      ChainPrefix(mem, root, frames, node, x);
      ChainDistinct(mem, root, frames, node, x);
      assert Stored(mem'[frames[x].node]) == Stored(mem[frames[x].node]);
      SameChildren(mem[frames[x].node].kids, mem'[frames[x].node].kids, frames[x].branch);
    }
    forall x | 0 <= x < |frames| - 1
      ensures StrungAt(mem', frames, broken, x)
    {
      if frames[x].node == s && x != broken {
        if x < broken {
          ChainApart(mem, root, frames, node, x, broken);
        } else {
          ChainApart(mem, root, frames, node, broken, x);
        }
      }
    }
  }

  lemma FindBroken(frames: seq<Frame>, s: Ref) returns (broken: int)
    ensures BrokenAt(frames, s, broken)
  {
    if x :| 0 <= x < |frames| - 1 && frames[x].node == s {
      broken := x;
    } else {
      broken := -1;
    }
  }

  /** The root has parents on the way exactly when the descent leaves it. */
  lemma RootBranch(disk: Disk, mem: Memory, root: Ref, key: Nibbles, way: Way)
    requires Ok(disk, mem) && root in mem && OnWay(mem, root, key, way)
    ensures way.trail.Passed? ==> Parents(Shape(disk, mem[root]), key, 0) != []
    ensures way.trail.Passed? ==> Frames(way.trail) != [] && Frames(way.trail)[0].node == root
    ensures way.trail.Start? ==> way.node == root && way.done == 0 && Frames(way.trail) == []
  {
    if way.trail.Passed? {
      CameChain(mem, root, way.trail, way.node);
      ChainPrefix(mem, root, Frames(way.trail), way.node, 0);
      SomeParents(disk, mem, root, key, way);
    }
  }

  lemma SomeParents(disk: Disk, mem: Memory, root: Ref, key: Nibbles, way: Way)
    requires Ok(disk, mem) && root in mem && OnWay(mem, root, key, way) && way.trail.Passed?
    ensures Parents(Shape(disk, mem[root]), key, 0) != []
  {
    CameTied(disk, mem, root, way.trail, way.node, key, way.done);
    TrailParents(disk, mem, root, way.trail, way.node, key, way.done);
    assert Ends(mem, way.trail) != [];
  }

  /** What the descent has found out. */
  lemma CopyPlan(disk: Disk, mem: Memory, root: Ref, key: Nibbles, src: Trie, way: Way, n: nat)
    requires Ok(disk, mem) && root in mem && OnWay(mem, root, key, way) && Stopped(mem[way.node], n, key[way.done..])
    ensures InMemory(mem, Frames(way.trail)) && Ends(mem, way.trail) == Parents(Shape(disk, mem[root]), key, 0)
    ensures
      var o := Graft(Shape(disk, mem[way.node]), key[way.done..], src);
      Graft(Shape(disk, mem[root]), key, src) == Plug(disk, mem, Frames(way.trail), o) &&
      (EndsInside(Shape(disk, mem[root]), key) <==> o.None?)
  {
    CameTied(disk, mem, root, way.trail, way.node, key, way.done);
    TrailGraft(disk, mem, root, way.trail, way.node, key, way.done, src);
    TrailParents(disk, mem, root, way.trail, way.node, key, way.done);
    StoppedParents(disk, mem[way.node], n, key[way.done..], way.done);
    GraftRefusedIff(Shape(disk, mem[root]), key, src);
    var o := Graft(Shape(disk, mem[way.node]), key[way.done..], src);
    if o.None? {
      PlugNothing(disk, mem, Frames(way.trail));
    } else {
      PlugSomething(disk, mem, Frames(way.trail), o.value);
    }
  }

  /** Below the root the new node is carried up; the root's own value stays. */
  lemma PlugAfter(disk: Disk, mem: Memory, disk': Disk, mem': Memory, root: Ref, key: Nibbles, src: Trie, way: Way,
                  g: Ref, rootValue: Option<Bytes>)
    requires Ok(disk, mem) && root in mem && OnWay(mem, root, key, way) && way.trail.Passed?
    requires disk <= disk' && Keeps(mem, mem') && g in mem'
    requires Graft(Shape(disk, mem[way.node]), key[way.done..], src) == Some(Shape(disk', mem'[g]))
    ensures InMemory(mem', Frames(way.trail))
    ensures Plug(disk', mem', Frames(way.trail), Some(Shape(disk', mem'[g]))) ==
            RootGraft(Shape(disk, mem[root]), key, src, rootValue)
  {
    RootBranch(disk, mem, root, key, way);
    CameTied(disk, mem, root, way.trail, way.node, key, way.done);
    TrailGraft(disk, mem, root, way.trail, way.node, key, way.done, src);
    KeepsShapes(disk, mem, disk', mem', Frames(way.trail));
    PlugSame(disk, mem, disk', mem', Frames(way.trail), Some(Shape(disk', mem'[g])));
  }

  /** At the root the new node is the result. */
  lemma RootAfter(disk: Disk, mem: Memory, root: Ref, key: Nibbles, src: Trie, n: nat, made: Trie,
                  rootValue: Option<Bytes>)
    requires Ok(disk, mem) && root in mem && Stopped(mem[root], n, key) && Graft(Shape(disk, mem[root]), key, src).Some?
    requires
      var g := Graft(Shape(disk, mem[root]), key, src).value;
      made == if key != mem[root].path then g.(value := rootValue) else g
    ensures AtRoot(Shape(disk, mem[root]), key) <==> key != mem[root].path
    ensures RootGraft(Shape(disk, mem[root]), key, src, rootValue) == Some(made)
  {
    StoppedParents(disk, mem[root], n, key, 0);
  }

  lemma BlankGraft(key: Nibbles, src: Trie, rootValue: Option<Bytes>)
    requires key != []
    ensures
      RootGraft(BLANK, key, src, rootValue) ==
      Some(Trie([], rootValue, AddKid(NoKids, key[0], Repathed(src, key[1..]))))
  {
    CommonIs([], key, 0);
  }

  /** Everything is in place for the way up. */
  ghost predicate ReadyToClimb(mem: Memory, root: Ref, frames: seq<Frame>, made: Ref, broken: int) {
    frames != [] && frames[0].node == root && made in mem && Unowned(mem, made) && Unowned(mem, root) &&
    Apart(frames, made) && Strung(mem, frames, broken) && -1 <= broken < |frames| - 1
  }

  /** A root that nobody points to is not passed on the way from another root. */
  lemma NotPassed(mem: Memory, root: Ref, frames: seq<Frame>, node: Ref, x: nat, other: Ref)
    requires Chain(mem, root, frames, node) && x < |frames| && Unowned(mem, other) && other != root
    ensures frames[x].node != other
  {
    if x > 0 {
      ChainPrefix(mem, root, frames, node, x - 1);
    } else {
      ChainPrefix(mem, root, frames, node, 0);
    }
  }

  /** The new node is built below the root: the way up, and where it will stop. */
  lemma Climbable(disk: Disk, mem: Memory, disk': Disk, mem': Memory, root: Ref, key: Nibbles, way: Way, s: Ref, g: Ref,
                  srcRoot: Ref, srcPrefix: Nibbles, broken: int)
    requires Ok(disk, mem) && root in mem && Unowned(mem, root) && s in mem
    requires OnWay(mem, root, key, way) && way.trail.Passed? &&
             Ends(mem, way.trail) == Parents(Shape(disk, mem[root]), key, 0)
    requires srcRoot in mem && Unowned(mem, srcRoot) && MemAt(mem, srcRoot, srcPrefix) == Some(s)
    requires Rebuilt(disk, mem, disk', mem', way.node, s, g) && BrokenAt(Frames(way.trail), s, broken)
    ensures ReadyToClimb(mem', root, Frames(way.trail), g, broken)
    ensures broken < 0 <==> !(srcRoot == root && Severed(Shape(disk, mem[root]), srcPrefix, key))
    ensures srcRoot != root ==> forall x :: 0 <= x < |Frames(way.trail)| ==> Frames(way.trail)[x].node != srcRoot
  {
    var frames := Frames(way.trail);
    RootBranch(disk, mem, root, key, way);
    CameChain(mem, root, way.trail, way.node);
    RebuiltChain(disk, mem, disk', mem', root, frames, way.node, s, g, broken);
    ApartFrames(mem, root, frames, way.node, g);
    SeveredIff(mem, root, Shape(disk, mem[root]), key, way.trail, way.node, srcRoot, srcPrefix, s);
    if srcRoot != root {
      forall x | 0 <= x < |frames|
        ensures frames[x].node != srcRoot
      {
        NotPassed(mem, root, frames, way.node, x, srcRoot);
      }
    }
  }

  // ---- what lookups see ----

  /** Below the prefix of a node the lookup is the lookup in that node. */
  lemma {:induction false} GetBelow(t: Trie, p: Nibbles, n: Trie, j: Nibbles)
    requires Spells(t, 0, p, n)
    ensures Get(t, p + j) == Get(Repathed(n, []), j)
    decreases |p|
  {
    var q := t.path;
    assert q[0..] == q && q <= p <= p + j;
    if p == q {
      assert (p + j)[|q|..] == j && Repathed(t, q) == t;
      RepathedGet(t, q, p + j);
    } else {
      assert (p + j)[|q|] == p[|q|] && (p + j)[|q| + 1..] == p[|q| + 1..] + j;
      GetBelow(KidAt(t.kids, p[|q|]).value, p[|q| + 1..], n, j);
    }
  }

  lemma {:induction false} SpelledOrdered(t: Trie, p: Nibbles, n: Trie)
    requires Spells(t, 0, p, n) && Ordered(t.kids, 0)
    ensures Ordered(n.kids, 0)
    decreases |p|
  {
    var q := t.path;
    assert q[0..] == q;
    if p != q {
      KidOrdered(t.kids, 0, p[|q|]);
      SpelledOrdered(KidAt(t.kids, p[|q|]).value, p[|q| + 1..], n);
    }
  }

  /** A node's own value is seen only by the key that is its path. */
  lemma ValueSeen(t: Trie, value: Option<Bytes>, k: Nibbles)
    ensures Get(t.(value := value), k) == if k == t.path then value else Get(t, k)
  {
  }

  lemma GraftedPath(t: Trie, key: Nibbles, src: Trie)
    requires AtRoot(t, key) && Graft(t, key, src).Some?
    ensures Graft(t, key, src).value.path == RootKey(t, key) && !(key <= RootKey(t, key))
  {
    var n := Common(t.path, key);
    if n == |t.path| {
      assert t.path[..n] == t.path && key[..n] == t.path;
    }
  }

  /** What the graft under a root means for every key: the root's own entry, the source, or the old trie. */
  lemma RootGraftLookups(t: Trie, key: Nibbles, src: Trie, rootValue: Option<Bytes>, u: Trie, k: Nibbles)
    requires RootGraft(t, key, src, rootValue) == Some(u)
    requires Ordered(t.kids, 0) && Ordered(src.kids, 0) && IsKey(key)
    ensures
      Get(u, k) ==
      if AtRoot(t, key) && k == RootKey(t, key) then rootValue
      else if key <= k then Get(Repathed(src, []), k[|key|..])
      else Get(t, k)
  {
    GraftIsReplacement(t, key, src, k);
    if AtRoot(t, key) {
      GraftedPath(t, key, src);
      ValueSeen(Graft(t, key, src).value, rootValue, k);
    }
  }

  /** What a copy promises for one key: `before` is the destination, `from` the trie that holds the source. */
  lemma CopyLookups(before: Trie, from: Trie, srcPrefix: Nibbles, src: Trie, key: Nibbles, rootValue: Option<Bytes>,
                    u: Trie, k: Nibbles)
    requires RootGraft(before, key, src, rootValue) == Some(u)
    requires Ordered(before.kids, 0) && Ordered(from.kids, 0) && IsKey(key) && Spells(from, 0, srcPrefix, src)
    ensures
      Get(u, k) ==
      if AtRoot(before, key) && k == RootKey(before, key) then rootValue
      else if key <= k then Get(from, srcPrefix + k[|key|..])
      else Get(before, k)
  {
    SpelledOrdered(from, srcPrefix, src);
    RootGraftLookups(before, key, src, rootValue, u, k);
    if key <= k {
      GetBelow(from, srcPrefix, src, k[|key|..]);
    }
  }

  /** The nodes have their children in branch order and the key is made of nibbles. */
  ghost predicate Proper(before: Trie, from: Trie, key: Nibbles) {
    Ordered(before.kids, 0) && Ordered(from.kids, 0) && IsKey(key)
  }

  lemma LookupsKept(disk: Disk, mem: Memory, disk': Disk, mem': Memory, r: Ref)
    requires Ok(disk, mem) && Ok(disk', mem') && disk <= disk' && r in mem && r in mem' &&
             Stored(mem'[r]) == Stored(mem[r])
    ensures forall k: Nibbles :: MemGet(disk', mem', mem'[r], k) == MemGet(disk, mem, mem[r], k)
  {
    ShapeKept(disk, mem, disk', mem', r);
    forall k: Nibbles
      ensures MemGet(disk', mem', mem'[r], k) == MemGet(disk, mem, mem[r], k)
    {
      MemGetIsGet(disk, mem, r, k);
      MemGetIsGet(disk', mem', r, k);
    }
  }

  /** The trie under the destination root; without one, a root with nothing in it. */
  ghost function Destination(disk: Disk, mem: Memory, destRoot: Option<Ref>): Trie
    requires destRoot.Some? ==> destRoot.value in mem
  {
    if destRoot.Some? then Shape(disk, mem[destRoot.value]) else BLANK
  }

  /** What a lookup of `k`, through memory, should give once the copy is made. */
  ghost function Copied(disk: Disk, mem: Memory, srcRoot: Ref, srcPrefix: Nibbles, destRoot: Option<Ref>, key: Nibbles,
                        k: Nibbles): Option<Bytes>
    requires Ok(disk, mem) && srcRoot in mem && (destRoot.Some? ==> destRoot.value in mem)
  {
    var before := Destination(disk, mem, destRoot);
    if AtRoot(before, key) && k == RootKey(before, key) then mem[srcRoot].value
    else if key <= k then MemGet(disk, mem, mem[srcRoot], srcPrefix + k[|key|..])
    else if destRoot.Some? then MemGet(disk, mem, mem[destRoot.value], k)
    else None
  }

  lemma CopiedIs(disk: Disk, mem: Memory, srcRoot: Ref, srcPrefix: Nibbles, destRoot: Option<Ref>, key: Nibbles,
                 k: Nibbles)
    requires Ok(disk, mem) && srcRoot in mem && (destRoot.Some? ==> destRoot.value in mem)
    ensures
      var before, from := Destination(disk, mem, destRoot), Shape(disk, mem[srcRoot]);
      Copied(disk, mem, srcRoot, srcPrefix, destRoot, key, k) ==
      if AtRoot(before, key) && k == RootKey(before, key) then from.value
      else if key <= k then Get(from, srcPrefix + k[|key|..])
      else Get(before, k)
  {
    if key <= k {
      MemGetIsGet(disk, mem, srcRoot, srcPrefix + k[|key|..]);
    }
    if destRoot.Some? {
      MemGetIsGet(disk, mem, destRoot.value, k);
    }
  }

  /** The lookups through memory once the graft is in place. */
  lemma LookupsAfter(disk: Disk, mem: Memory, disk': Disk, mem': Memory, srcRoot: Ref, srcPrefix: Nibbles,
                     destRoot: Option<Ref>, key: Nibbles, root: Ref)
    requires Ok(disk, mem) && Ok(disk', mem') && srcRoot in mem && root in mem' &&
             (destRoot.Some? ==> destRoot.value in mem)
    requires
      var before, from := Destination(disk, mem, destRoot), Shape(disk, mem[srcRoot]);
      var found := Locate(from, 0, srcPrefix);
      found.Found? && found.code == Success && RootGraft(before, key, found.node, from.value) ==
      Some(Shape(disk', mem'[root]))
    requires Proper(Destination(disk, mem, destRoot), Shape(disk, mem[srcRoot]), key)
    ensures
      forall k: Nibbles ::
        MemGet(disk', mem', mem'[root], k) == Copied(disk, mem, srcRoot, srcPrefix, destRoot, key, k)
  {
    var before, from := Destination(disk, mem, destRoot), Shape(disk, mem[srcRoot]);
    var src := Locate(from, 0, srcPrefix).node;
    SuccessIffSpells(from, 0, srcPrefix, src);
    forall k: Nibbles
      ensures MemGet(disk', mem', mem'[root], k) == Copied(disk, mem, srcRoot, srcPrefix, destRoot, key, k)
    {
      CopyLookups(before, from, srcPrefix, src, key, from.value, Shape(disk', mem'[root]), k);
      MemGetIsGet(disk', mem', root, k);
      CopiedIs(disk, mem, srcRoot, srcPrefix, destRoot, key, k);
    }
  }
}
