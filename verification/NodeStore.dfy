/**
  Trie nodes on disk and in memory. The disk is the list of nodes written so
  far. A node in memory is an object known by a reference; each of its children
  has the offset it was written at and, if loaded, a reference to its object.
  Several parts of a program can hold the same reference.
 */
module NodeStore {
  import opened Options
  import opened YellowPaper
  import opened MerkleCompute
  import opened TrieLookup
  import opened CopyTrie

  /** A node as written: children by offset. */
  datatype DiskNode = DiskNode(path: Nibbles, value: Option<Bytes>, kids: DiskKids)

  datatype DiskKids = NoDiskKids | DiskKid(branch: nat, off: nat, rest: DiskKids)

  type Disk = seq<DiskNode>

  type Ref = nat

  /** A node object. */
  datatype MemNode = MemNode(path: Nibbles, value: Option<Bytes>, kids: MemKids)

  datatype MemKids = NoMemKids | MemKid(branch: nat, off: nat, next: Option<Ref>, rest: MemKids)

  type Memory = map<Ref, MemNode>

  // ---- the trie behind a node ----

  const BLANK := Trie([], None, NoKids)

  function View(disk: Disk, off: nat): Trie
    decreases off, 1
  {
    if off < |disk| then Trie(disk[off].path, disk[off].value, ViewKids(disk, disk[off].kids, off)) else BLANK
  }

  /** The children written before `bound`. */
  function ViewKids(disk: Disk, kids: DiskKids, bound: nat): KidList
    decreases bound, 0, kids
  {
    if kids.NoDiskKids? then NoKids
    else Kid(kids.branch, if kids.off < bound then View(disk, kids.off) else BLANK, ViewKids(disk, kids.rest, bound))
  }

  function Stored(m: MemNode): DiskNode {
    DiskNode(m.path, m.value, StoredKids(m.kids))
  }

  function StoredKids(kids: MemKids): DiskKids {
    if kids.NoMemKids? then NoDiskKids else DiskKid(kids.branch, kids.off, StoredKids(kids.rest))
  }

  /** A node read from disk, nothing below it loaded. */
  function Loaded(d: DiskNode): MemNode {
    MemNode(d.path, d.value, LoadedKids(d.kids))
  }

  function LoadedKids(kids: DiskKids): MemKids {
    if kids.NoDiskKids? then NoMemKids else MemKid(kids.branch, kids.off, None, LoadedKids(kids.rest))
  }

  /** The trie a stored node stands for. */
  function Whole(disk: Disk, d: DiskNode): Trie {
    Trie(d.path, d.value, ViewKids(disk, d.kids, |disk|))
  }

  /** The trie a node object stands for by the offsets of its children. */
  function Shape(disk: Disk, m: MemNode): Trie {
    Whole(disk, Stored(m))
  }

  // ---- the disk ----

  ghost predicate WrittenBefore(kids: DiskKids, bound: nat) {
    kids.DiskKid? ==> kids.off < bound && WrittenBefore(kids.rest, bound)
  }

  /** A node is written after its children. */
  ghost predicate WellFormed(disk: Disk) {
    forall i :: 0 <= i < |disk| ==> WrittenBefore(disk[i].kids, i)
  }

  lemma {:induction false} BelowMore(kids: DiskKids, i: nat, j: nat)
    requires WrittenBefore(kids, i) && i <= j
    ensures WrittenBefore(kids, j)
  {
    if kids.DiskKid? {
      BelowMore(kids.rest, i, j);
    }
  }

  lemma {:induction false} ViewBound(disk: Disk, kids: DiskKids, i: nat, j: nat)
    requires WrittenBefore(kids, i) && i <= j
    ensures ViewKids(disk, kids, i) == ViewKids(disk, kids, j)
    decreases kids
  {
    if kids.DiskKid? {
      ViewBound(disk, kids.rest, i, j);
    }
  }

  /** Appending to the disk changes nothing already there. */
  lemma {:induction false} ViewAppend(disk: Disk, more: Disk, off: nat)
    requires off < |disk|
    ensures View(disk + more, off) == View(disk, off)
    decreases off, 1
  {
    ViewKidsAppend(disk, more, disk[off].kids, off);
  }

  lemma {:induction false} ViewKidsAppend(disk: Disk, more: Disk, kids: DiskKids, bound: nat)
    requires bound <= |disk|
    ensures ViewKids(disk + more, kids, bound) == ViewKids(disk, kids, bound)
    decreases bound, 0, kids
  {
    if kids.DiskKid? {
      if kids.off < bound {
        ViewAppend(disk, more, kids.off);
      }
      ViewKidsAppend(disk, more, kids.rest, bound);
    }
  }

  lemma WholeAppend(disk: Disk, more: Disk, d: DiskNode)
    requires WrittenBefore(d.kids, |disk|)
    ensures Whole(disk + more, d) == Whole(disk, d) && WrittenBefore(d.kids, |disk + more|)
  {
    BelowMore(d.kids, |disk|, |disk + more|);
    ViewBound(disk + more, d.kids, |disk|, |disk + more|);
    ViewKidsAppend(disk, more, d.kids, |disk|);
  }

  /** A node on disk, seen from its offset. */
  lemma WholeIsView(disk: Disk, off: nat)
    requires WellFormed(disk) && off < |disk|
    ensures Whole(disk, disk[off]) == View(disk, off) && WrittenBefore(disk[off].kids, |disk|)
  {
    BelowMore(disk[off].kids, off, |disk|);
    ViewBound(disk, disk[off].kids, off, |disk|);
  }

  /** A node written at the end of the disk is found there whole. */
  lemma Written(disk: Disk, d: DiskNode)
    requires WellFormed(disk) && WrittenBefore(d.kids, |disk|)
    ensures WellFormed(disk + [d]) && View(disk + [d], |disk|) == Whole(disk, d)
  {
    ViewKidsAppend(disk, [d], d.kids, |disk|);
  }

  // ---- children ----

  /** Offset and reference of the child at branch `n`. */
  function ChildAt(kids: MemKids, n: nat): Option<(nat, Option<Ref>)> {
    if kids.NoMemKids? then None else if kids.branch == n then Some((kids.off, kids.next)) else ChildAt(kids.rest, n)
  }

  function AddChild(kids: MemKids, n: nat, off: nat, next: Option<Ref>): MemKids {
    if kids.NoMemKids? || n <= kids.branch then MemKid(n, off, next, kids)
    else MemKid(kids.branch, kids.off, kids.next, AddChild(kids.rest, n, off, next))
  }

  /** `set_next` and `set_fnext`. */
  function SetChild(kids: MemKids, n: nat, off: nat, next: Option<Ref>): MemKids {
    if kids.NoMemKids? then NoMemKids
    else if kids.branch == n then MemKid(n, off, next, kids.rest)
    else MemKid(kids.branch, kids.off, kids.next, SetChild(kids.rest, n, off, next))
  }

  /** All references moved out; the offsets stay. */
  function Unloaded(kids: MemKids): MemKids {
    if kids.NoMemKids? then NoMemKids else MemKid(kids.branch, kids.off, None, Unloaded(kids.rest))
  }

  lemma {:induction false} ChildView(disk: Disk, kids: MemKids, n: nat)
    requires WrittenBefore(StoredKids(kids), |disk|)
    ensures
      var c := ChildAt(kids, n);
      KidAt(ViewKids(disk, StoredKids(kids), |disk|), n) == (if c.Some? then Some(View(disk, c.value.0)) else None) &&
      (c.Some? ==> c.value.0 < |disk|)
    decreases kids
  {
    if kids.MemKid? && kids.branch != n {
      ChildView(disk, kids.rest, n);
    }
  }

  lemma {:induction false} AddChildView(disk: Disk, kids: MemKids, n: nat, off: nat, next: Option<Ref>)
    requires WrittenBefore(StoredKids(kids), |disk|) && off < |disk|
    ensures
      var added := StoredKids(AddChild(kids, n, off, next));
      WrittenBefore(added, |disk|) && ViewKids(disk, added, |disk|) ==
      AddKid(ViewKids(disk, StoredKids(kids), |disk|), n, View(disk, off))
    decreases kids
  {
    if kids.MemKid? && kids.branch < n {
      AddChildView(disk, kids.rest, n, off, next);
    }
  }

  lemma {:induction false} SetChildView(disk: Disk, kids: MemKids, n: nat, off: nat, next: Option<Ref>)
    requires WrittenBefore(StoredKids(kids), |disk|) && off < |disk|
    ensures
      var set' := StoredKids(SetChild(kids, n, off, next));
      WrittenBefore(set', |disk|) && ViewKids(disk, set', |disk|) ==
      ReplaceKid(ViewKids(disk, StoredKids(kids), |disk|), n, View(disk, off))
    decreases kids
  {
    if kids.MemKid? && kids.branch != n {
      SetChildView(disk, kids.rest, n, off, next);
    }
  }

  lemma {:induction false} AddedAt(kids: MemKids, n: nat, off: nat, next: Option<Ref>, m: nat)
    ensures ChildAt(AddChild(kids, n, off, next), m) == if m == n then Some((off, next)) else ChildAt(kids, m)
    decreases kids
  {
    if kids.MemKid? && kids.branch < n {
      AddedAt(kids.rest, n, off, next, m);
    }
  }

  lemma {:induction false} SetAt(kids: MemKids, n: nat, off: nat, next: Option<Ref>, m: nat)
    requires ChildAt(kids, n).Some?
    ensures ChildAt(SetChild(kids, n, off, next), m) == if m == n then Some((off, next)) else ChildAt(kids, m)
    decreases kids
  {
    if kids.branch != n {
      SetAt(kids.rest, n, off, next, m);
    }
  }

  /** Setting only the reference leaves the stored form alone. */
  lemma {:induction false} SetNextStores(kids: MemKids, n: nat, next: Option<Ref>)
    requires ChildAt(kids, n).Some?
    ensures StoredKids(SetChild(kids, n, ChildAt(kids, n).value.0, next)) == StoredKids(kids)
    decreases kids
  {
    if kids.branch != n {
      SetNextStores(kids.rest, n, next);
    }
  }

  /** The stored form says which children there are and where. */
  lemma {:induction false} SameChildren(kids: MemKids, kids': MemKids, m: nat)
    requires StoredKids(kids) == StoredKids(kids')
    ensures ChildAt(kids, m).Some? == ChildAt(kids', m).Some?
    ensures ChildAt(kids, m).Some? ==> ChildAt(kids, m).value.0 == ChildAt(kids', m).value.0
    decreases kids
  {
    if kids.MemKid? {
      SameChildren(kids.rest, kids'.rest, m);
    }
  }

  lemma {:induction false} UnloadedAt(kids: MemKids, m: nat)
    ensures StoredKids(Unloaded(kids)) == StoredKids(kids)
    ensures ChildAt(Unloaded(kids), m) ==
            if ChildAt(kids, m).Some? then Some((ChildAt(kids, m).value.0, None))
            else None
    decreases kids
  {
    if kids.MemKid? {
      UnloadedAt(kids.rest, m);
    }
  }

  lemma {:induction false} LoadedAt(kids: DiskKids, m: nat)
    ensures StoredKids(LoadedKids(kids)) == kids
    ensures ChildAt(LoadedKids(kids), m).Some? ==> ChildAt(LoadedKids(kids), m).value.1 == None
    decreases kids
  {
    if kids.DiskKid? {
      LoadedAt(kids.rest, m);
    }
  }

  // ---- memory ----

  /** `r->next(b)`. */
  function Points(mem: Memory, r: Ref, b: nat): Option<Ref> {
    if r in mem && ChildAt(mem[r].kids, b).Some? then ChildAt(mem[r].kids, b).value.1 else None
  }

  /** `r->fnext(b)`. */
  function OffAt(mem: Memory, r: Ref, b: nat): nat {
    if r in mem && ChildAt(mem[r].kids, b).Some? then ChildAt(mem[r].kids, b).value.0 else 0
  }

  /** At most one pointer to each node. */
  ghost predicate Single(mem: Memory) {
    forall r, b, s, c :: Points(mem, r, b).Some? && Points(mem, r, b) == Points(mem, s, c) ==> r == s && b == c
  }

  ghost predicate Unowned(mem: Memory, x: Ref) {
    forall r, b :: Points(mem, r, b) != Some(x)
  }

  ghost predicate Offsets(disk: Disk, mem: Memory) {
    forall r :: r in mem ==> WrittenBefore(StoredKids(mem[r].kids), |disk|)
  }

  /** No pointer out of memory. */
  ghost predicate Closed(mem: Memory) {
    forall r, b :: Points(mem, r, b).Some? ==> Points(mem, r, b).value in mem
  }

  /** The loaded child agrees with the node at its offset. */
  ghost predicate Faithful(disk: Disk, mem: Memory, r: Ref, b: nat) {
    Points(mem, r, b).Some? ==>
      OffAt(mem, r, b) < |disk| && Points(mem, r, b).value in mem &&
      Stored(mem[Points(mem, r, b).value]) == disk[OffAt(mem, r, b)]
  }

  /** A child pointer: a node and a branch. */
  datatype Frame = Frame(node: Ref, branch: nat)

  /** All of memory is consistent with the disk, except perhaps the pointers in `stale`. */
  ghost predicate OkBut(disk: Disk, mem: Memory, stale: set<Frame>) {
    WellFormed(disk) && Offsets(disk, mem) && Single(mem) && Closed(mem) &&
    forall r, b :: Frame(r, b) in stale || Faithful(disk, mem, r, b)
  }

  ghost predicate Ok(disk: Disk, mem: Memory) {
    WellFormed(disk) && Offsets(disk, mem) && Single(mem) && Closed(mem) && forall r, b :: Faithful(disk, mem, r, b)
  }

  // ---- lookups through memory ----

  datatype MemFound = MemFound(code: Code, node: MemNode, index: nat)

  /** The node a lookup goes on with: the loaded child, or the one read from disk. */
  function Child(disk: Disk, mem: Memory, off: nat, next: Option<Ref>): MemNode {
    if next.Some? && next.value in mem then mem[next.value]
    else if off < |disk| then Loaded(disk[off])
    else MemNode([], None, NoMemKids)
  }

  function MemLocate(disk: Disk, mem: Memory, m: MemNode, i: nat, key: Nibbles): MemFound
    requires i <= |m.path|
    decreases |key|
  {
    if key == [] then MemFound(if i == |m.path| then Success else KeyEndsEarlier, m, i)
    else if i < |m.path| then
      if key[0] != m.path[i] then MemFound(KeyMismatch, m, i) else MemLocate(disk, mem, m, i + 1, key[1..])
    else
      match ChildAt(m.kids, key[0])
      case None => MemFound(BranchNotExist, m, i)
      case Some(c) => MemLocate(disk, mem, Child(disk, mem, c.0, c.1), 0, key[1..])
  }

  /** The value a lookup returns. */
  function MemGet(disk: Disk, mem: Memory, m: MemNode, key: Nibbles): Option<Bytes> {
    var f := MemLocate(disk, mem, m, 0, key);
    if f.code == Success then f.node.value else None
  }

  /** A node whose loaded children agree with the disk: one in memory, or one just read. */
  ghost predicate NodeOk(disk: Disk, mem: Memory, m: MemNode) {
    WrittenBefore(StoredKids(m.kids), |disk|) &&
    forall b: nat :: ChildAt(m.kids, b).Some? ==> ChildOk(disk, mem, ChildAt(m.kids, b).value.0,
                                                          ChildAt(m.kids, b).value.1)
  }

  ghost predicate ChildOk(disk: Disk, mem: Memory, off: nat, next: Option<Ref>) {
    off < |disk| && (next.Some? ==> next.value in mem && Stored(mem[next.value]) == disk[off])
  }

  lemma InMemoryOk(disk: Disk, mem: Memory, r: Ref)
    requires Ok(disk, mem) && r in mem
    ensures NodeOk(disk, mem, mem[r])
  {
    forall b: nat | ChildAt(mem[r].kids, b).Some?
      ensures ChildOk(disk, mem, ChildAt(mem[r].kids, b).value.0, ChildAt(mem[r].kids, b).value.1)
    {
      assert Faithful(disk, mem, r, b);
      ChildView(disk, mem[r].kids, b);
    }
  }

  lemma LoadedOk(disk: Disk, mem: Memory, off: nat)
    requires WellFormed(disk) && off < |disk|
    ensures NodeOk(disk, mem, Loaded(disk[off])) && Stored(Loaded(disk[off])) == disk[off]
  {
    WholeIsView(disk, off);
    LoadedAt(disk[off].kids, 0);
    forall b: nat | ChildAt(LoadedKids(disk[off].kids), b).Some?
      ensures ChildOk(disk, mem, ChildAt(LoadedKids(disk[off].kids), b).value.0,
                      ChildAt(LoadedKids(disk[off].kids), b).value.1)
    {
      LoadedAt(disk[off].kids, b);
      ChildView(disk, LoadedKids(disk[off].kids), b);
    }
  }

  /** The child a lookup goes on with stands for the trie at its offset. */
  lemma ChildIsView(disk: Disk, mem: Memory, off: nat, next: Option<Ref>)
    requires Ok(disk, mem) && ChildOk(disk, mem, off, next)
    ensures
      var m := Child(disk, mem, off, next);
      Shape(disk, m) == View(disk, off) && NodeOk(disk, mem, m)
  {
    WholeIsView(disk, off);
    if next.Some? {
      InMemoryOk(disk, mem, next.value);
    } else {
      LoadedOk(disk, mem, off);
    }
  }

  /** A lookup through memory is the lookup in the trie the node stands for. */
  lemma {:induction false} MemLocateIsLocate(disk: Disk, mem: Memory, m: MemNode, i: nat, key: Nibbles)
    requires Ok(disk, mem) && NodeOk(disk, mem, m) && i <= |m.path|
    ensures
      var f := MemLocate(disk, mem, m, i, key);
      Locate(Shape(disk, m), i, key) == Found(f.code, Shape(disk, f.node), f.index)
    decreases |key|
  {
    if key != [] {
      if i < |m.path| {
        if key[0] == m.path[i] {
          MemLocateIsLocate(disk, mem, m, i + 1, key[1..]);
        }
      } else {
        ChildView(disk, m.kids, key[0]);
        var c := ChildAt(m.kids, key[0]);
        if c.Some? {
          ChildIsView(disk, mem, c.value.0, c.value.1);
          MemLocateIsLocate(disk, mem, Child(disk, mem, c.value.0, c.value.1), 0, key[1..]);
        }
      }
    }
  }

  lemma MemGetIsGet(disk: Disk, mem: Memory, r: Ref, key: Nibbles)
    requires Ok(disk, mem) && r in mem
    ensures MemGet(disk, mem, mem[r], key) == Get(Shape(disk, mem[r]), key)
  {
    InMemoryOk(disk, mem, r);
    MemLocateIsLocate(disk, mem, mem[r], 0, key);
    GetIsLocate(Shape(disk, mem[r]), key);
  }

  // ---- what the steps of the program do to memory ----

  /** Every old node still has its stored form. */
  ghost predicate Keeps(mem: Memory, mem': Memory) {
    forall x :: x in mem ==> x in mem' && Stored(mem'[x]) == Stored(mem[x])
  }

  /** Nothing but loading happened. */
  ghost predicate Loads(mem: Memory, mem': Memory) {
    Keeps(mem, mem') &&
    (forall r, b :: Points(mem, r, b).Some? ==> Points(mem', r, b) == Points(mem, r, b)) &&
    (forall x :: x in mem && Unowned(mem, x) ==> Unowned(mem', x))
  }

  lemma LoadsChain(a: Memory, b: Memory, c: Memory)
    requires Loads(a, b) && Loads(b, c)
    ensures Loads(a, c)
  {
  }

  /** `read_node_blocking` and `set_next`: the child of `r` at branch `b` becomes the new object `f`. */
  function AfterLoad(disk: Disk, mem: Memory, r: Ref, b: nat, f: Ref): Memory
    requires r in mem && OffAt(mem, r, b) < |disk|
  {
    mem[r := mem[r].(kids := SetChild(mem[r].kids, b, OffAt(mem, r, b), Some(f)))][f := Loaded(disk[OffAt(mem, r, b)])]
  }

  lemma LoadPoints(disk: Disk, mem: Memory, r: Ref, b: nat, f: Ref, x: Ref, c: nat)
    requires r in mem && f !in mem && OffAt(mem, r, b) < |disk| && ChildAt(mem[r].kids, b).Some?
    ensures
      var mem' := AfterLoad(disk, mem, r, b, f);
      Points(mem', x, c) == (if x == f then None else if x == r && c == b then Some(f) else Points(mem, x, c)) &&
      (x != f ==> OffAt(mem', x, c) == OffAt(mem, x, c))
  {
    SetAt(mem[r].kids, b, OffAt(mem, r, b), Some(f), c);
    LoadedAt(disk[OffAt(mem, r, b)].kids, c);
  }

  lemma LoadKeeps(disk: Disk, mem: Memory, r: Ref, b: nat, f: Ref)
    requires r in mem && f !in mem && OffAt(mem, r, b) < |disk| && ChildAt(mem[r].kids, b).Some?
    ensures
      var mem' := AfterLoad(disk, mem, r, b, f);
      Keeps(mem, mem') && Stored(mem'[f]) == disk[OffAt(mem, r, b)]
  {
    SetNextStores(mem[r].kids, b, Some(f));
    LoadedAt(disk[OffAt(mem, r, b)].kids, 0);
  }

  lemma LoadOk(disk: Disk, mem: Memory, r: Ref, b: nat, f: Ref)
    requires Ok(disk, mem) && r in mem && f !in mem && ChildAt(mem[r].kids, b).Some? && Points(mem, r, b).None?
    ensures OffAt(mem, r, b) < |disk| && Ok(disk, AfterLoad(disk, mem, r, b, f)) &&
            Loads(mem, AfterLoad(disk, mem, r, b, f))
  {
    ChildView(disk, mem[r].kids, b);
    var mem' := AfterLoad(disk, mem, r, b, f);
    LoadKeeps(disk, mem, r, b, f);
    WholeIsView(disk, OffAt(mem, r, b));
    forall x, c
      ensures Points(mem', x, c) == if x == f then None else if x == r && c == b then Some(f) else Points(mem, x, c)
      ensures Faithful(disk, mem', x, c)
    {
      LoadPoints(disk, mem, r, b, f, x, c);
      assert Faithful(disk, mem, x, c);
    }
  }

  /** `make_node` from another node: the references move to the new object `f`. */
  function AfterMove(mem: Memory, s: Ref, f: Ref, path: Nibbles, value: Option<Bytes>): Memory
    requires s in mem
  {
    mem[s := mem[s].(kids := Unloaded(mem[s].kids))][f := MemNode(path, value, mem[s].kids)]
  }

  lemma MovePoints(mem: Memory, s: Ref, f: Ref, path: Nibbles, value: Option<Bytes>, x: Ref, c: nat)
    requires s in mem && f !in mem
    ensures
      var mem' := AfterMove(mem, s, f, path, value);
      Points(mem', x, c) == (if x == s then None else if x == f then Points(mem, s, c) else Points(mem, x, c)) &&
      OffAt(mem', x, c) == if x == f then OffAt(mem, s, c) else OffAt(mem, x, c)
  {
    UnloadedAt(mem[s].kids, c);
  }

  lemma MoveOk(disk: Disk, mem: Memory, s: Ref, f: Ref, path: Nibbles, value: Option<Bytes>)
    requires Ok(disk, mem) && s in mem && f !in mem
    ensures
      var mem' := AfterMove(mem, s, f, path, value);
      Ok(disk, mem') && Keeps(mem, mem') && Unowned(mem', f) && forall x :: x in mem && Unowned(mem, x) ==>
      Unowned(mem', x)
  {
    var mem' := AfterMove(mem, s, f, path, value);
    UnloadedAt(mem[s].kids, 0);
    forall x, c
      ensures Points(mem', x, c) == if x == s then None else if x == f then Points(mem, s, c) else Points(mem, x, c)
      ensures Faithful(disk, mem', x, c)
    {
      MovePoints(mem, s, f, path, value, x, c);
      assert Faithful(disk, mem, x, c) && Faithful(disk, mem, s, c);
    }
  }

  /** A node without children. */
  lemma AllocOk(disk: Disk, mem: Memory, g: Ref, path: Nibbles, value: Option<Bytes>)
    requires Ok(disk, mem) && g !in mem
    ensures
      var mem' := mem[g := MemNode(path, value, NoMemKids)];
      Ok(disk, mem') && Keeps(mem, mem') && Unowned(mem', g) &&
      (forall x, c :: Points(mem', x, c) == Points(mem, x, c)) && forall x :: x in mem && Unowned(mem, x) ==>
      Unowned(mem', x)
  {
    var mem' := mem[g := MemNode(path, value, NoMemKids)];
    forall x, c
      ensures Points(mem', x, c) == Points(mem, x, c) && Faithful(disk, mem', x, c)
    {
      assert Faithful(disk, mem, x, c);
    }
  }

  /** Writing any node keeps what was consistent. */
  lemma WriteOk(disk: Disk, mem: Memory, d: DiskNode)
    requires Ok(disk, mem) && WrittenBefore(d.kids, |disk|)
    ensures Ok(disk + [d], mem)
  {
    Written(disk, d);
    forall r | r in mem
      ensures WrittenBefore(StoredKids(mem[r].kids), |disk + [d]|)
    {
      BelowMore(StoredKids(mem[r].kids), |disk|, |disk + [d]|);
    }
    forall x, c
      ensures Faithful(disk + [d], mem, x, c)
    {
      assert Faithful(disk, mem, x, c);
    }
  }

  /** A written node becomes a new child of a node nobody points to. */
  function AfterLink(mem: Memory, g: Ref, n: nat, off: nat, f: Ref): Memory
    requires g in mem
  {
    mem[g := mem[g].(kids := AddChild(mem[g].kids, n, off, Some(f)))]
  }

  lemma LinkOk(disk: Disk, mem: Memory, g: Ref, n: nat, off: nat, f: Ref)
    requires Ok(disk, mem) && g in mem && f in mem && g != f && Unowned(mem, g) && Unowned(mem, f)
    requires off < |disk| && disk[off] == Stored(mem[f])
    ensures
      var mem' := AfterLink(mem, g, n, off, f);
      Ok(disk, mem') && Unowned(mem', g) &&
      (forall x, c :: Points(mem', x, c) == if x == g && c == n then Some(f) else Points(mem, x, c))
  {
    var mem' := AfterLink(mem, g, n, off, f);
    AddChildView(disk, mem[g].kids, n, off, Some(f));
    forall x, c
      ensures Points(mem', x, c) == if x == g && c == n then Some(f) else Points(mem, x, c)
      ensures Faithful(disk, mem', x, c)
    {
      AddedAt(mem[g].kids, n, off, Some(f), c);
      assert Faithful(disk, mem, x, c);
    }
  }

  /** `set_next` and `set_fnext` on an existing child. */
  function AfterSet(mem: Memory, p: Ref, b: nat, off: nat, g: Ref): Memory
    requires p in mem
  {
    mem[p := mem[p].(kids := SetChild(mem[p].kids, b, off, Some(g)))]
  }

  lemma SetPoints(mem: Memory, p: Ref, b: nat, off: nat, g: Ref, x: Ref, c: nat)
    requires p in mem && ChildAt(mem[p].kids, b).Some?
    ensures
      var mem' := AfterSet(mem, p, b, off, g);
      Points(mem', x, c) == (if x == p && c == b then Some(g) else Points(mem, x, c)) &&
      OffAt(mem', x, c) == if x == p && c == b then off else OffAt(mem, x, c)
  {
    SetAt(mem[p].kids, b, off, Some(g), c);
  }

  /** A child is replaced in memory; until the new one is written the parent's offset is stale. */
  lemma HangOk(disk: Disk, mem: Memory, p: Ref, b: nat, g: Ref)
    requires Ok(disk, mem) && p in mem && g in mem && ChildAt(mem[p].kids, b).Some? && Unowned(mem, g)
    ensures
      var mem' := AfterSet(mem, p, b, OffAt(mem, p, b), g);
      OkBut(disk, mem', {Frame(p, b)}) && Keeps(mem, mem') && forall x :: x != g && Unowned(mem, x) ==> Unowned(mem', x)
  {
    var off := OffAt(mem, p, b);
    var mem' := AfterSet(mem, p, b, off, g);
    SetNextStores(mem[p].kids, b, Some(g));
    forall x, c
      ensures Points(mem', x, c) == if x == p && c == b then Some(g) else Points(mem, x, c)
      ensures Frame(x, c) == Frame(p, b) || Faithful(disk, mem', x, c)
    {
      SetPoints(mem, p, b, off, g, x, c);
      assert Faithful(disk, mem, x, c);
    }
  }

  /**
    The child of `p` at `b` is written and its new offset stored in `p`: that
    pointer is good again, and a pointer to `p` becomes stale.
   */
  lemma WriteUpOk(disk: Disk, mem: Memory, stale: set<Frame>, p: Ref, b: nat, g: Ref, stale': set<Frame>)
    requires OkBut(disk, mem, stale) && p in mem && Points(mem, p, b) == Some(g) && p != g
    requires stale - {Frame(p, b)} <= stale' && forall x, c :: Points(mem, x, c) == Some(p) ==> Frame(x, c) in stale'
    ensures
      var disk', mem' := disk + [Stored(mem[g])], AfterSet(mem, p, b, |disk|, g);
      OkBut(disk', mem', stale') &&
      (forall x, c :: Points(mem', x, c) == Points(mem, x, c)) && forall x :: x in mem && x != p ==> mem'[x] == mem[x]
  {
    var d := Stored(mem[g]);
    var disk', mem' := disk + [d], AfterSet(mem, p, b, |disk|, g);
    Written(disk, d);
    forall r | r in mem
      ensures WrittenBefore(StoredKids(mem[r].kids), |disk'|)
    {
      BelowMore(StoredKids(mem[r].kids), |disk|, |disk'|);
    }
    SetChildView(disk', mem[p].kids, b, |disk|, Some(g));
    forall x, c
      ensures Points(mem', x, c) == Points(mem, x, c)
      ensures Frame(x, c) in stale' || Faithful(disk', mem', x, c)
    {
      SetPoints(mem, p, b, |disk|, g, x, c);
      assert Frame(x, c) in stale || Faithful(disk, mem, x, c);
    }
  }
}
