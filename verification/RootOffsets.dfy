/**
  The root-offsets ring as `root_offsets_delegator` runs it: a window of
  versions [lb, nv) over a power-of-two buffer, with a lower bound that is
  walked up past erased versions. It refines a map from versions to offsets.
 */
module RootOffsets {
  import opened PowerOfTwo
  import opened RingPool

  const INVALID_BLOCK_NUM: nat := 0xffff_ffff_ffff_ffff

  /** Default argument of `update_version_lower_bound_`. */
  const NO_BOUND: nat := 0xffff_ffff_ffff_ffff

  /** What the ring stands for: the next version, and the root offset of every version that has one. */
  datatype History = History(next: nat, roots: map<nat, Offset>)

  datatype RingState = RingState(lb: nat, nv: nat, slots: seq<Offset>)

  /** `operator[]`. */
  function At(s: RingState, v: nat): Offset {
    var k := Slot(v, |s.slots|);
    if k < |s.slots| then s.slots[k] else INVALID_OFFSET
  }

  function Put(s: RingState, v: nat, o: Offset): RingState {
    var k := Slot(v, |s.slots|);
    if k < |s.slots| then s.(slots := s.slots[k := o]) else s
  }

  /** `max_version`; an empty database has none. */
  function MaxVersion(s: RingState): nat {
    if s.nv == 0 then INVALID_BLOCK_NUM else s.nv - 1
  }

  /** `get_root_offset_at_version` of an active timeline. */
  function Get(s: RingState, v: nat): Offset {
    if s.nv == 0 || v < s.lb || v > MaxVersion(s) then INVALID_OFFSET else At(s, v)
  }

  /** First version from `idx` on that has a root, or `max`. */
  function Walk(s: RingState, idx: nat, max: nat): nat
    decreases if idx < max then max - idx else 0
  {
    if idx < max && At(s, idx) == INVALID_OFFSET then Walk(s, idx + 1, max) else idx
  }

  /** `update_version_lower_bound_`, starting at the smaller of `bound` and the lower bound. */
  function UpdateLowerBound(s: RingState, bound: nat): RingState {
    if s.nv == 0 then s else s.(lb := Walk(s, if bound < s.lb then bound else s.lb, s.nv - 1))
  }

  function Push(s: RingState, o: Offset): RingState {
    var t := Put(s, s.nv, o).(nv := s.nv + 1);
    if o != INVALID_OFFSET then UpdateLowerBound(t, NO_BOUND) else t
  }

  function Assign(s: RingState, i: nat, o: Offset): (t: RingState)
    ensures t.nv == s.nv && |t.slots| == |s.slots|
  {
    var t := Put(s, i, o);
    UpdateLowerBound(t, if o != INVALID_OFFSET then i else NO_BOUND)
  }

  function Reset(s: RingState, version: nat): RingState {
    RingState(version, version, seq(|s.slots|, k => INVALID_OFFSET))
  }

  /** The erasing loop of `rewind_to_version`, after versions [lo, hi). */
  function EraseRange(s: RingState, lo: nat, hi: nat): (t: RingState)
    ensures t.nv == s.nv && |t.slots| == |s.slots|
    decreases hi
  {
    if hi <= lo then s else Assign(EraseRange(s, lo, hi - 1), hi - 1, INVALID_OFFSET)
  }

  function Rewind(s: RingState, version: nat): RingState {
    var t := EraseRange(s, version + 1, s.nv);
    UpdateLowerBound(t.(lb := if version < t.lb then version else t.lb, nv := version + 1), NO_BOUND)
  }

  // ---- the map it refines ----

  function PushSpec(h: History, o: Offset): History {
    History(h.next + 1, if o == INVALID_OFFSET then h.roots else h.roots[h.next := o])
  }

  function AssignSpec(h: History, i: nat, o: Offset): History {
    h.(roots := if o == INVALID_OFFSET then h.roots - {i} else h.roots[i := o])
  }

  function ResetSpec(version: nat): History {
    History(version, map[])
  }

  function RewindSpec(h: History, version: nat): History {
    History(version + 1, map v | v in h.roots && v <= version :: h.roots[v])
  }

  function GetSpec(h: History, v: nat): Offset {
    if v in h.roots then h.roots[v] else INVALID_OFFSET
  }

  ghost predicate Window(s: RingState) {
    IsPow2(|s.slots|) && s.lb <= s.nv <= s.lb + |s.slots| && s.nv <= INVALID_BLOCK_NUM
  }

  /** The versions of [lo, hi) that have a root, and their roots. */
  ghost function Roots(s: RingState, lo: nat, hi: nat): map<nat, Offset> {
    map v: nat | lo <= v < hi && At(s, v) != INVALID_OFFSET :: At(s, v)
  }

  /**
    The window holds exactly the roots of `h`, so no root lies below the lower
    bound, and the slots the next versions will use are empty.
   */
  ghost predicate Refines(s: RingState, h: History) {
    Window(s) && h.next == s.nv && Roots(s, s.lb, s.nv) == h.roots && Roots(s, s.nv, s.lb + |s.slots|) == map[]
  }

  /** The same, version by version. */
  ghost predicate Holds(s: RingState, h: History) {
    Window(s) && h.next == s.nv &&
    (forall v: nat :: v in h.roots <==> s.lb <= v < s.nv && At(s, v) != INVALID_OFFSET) &&
    (forall v: nat :: v in h.roots ==> h.roots[v] == At(s, v)) &&
    (forall v: nat :: s.nv <= v < s.lb + |s.slots| ==> At(s, v) == INVALID_OFFSET)
  }

  lemma RefinesByVersion(s: RingState, h: History)
    ensures Refines(s, h) <==> Holds(s, h)
  {
    if Refines(s, h) {
      forall v: nat | s.nv <= v < s.lb + |s.slots|
        ensures At(s, v) == INVALID_OFFSET
      {
        assert v !in Roots(s, s.nv, s.lb + |s.slots|);
      }
      assert forall v: nat :: v in h.roots <==> v in Roots(s, s.lb, s.nv);
    }
  }

  /** The lower bound of a non-empty window is a version with a root, or the maximum version. */
  ghost predicate Tight(s: RingState) {
    s.lb < s.nv ==> At(s, s.lb) != INVALID_OFFSET || s.lb == s.nv - 1
  }

  // ---- slots ----

  lemma SlotPeriodic(v: nat, cap: nat)
    requires IsPow2(cap)
    ensures Slot(v + cap, cap) == Slot(v, cap)
  {
    SlotIsRemainder(v, cap);
    SlotIsRemainder(v + cap, cap);
    RemainderPeriodic(v, cap);
  }

  lemma RemainderPeriodic(v: nat, d: nat)
    requires d > 0
    ensures (v + d) % d == v % d
  {
    var q, r := v / d, v % d;
    assert v == q * d + r;
    assert (q + 1) * d == q * d + d;
    RemainderUnique(v + d, d, q + 1, r);
  }

  lemma AtPeriodic(s: RingState, v: nat)
    requires IsPow2(|s.slots|)
    ensures At(s, v + |s.slots|) == At(s, v)
  {
    SlotPeriodic(v, |s.slots|);
  }

  lemma PutAt(s: RingState, v: nat, o: Offset, u: nat)
    requires IsPow2(|s.slots|) && u < v + |s.slots| && v < u + |s.slots|
    ensures At(Put(s, v, o), u) == if u == v then o else At(s, u)
  {
    SlotInRing(u, |s.slots|);
    SlotInRing(v, |s.slots|);
    if u < v {
      SlotsDistinct(u, v, |s.slots|);
    } else if v < u {
      SlotsDistinct(v, u, |s.slots|);
    }
  }

  // ---- the walk ----

  lemma {:induction false} WalkFinds(s: RingState, idx: nat, max: nat)
    ensures
      var r := Walk(s, idx, max);
      idx <= r && (idx <= max ==> r <= max) && (max <= idx ==> r == idx) && (r < max ==> At(s, r) != INVALID_OFFSET)
    decreases if idx < max then max - idx else 0
  {
    if idx < max && At(s, idx) == INVALID_OFFSET {
      WalkFinds(s, idx + 1, max);
    }
  }

  lemma {:induction false} WalkSkipsErased(s: RingState, idx: nat, max: nat, u: nat)
    requires idx <= u < Walk(s, idx, max)
    ensures At(s, u) == INVALID_OFFSET
    decreases if idx < max then max - idx else 0
  {
    if u > idx {
      WalkSkipsErased(s, idx + 1, max, u);
    }
  }

  /** Contents do not depend on the bounds. */
  lemma AtSame(s: RingState, t: RingState, v: nat)
    requires s.slots == t.slots
    ensures At(s, v) == At(t, v)
  {
  }

  /** Walking the lower bound up changes nothing the history can see. */
  lemma WalkHolds(s: RingState, h: History)
    requires Holds(s, h) && s.lb <= s.nv
    ensures Holds(UpdateLowerBound(s, s.lb), h) && Tight(UpdateLowerBound(s, s.lb))
  {
    if s.nv > 0 {
      var t := UpdateLowerBound(s, s.lb);
      WalkFinds(s, s.lb, s.nv - 1);
      forall v: nat
        ensures At(t, v) == At(s, v)
      {
        AtSame(s, t, v);
      }
      forall v: nat | s.lb <= v < t.lb
        ensures At(s, v) == INVALID_OFFSET
      {
        WalkSkipsErased(s, s.lb, s.nv - 1, v);
      }
      NextSlotsEmpty(s, t);
    }
  }

  /** The slots freed by a raised lower bound were empty already. */
  lemma NextSlotsEmpty(s: RingState, t: RingState)
    requires IsPow2(|s.slots|) && t == s.(lb := t.lb) && s.lb <= t.lb <= s.nv
    requires forall v: nat :: s.lb <= v < t.lb ==> At(s, v) == INVALID_OFFSET
    requires forall v: nat :: s.nv <= v < s.lb + |s.slots| ==> At(s, v) == INVALID_OFFSET
    ensures forall v: nat :: t.nv <= v < t.lb + |t.slots| ==> At(t, v) == INVALID_OFFSET
  {
    forall v: nat | t.nv <= v < t.lb + |t.slots|
      ensures At(t, v) == INVALID_OFFSET
    {
      AtSame(s, t, v);
      if v >= s.lb + |s.slots| {
        AtPeriodic(s, v - |s.slots|);
      }
    }
  }

  // ---- each operation refines its counterpart ----

  /** A push into a window that is not full, before the walk. */
  lemma PutNext(s: RingState, h: History, o: Offset)
    requires Holds(s, h) && s.nv - s.lb < |s.slots| && s.nv < INVALID_BLOCK_NUM
    ensures Holds(Put(s, s.nv, o).(nv := s.nv + 1), PushSpec(h, o))
  {
    var t := Put(s, s.nv, o).(nv := s.nv + 1);
    forall v: nat | s.lb <= v < s.lb + |s.slots|
      ensures At(t, v) == if v == s.nv then o else At(s, v)
    {
      PutAt(s, s.nv, o, v);
      AtSame(t, Put(s, s.nv, o), v);
    }
  }

  lemma PushRefines(s: RingState, h: History, o: Offset)
    requires Refines(s, h) && s.nv - s.lb < |s.slots| && s.nv < INVALID_BLOCK_NUM
    ensures Refines(Push(s, o), PushSpec(h, o))
    ensures Tight(Push(s, o)) <==> o != INVALID_OFFSET || s.lb == s.nv || At(s, s.lb) != INVALID_OFFSET
  {
    RefinesByVersion(s, h);
    RefinesByVersion(Push(s, o), PushSpec(h, o));
    PutNext(s, h, o);
    if o != INVALID_OFFSET {
      WalkHolds(Put(s, s.nv, o).(nv := s.nv + 1), PushSpec(h, o));
    } else {
      EmptyPushIsTight(s);
    }
  }

  lemma EmptyPushIsTight(s: RingState)
    requires Window(s) && s.nv - s.lb < |s.slots|
    ensures Tight(Push(s, INVALID_OFFSET)) <==> s.lb == s.nv || At(s, s.lb) != INVALID_OFFSET
  {
    PutAt(s, s.nv, INVALID_OFFSET, s.lb);
    AtSame(Push(s, INVALID_OFFSET), Put(s, s.nv, INVALID_OFFSET), s.lb);
  }

  /** A slot written inside the window of the last `|slots|` versions, with the lower bound following down. */
  lemma PutHolds(s: RingState, h: History, i: nat, o: Offset)
    requires Holds(s, h) && i < s.nv <= i + |s.slots| && (o != INVALID_OFFSET || s.lb <= i)
    ensures Holds(Put(s, i, o).(lb := if o != INVALID_OFFSET && i < s.lb then i else s.lb), AssignSpec(h, i, o))
  {
    var t := Put(s, i, o).(lb := if o != INVALID_OFFSET && i < s.lb then i else s.lb);
    forall v: nat | t.lb <= v < t.lb + |s.slots|
      ensures At(t, v) == if v == i then o else At(s, v)
    {
      PutAt(s, i, o, v);
      AtSame(t, Put(s, i, o), v);
    }
    forall v: nat | i <= v < s.lb
      ensures At(s, v) == INVALID_OFFSET
    {
      AtPeriodic(s, v);
    }
  }

  /** Erasing below the lower bound finds nothing to erase. */
  lemma EraseBelow(s: RingState, h: History, i: nat)
    requires Holds(s, h) && i < s.lb && s.nv <= i + |s.slots|
    ensures Put(s, i, INVALID_OFFSET) == s && AssignSpec(h, i, INVALID_OFFSET) == h
  {
    AtPeriodic(s, i);
    SlotInRing(i, |s.slots|);
  }

  lemma AssignHolds(s: RingState, h: History, i: nat, o: Offset)
    requires Holds(s, h) && i < s.nv <= i + |s.slots|
    ensures Holds(Assign(s, i, o), AssignSpec(h, i, o)) && Tight(Assign(s, i, o))
  {
    if o == INVALID_OFFSET && i < s.lb {
      EraseBelow(s, h, i);
      WalkHolds(s, h);
    } else {
      var t := Put(s, i, o).(lb := if o != INVALID_OFFSET && i < s.lb then i else s.lb);
      PutHolds(s, h, i, o);
      WalkHolds(t, AssignSpec(h, i, o));
      WalkFromBound(Put(s, i, o), t, if o != INVALID_OFFSET then i else NO_BOUND);
    }
  }

  lemma AssignRefines(s: RingState, h: History, i: nat, o: Offset)
    requires Refines(s, h) && i < s.nv <= i + |s.slots|
    ensures Refines(Assign(s, i, o), AssignSpec(h, i, o)) && Tight(Assign(s, i, o))
  {
    RefinesByVersion(s, h);
    RefinesByVersion(Assign(s, i, o), AssignSpec(h, i, o));
    AssignHolds(s, h, i, o);
  }

  /** The walk does not read the lower bound it replaces. */
  lemma {:induction false} WalkSame(s: RingState, t: RingState, idx: nat, max: nat)
    requires s.slots == t.slots
    ensures Walk(s, idx, max) == Walk(t, idx, max)
    decreases if idx < max then max - idx else 0
  {
    if idx < max {
      WalkSame(s, t, idx + 1, max);
    }
  }

  lemma WalkFromBound(s: RingState, t: RingState, bound: nat)
    requires t == s.(lb := if bound < s.lb then bound else s.lb) && s.nv > 0
    ensures UpdateLowerBound(s, bound) == UpdateLowerBound(t, t.lb)
  {
    WalkSame(s, t, t.lb, s.nv - 1);
  }

  lemma ResetRefines(s: RingState, version: nat)
    requires IsPow2(|s.slots|) && version <= INVALID_BLOCK_NUM
    ensures Refines(Reset(s, version), ResetSpec(version)) && Tight(Reset(s, version))
  {
  }

  // ---- rewind ----

  /** The history without versions [lo, hi). */
  ghost function EraseSpec(h: History, lo: nat, hi: nat): History
    decreases hi
  {
    if hi <= lo then h else AssignSpec(EraseSpec(h, lo, hi - 1), hi - 1, INVALID_OFFSET)
  }

  lemma {:induction false} EraseSpecAt(h: History, lo: nat, hi: nat, v: nat)
    ensures EraseSpec(h, lo, hi).next == h.next
    ensures v in EraseSpec(h, lo, hi).roots <==> v in h.roots && !(lo <= v < hi)
    ensures v in EraseSpec(h, lo, hi).roots ==> EraseSpec(h, lo, hi).roots[v] == h.roots[v]
    decreases hi
  {
    if lo < hi {
      EraseSpecAt(h, lo, hi - 1, v);
    }
  }

  lemma EraseAllAbove(h: History, version: nat, hi: nat)
    requires forall v :: v in h.roots ==> v < hi
    ensures
      var g := EraseSpec(h, version + 1, hi);
      g.(next := version + 1) == RewindSpec(h, version) && forall v :: v in g.roots ==> v <= version
  {
    var g := EraseSpec(h, version + 1, hi);
    EraseSpecAt(h, version + 1, hi, 0);
    forall v: nat
      ensures v in g.roots <==> v in h.roots && v <= version
      ensures v in g.roots ==> g.roots[v] == h.roots[v]
    {
      EraseSpecAt(h, version + 1, hi, v);
    }
  }

  /** Whatever every erasure keeps, the whole range keeps. */
  lemma {:induction false} EraseRangeKeeps(keeps: (RingState, History) -> bool, s: RingState, h: History, lo: nat,
                                           hi: nat)
    requires keeps(s, h) && hi <= s.nv <= lo + |s.slots|
    requires forall t, g, i: nat ::
               keeps(t, g) && i < t.nv <= i + |t.slots| ==>
               keeps(Assign(t, i, INVALID_OFFSET), AssignSpec(g, i, INVALID_OFFSET))
    ensures keeps(EraseRange(s, lo, hi), EraseSpec(h, lo, hi))
    decreases hi
  {
    if lo < hi {
      EraseRangeKeeps(keeps, s, h, lo, hi - 1);
    }
  }

  lemma EraseRangeRefines(s: RingState, h: History, lo: nat, hi: nat)
    requires Refines(s, h) && hi <= s.nv <= lo + |s.slots|
    ensures Refines(EraseRange(s, lo, hi), EraseSpec(h, lo, hi))
  {
    forall t, g, i: nat | Refines(t, g) && i < t.nv <= i + |t.slots|
      ensures Refines(Assign(t, i, INVALID_OFFSET), AssignSpec(g, i, INVALID_OFFSET))
    {
      AssignRefines(t, g, i, INVALID_OFFSET);
    }
    EraseRangeKeeps((t, g) => Refines(t, g), s, h, lo, hi);
  }

  /** Once the versions above `version` are gone, so are the contents of their slots. */
  lemma NothingAbove(t: RingState, h: History, version: nat, v: nat)
    requires Holds(t, h) && t.nv <= version + 1 + |t.slots|
    requires forall u :: u in h.roots ==> u <= version
    requires version < v < t.lb + |t.slots|
    ensures At(t, v) == INVALID_OFFSET
  {
    if v < t.lb {
      AtPeriodic(t, v);
    }
  }

  lemma CutBack(t: RingState, h: History, version: nat)
    requires Holds(t, h) && version + 1 < t.nv <= version + 1 + |t.slots|
    requires forall u :: u in h.roots ==> u <= version
    ensures Holds(t.(lb := if version < t.lb then version else t.lb, nv := version + 1), h.(next := version + 1))
  {
    var u := t.(lb := if version < t.lb then version else t.lb, nv := version + 1);
    forall v: nat
      ensures At(u, v) == At(t, v)
    {
      AtSame(u, t, v);
    }
    forall v: nat | u.nv <= v < u.lb + |u.slots|
      ensures At(u, v) == INVALID_OFFSET
    {
      NothingAbove(t, h, version, v);
    }
    if version < t.lb {
      AtPeriodic(t, version);
      NothingAbove(t, h, version, version + |t.slots|);
    }
  }

  lemma CutBackAndWalk(t: RingState, h: History, version: nat)
    requires Refines(t, h) && version + 1 < t.nv <= version + 1 + |t.slots|
    requires forall u :: u in h.roots ==> u <= version
    ensures
      var u := t.(lb := if version < t.lb then version else t.lb, nv := version + 1);
      Refines(UpdateLowerBound(u, NO_BOUND), h.(next := version + 1)) && Tight(UpdateLowerBound(u, NO_BOUND))
  {
    RefinesByVersion(t, h);
    CutBack(t, h, version);
    RefinesByVersion(UpdateLowerBound(t.(lb := if version < t.lb then version else t.lb, nv := version + 1), NO_BOUND),
                     h.(next := version + 1));
    WalkHolds(t.(lb := if version < t.lb then version else t.lb, nv := version + 1), h.(next := version + 1));
  }

  // `rewind_to_version` counts in 64 bits, and an empty ring has the largest number as its maximum version.

  const WORD: nat := 0x1_0000_0000_0000_0000

  /** The two assertions at its start. */
  ghost predicate RewindAsserted(s: RingState, version: nat) {
    version < MaxVersion(s) && MaxVersion(s) - version <= |s.slots|
  }

  /** Its loop is left: the loop variable passes the maximum version. */
  ghost predicate RewindEnds(s: RingState, version: nat) {
    exists k: nat :: LoopVariable(version, k) > MaxVersion(s)
  }

  function LoopVariable(version: nat, k: nat): nat {
    (version + 1 + k) % WORD
  }

  /**
    A rewind returns exactly on a ring that holds later versions, not more than
    its capacity; on an empty ring never.
   */
  lemma RewindReturnsIff(s: RingState, version: nat)
    requires Window(s)
    ensures RewindAsserted(s, version) && RewindEnds(s, version) <==> version + 1 < s.nv <= version + 1 + |s.slots|
  {
    if s.nv > 0 && version + 1 < s.nv {
      assert LoopVariable(version, s.nv - version - 1) == s.nv > MaxVersion(s);
    }
  }

  lemma RewindRefines(s: RingState, h: History, version: nat)
    requires Refines(s, h) && RewindAsserted(s, version) && RewindEnds(s, version)
    ensures Refines(Rewind(s, version), RewindSpec(h, version)) && Tight(Rewind(s, version))
  {
    RewindReturnsIff(s, version);
    RefinesByVersion(s, h);
    EraseRangeRefines(s, h, version + 1, s.nv);
    EraseAllAbove(h, version, s.nv);
    CutBackAndWalk(EraseRange(s, version + 1, s.nv), EraseSpec(h, version + 1, s.nv), version);
  }

  // ---- whole runs ----

  datatype Command =
    | PushCmd(o: Offset)
    | AssignCmd(i: nat, o: Offset)
    | ResetCmd(version: nat)
    | RewindCmd(version: nat)

  /** The assertions of the operation, a push only into a window that is not full, an assign only inside it. */
  ghost predicate Allowed(s: RingState, c: Command) {
    match c
    case PushCmd(_) => s.nv < INVALID_BLOCK_NUM && s.nv - s.lb < |s.slots|
    case AssignCmd(i, _) => i < s.nv <= i + |s.slots|
    case ResetCmd(version) => version <= INVALID_BLOCK_NUM
    case RewindCmd(version) => RewindAsserted(s, version) && RewindEnds(s, version)
  }

  function Do(s: RingState, c: Command): RingState {
    match c
    case PushCmd(o) => Push(s, o)
    case AssignCmd(i, o) => Assign(s, i, o)
    case ResetCmd(version) => Reset(s, version)
    case RewindCmd(version) => Rewind(s, version)
  }

  function DoSpec(h: History, c: Command): History {
    match c
    case PushCmd(o) => PushSpec(h, o)
    case AssignCmd(i, o) => AssignSpec(h, i, o)
    case ResetCmd(version) => ResetSpec(version)
    case RewindCmd(version) => RewindSpec(h, version)
  }

  function DoAll(s: RingState, cs: seq<Command>): RingState {
    if cs == [] then s else Do(DoAll(s, cs[..|cs| - 1]), cs[|cs| - 1])
  }

  function DoAllSpec(h: History, cs: seq<Command>): History {
    if cs == [] then h else DoSpec(DoAllSpec(h, cs[..|cs| - 1]), cs[|cs| - 1])
  }

  ghost predicate AllowedRun(s: RingState, cs: seq<Command>) {
    cs == [] || (AllowedRun(s, cs[..|cs| - 1]) && Allowed(DoAll(s, cs[..|cs| - 1]), cs[|cs| - 1]))
  }

  lemma StepRefines(s: RingState, h: History, c: Command)
    requires Refines(s, h) && Allowed(s, c)
    ensures Refines(Do(s, c), DoSpec(h, c))
  {
    match c
    case PushCmd(o) => PushRefines(s, h, o);
    case AssignCmd(i, o) => AssignRefines(s, h, i, o);
    case ResetCmd(version) => ResetRefines(s, version);
    case RewindCmd(version) => RewindRefines(s, h, version);
  }

  lemma {:induction false} RunRefines(s: RingState, h: History, cs: seq<Command>)
    requires Refines(s, h) && AllowedRun(s, cs)
    ensures Refines(DoAll(s, cs), DoAllSpec(h, cs))
    decreases |cs|
  {
    if cs != [] {
      RunRefines(s, h, cs[..|cs| - 1]);
      StepRefines(DoAll(s, cs[..|cs| - 1]), DoAllSpec(h, cs[..|cs| - 1]), cs[|cs| - 1]);
    }
  }

  /** Every run from an empty ring looks versions up like the map, and keeps no root below the lower bound. */
  lemma RingIsAMap(s: RingState, version: nat, cs: seq<Command>, v: nat)
    requires IsPow2(|s.slots|) && version <= INVALID_BLOCK_NUM && AllowedRun(Reset(s, version), cs)
    ensures
      var t, h := DoAll(Reset(s, version), cs), DoAllSpec(ResetSpec(version), cs);
      Get(t, v) == GetSpec(h, v) && (v in h.roots ==> t.lb <= v < t.nv)
  {
    var t, h := DoAll(Reset(s, version), cs), DoAllSpec(ResetSpec(version), cs);
    ResetRefines(s, version);
    RunRefines(Reset(s, version), ResetSpec(version), cs);
    RefinesByVersion(t, h);
  }

  // ---- where the lower bound is, over whole runs ----

  /** How many versions the window has after the run while no version has a root. */
  ghost function Width(cs: seq<Command>): nat {
    if cs == [] then 0
    else
      var before := Width(cs[..|cs| - 1]);
      match cs[|cs| - 1]
      case PushCmd(o) => if o == INVALID_OFFSET then before + 1 else 1
      case AssignCmd(_, o) => if o == INVALID_OFFSET && before == 0 then 0 else 1
      case ResetCmd(_) => 0
      case RewindCmd(_) => 1
  }

  /** The lower bound is the lowest version with a root; with no root at all, the window has `width` versions. */
  ghost predicate Settled(s: RingState, h: History, width: nat) {
    (h.roots != map[] ==> s.lb in h.roots) && (h.roots == map[] ==> s.nv - s.lb == width) &&
    (width == 0 <==> s.lb == s.nv)
  }

  lemma TightIsSettled(s: RingState, h: History)
    requires Refines(s, h) && Tight(s)
    ensures h.roots != map[] ==> s.lb in h.roots
    ensures h.roots == map[] ==> s.nv - s.lb <= 1
  {
    RefinesByVersion(s, h);
    if h.roots != map[] {
      var v :| v in h.roots;
    } else if s.lb < s.nv {
      assert s.lb !in h.roots;
    }
  }

  lemma SettledIsTightIff(s: RingState, h: History, width: nat)
    requires Refines(s, h) && Settled(s, h, width)
    ensures Tight(s) <==> h.roots != map[] || width <= 1
  {
    RefinesByVersion(s, h);
    if h.roots == map[] && s.lb < s.nv {
      assert s.lb !in h.roots;
    }
  }

  /** An update leaves the window with a version in it, unless it starts past the last one. */
  lemma BoundInWindow(s: RingState, bound: nat)
    requires s.nv > 0
    ensures
      var from := if bound < s.lb then bound else s.lb;
      from < s.nv ==> UpdateLowerBound(s, bound).lb < s.nv
    ensures s.lb <= bound && s.lb >= s.nv ==> UpdateLowerBound(s, bound).lb == s.lb
  {
    WalkFinds(s, if bound < s.lb then bound else s.lb, s.nv - 1);
  }

  lemma PushSettles(s: RingState, h: History, o: Offset, width: nat)
    requires Refines(s, h) && Settled(s, h, width) && Allowed(s, PushCmd(o))
    ensures Settled(Push(s, o), PushSpec(h, o), if o == INVALID_OFFSET then width + 1 else 1)
  {
    PushRefines(s, h, o);
    if o != INVALID_OFFSET {
      TightIsSettled(Push(s, o), PushSpec(h, o));
      BoundInWindow(Put(s, s.nv, o).(nv := s.nv + 1), NO_BOUND);
      assert s.nv in PushSpec(h, o).roots;
    }
  }

  lemma AssignSettles(s: RingState, h: History, i: nat, o: Offset, width: nat)
    requires Refines(s, h) && Settled(s, h, width) && Allowed(s, AssignCmd(i, o))
    ensures Settled(Assign(s, i, o), AssignSpec(h, i, o), if o == INVALID_OFFSET && width == 0 then 0 else 1)
  {
    AssignRefines(s, h, i, o);
    TightIsSettled(Assign(s, i, o), AssignSpec(h, i, o));
    BoundInWindow(Put(s, i, o), if o != INVALID_OFFSET then i else NO_BOUND);
  }

  lemma RewindSettles(s: RingState, h: History, version: nat)
    requires Refines(s, h) && Allowed(s, RewindCmd(version))
    ensures Settled(Rewind(s, version), RewindSpec(h, version), 1)
  {
    RewindReturnsIff(s, version);
    RewindRefines(s, h, version);
    TightIsSettled(Rewind(s, version), RewindSpec(h, version));
    var t := EraseRange(s, version + 1, s.nv);
    BoundInWindow(t.(lb := if version < t.lb then version else t.lb, nv := version + 1), NO_BOUND);
  }

  lemma {:induction false} RunSettles(s: RingState, version: nat, cs: seq<Command>)
    requires IsPow2(|s.slots|) && version <= INVALID_BLOCK_NUM && AllowedRun(Reset(s, version), cs)
    ensures
      var t, h := DoAll(Reset(s, version), cs), DoAllSpec(ResetSpec(version), cs);
      Refines(t, h) && Settled(t, h, Width(cs))
    decreases |cs|
  {
    ResetRefines(s, version);
    RunRefines(Reset(s, version), ResetSpec(version), cs);
    if cs != [] {
      var init := cs[..|cs| - 1];
      RunSettles(s, version, init);
      StepSettles(DoAll(Reset(s, version), init), DoAllSpec(ResetSpec(version), init), cs);
    }
  }

  lemma StepSettles(s: RingState, h: History, cs: seq<Command>)
    requires cs != [] && Refines(s, h) && Settled(s, h, Width(cs[..|cs| - 1])) && Allowed(s, cs[|cs| - 1])
    ensures Settled(Do(s, cs[|cs| - 1]), DoSpec(h, cs[|cs| - 1]), Width(cs))
  {
    var width := Width(cs[..|cs| - 1]);
    match cs[|cs| - 1]
    case PushCmd(o) => PushSettles(s, h, o, width);
    case AssignCmd(i, o) => AssignSettles(s, h, i, o, width);
    case ResetCmd(version) =>
    case RewindCmd(version) => RewindSettles(s, h, version);
  }

  /**
    Where the lower bound is after every run: at the lowest version with a root
    if there is one. If there is none, it is at the maximum version just when
    the run left at most one version in the window; a run whose last command
    is not an empty push always does.
   */
  lemma LowerBoundOfRun(s: RingState, version: nat, cs: seq<Command>)
    requires IsPow2(|s.slots|) && version <= INVALID_BLOCK_NUM && AllowedRun(Reset(s, version), cs)
    ensures
      var t, h := DoAll(Reset(s, version), cs), DoAllSpec(ResetSpec(version), cs);
      (h.roots != map[] ==> t.lb in h.roots && forall v :: v in h.roots ==> t.lb <= v) &&
      (h.roots == map[] ==> t.nv - t.lb == Width(cs)) &&
      (Tight(t) <==> h.roots != map[] || Width(cs) <= 1) &&
      (cs != [] && cs[|cs| - 1] != PushCmd(INVALID_OFFSET) ==> Tight(t))
  {
    var t, h := DoAll(Reset(s, version), cs), DoAllSpec(ResetSpec(version), cs);
    RunSettles(s, version, cs);
    SettledIsTightIff(t, h, Width(cs));
    RefinesByVersion(t, h);
  }

  /**
    A push into a full window overwrites the slot of the lowest version. The
    lookups are still those of the map just when that slot held the same offset.
   */
  lemma PushKeepsLookupsIff(s: RingState, h: History, o: Offset)
    requires Refines(s, h) && s.nv < INVALID_BLOCK_NUM
    ensures (forall v: nat :: Get(Push(s, o), v) == GetSpec(PushSpec(h, o), v)) <==>
            s.nv - s.lb < |s.slots| || At(s, s.lb) == o
  {
    RefinesByVersion(s, h);
    if s.nv - s.lb < |s.slots| {
      PushRefines(s, h, o);
      RefinesByVersion(Push(s, o), PushSpec(h, o));
    } else {
      FullPush(s, h, o);
      var t := Push(s, o);
      assert Get(t, s.lb) == o;
      assert GetSpec(PushSpec(h, o), s.lb) == At(s, s.lb);
    }
  }

  lemma FullPush(s: RingState, h: History, o: Offset)
    requires Refines(s, h) && s.nv - s.lb == |s.slots| && s.nv < INVALID_BLOCK_NUM
    ensures Push(s, o).lb == s.lb && Push(s, o).nv == s.nv + 1
    ensures forall v: nat :: s.lb <= v <= s.nv ==> At(Push(s, o), v) == if v == s.nv || v == s.lb then o else At(s, v)
  {
    var p := Put(s, s.nv, o);
    AtPeriodic(p, s.lb);
    forall v: nat | s.lb <= v <= s.nv
      ensures At(p, v) == if v == s.nv || v == s.lb then o else At(s, v)
    {
      if v == s.lb {
        PutAt(s, s.nv, o, s.nv);
      } else {
        PutAt(s, s.nv, o, v);
      }
    }
    forall v: nat
      ensures At(Push(s, o), v) == At(p, v)
    {
      AtSame(Push(s, o), p, v);
    }
    var t := p.(nv := s.nv + 1);
    AtSame(t, p, s.lb);
  }

  /** The plain claim, that the lower bound is a root or the maximum version, fails after two empty pushes. */
  lemma TwoEmptyPushesAreLoose()
    ensures
      var s := Push(Push(RingState(0, 0, [INVALID_OFFSET, INVALID_OFFSET]), INVALID_OFFSET), INVALID_OFFSET);
      !Tight(s)
  {
    var r := RingState(0, 0, [INVALID_OFFSET, INVALID_OFFSET]);
    assert TwoTo(1) == 2;
    ResetRefines(r, 0);
    assert Reset(r, 0) == r;
    PushRefines(r, ResetSpec(0), INVALID_OFFSET);
    PutAt(r, 0, INVALID_OFFSET, 0);
    AtSame(Push(r, INVALID_OFFSET), Put(r, 0, INVALID_OFFSET), 0);
    PushRefines(Push(r, INVALID_OFFSET), PushSpec(ResetSpec(0), INVALID_OFFSET), INVALID_OFFSET);
  }
}
