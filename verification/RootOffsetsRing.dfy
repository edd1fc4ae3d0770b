/**
  The delegator as an object bound to one physical ring, and the operations of
  the context that drive both metadata copies through it.
 */
module RootOffsetsRing {
  import opened PowerOfTwo
  import opened RingPool
  import opened RootOffsets

  class RootOffsetsDelegator {
    var lowerBound: nat
    var nextVersion: nat
    const slots: array<Offset>

    constructor (lb: nat, nv: nat, span: array<Offset>)
      requires IsPow2(span.Length)
      ensures slots == span && State() == RingState(lb, nv, span[..])
    {
      lowerBound, nextVersion, slots := lb, nv, span;
    }

    ghost function State(): RingState
      reads this, slots
    {
      RingState(lowerBound, nextVersion, slots[..])
    }

    method Load(i: nat) returns (o: Offset)
      requires IsPow2(slots.Length)
      ensures o == At(State(), i)
    {
      SlotInRing(i, slots.Length);
      o := slots[Slot(i, slots.Length)];
    }

    method Store(i: nat, o: Offset)
      requires IsPow2(slots.Length)
      modifies slots
      ensures State() == Put(old(State()), i, o)
    {
      SlotInRing(i, slots.Length);
      slots[Slot(i, slots.Length)] := o;
    }

    method UpdateVersionLowerBound(bound: nat)
      requires IsPow2(slots.Length)
      modifies this`lowerBound
      ensures State() == UpdateLowerBound(old(State()), bound)
    {
      var idx := if bound < lowerBound then bound else lowerBound;
      if nextVersion == 0 {
        return;
      }
      var max := nextVersion - 1;
      ghost var s, start := State(), idx;
      var o := Load(idx);
      while idx < max && o == INVALID_OFFSET
        invariant Walk(s, idx, max) == Walk(s, start, max)
        invariant o == At(s, idx)
        decreases max - idx
      {
        idx := idx + 1;
        o := Load(idx);
      }
      if idx != lowerBound {
        lowerBound := idx;
      }
    }

    method PushBack(o: Offset)
      requires IsPow2(slots.Length) && nextVersion < INVALID_BLOCK_NUM
      modifies this, slots
      ensures State() == Push(old(State()), o)
    {
      Store(nextVersion, o);
      nextVersion := nextVersion + 1;
      if o != INVALID_OFFSET {
        UpdateVersionLowerBound(NO_BOUND);
      }
    }

    method AssignAt(i: nat, o: Offset)
      requires IsPow2(slots.Length)
      modifies this`lowerBound, slots
      ensures State() == Assign(old(State()), i, o)
    {
      Store(i, o);
      UpdateVersionLowerBound(if o != INVALID_OFFSET then i else NO_BOUND);
    }

    method ResetAll(version: nat)
      requires IsPow2(slots.Length)
      modifies this, slots
      ensures State() == Reset(old(State()), version)
    {
      lowerBound, nextVersion := 0, 0;
      for k := 0 to slots.Length
        invariant forall j :: 0 <= j < k ==> slots[j] == INVALID_OFFSET
      {
        slots[k] := INVALID_OFFSET;
      }
      lowerBound, nextVersion := version, version;
      assert slots[..] == Reset(old(State()), version).slots;
    }

    method RewindToVersion(version: nat)
      requires IsPow2(slots.Length) && version + 1 < nextVersion <= version + 1 + slots.Length
      modifies this, slots
      ensures State() == Rewind(old(State()), version)
    {
      var i := version + 1;
      while i < nextVersion
        invariant version + 1 <= i <= nextVersion
        invariant State() == EraseRange(old(State()), version + 1, i)
      {
        AssignAt(i, INVALID_OFFSET);
        i := i + 1;
      }
      if version < lowerBound {
        lowerBound := version;
      }
      nextVersion := version + 1;
      UpdateVersionLowerBound(NO_BOUND);
    }

    /** One copy's part of `fast_forward_next_version`. */
    method FastForwardNextVersion(version: nat)
      requires IsPow2(slots.Length) && nextVersion <= version <= INVALID_BLOCK_NUM
      modifies this, slots
      ensures State() == FastForward(old(State()), version)
    {
      if nextVersion == 0 || version - (nextVersion - 1) >= slots.Length {
        ResetAll(version);
      } else {
        while nextVersion < version
          invariant nextVersion <= version
          invariant State() == Pad(old(State()), nextVersion)
        {
          PushBack(INVALID_OFFSET);
        }
      }
    }
  }

  /** Push empty roots until `version` is next. */
  function Pad(s: RingState, version: nat): (t: RingState)
    ensures |t.slots| == |s.slots| && t.nv == if s.nv < version then version else s.nv
    decreases version
  {
    if version <= s.nv then s else Push(Pad(s, version - 1), INVALID_OFFSET)
  }

  function FastForward(s: RingState, version: nat): RingState
    requires s.nv <= version
  {
    if s.nv == 0 || version - (s.nv - 1) >= |s.slots| then Reset(s, version) else Pad(s, version)
  }

  // ---- both copies ----

  /** The delegators of the two metadata copies, for one timeline. */
  class RootOffsetsCopies {
    const c0: RootOffsetsDelegator
    const c1: RootOffsetsDelegator

    constructor (a: RootOffsetsDelegator, b: RootOffsetsDelegator)
      ensures c0 == a && c1 == b
    {
      c0, c1 := a, b;
    }

    ghost predicate Separate()
      reads c0, c1
    {
      c0 != c1 && c0.slots != c1.slots && IsPow2(c0.slots.Length) && IsPow2(c1.slots.Length)
    }

    method AppendRootOffset(o: Offset)
      requires Separate() && c0.nextVersion < INVALID_BLOCK_NUM && c1.nextVersion < INVALID_BLOCK_NUM
      modifies c0, c1, c0.slots, c1.slots
      ensures c0.State() == Push(old(c0.State()), o) && c1.State() == Push(old(c1.State()), o)
    {
      c0.PushBack(o);
      c1.PushBack(o);
    }

    /** Is `i` both the maximum and the minimum version, as the context sees it through copy 0? */
    method OnlyVersion(i: nat) returns (b: bool)
      ensures b == Only(c0.State(), i)
    {
      var max := if c0.nextVersion == 0 then INVALID_BLOCK_NUM else c0.nextVersion - 1;
      var min := if c0.nextVersion == 0 then INVALID_BLOCK_NUM else c0.lowerBound;
      b := i == max && i == min;
    }

    /** `update_root_offset`: the second pass, too, asks copy 0 whether the ring is now empty. */
    method UpdateRootOffset(i: nat, o: Offset)
      requires Separate()
      modifies c0, c1, c0.slots, c1.slots
      ensures
        var r := UpdateBoth(old(c0.State()), old(c1.State()), i, o);
        c0.State() == r.0 && c1.State() == r.1
    {
      c0.AssignAt(i, o);
      var only := OnlyVersion(i);
      if o == INVALID_OFFSET && only {
        c0.ResetAll(0);
      }
      c1.AssignAt(i, o);
      only := OnlyVersion(i);
      if o == INVALID_OFFSET && only {
        c1.ResetAll(0);
      }
    }

    method FastForwardNextVersion(version: nat)
      requires Separate() && c0.nextVersion <= version && c1.nextVersion <= version <= INVALID_BLOCK_NUM
      modifies c0, c1, c0.slots, c1.slots
      ensures c0.State() == FastForward(old(c0.State()), version) && c1.State() == FastForward(old(c1.State()), version)
    {
      c0.FastForwardNextVersion(version);
      c1.FastForwardNextVersion(version);
    }
  }

  function Only(s: RingState, i: nat): bool {
    i == MaxVersion(s) && i == if s.nv == 0 then INVALID_BLOCK_NUM else s.lb
  }

  function UpdateBoth(a: RingState, b: RingState, i: nat, o: Offset): (RingState, RingState) {
    var a1 := Assign(a, i, o);
    var a2 := if o == INVALID_OFFSET && Only(a1, i) then Reset(a1, 0) else a1;
    var b1 := Assign(b, i, o);
    (a2, if o == INVALID_OFFSET && Only(a2, i) then Reset(b1, 0) else b1)
  }

  // ---- what erasing the only version does ----

  /** Is `i`, the last version, the only one left with a root? */
  ghost predicate ErasesLast(s: RingState, h: History, i: nat, o: Offset) {
    o == INVALID_OFFSET && s.lb <= i && i + 1 == s.nv && h.roots - {i} == map[]
  }

  lemma AssignedOnly(s: RingState, h: History, i: nat)
    requires Refines(s, h) && i < s.nv <= i + |s.slots|
    ensures Only(Assign(s, i, INVALID_OFFSET), i) <==> ErasesLast(s, h, i, INVALID_OFFSET)
  {
    var t, g := Assign(s, i, INVALID_OFFSET), AssignSpec(h, i, INVALID_OFFSET);
    RefinesByVersion(s, h);
    AssignRefines(s, h, i, INVALID_OFFSET);
    RefinesByVersion(t, g);
    if i + 1 == s.nv {
      LowerBoundStays(s, i);
      if t.lb != i && t.lb < t.nv {
        assert t.lb in g.roots;
      }
      if t.lb == i {
        forall v | v in g.roots
          ensures false
        {
        }
      }
    }
  }

  /** Erasing never takes the lower bound down, nor past the end unless it was there. */
  lemma LowerBoundStays(s: RingState, i: nat)
    requires s.nv > 0 && s.nv <= INVALID_BLOCK_NUM && s.lb <= s.nv
    ensures
      var t := Assign(s, i, INVALID_OFFSET);
      s.lb <= t.lb && (s.lb < s.nv ==> t.lb < s.nv)
  {
    var p := Put(s, i, INVALID_OFFSET);
    WalkFinds(p, p.lb, p.nv - 1);
  }

  function Blank(cap: nat): seq<Offset> {
    seq(cap, k => INVALID_OFFSET)
  }

  /** Every slot is the slot of one of any `cap` consecutive versions. */
  lemma SlotIsHit(i: nat, cap: nat, k: nat) returns (v: nat)
    requires IsPow2(cap) && k < cap
    ensures i <= v < i + cap && Slot(v, cap) == k
  {
    var q, r := i / cap, i % cap;
    assert i == q * cap + r;
    assert (q + 1) * cap == q * cap + cap;
    v := if k >= r then i + (k - r) else i + cap + k - r;
    RemainderUnique(v, cap, if k >= r then q else q + 1, k);
    SlotIsRemainder(v, cap);
  }

  lemma NoRootsIsBlank(s: RingState, h: History)
    requires Refines(s, h) && h.roots == map[]
    ensures s.slots == Blank(|s.slots|)
  {
    RefinesByVersion(s, h);
    forall k | 0 <= k < |s.slots|
      ensures s.slots[k] == INVALID_OFFSET
    {
      var v := SlotIsHit(s.lb, |s.slots|, k);
      assert At(s, v) == s.slots[k];
    }
  }

  /**
    Erasing keeps two agreeing copies in agreement unless it erases the only
    version left: then copy 0 is reset to the empty database while copy 1 keeps
    an empty window around the erased version.
   */
  lemma UpdateAgreesIff(s: RingState, h: History, i: nat, o: Offset)
    requires Refines(s, h) && i < s.nv <= i + |s.slots|
    ensures
      var (a, b) := UpdateBoth(s, s, i, o);
      (a == b <==> !ErasesLast(s, h, i, o)) &&
      (a == b ==> Refines(a, AssignSpec(h, i, o))) &&
      (a != b ==> a == RingState(0, 0, Blank(|s.slots|)) && b == RingState(i, i + 1, Blank(|s.slots|)))
  {
    var t := Assign(s, i, o);
    AssignRefines(s, h, i, o);
    if o == INVALID_OFFSET {
      AssignedOnly(s, h, i);
      if ErasesLast(s, h, i, o) {
        NoRootsIsBlank(t, AssignSpec(h, i, o));
      }
    }
  }

  // ---- how the copies meet again ----

  lemma {:induction false} WalkReaches(s: RingState, idx: nat, max: nat)
    requires idx <= max && forall u: nat :: idx <= u < max ==> At(s, u) == INVALID_OFFSET
    ensures Walk(s, idx, max) == max
    decreases max - idx
  {
    if idx < max {
      WalkReaches(s, idx + 1, max);
    }
  }

  lemma {:induction false} PadBlank(s: RingState, version: nat)
    requires IsPow2(|s.slots|) && s.slots == Blank(|s.slots|) && s.nv <= version
    ensures Pad(s, version) == s.(nv := version)
    decreases version
  {
    if s.nv < version {
      PadBlank(s, version - 1);
      SlotInRing(version - 1, |s.slots|);
    }
  }

  lemma PushOnBlank(s: RingState, o: Offset)
    requires IsPow2(|s.slots|) && s.slots == Blank(|s.slots|) && o != INVALID_OFFSET
    requires s.lb <= s.nv < s.lb + |s.slots| && s.nv <= INVALID_BLOCK_NUM
    ensures Push(s, o) == Put(s, s.nv, o).(lb := s.nv, nv := s.nv + 1)
  {
    var t := Put(s, s.nv, o).(nv := s.nv + 1);
    forall u: nat | s.lb <= u < s.nv
      ensures At(t, u) == INVALID_OFFSET
    {
      PutAt(s, s.nv, o, u);
      AtSame(t, Put(s, s.nv, o), u);
      SlotInRing(u, |s.slots|);
    }
    WalkReaches(t, s.lb, s.nv);
  }

  /**
    After the only version `i` was erased, writing version `version` by fast
    forward and append is accepted on copy 1 just when `version` is above `i`,
    and then the copies are equal again.
   */
  lemma CopiesMeetAgain(cap: nat, i: nat, version: nat, o: Offset)
    requires IsPow2(cap) && o != INVALID_OFFSET && version < INVALID_BLOCK_NUM
    ensures
      var a, b := RingState(0, 0, Blank(cap)), RingState(i, i + 1, Blank(cap));
      a.nv <= version && (b.nv <= version <==> version > i) &&
      (version > i ==> Push(FastForward(a, version), o) == Push(FastForward(b, version), o))
  {
    var a, b := RingState(0, 0, Blank(cap)), RingState(i, i + 1, Blank(cap));
    if version > i {
      var x, y := FastForward(a, version), FastForward(b, version);
      assert x == RingState(version, version, Blank(cap));
      if version - i < cap {
        PadBlank(b, version);
        assert y == RingState(i, version, Blank(cap));
      } else {
        assert y == x;
      }
      PushOnBlank(x, o);
      PushOnBlank(y, o);
    }
  }

  /**
    Fast forward keeps every root, unless it jumps at least a whole ring ahead;
    then it keeps none. It leaves the window too wide for the ring just when it
    jumps less than that, but past the slot of the lower bound.
   */
  lemma FastForwardRefines(s: RingState, h: History, version: nat)
    requires Refines(s, h) && s.nv <= version <= INVALID_BLOCK_NUM
    ensures
      var whole := s.nv == 0 || version - (s.nv - 1) >= |s.slots|;
      Refines(FastForward(s, version), if whole then ResetSpec(version) else h.(next := version)) <==>
      whole || version - s.lb <= |s.slots|
  {
    if s.nv == 0 || version - (s.nv - 1) >= |s.slots| {
      ResetRefines(s, version);
    } else if version - s.lb <= |s.slots| {
      PadRefines(s, h, version);
    } else {
      PadShape(s, version);
    }
  }

  lemma {:induction false} PadRefines(s: RingState, h: History, version: nat)
    requires Refines(s, h) && s.nv <= version <= INVALID_BLOCK_NUM && version - s.lb <= |s.slots|
    ensures Refines(Pad(s, version), h.(next := version)) && Pad(s, version).lb == s.lb
    decreases version
  {
    if s.nv < version {
      PadRefines(s, h, version - 1);
      PushRefines(Pad(s, version - 1), h.(next := version - 1), INVALID_OFFSET);
    }
  }

  lemma PutInvalid(s: RingState, v: nat, u: nat)
    requires IsPow2(|s.slots|)
    ensures At(Put(s, v, INVALID_OFFSET), u) == INVALID_OFFSET || At(Put(s, v, INVALID_OFFSET), u) == At(s, u)
    ensures v == u + |s.slots| ==> At(Put(s, v, INVALID_OFFSET), u) == INVALID_OFFSET
  {
    SlotInRing(u, |s.slots|);
    SlotPeriodic(u, |s.slots|);
  }

  /** Padding erases the versions whose slots it uses and no others. */
  lemma {:induction false} PadAt(s: RingState, version: nat, u: nat)
    requires Window(s) && s.nv <= version && s.lb <= u < version
    ensures
      var t := Pad(s, version);
      |t.slots| == |s.slots| && t.lb == s.lb && t.nv == version &&
      At(t, u) == if u < s.nv && version <= u + |s.slots| then At(s, u) else INVALID_OFFSET
    decreases version
  {
    if s.nv < version {
      var w := version - 1;
      PadShape(s, w);
      var t := Pad(s, w);
      PutInvalid(t, w, u);
      if u < w {
        PadAt(s, w, u);
        if w < u + |s.slots| {
          PutAt(t, w, INVALID_OFFSET, u);
        }
      } else {
        PutAt(t, w, INVALID_OFFSET, u);
      }
    }
  }

  lemma {:induction false} PadShape(s: RingState, version: nat)
    requires s.nv <= version
    ensures |Pad(s, version).slots| == |s.slots| && Pad(s, version).lb == s.lb && Pad(s, version).nv == version
    decreases version
  {
    if s.nv < version {
      PadShape(s, version - 1);
    }
  }

  /**
    Fast forward keeps the roots of the last `capacity` versions, unless it
    jumps a whole ring ahead; all others are gone.
   */
  lemma FastForwardLookups(s: RingState, h: History, version: nat, v: nat)
    requires Refines(s, h) && s.nv <= version <= INVALID_BLOCK_NUM
    ensures Get(FastForward(s, version), v) ==
            if s.nv == 0 || version - (s.nv - 1) >= |s.slots| || v + |s.slots| < version then INVALID_OFFSET
            else GetSpec(h, v)
  {
    RefinesByVersion(s, h);
    if s.nv == 0 || version - (s.nv - 1) >= |s.slots| {
      ResetRefines(s, version);
      RefinesByVersion(Reset(s, version), ResetSpec(version));
    } else {
      PadShape(s, version);
      if s.lb <= v < version {
        PadAt(s, version, v);
      }
    }
  }
}
