/**
  What a lookup that parks and shares reads is answered with: the node its key
  leads to on disk, as long as nobody expires its version or recycles an offset
  on its way.
 */
module ReadAnswers {
  import opened Options
  import opened MerkleCompute
  import opened ReadCoalescing
  import Lookup = TrieLookup

  // ---- the lookup on disk ----

  /** The lookup in what is written on disk, with no cache, no read and no other request in between. */
  ghost function OnDisk(w: World, node: Node, i: nat, key: seq<nat>): Result
    requires i <= |node.path|
    decreases |key|
  {
    var path := node.path[i..];
    if !(path <= key) then Result(if key < path then KeyEndsEarlier else KeyMismatch, Some(node))
    else if |key| == |path| then Result(Success, Some(node))
    else if key[|path|] !in node.next then Result(BranchNotExist, Some(node))
    else
      var v := Translate(w, node.next[key[|path|]]);
      if v.None? || v.value !in w.content then Result(VersionGone, Some(node))
      else OnDisk(w, w.content[v.value], 0, key[|path| + 1..])
  }

  /** The physical offsets it goes through. */
  ghost function Way(w: World, node: Node, i: nat, key: seq<nat>): set<nat>
    requires i <= |node.path|
    decreases |key|
  {
    var path := node.path[i..];
    if !(path <= key) || |key| == |path| || key[|path|] !in node.next then {}
    else
      var phys := node.next[key[|path|]];
      var v := Translate(w, phys);
      if v.None? || v.value !in w.content then {phys}
      else {phys} + Way(w, w.content[v.value], 0, key[|path| + 1..])
  }

  /** The same node lies behind the offset. */
  ghost predicate SameAt(w: World, u: World, phys: nat) {
    var v := Translate(w, phys);
    Translate(u, phys) == v &&
    (v.Some? ==>
      (v.value in w.content <==> v.value in u.content) &&
      (v.value in w.content ==> w.content[v.value] == u.content[v.value]))
  }

  ghost predicate SameOn(w: World, u: World, ps: set<nat>) {
    forall phys :: phys in ps ==> SameAt(w, u, phys)
  }

  lemma {:induction false} OnDiskSame(w: World, u: World, node: Node, i: nat, key: seq<nat>, ps: set<nat>)
    requires i <= |node.path| && Way(w, node, i, key) <= ps && SameOn(w, u, ps)
    ensures OnDisk(u, node, i, key) == OnDisk(w, node, i, key) && Way(u, node, i, key) == Way(w, node, i, key)
    decreases |key|
  {
    var path := node.path[i..];
    if path <= key && |path| < |key| && key[|path|] in node.next {
      var phys := node.next[key[|path|]];
      assert phys in Way(w, node, i, key) && SameAt(w, u, phys);
      var v := Translate(w, phys);
      if v.Some? && v.value in w.content {
        OnDiskSame(w, u, w.content[v.value], 0, key[|path| + 1..], ps);
      }
    }
  }

  /** A descent through the cache ends as the lookup on disk does, or parks on the way of it. */
  lemma {:induction false} DescendIsOnDisk(w: World, node: Node, i: nat, key: seq<nat>, version: nat, io: bool)
    requires TrueContent(w) && i <= |node.path| && version in w.valid
    ensures
      match Descend(w, node, i, key, version, io)
      case Done(r) => r == OnDisk(w, node, i, key) || (!io && r == Result(NeedIoThread, None))
      case Park(v, rest) =>
        io && v in w.content && Translate(w, v.phys) == Some(v) && v.phys in Way(w, node, i, key) &&
        OnDisk(w, w.content[v], 0, rest) == OnDisk(w, node, i, key) &&
        Way(w, w.content[v], 0, rest) <= Way(w, node, i, key)
    decreases |key|
  {
    var path := node.path[i..];
    if path <= key && |path| < |key| && key[|path|] in node.next {
      var v := Translate(w, node.next[key[|path|]]);
      if v.Some? {
        assert v.value in w.content;
        if v.value in w.cache {
          DescendIsOnDisk(w, w.cache[v.value], 0, key[|path| + 1..], version, io);
        }
      }
    }
  }

  // ---- one request on its way ----

  /** A waiter that will get `want` from the node it waits for. */
  ghost predicate Expects(w: World, waiter: Waiter, at: Virtual, version: nat, want: Result, ps: set<nat>) {
    waiter.version == version && version in w.valid && at in w.content && Translate(w, at.phys) == Some(at) &&
    at.phys in ps &&
    if waiter.rootOnly then want == Result(Success, Some(w.content[at]))
    else OnDisk(w, w.content[at], 0, waiter.key) == want && Way(w, w.content[at], 0, waiter.key) <= ps
  }

  ghost predicate AllExpect(w: World, ws: seq<Waiter>, id: nat, at: Virtual, version: nat, want: Result, ps: set<nat>) {
    forall k :: 0 <= k < |ws| && ws[k].id == id ==> Expects(w, ws[k], at, version, want, ps)
  }

  /** Request `id` was answered with `want`, or waits where it will be. */
  ghost predicate Tracks(w: World, id: nat, version: nat, want: Result, ps: set<nat>) {
    id in w.promises &&
    if id in w.parked then
      w.parked[id] in w.inflight && AllExpect(w, w.inflight[w.parked[id]], id, w.parked[id], version, want, ps)
    else w.promises[id] == [want]
  }

  lemma ExpectsSame(w: World, u: World, waiter: Waiter, at: Virtual, version: nat, want: Result, ps: set<nat>)
    requires Expects(w, waiter, at, version, want, ps) && SameOn(w, u, ps) && version in u.valid
    ensures Expects(u, waiter, at, version, want, ps)
  {
    assert SameAt(w, u, at.phys);
    if !waiter.rootOnly {
      OnDiskSame(w, u, w.content[at], 0, waiter.key, ps);
    }
  }

  lemma AllExpectSame(w: World, u: World, ws: seq<Waiter>, us: seq<Waiter>, id: nat, at: Virtual, version: nat,
                      want: Result, ps: set<nat>)
    requires AllExpect(w, ws, id, at, version, want, ps) && SameOn(w, u, ps) &&
             (version in w.valid ==> version in u.valid)
    requires forall k :: 0 <= k < |us| && us[k].id == id ==> us[k] in ws
    ensures AllExpect(u, us, id, at, version, want, ps)
  {
    forall k | 0 <= k < |us| && us[k].id == id
      ensures Expects(u, us[k], at, version, want, ps)
    {
      var m :| 0 <= m < |ws| && ws[m] == us[k];
      ExpectsSame(w, u, ws[m], at, version, want, ps);
    }
  }

  /** Nothing that concerns request `id` differs. */
  ghost predicate Beside(w: World, u: World, id: nat) {
    u.live == w.live && u.content == w.content && u.valid == w.valid &&
    (id in w.promises ==> id in u.promises && u.promises[id] == w.promises[id]) &&
    (id in u.parked <==> id in w.parked) && (id in w.parked ==>
                                             u.parked[id] == w.parked[id] && OwnKept(w, u, id, w.parked[id]))
  }

  /** The list at `at` has no other waiter of request `id` than it had. */
  ghost predicate OwnKept(w: World, u: World, id: nat, at: Virtual) {
    at in w.inflight ==>
      at in u.inflight && forall k :: 0 <= k < |u.inflight[at]| && u.inflight[at][k].id == id ==>
      u.inflight[at][k] in w.inflight[at]
  }

  lemma BesideTracks(w: World, u: World, id: nat, version: nat, want: Result, ps: set<nat>)
    requires Beside(w, u, id) && Tracks(w, id, version, want, ps)
    ensures Tracks(u, id, version, want, ps)
  {
    if id in w.parked {
      var at := w.parked[id];
      assert SameOn(w, u, ps);
      AllExpectSame(w, u, w.inflight[at], u.inflight[at], id, at, version, want, ps);
    }
  }

  lemma BesideTrans(w: World, u: World, x: World, id: nat)
    requires Beside(w, u, id) && Beside(u, x, id)
    ensures Beside(w, x, id)
  {
  }

  // ---- other requests leave it alone ----

  lemma AnswerBeside(w: World, other: nat, r: Result, id: nat)
    requires other != id
    ensures Beside(w, Answer(w, other, r), id)
  {
  }

  lemma JoinBeside(w: World, v: Virtual, waiter: Waiter, id: nat)
    requires waiter.id != id
    ensures Beside(w, Join(w, v, waiter), id)
  {
    JoinedParts(w, v, waiter);
  }

  lemma AdvanceBeside(w: World, other: nat, node: Node, i: nat, key: seq<nat>, version: nat, io: bool, id: nat)
    requires other != id && i <= |node.path|
    ensures Beside(w, Advance(w, other, node, i, key, version, io), id)
  {
    match Descend(w, node, i, key, version, io)
    case Done(r) => AnswerBeside(w, other, r, id);
    case Park(v, rest) => JoinBeside(w, v, Waiter(other, rest, version, false), id);
  }

  lemma ResumeBeside(w: World, waiter: Waiter, node: Option<Node>, id: nat)
    requires waiter.id != id
    ensures Beside(w, Resume(w, waiter, node), id)
  {
    if node.None? {
      AnswerBeside(w, waiter.id, Result(VersionGone, None), id);
    } else if waiter.rootOnly {
      AnswerBeside(w, waiter.id, Result(Success, node), id);
    } else {
      AdvanceBeside(w, waiter.id, node.value, 0, waiter.key, waiter.version, true, id);
    }
  }

  // ---- the request itself ----

  lemma AnswerTracks(w: World, id: nat, version: nat, want: Result, ps: set<nat>)
    requires id in w.promises && w.promises[id] == [] && id !in w.parked
    ensures Tracks(Answer(w, id, want), id, version, want, ps)
  {
  }

  /** Nobody waits under the name of a request in hand. */
  lemma JoinTracks(w: World, hand: set<nat>, v: Virtual, waiter: Waiter, version: nat, want: Result, ps: set<nat>)
    requires Inv(w, hand) && waiter.id in hand && Expects(w, waiter, v, version, want, ps)
    ensures Tracks(Join(w, v, waiter), waiter.id, version, want, ps)
  {
    var u := Join(w, v, waiter);
    JoinedParts(w, v, waiter);
    ListAtOk(w, v);
    assert SameOn(w, u, ps);
    forall k | 0 <= k < |u.inflight[v]| && u.inflight[v][k].id == waiter.id
      ensures Expects(u, u.inflight[v][k], v, version, want, ps)
    {
      assert k == |ListAt(w, v)|;
      ExpectsSame(w, u, waiter, v, version, want, ps);
    }
  }

  lemma AdvanceTracks(w: World, hand: set<nat>, id: nat, node: Node, i: nat, key: seq<nat>, version: nat, io: bool,
                      ps: set<nat>)
    requires Inv(w, hand) && id in hand && i <= |node.path| && version in w.valid && Way(w, node, i, key) <= ps
    ensures
      var u := Advance(w, id, node, i, key, version, io);
      Tracks(u, id, version, OnDisk(w, node, i, key), ps) ||
      (!io && Tracks(u, id, version, Result(NeedIoThread, None), ps))
  {
    DescendIsOnDisk(w, node, i, key, version, io);
    match Descend(w, node, i, key, version, io)
    case Done(r) => AnswerTracks(w, id, version, r, ps);
    case Park(v, rest) => JoinTracks(w, hand, v, Waiter(id, rest, version, false), version, OnDisk(w, node, i, key),
                                     ps);
  }

  lemma ResumeTracks(w: World, hand: set<nat>, waiter: Waiter, at: Virtual, version: nat, want: Result, ps: set<nat>)
    requires Inv(w, hand) && waiter.id in hand && Expects(w, waiter, at, version, want, ps)
    ensures Tracks(Resume(w, waiter, Some(w.content[at])), waiter.id, version, want, ps)
  {
    if waiter.rootOnly {
      AnswerTracks(w, waiter.id, version, want, ps);
    } else {
      AdvanceTracks(w, hand, waiter.id, w.content[at], 0, waiter.key, version, true, ps);
    }
  }

  /** The waiters of a completed read go on, one after the other. */
  lemma {:induction false} ResumeAllTracks(w: World, ws: seq<Waiter>, node: Option<Node>, at: Virtual,
                                           id: nat, version: nat, want: Result, ps: set<nat>)
    requires Inv(w, Ids(ws)) && Distinct(ws)
    requires if id in Ids(ws) then AllExpect(w, ws, id, at, version, want, ps) && at in w.content &&
             node == Some(w.content[at])
             else Tracks(w, id, version, want, ps)
    ensures Tracks(ResumeAll(w, ws, node), id, version, want, ps)
    decreases |ws|
  {
    if ws != [] {
      var first, rest := ws[0], ws[1..];
      var u := Resume(w, first, node);
      IdsRest(ws);
      ResumeKeeps(w, Ids(ws), first, node);
      if first.id == id {
        assert Expects(w, ws[0], at, version, want, ps);
        ResumeTracks(w, Ids(ws), first, at, version, want, ps);
      } else {
        ResumeBeside(w, first, node, id);
        if id in Ids(rest) {
          StillExpect(w, u, ws, id, at, version, want, ps);
        } else {
          BesideTracks(w, u, id, version, want, ps);
        }
      }
      ResumeAllTracks(u, rest, node, at, id, version, want, ps);
    }
  }

  lemma StillExpect(w: World, u: World, ws: seq<Waiter>, id: nat, at: Virtual, version: nat, want: Result, ps: set<nat>)
    requires ws != [] && AllExpect(w, ws, id, at, version, want, ps) && Beside(w, u, id)
    ensures AllExpect(u, ws[1..], id, at, version, want, ps)
  {
    assert SameOn(w, u, ps);
    AllExpectSame(w, u, ws, ws[1..], id, at, version, want, ps);
  }

  lemma IdsAre(ws: seq<Waiter>, id: nat)
    ensures id in Ids(ws) <==> Waits(ws, id)
  {
  }

  /** The read of a request that is spared hands out the node written there. */
  lemma ExpectedYield(w: World, at: Virtual, id: nat, version: nat, want: Result, ps: set<nat>)
    requires TrueContent(w) && at in w.pending && w.pending[at].Some? && at in w.inflight && Waits(w.inflight[at], id)
    requires AllExpect(w, w.inflight[at], id, at, version, want, ps)
    ensures at in w.content && Yield(w, at) == Some(w.content[at])
  {
    var ws := w.inflight[at];
    var k :| 0 <= k < |ws| && ws[k].id == id;
    assert Expects(w, ws[k], at, version, want, ps);
  }

  lemma CompleteTracks(w: World, at: Virtual, id: nat, version: nat, want: Result, ps: set<nat>)
    requires Inv(w, {}) && at in w.pending && w.pending[at].Some? && at in w.inflight &&
             Tracks(w, id, version, want, ps)
    ensures Tracks(Completed(w, at), id, version, want, ps)
  {
    var u, ws := Taken(w, at), w.inflight[at];
    TakenLists(w, at);
    TakenPromises(w, at);
    TakenContent(w, at);
    IdsAre(ws, id);
    assert ListOk(w.parked, at, ws);
    assert SameOn(w, u, ps);
    if id in w.parked && w.parked[id] == at {
      ExpectedYield(w, at, id, version, want, ps);
      AllExpectSame(w, u, ws, ws, id, at, version, want, ps);
    } else {
      BesideTracks(w, u, id, version, want, ps);
    }
    ResumeAllTracks(u, ws, Yield(w, at), at, id, version, want, ps);
  }

  // ---- events ----

  /** The event neither expires the version nor recycles or fills one of the offsets. */
  ghost predicate Spares(ev: Event, version: nat, ps: set<nat>) {
    match ev
    case Release(phys) => phys !in ps
    case Append(phys, _) => phys !in ps
    case Expire(versions) => version !in versions
    case _ => true
  }

  lemma OpenedBeside(w: World, other: nat, id: nat)
    requires other != id
    ensures Beside(w, Opened(w, other), id)
  {
  }

  lemma StartBeside(w: World, ev: Event, id: nat)
    requires Enabled(w, ev) && ev.Start? && ev.id != id
    ensures Beside(w, Next(w, ev), id)
  {
    var u := Opened(w, ev.id);
    OpenedBeside(w, ev.id, id);
    if ev.version !in w.valid {
      AnswerBeside(u, ev.id, Result(VersionGone, ev.start), id);
    } else if ev.start.None? {
      AnswerBeside(u, ev.id, Result(RootIsNull, None), id);
    } else {
      AdvanceBeside(u, ev.id, ev.start.value, ev.i, ev.key, ev.version, ev.io, id);
    }
    BesideTrans(w, u, Next(w, ev), id);
  }

  lemma LoadRootBeside(w: World, ev: Event, id: nat)
    requires Enabled(w, ev) && ev.LoadRoot? && ev.id != id
    ensures Beside(w, Next(w, ev), id)
  {
    var u, v := Opened(w, ev.id), Translate(w, ev.phys);
    OpenedBeside(w, ev.id, id);
    if ev.version in w.valid && v.Some? && v.value !in w.cache && ev.io {
      JoinBeside(u, v.value, Waiter(ev.id, [], ev.version, true), id);
    } else if ev.version !in w.valid || v.None? {
      AnswerBeside(u, ev.id, Result(VersionGone, None), id);
    } else if v.value in w.cache {
      AnswerBeside(u, ev.id, Result(Success, Some(w.cache[v.value])), id);
    } else {
      AnswerBeside(u, ev.id, Result(NeedIoThread, None), id);
    }
    BesideTrans(w, u, Next(w, ev), id);
  }

  lemma MovedTracks(w: World, u: World, id: nat, version: nat, want: Result, ps: set<nat>)
    requires Tracks(w, id, version, want, ps) && SameOn(w, u, ps) && (version in w.valid ==> version in u.valid)
    requires u.promises == w.promises && u.parked == w.parked && u.inflight == w.inflight
    ensures Tracks(u, id, version, want, ps)
  {
    if id in w.parked {
      var at := w.parked[id];
      AllExpectSame(w, u, w.inflight[at], u.inflight[at], id, at, version, want, ps);
    }
  }

  lemma SparesSame(w: World, ev: Event, version: nat, ps: set<nat>)
    requires TrueContent(w) && Enabled(w, ev) && Spares(ev, version, ps)
    requires ev.Evict? || ev.Release? || ev.Append? || ev.Expire? || ev.Arrive?
    ensures SameOn(w, Next(w, ev), ps)
  {
    var u := Next(w, ev);
    forall phys | phys in ps
      ensures SameAt(w, u, phys)
    {
      if ev.Append? && phys in w.live {
        assert Virtual(phys, w.live[phys]) in w.content;
      }
    }
  }

  lemma StepTracks(w: World, ev: Event, id: nat, version: nat, want: Result, ps: set<nat>)
    requires Inv(w, {}) && Enabled(w, ev) && Tracks(w, id, version, want, ps) && Spares(ev, version, ps)
    ensures Tracks(Next(w, ev), id, version, want, ps)
  {
    if ev.Start? {
      StartBeside(w, ev, id);
      BesideTracks(w, Next(w, ev), id, version, want, ps);
    } else if ev.LoadRoot? {
      LoadRootBeside(w, ev, id);
      BesideTracks(w, Next(w, ev), id, version, want, ps);
    } else if ev.Complete? {
      CompleteTracks(w, ev.at, id, version, want, ps);
    } else {
      SparesSame(w, ev, version, ps);
      MovedTracks(w, Next(w, ev), id, version, want, ps);
    }
  }

  // ---- whole runs ----

  /** What the request should be answered with. */
  ghost function Wanted(w: World, ev: Event): Result
    requires (ev.Start? || ev.LoadRoot?) && (ev.Start? && ev.start.Some? ==> ev.i <= |ev.start.value.path|)
  {
    if ev.Start? then
      if ev.version !in w.valid then Result(VersionGone, ev.start)
      else if ev.start.None? then Result(RootIsNull, None)
      else OnDisk(w, ev.start.value, ev.i, ev.key)
    else
      var v := Translate(w, ev.phys);
      if ev.version !in w.valid || v.None? || v.value !in w.content then Result(VersionGone, None)
      else Result(Success, Some(w.content[v.value]))
  }

  /** The physical offsets its answer depends on. */
  ghost function Offsets(w: World, ev: Event): set<nat>
    requires (ev.Start? || ev.LoadRoot?) && (ev.Start? && ev.start.Some? ==> ev.i <= |ev.start.value.path|)
  {
    if ev.LoadRoot? then {ev.phys} else if ev.start.Some? then Way(w, ev.start.value, ev.i, ev.key) else {}
  }

  lemma StartTracks(w: World, ev: Event)
    requires Inv(w, {}) && Enabled(w, ev) && ev.Start?
    ensures
      var u := Next(w, ev);
      Tracks(u, ev.id, ev.version, Wanted(w, ev), Offsets(w, ev)) ||
      (!ev.io && Tracks(u, ev.id, ev.version, Result(NeedIoThread, None), Offsets(w, ev)))
  {
    var u := Opened(w, ev.id);
    OpenedKeeps(w, ev.id);
    if ev.version in w.valid && ev.start.Some? {
      assert SameOn(w, u, Offsets(w, ev));
      OnDiskSame(w, u, ev.start.value, ev.i, ev.key, Offsets(w, ev));
      AdvanceTracks(u, {ev.id}, ev.id, ev.start.value, ev.i, ev.key, ev.version, ev.io, Offsets(w, ev));
    } else {
      AnswerTracks(u, ev.id, ev.version, Wanted(w, ev), Offsets(w, ev));
    }
  }

  lemma LoadRootTracks(w: World, ev: Event)
    requires Inv(w, {}) && Enabled(w, ev) && ev.LoadRoot?
    ensures
      var u := Next(w, ev);
      Tracks(u, ev.id, ev.version, Wanted(w, ev), Offsets(w, ev)) ||
      (!ev.io && Tracks(u, ev.id, ev.version, Result(NeedIoThread, None), Offsets(w, ev)))
  {
    var u, v := Opened(w, ev.id), Translate(w, ev.phys);
    OpenedKeeps(w, ev.id);
    if ev.version !in w.valid || v.None? || v.value in w.cache {
      AnswerTracks(u, ev.id, ev.version, Wanted(w, ev), Offsets(w, ev));
    } else if !ev.io {
      AnswerTracks(u, ev.id, ev.version, Result(NeedIoThread, None), Offsets(w, ev));
    } else {
      JoinTracks(u, {ev.id}, v.value, Waiter(ev.id, [], ev.version, true), ev.version, Wanted(w, ev), Offsets(w, ev));
    }
  }

  ghost predicate SpareAll(evs: seq<Event>, version: nat, ps: set<nat>) {
    forall k :: 0 <= k < |evs| ==> Spares(evs[k], version, ps)
  }

  lemma {:induction false} RunTracks(w: World, evs: seq<Event>, id: nat, version: nat, want: Result, ps: set<nat>)
    requires Inv(w, {}) && Tracks(w, id, version, want, ps) && SpareAll(evs, version, ps)
    ensures Inv(After(w, evs), {}) && Tracks(After(w, evs), id, version, want, ps)
    decreases |evs|
  {
    if evs != [] {
      var u, ev := After(w, evs[..|evs| - 1]), evs[|evs| - 1];
      RunTracks(w, evs[..|evs| - 1], id, version, want, ps);
      if Enabled(u, ev) {
        StepKeeps(u, ev);
        StepTracks(u, ev, id, version, want, ps);
      }
    }
  }

  /**
    Any requests, reads, evictions, recycling and expiry before; then a
    request; then any of them again, as long as none expires its version or
    touches an offset on its way. Once answered, it was answered with what the
    disk held when it was made. Off the I/O thread it may be sent back.
   */
  lemma AnswersAreRight(w: World, evs: seq<Event>, ev: Event, more: seq<Event>)
    requires Init(w) && (ev.Start? || ev.LoadRoot?) && Enabled(After(w, evs), ev)
    requires SpareAll(more, ev.version, Offsets(After(w, evs), ev))
    ensures
      var u := After(w, evs);
      var t := After(Next(u, ev), more);
      ev.id in t.promises &&
      (ev.id !in t.parked ==>
        t.promises[ev.id] == [Wanted(u, ev)] ||
        (!ev.io && t.promises[ev.id] == [Result(NeedIoThread, None)]))
  {
    var u := After(w, evs);
    var ps, x := Offsets(u, ev), Next(u, ev);
    RunKeeps(w, evs);
    StepKeeps(u, ev);
    if ev.Start? {
      StartTracks(u, ev);
    } else {
      LoadRootTracks(u, ev);
    }
    if Tracks(x, ev.id, ev.version, Wanted(u, ev), ps) {
      RunTracks(x, more, ev.id, ev.version, Wanted(u, ev), ps);
    } else {
      RunTracks(x, more, ev.id, ev.version, Result(NeedIoThread, None), ps);
    }
  }

  // ---- the lookup on disk is the lookup in the trie the disk holds ----

  /** The node and what lies behind its offsets are the trie `t`. */
  ghost predicate Stands(w: World, node: Node, t: Trie)
    decreases t
  {
    t.path == node.path && StandKids(w, node.next, t.kids) && forall b :: b in node.next ==> KidAt(t.kids, b).Some?
  }

  ghost predicate StandKids(w: World, next: map<nat, nat>, kids: KidList)
    decreases kids
  {
    kids.NoKids? ||
    (StandKids(w, next, kids.rest) && kids.branch in next &&
     var v := Translate(w, next[kids.branch]);
     v.Some? && v.value in w.content && Stands(w, w.content[v.value], kids.sub))
  }

  lemma {:induction false} KidStands(w: World, next: map<nat, nat>, kids: KidList, b: nat)
    requires StandKids(w, next, kids) && KidAt(kids, b).Some?
    ensures
      b in next &&
      var v := Translate(w, next[b]);
      v.Some? && v.value in w.content && Stands(w, w.content[v.value], KidAt(kids, b).value)
    decreases kids
  {
    if kids.Kid? && kids.branch != b {
      KidStands(w, next, kids.rest, b);
    }
  }

  function CodeOf(code: Lookup.Code): Code {
    match code
    case Success => Success
    case RootIsNull => RootIsNull
    case KeyMismatch => KeyMismatch
    case BranchNotExist => BranchNotExist
    case KeyEndsEarlier => KeyEndsEarlier
  }

  /** One nibble of the path. */
  lemma OnDiskNibble(w: World, node: Node, i: nat, key: seq<nat>)
    requires i < |node.path| && key != [] && key[0] == node.path[i]
    ensures OnDisk(w, node, i, key) == OnDisk(w, node, i + 1, key[1..])
  {
    var path, rest := node.path[i..], node.path[i + 1..];
    assert path == [node.path[i]] + rest && key == [key[0]] + key[1..];
    assert path <= key <==> rest <= key[1..];
    assert key < path <==> key[1..] < rest;
    if rest <= key[1..] && |rest| < |key[1..]| {
      assert key[1..][|rest|] == key[|path|] && key[1..][|rest| + 1..] == key[|path| + 1..];
    }
  }

  lemma {:induction false} OnDiskIsLocate(w: World, node: Node, t: Trie, i: nat, key: seq<nat>)
    requires Stands(w, node, t) && i <= |node.path|
    ensures
      var r, f := OnDisk(w, node, i, key), Lookup.Locate(t, i, key);
      f.Found? && r.code == CodeOf(f.code) && r.node.Some? && Stands(w, r.node.value, f.node)
    decreases |key|
  {
    if key != [] && i < |node.path| {
      if key[0] == node.path[i] {
        OnDiskNibble(w, node, i, key);
        OnDiskIsLocate(w, node, t, i + 1, key[1..]);
      }
    } else if key != [] && KidAt(t.kids, key[0]).Some? {
      KidStands(w, node.next, t.kids, key[0]);
      OnDiskIsLocate(w, w.content[Translate(w, node.next[key[0]]).value], KidAt(t.kids, key[0]).value, 0, key[1..]);
    }
  }

  /** A request succeeds exactly if its key spells a node of the trie it starts in, and its answer is that node. */
  lemma SuccessIsSpelled(w: World, evs: seq<Event>, ev: Event, more: seq<Event>, t: Trie, n: Trie)
    requires Init(w) && ev.Start? && ev.io && ev.start.Some? && Enabled(After(w, evs), ev)
    requires ev.version in After(w, evs).valid && Stands(After(w, evs), ev.start.value, t)
    requires SpareAll(more, ev.version, Offsets(After(w, evs), ev))
    requires ev.id !in After(Next(After(w, evs), ev), more).parked
    ensures
      var u := After(w, evs);
      var promises := After(Next(u, ev), more).promises;
      ev.id in promises && |promises[ev.id]| == 1 &&
      var r := promises[ev.id][0];
      (Lookup.Spells(t, ev.i, ev.key, n) ==> r.code == Success && r.node.Some? && Stands(u, r.node.value, n)) &&
      (r.code == Success ==> exists m :: Lookup.Spells(t, ev.i, ev.key, m))
  {
    AnswersAreRight(w, evs, ev, more);
    OnDiskIsLocate(After(w, evs), ev.start.value, t, ev.i, ev.key);
    Lookup.SuccessIffSpells(t, ev.i, ev.key, n);
    Lookup.SuccessIffSpells(t, ev.i, ev.key, Lookup.Locate(t, ev.i, ev.key).node);
  }
}
