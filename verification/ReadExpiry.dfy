/**
  What a lookup is answered with when its version expires or the chunks on its
  way are released while it waits: still the node its key led to on disk when it
  was made, or that its version is gone, never another node. Chunks on its way
  may be filled again once the version has expired.
 */
module ReadExpiry {
  import opened Options
  import opened ReadCoalescing
  import opened ReadAnswers

  /** The later world `u`: nothing written is lost, and until the version expires the offsets are only released. */
  ghost predicate Since(w: World, u: World, version: nat, ps: set<nat>) {
    Written(w, u) && (version in u.valid ==> OnlyReleased(w, u, ps))
  }

  ghost predicate Written(w: World, u: World) {
    forall v :: v in w.content ==> v in u.content && u.content[v] == w.content[v]
  }

  ghost predicate OnlyReleased(w: World, u: World, ps: set<nat>) {
    forall phys :: phys in ps ==> Translate(u, phys) == Translate(w, phys) || Translate(u, phys) == None
  }

  ghost predicate RightOrGone(r: Result, want: Result) {
    r == want || r.code == VersionGone
  }

  /** A waiter that would have got `want` in world `w`. */
  ghost predicate Hopes(w: World, waiter: Waiter, at: Virtual, version: nat, want: Result, ps: set<nat>) {
    waiter.version == version && at in w.content &&
    if waiter.rootOnly then want == Result(Success, Some(w.content[at]))
    else OnDisk(w, w.content[at], 0, waiter.key) == want && Way(w, w.content[at], 0, waiter.key) <= ps
  }

  ghost predicate AllHope(w: World, ws: seq<Waiter>, id: nat, at: Virtual, version: nat, want: Result, ps: set<nat>) {
    forall k :: 0 <= k < |ws| && ws[k].id == id ==> Hopes(w, ws[k], at, version, want, ps)
  }

  /** Request `id` was answered with `want` or that its version is gone, or waits where it will be. */
  ghost predicate Follows(w: World, u: World, id: nat, version: nat, want: Result, ps: set<nat>) {
    id in u.promises &&
    if id in u.parked then
      u.parked[id] in u.inflight && AllHope(w, u.inflight[u.parked[id]], id, u.parked[id], version, want, ps)
    else |u.promises[id]| == 1 && RightOrGone(u.promises[id][0], want)
  }

  /**
    A descent in the later world ends as the lookup in the earlier one, or with
    the version gone, or parks on its way.
   */
  lemma {:induction false} DescendHopes(w: World, u: World, node: Node, i: nat, key: seq<nat>, version: nat,
                                        ps: set<nat>)
    requires TrueContent(w) && TrueContent(u) && Since(w, u, version, ps)
    requires i <= |node.path| && Way(w, node, i, key) <= ps
    ensures
      match Descend(u, node, i, key, version, true)
      case Done(r) => RightOrGone(r, OnDisk(w, node, i, key))
      case Park(v, rest) =>
        v in w.content && OnDisk(w, w.content[v], 0, rest) == OnDisk(w, node, i, key) &&
        Way(w, w.content[v], 0, rest) <= ps
    decreases |key|
  {
    var path := node.path[i..];
    if version in u.valid && path <= key && |path| < |key| && key[|path|] in node.next {
      var phys := node.next[key[|path|]];
      assert phys in Way(w, node, i, key);
      var v := Translate(u, phys);
      if v.Some? {
        assert v == Translate(w, phys) && v.value in w.content;
        if v.value in u.cache {
          DescendHopes(w, u, u.cache[v.value], 0, key[|path| + 1..], version, ps);
        }
      }
    }
  }

  lemma BesideFollows(w: World, u: World, x: World, id: nat, version: nat, want: Result, ps: set<nat>)
    requires Beside(u, x, id) && Follows(w, u, id, version, want, ps)
    ensures Follows(w, x, id, version, want, ps)
  {
    if id in u.parked {
      var us, xs := u.inflight[u.parked[id]], x.inflight[u.parked[id]];
      forall k | 0 <= k < |xs| && xs[k].id == id
        ensures Hopes(w, xs[k], u.parked[id], version, want, ps)
      {
        assert xs[k] in us;
      }
    }
  }

  // ---- the request itself ----

  lemma AnswerFollows(w: World, u: World, id: nat, r: Result, version: nat, want: Result, ps: set<nat>)
    requires id in u.promises && u.promises[id] == [] && id !in u.parked && RightOrGone(r, want)
    ensures Follows(w, Answer(u, id, r), id, version, want, ps)
  {
  }

  lemma JoinFollows(w: World, u: World, hand: set<nat>, v: Virtual, waiter: Waiter, version: nat, want: Result,
                    ps: set<nat>)
    requires Inv(u, hand) && waiter.id in hand && Hopes(w, waiter, v, version, want, ps)
    ensures Follows(w, Join(u, v, waiter), waiter.id, version, want, ps)
  {
    var x := Join(u, v, waiter);
    JoinedParts(u, v, waiter);
    ListAtOk(u, v);
    forall k | 0 <= k < |x.inflight[v]| && x.inflight[v][k].id == waiter.id
      ensures Hopes(w, x.inflight[v][k], v, version, want, ps)
    {
      assert k == |ListAt(u, v)|;
    }
  }

  lemma AdvanceFollows(w: World, u: World, hand: set<nat>, id: nat, node: Node, i: nat, key: seq<nat>, version: nat,
                       ps: set<nat>)
    requires TrueContent(w) && Inv(u, hand) && Since(w, u, version, ps) && id in hand
    requires i <= |node.path| && Way(w, node, i, key) <= ps
    ensures Follows(w, Advance(u, id, node, i, key, version, true), id, version, OnDisk(w, node, i, key), ps)
  {
    var want := OnDisk(w, node, i, key);
    DescendHopes(w, u, node, i, key, version, ps);
    match Descend(u, node, i, key, version, true)
    case Done(r) => AnswerFollows(w, u, id, r, version, want, ps);
    case Park(v, rest) => JoinFollows(w, u, hand, v, Waiter(id, rest, version, false), version, want, ps);
  }

  lemma ResumeFollows(w: World, u: World, hand: set<nat>, waiter: Waiter, at: Virtual, node: Option<Node>, version: nat,
                      want: Result, ps: set<nat>)
    requires TrueContent(w) && Inv(u, hand) && Since(w, u, version, ps) && waiter.id in hand
    requires Hopes(w, waiter, at, version, want, ps) && (node.None? || node == Some(w.content[at]))
    ensures Follows(w, Resume(u, waiter, node), waiter.id, version, want, ps)
  {
    if node.None? {
      AnswerFollows(w, u, waiter.id, Result(VersionGone, None), version, want, ps);
    } else if waiter.rootOnly {
      AnswerFollows(w, u, waiter.id, Result(Success, node), version, want, ps);
    } else {
      AdvanceFollows(w, u, hand, waiter.id, w.content[at], 0, waiter.key, version, ps);
    }
  }

  lemma BesideSince(w: World, u: World, x: World, id: nat, version: nat, ps: set<nat>)
    requires Beside(u, x, id) && Since(w, u, version, ps)
    ensures Since(w, x, version, ps)
  {
  }

  lemma ResumeSince(w: World, u: World, waiter: Waiter, node: Option<Node>, version: nat, ps: set<nat>)
    requires Since(w, u, version, ps)
    ensures Since(w, Resume(u, waiter, node), version, ps)
  {
    ResumeBeside(u, waiter, node, waiter.id + 1);
    BesideSince(w, u, Resume(u, waiter, node), waiter.id + 1, version, ps);
  }

  /** The waiters of a completed read go on, one after the other. */
  lemma {:induction false} ResumeAllFollows(w: World, u: World, ws: seq<Waiter>, node: Option<Node>, at: Virtual,
                                            id: nat, version: nat, want: Result, ps: set<nat>)
    requires TrueContent(w) && Inv(u, Ids(ws)) && Distinct(ws) && Since(w, u, version, ps)
    requires if id in Ids(ws) then AllHope(w, ws, id, at, version, want, ps) && at in w.content &&
             (node.None? || node == Some(w.content[at]))
             else Follows(w, u, id, version, want, ps)
    ensures Follows(w, ResumeAll(u, ws, node), id, version, want, ps) && Since(w, ResumeAll(u, ws, node), version, ps)
    decreases |ws|
  {
    if ws != [] {
      var first, rest := ws[0], ws[1..];
      var x := Resume(u, first, node);
      IdsRest(ws);
      ResumeKeeps(u, Ids(ws), first, node);
      ResumeSince(w, u, first, node, version, ps);
      if first.id == id {
        assert Hopes(w, ws[0], at, version, want, ps);
        ResumeFollows(w, u, Ids(ws), first, at, node, version, want, ps);
      } else {
        ResumeBeside(u, first, node, id);
        if id !in Ids(rest) {
          BesideFollows(w, u, x, id, version, want, ps);
        }
      }
      ResumeAllFollows(w, x, rest, node, at, id, version, want, ps);
    }
  }

  /** A read hands out the node written at its offset, or none. */
  lemma YieldIsWritten(w: World, u: World, at: Virtual)
    requires TrueContent(u) && Written(w, u) && at in u.pending && at in w.content
    ensures Yield(u, at).None? || Yield(u, at) == Some(w.content[at])
  {
    YieldIsTrue(u, at);
  }

  lemma TakenFollows(w: World, u: World, at: Virtual, id: nat, version: nat, want: Result, ps: set<nat>)
    requires ListsOk(u) && at in u.pending && at in u.inflight && Follows(w, u, id, version, want, ps)
    requires !(id in u.parked && u.parked[id] == at)
    ensures Follows(w, Taken(u, at), id, version, want, ps)
  {
  }

  lemma CompleteFollows(w: World, u: World, at: Virtual, id: nat, version: nat, want: Result, ps: set<nat>)
    requires TrueContent(w) && Inv(u, {}) && Since(w, u, version, ps) && Follows(w, u, id, version, want, ps)
    requires at in u.pending && u.pending[at].Some? && at in u.inflight
    ensures Follows(w, Completed(u, at), id, version, want, ps) && Since(w, Completed(u, at), version, ps)
  {
    var ws := u.inflight[at];
    TakenLists(u, at);
    TakenPromises(u, at);
    TakenContent(u, at);
    IdsAre(ws, id);
    assert ListOk(u.parked, at, ws);
    if id in u.parked && u.parked[id] == at {
      HopeIsWritten(w, ws, id, at, version, want, ps);
      YieldIsWritten(w, u, at);
    } else {
      TakenFollows(w, u, at, id, version, want, ps);
    }
    ResumeAllFollows(w, Taken(u, at), ws, Yield(u, at), at, id, version, want, ps);
  }

  lemma HopeIsWritten(w: World, ws: seq<Waiter>, id: nat, at: Virtual, version: nat, want: Result, ps: set<nat>)
    requires AllHope(w, ws, id, at, version, want, ps) && Waits(ws, id)
    ensures at in w.content
  {
    var k :| 0 <= k < |ws| && ws[k].id == id;
    assert Hopes(w, ws[k], at, version, want, ps);
  }

  // ---- whole runs ----

  /** Offsets on the way are filled again only after the version expired. */
  ghost predicate FillsLate(u: World, ev: Event, version: nat, ps: set<nat>) {
    ev.Append? && ev.phys in ps ==> version !in u.valid
  }

  ghost predicate AllFillLate(u: World, evs: seq<Event>, version: nat, ps: set<nat>) {
    forall k :: 0 <= k < |evs| ==> FillsLate(After(u, evs[..k]), evs[k], version, ps)
  }

  lemma EnvironmentSince(w: World, u: World, ev: Event, version: nat, ps: set<nat>)
    requires TrueContent(u) && Enabled(u, ev) && Since(w, u, version, ps) && FillsLate(u, ev, version, ps)
    requires ev.Evict? || ev.Release? || ev.Append? || ev.Expire? || ev.Arrive?
    ensures Since(w, Next(u, ev), version, ps)
  {
    var x := Next(u, ev);
    forall v | v in w.content
      ensures v in x.content && x.content[v] == w.content[v]
    {
      assert v in u.content && v.epoch < u.nextEpoch;
    }
  }

  lemma StepFollows(w: World, u: World, ev: Event, id: nat, version: nat, want: Result, ps: set<nat>)
    requires TrueContent(w) && Inv(u, {}) && Since(w, u, version, ps) && Follows(w, u, id, version, want, ps)
    requires Enabled(u, ev) && FillsLate(u, ev, version, ps)
    ensures Follows(w, Next(u, ev), id, version, want, ps) && Since(w, Next(u, ev), version, ps)
  {
    if ev.Start? || ev.LoadRoot? {
      if ev.Start? {
        StartBeside(u, ev, id);
      } else {
        LoadRootBeside(u, ev, id);
      }
      BesideFollows(w, u, Next(u, ev), id, version, want, ps);
      BesideSince(w, u, Next(u, ev), id, version, ps);
    } else if ev.Complete? {
      CompleteFollows(w, u, ev.at, id, version, want, ps);
    } else {
      EnvironmentSince(w, u, ev, version, ps);
    }
  }

  lemma {:induction false} RunFollows(w: World, u: World, evs: seq<Event>, id: nat, version: nat, want: Result,
                                      ps: set<nat>)
    requires TrueContent(w) && Inv(u, {}) && Since(w, u, version, ps) && Follows(w, u, id, version, want, ps)
    requires AllFillLate(u, evs, version, ps)
    ensures
      var x := After(u, evs);
      Inv(x, {}) && Since(w, x, version, ps) && Follows(w, x, id, version, want, ps)
    decreases |evs|
  {
    if evs != [] {
      var init, ev := evs[..|evs| - 1], evs[|evs| - 1];
      FillLatePrefix(u, evs, version, ps);
      RunFollows(w, u, init, id, version, want, ps);
      if Enabled(After(u, init), ev) {
        StepKeeps(After(u, init), ev);
        StepFollows(w, After(u, init), ev, id, version, want, ps);
      }
    }
  }

  lemma FillLatePrefix(u: World, evs: seq<Event>, version: nat, ps: set<nat>)
    requires evs != [] && AllFillLate(u, evs, version, ps)
    ensures AllFillLate(u, evs[..|evs| - 1], version, ps)
    ensures FillsLate(After(u, evs[..|evs| - 1]), evs[|evs| - 1], version, ps)
  {
    var init := evs[..|evs| - 1];
    forall k | 0 <= k < |init|
      ensures FillsLate(After(u, init[..k]), init[k], version, ps)
    {
      assert init[..k] == evs[..k];
    }
  }

  /** A request just made, on the I/O thread. */
  lemma StartFollows(w: World, ev: Event)
    requires Inv(w, {}) && Enabled(w, ev) && (ev.Start? || ev.LoadRoot?)
    ensures
      var u, ps := Next(w, ev), Offsets(w, ev);
      Since(w, u, ev.version, ps) &&
      (Follows(w, u, ev.id, ev.version, Wanted(w, ev), ps) ||
       (!ev.io && Follows(w, u, ev.id, ev.version, Result(NeedIoThread, None), ps)))
  {
    var ps := Offsets(w, ev);
    if ev.Start? {
      StartTracks(w, ev);
      StartBeside(w, ev, ev.id + 1);
    } else {
      LoadRootTracks(w, ev);
      LoadRootBeside(w, ev, ev.id + 1);
    }
    BesideSince(w, w, Next(w, ev), ev.id + 1, ev.version, ps);
    if Tracks(Next(w, ev), ev.id, ev.version, Wanted(w, ev), ps) {
      TracksFollows(w, Next(w, ev), ev.id, ev.version, Wanted(w, ev), ps);
    } else {
      TracksFollows(w, Next(w, ev), ev.id, ev.version, Result(NeedIoThread, None), ps);
    }
  }

  lemma TracksFollows(w: World, u: World, id: nat, version: nat, want: Result, ps: set<nat>)
    requires Tracks(u, id, version, want, ps) && u.live == w.live && u.content == w.content
    ensures Follows(w, u, id, version, want, ps)
  {
    if id in u.parked {
      var at := u.parked[id];
      var ws := u.inflight[at];
      assert SameOn(u, w, ps);
      forall k | 0 <= k < |ws| && ws[k].id == id
        ensures Hopes(w, ws[k], at, version, want, ps)
      {
        assert Expects(u, ws[k], at, version, want, ps);
        if !ws[k].rootOnly {
          OnDiskSame(u, w, u.content[at], 0, ws[k].key, ps);
        }
      }
    }
  }

  /**
    Any requests, reads, evictions, recycling and expiry before; then a request;
    then any of them again, as long as the offsets on its way are filled again
    only after its version expired. Once answered, it was answered with what the
    disk held when it was made, or that its version is gone; off the I/O thread
    it may be sent back.
   */
  lemma AnswersAreRightOrGone(w: World, evs: seq<Event>, ev: Event, more: seq<Event>)
    requires Init(w) && (ev.Start? || ev.LoadRoot?) && Enabled(After(w, evs), ev)
    requires AllFillLate(Next(After(w, evs), ev), more, ev.version, Offsets(After(w, evs), ev))
    ensures
      var u := After(w, evs);
      var t := After(Next(u, ev), more);
      ev.id in t.promises &&
      (ev.id !in t.parked ==>
        |t.promises[ev.id]| == 1 &&
        var r := t.promises[ev.id][0];
        r == Wanted(u, ev) || r.code == VersionGone || (!ev.io && r == Result(NeedIoThread, None)))
  {
    var u := After(w, evs);
    var ps, x := Offsets(u, ev), Next(u, ev);
    RunKeeps(w, evs);
    StepKeeps(u, ev);
    StartFollows(u, ev);
    if Follows(u, x, ev.id, ev.version, Wanted(u, ev), ps) {
      RunFollows(u, x, more, ev.id, ev.version, Wanted(u, ev), ps);
    } else {
      RunFollows(u, x, more, ev.id, ev.version, Result(NeedIoThread, None), ps);
    }
  }
}
