/**
  No lookup waits forever: from every reachable state, finishing the reads that
  a waiting request meets, one after the other, answers it.
 */
module ReadProgress {
  import opened Options
  import opened ReadCoalescing
  import opened ReadAnswers

  /** Request `id` is answered, or waits with fewer than `n` nibbles left. */
  ghost predicate Nears(w: World, id: nat, n: nat) {
    id in w.promises &&
    (id in w.parked ==> w.parked[id] in w.inflight && AllShort(w.inflight[w.parked[id]], id, n))
  }

  ghost predicate AllShort(ws: seq<Waiter>, id: nat, n: nat) {
    forall k :: 0 <= k < |ws| && ws[k].id == id ==> |ws[k].key| < n
  }

  /** A request that parks again has used up a part of its key. */
  lemma {:induction false} DescendShortens(w: World, node: Node, i: nat, key: seq<nat>, version: nat, io: bool)
    requires i <= |node.path|
    ensures Descend(w, node, i, key, version, io).Park? ==> |Descend(w, node, i, key, version, io).key| < |key|
    decreases |key|
  {
    var path := node.path[i..];
    if version in w.valid && path <= key && |path| < |key| && key[|path|] in node.next {
      var v := Translate(w, node.next[key[|path|]]);
      if v.Some? && v.value in w.cache {
        DescendShortens(w, w.cache[v.value], 0, key[|path| + 1..], version, io);
      }
    }
  }

  lemma BesideNears(w: World, u: World, id: nat, n: nat)
    requires Beside(w, u, id) && Nears(w, id, n)
    ensures Nears(u, id, n)
  {
    if id in w.parked {
      var ws, us := w.inflight[w.parked[id]], u.inflight[w.parked[id]];
      forall k | 0 <= k < |us| && us[k].id == id
        ensures |us[k].key| < n
      {
        assert us[k] in ws;
      }
    }
  }

  lemma JoinNears(w: World, hand: set<nat>, v: Virtual, waiter: Waiter, n: nat)
    requires Inv(w, hand) && waiter.id in hand && |waiter.key| < n
    ensures Nears(Join(w, v, waiter), waiter.id, n)
  {
    var u := Join(w, v, waiter);
    JoinedParts(w, v, waiter);
    ListAtOk(w, v);
    forall k | 0 <= k < |u.inflight[v]| && u.inflight[v][k].id == waiter.id
      ensures |u.inflight[v][k].key| < n
    {
      assert k == |ListAt(w, v)|;
    }
  }

  lemma ResumeNears(w: World, hand: set<nat>, waiter: Waiter, node: Option<Node>, n: nat)
    requires Inv(w, hand) && waiter.id in hand && |waiter.key| <= n
    ensures Nears(Resume(w, waiter, node), waiter.id, n)
  {
    if node.Some? && !waiter.rootOnly {
      DescendShortens(w, node.value, 0, waiter.key, waiter.version, true);
      var o := Descend(w, node.value, 0, waiter.key, waiter.version, true);
      if o.Park? {
        JoinNears(w, hand, o.at, Waiter(waiter.id, o.key, waiter.version, false), n);
      }
    }
  }

  /** Each waiter of a completed read is answered or waits with a shorter key. */
  lemma {:induction false} ResumeAllNears(w: World, ws: seq<Waiter>, node: Option<Node>, id: nat, n: nat)
    requires Inv(w, Ids(ws)) && Distinct(ws)
    requires if id in Ids(ws) then AllShort(ws, id, n + 1) else Nears(w, id, n)
    ensures Nears(ResumeAll(w, ws, node), id, n)
    decreases |ws|
  {
    if ws != [] {
      var first, rest := ws[0], ws[1..];
      IdsRest(ws);
      ResumeKeeps(w, Ids(ws), first, node);
      if first.id == id {
        ResumeNears(w, Ids(ws), first, node, n);
      } else {
        ResumeBeside(w, first, node, id);
        if id !in Ids(rest) {
          BesideNears(w, Resume(w, first, node), id, n);
        }
      }
      ResumeAllNears(Resume(w, first, node), rest, node, id, n);
    }
  }

  lemma CompleteNears(w: World, at: Virtual, id: nat, n: nat)
    requires Inv(w, {}) && at in w.pending && w.pending[at].Some? && at in w.inflight
    requires id in w.parked && w.parked[id] == at && Nears(w, id, n + 1)
    ensures Nears(Completed(w, at), id, n)
  {
    var ws := w.inflight[at];
    TakenLists(w, at);
    TakenPromises(w, at);
    TakenContent(w, at);
    IdsAre(ws, id);
    assert ListOk(w.parked, at, ws);
    ResumeAllNears(Taken(w, at), ws, Yield(w, at), id, n);
  }

  // ---- finishing ----

  /** The events lead from `u` to `x`, each enabled when its turn comes. */
  ghost predicate Plays(u: World, more: seq<Event>, x: World)
    decreases |more|
  {
    if more == [] then x == u else Enabled(u, more[0]) && Plays(Next(u, more[0]), more[1..], x)
  }

  /** Only reads end. */
  ghost predicate OnlyReads(more: seq<Event>) {
    forall k :: 0 <= k < |more| ==> more[k].Arrive? || more[k].Complete?
  }

  /** Answered, exactly once. */
  ghost predicate Answered(x: World, id: nat) {
    id in x.promises && |x.promises[id]| == 1
  }

  /** At most `m` read events, after which the request is answered. */
  ghost predicate Finishes(u: World, id: nat, more: seq<Event>, x: World, m: nat) {
    OnlyReads(more) && |more| <= m && Plays(u, more, x) && Answered(x, id)
  }

  lemma FinishesFirst(u: World, id: nat, ev: Event, v: World, more: seq<Event>, x: World, m: nat)
    requires Enabled(u, ev) && v == Next(u, ev) && (ev.Arrive? || ev.Complete?) && Finishes(v, id, more, x, m)
    ensures Finishes(u, id, [ev] + more, x, m + 1)
  {
    assert ([ev] + more)[1..] == more;
  }

  /** The read that the request waits for ends. */
  lemma CompleteStep(u: World, id: nat, at: Virtual, n: nat) returns (v: World)
    requires Inv(u, {}) && Nears(u, id, n + 1) && id in u.parked && u.parked[id] == at
    requires at in u.pending && u.pending[at].Some?
    ensures Enabled(u, Complete(at)) && v == Next(u, Complete(at)) && Inv(v, {}) && Nears(v, id, n)
  {
    v := Next(u, Complete(at));
    CompleteKeeps(u, at);
    CompleteNears(u, at, id, n);
  }

  /** Data for the read arrives. */
  lemma ArriveStep(u: World, id: nat, at: Virtual, garbage: Node, n: nat) returns (v: World)
    requires Inv(u, {}) && Nears(u, id, n) && id in u.parked && u.parked[id] == at && at in u.pending &&
             u.pending[at].None?
    ensures Enabled(u, Arrive(at, garbage)) && v == Next(u, Arrive(at, garbage)) && Inv(v, {}) && Nears(v, id, n)
    ensures id in v.parked && v.parked[id] == at && at in v.pending && v.pending[at].Some?
  {
    v := Next(u, Arrive(at, garbage));
    ArriveKeeps(u, at, garbage);
  }

  lemma WaitsForRead(u: World, id: nat, n: nat)
    requires Inv(u, {}) && Nears(u, id, n) && id in u.parked
    ensures u.parked[id] in u.pending && n > 0
  {
    var ws := u.inflight[u.parked[id]];
    assert ListOk(u.parked, u.parked[id], ws);
    var k :| 0 <= k < |ws| && ws[k].id == id;
    assert |ws[k].key| < n;
  }

  lemma NotParked(u: World, id: nat, n: nat)
    requires Inv(u, {}) && Nears(u, id, n) && id !in u.parked
    ensures Finishes(u, id, [], u, 0)
  {
  }

  lemma {:induction false} Finish(u: World, id: nat, n: nat) returns (more: seq<Event>, x: World)
    requires Inv(u, {}) && Nears(u, id, n)
    ensures Finishes(u, id, more, x, 2 * n)
    decreases n, 1
  {
    if id !in u.parked {
      NotParked(u, id, n);
      return [], u;
    }
    WaitsForRead(u, id, n);
    var at := u.parked[id];
    if u.pending[at].Some? {
      more, x := FinishRead(u, id, at, n - 1);
    } else {
      var ev := Arrive(at, Node([], map[]));
      var v := ArriveStep(u, id, at, ev.garbage, n);
      more, x := FinishRead(v, id, at, n - 1);
      FinishesFirst(u, id, ev, v, more, x, 2 * (n - 1) + 1);
      more := [ev] + more;
    }
  }

  lemma {:induction false} FinishRead(u: World, id: nat, at: Virtual, n: nat) returns (more: seq<Event>, x: World)
    requires Inv(u, {}) && Nears(u, id, n + 1) && id in u.parked && u.parked[id] == at
    requires at in u.pending && u.pending[at].Some?
    ensures Finishes(u, id, more, x, 2 * n + 1)
    decreases n, 2
  {
    var v := CompleteStep(u, id, at, n);
    more, x := Finish(v, id, n);
    FinishesFirst(u, id, Complete(at), v, more, x, 2 * n);
    more := [Complete(at)] + more;
  }

  lemma {:induction false} PlaysAfter(w: World, evs: seq<Event>, u: World, more: seq<Event>, x: World)
    requires After(w, evs) == u && Plays(u, more, x)
    ensures After(w, evs + more) == x
    decreases |more|
  {
    if more == [] {
      assert evs + more == evs;
    } else {
      var next := evs + [more[0]];
      assert next[..|evs|] == evs;
      PlaysAfter(w, next, Next(u, more[0]), more[1..], x);
      assert next + more[1..] == evs + more;
    }
  }

  /**
    In every reachable state every request can be answered by ending reads
    alone: at most one read, of two events, per nibble of its key that is left
    and one more.
   */
  lemma EveryRequestCanFinish(w: World, evs: seq<Event>, id: nat, n: nat) returns (more: seq<Event>)
    requires Init(w) && id in After(w, evs).promises
    requires
      var u := After(w, evs);
      forall v, k :: v in u.inflight && 0 <= k < |u.inflight[v]| && u.inflight[v][k].id == id ==>
        |u.inflight[v][k].key| < n
    ensures OnlyReads(more) && |more| <= 2 * n && Plays(After(w, evs), more, After(w, evs + more))
    ensures Answered(After(w, evs + more), id)
  {
    RunKeeps(w, evs);
    var x;
    more, x := Finish(After(w, evs), id, n);
    PlaysAfter(w, evs, After(w, evs), more, x);
  }
}
