/**
  Lookups that park on a node read and share it. Requests descend through the
  node cache; on a miss they wait for one read of the node's virtual offset,
  however many of them there are. Chunks may be recycled while a read is under
  way, cache entries may be dropped, versions may expire.
 */
module ReadCoalescing {
  import opened Options

  /** A node: its path and the physical offset behind each branch. */
  datatype Node = Node(path: seq<nat>, next: map<nat, nat>)

  /** A virtual offset: a physical offset and the epoch of the chunk it lies in. */
  datatype Virtual = Virtual(phys: nat, epoch: nat)

  datatype Code = Success | RootIsNull | VersionGone | KeyEndsEarlier | KeyMismatch | BranchNotExist | NeedIoThread

  datatype Result = Result(code: Code, node: Option<Node>)

  /** A parked request: what it still has to look up, or that it only wants the root. */
  datatype Waiter = Waiter(id: nat, key: seq<nat>, version: nat, rootOnly: bool)

  /**
    `live` gives the epoch of every physical offset in use and `content` the
    node ever written at a virtual offset. `pending` are the outstanding reads
    with the data that arrived, if it did. `promises` holds what each request
    was answered with so far; `parked` where a waiting request waits.
   */
  datatype World = World(
    live: map<nat, nat>, nextEpoch: nat, content: map<Virtual, Node>, valid: set<nat>,
    cache: map<Virtual, Node>, inflight: map<Virtual, seq<Waiter>>, pending: map<Virtual, Option<Node>>,
    promises: map<nat, seq<Result>>, parked: map<nat, Virtual>)

  /** `physical_to_virtual`. */
  function Translate(w: World, phys: nat): Option<Virtual> {
    if phys in w.live then Some(Virtual(phys, w.live[phys])) else None
  }

  // ---- the descent ----

  datatype Outcome = Done(result: Result) | Park(at: Virtual, key: seq<nat>)

  /** `find_owning_notify_fiber_future` from position `i` of a node, through the cache as far as it goes. */
  function Descend(w: World, node: Node, i: nat, key: seq<nat>, version: nat, io: bool): Outcome
    requires i <= |node.path|
    decreases |key|
  {
    var path := node.path[i..];
    if version !in w.valid then Done(Result(VersionGone, Some(node)))
    else if !(path <= key) then Done(Result(if key < path then KeyEndsEarlier else KeyMismatch, Some(node)))
    else if |key| == |path| then Done(Result(Success, Some(node)))
    else if key[|path|] !in node.next then Done(Result(BranchNotExist, Some(node)))
    else
      var v := Translate(w, node.next[key[|path|]]);
      if v.None? then Done(Result(VersionGone, Some(node)))
      else if v.value in w.cache then Descend(w, w.cache[v.value], 0, key[|path| + 1..], version, io)
      else if !io then Done(Result(NeedIoThread, None))
      else Park(v.value, key[|path| + 1..])
  }

  /** Fulfil the promise of request `id`. */
  function Answer(w: World, id: nat, r: Result): World {
    w.(promises := w.promises[id := (if id in w.promises then w.promises[id] else []) + [r]])
  }

  /** `async_read_with_continuation`: join the read of `v` or start it. */
  function Join(w: World, v: Virtual, waiter: Waiter): World {
    if v in w.inflight then w.(inflight := w.inflight[v := w.inflight[v] + [waiter]],
                               parked := w.parked[waiter.id := v])
    else w.(inflight := w.inflight[v := [waiter]], pending := w.pending[v := None], parked := w.parked[waiter.id := v])
  }

  /** Look up from a node on behalf of request `id`. */
  function Advance(w: World, id: nat, node: Node, i: nat, key: seq<nat>, version: nat, io: bool): World
    requires i <= |node.path|
  {
    match Descend(w, node, i, key, version, io)
    case Done(r) => Answer(w, id, r)
    case Park(v, rest) => Join(w, v, Waiter(id, rest, version, false))
  }

  /** A waiter continues with the node read, or without one. */
  function Resume(w: World, waiter: Waiter, node: Option<Node>): World {
    if node.None? then Answer(w, waiter.id, Result(VersionGone, None))
    else if waiter.rootOnly then Answer(w, waiter.id, Result(Success, node))
    else Advance(w, waiter.id, node.value, 0, waiter.key, waiter.version, true)
  }

  function ResumeAll(w: World, waiters: seq<Waiter>, node: Option<Node>): World
    decreases |waiters|
  {
    if waiters == [] then w else ResumeAll(Resume(w, waiters[0], node), waiters[1..], node)
  }

  // ---- events ----

  datatype Event =
    | Start(id: nat, start: Option<Node>, i: nat, key: seq<nat>, version: nat, io: bool)
    | LoadRoot(id: nat, phys: nat, version: nat, io: bool)
    | Arrive(at: Virtual, garbage: Node)
    | Complete(at: Virtual)
    | Evict(at: Virtual)
    | Release(phys: nat)
    | Append(phys: nat, node: Node)
    | Expire(versions: set<nat>)

  ghost predicate Enabled(w: World, ev: Event) {
    match ev
    case Start(id, node, i, _, _, _) => id !in w.promises && (node.Some? ==> i <= |node.value.path|)
    case LoadRoot(id, _, _, _) => id !in w.promises
    case Arrive(at, _) => at in w.pending && w.pending[at].None?
    case Complete(at) => at in w.pending && w.pending[at].Some? && at in w.inflight
    case Evict(_) => true
    case Release(_) => true
    case Append(phys, _) => phys !in w.live
    case Expire(_) => true
  }

  function Opened(w: World, id: nat): World {
    w.(promises := w.promises[id := []])
  }

  /** The bytes at the offset now: the node, if its chunk was not recycled. */
  function Bytes(w: World, at: Virtual, garbage: Node): Node {
    if Translate(w, at.phys) == Some(at) && at in w.content then w.content[at] else garbage
  }

  /** The node a completed read yields, unless its chunk was recycled during the read. */
  function Yield(w: World, at: Virtual): Option<Node>
    requires at in w.pending
  {
    if Translate(w, at.phys) == Some(at) then w.pending[at] else None
  }

  /** The read is over: the node is cached and its waiters are taken off the list. */
  function Taken(w: World, at: Virtual): World
    requires at in w.pending
  {
    var node := Yield(w, at);
    w.(cache := if node.Some? then w.cache[at := node.value] else w.cache,
       inflight := w.inflight - {at}, pending := w.pending - {at},
       parked := map id | id in w.parked && w.parked[id] != at :: w.parked[id])
  }

  /** `find_owning_receiver::set_value`. */
  function Completed(w: World, at: Virtual): World
    requires at in w.pending && at in w.inflight
  {
    ResumeAll(Taken(w, at), w.inflight[at], Yield(w, at))
  }

  function Next(w: World, ev: Event): World
    requires ev.Start? && ev.start.Some? ==> ev.i <= |ev.start.value.path|
    requires ev.Complete? ==> ev.at in w.pending && w.pending[ev.at].Some? && ev.at in w.inflight
  {
    match ev
    case Start(id, node, i, key, version, io) =>
      var u := Opened(w, id);
      if version !in w.valid then Answer(u, id, Result(VersionGone, node))
      else if node.None? then Answer(u, id, Result(RootIsNull, None))
      else Advance(u, id, node.value, i, key, version, io)
    case LoadRoot(id, phys, version, io) =>
      var u, v := Opened(w, id), Translate(w, phys);
      if version !in w.valid || v.None? then Answer(u, id, Result(VersionGone, None))
      else if v.value in w.cache then Answer(u, id, Result(Success, Some(w.cache[v.value])))
      else if !io then Answer(u, id, Result(NeedIoThread, None))
      else Join(u, v.value, Waiter(id, [], version, true))
    case Arrive(at, garbage) => w.(pending := w.pending[at := Some(Bytes(w, at, garbage))])
    case Complete(at) => Completed(w, at)
    case Evict(at) => w.(cache := w.cache - {at})
    case Release(phys) => w.(live := w.live - {phys})
    case Append(phys, node) =>
      w.(live := w.live[phys := w.nextEpoch], content := w.content[Virtual(phys, w.nextEpoch) := node],
         nextEpoch := w.nextEpoch + 1)
    case Expire(versions) => w.(valid := w.valid - versions)
  }

  // ---- the invariant ----

  /** Reads and waiting lists are the same offsets, none of them cached. */
  ghost predicate OneReadEach(w: World) {
    w.inflight.Keys == w.pending.Keys && w.inflight.Keys !! w.cache.Keys
  }

  /** Virtual offsets never come back, and what is cached or read is what was written there. */
  ghost predicate TrueContent(w: World) {
    (forall p :: p in w.live ==> Virtual(p, w.live[p]) in w.content) &&
    (forall v :: v in w.content ==> v.epoch < w.nextEpoch) &&
    (forall v :: v in w.cache ==> v in w.content && w.cache[v] == w.content[v]) &&
    (forall v :: v in w.pending ==> v in w.content && (w.pending[v].Some? && Translate(w, v.phys) == Some(v) ==>
                                                       w.pending[v].value == w.content[v]))
  }

  ghost predicate Waits(ws: seq<Waiter>, id: nat) {
    exists k :: 0 <= k < |ws| && ws[k].id == id
  }

  ghost predicate Distinct(ws: seq<Waiter>) {
    forall k, m :: 0 <= k < m < |ws| ==> ws[k].id != ws[m].id
  }

  /** The waiters of one list are exactly the requests parked there, each once. */
  ghost predicate ListOk(parked: map<nat, Virtual>, v: Virtual, ws: seq<Waiter>) {
    Distinct(ws) && (forall k :: 0 <= k < |ws| ==> ws[k].id in parked && parked[ws[k].id] == v) &&
    (forall id :: id in parked && parked[id] == v ==> Waits(ws, id))
  }

  ghost predicate ListsOk(w: World) {
    (forall v :: v in w.inflight ==> ListOk(w.parked, v, w.inflight[v])) &&
    (forall id :: id in w.parked ==> w.parked[id] in w.inflight)
  }

  /** Every request is in hand, or waits, or was answered once. */
  ghost predicate PromisesOk(w: World, hand: set<nat>) {
    (forall id :: id in w.parked ==> id in w.promises && id !in hand) &&
    (forall id :: id in hand ==> id in w.promises) &&
    (forall id :: id in w.promises ==> |w.promises[id]| == if id in hand || id in w.parked then 0 else 1)
  }

  ghost predicate Inv(w: World, hand: set<nat>) {
    OneReadEach(w) && TrueContent(w) && ListsOk(w) && PromisesOk(w, hand)
  }

  // ---- answering and parking ----

  lemma AnswerKeeps(w: World, hand: set<nat>, id: nat, r: Result)
    requires Inv(w, hand) && id in hand
    ensures Inv(Answer(w, id, r), hand - {id})
  {
  }

  lemma JoinList(parked: map<nat, Virtual>, v: Virtual, ws: seq<Waiter>, waiter: Waiter)
    requires ListOk(parked, v, ws) && waiter.id !in parked
    ensures ListOk(parked[waiter.id := v], v, ws + [waiter])
  {
    var p, us := parked[waiter.id := v], ws + [waiter];
    forall id | id in p && p[id] == v
      ensures Waits(us, id)
    {
      if id == waiter.id {
        assert us[|ws|].id == id;
      } else {
        var k :| 0 <= k < |ws| && ws[k].id == id;
        assert us[k].id == id;
      }
    }
  }

  lemma OtherList(parked: map<nat, Virtual>, v: Virtual, ws: seq<Waiter>, at: Virtual, id: nat)
    requires ListOk(parked, v, ws) && id !in parked && at != v
    ensures ListOk(parked[id := at], v, ws)
  {
  }

  ghost function ListAt(w: World, v: Virtual): seq<Waiter> {
    if v in w.inflight then w.inflight[v] else []
  }

  lemma ListAtOk(w: World, v: Virtual)
    requires ListsOk(w)
    ensures ListOk(w.parked, v, ListAt(w, v))
  {
  }

  lemma JoinedParts(w: World, v: Virtual, waiter: Waiter)
    ensures
      var u := Join(w, v, waiter);
      u.parked == w.parked[waiter.id := v] && u.inflight == w.inflight[v := ListAt(w, v) + [waiter]]
  {
    assert v !in w.inflight ==> ListAt(w, v) + [waiter] == [waiter];
  }

  lemma JoinLists(w: World, v: Virtual, waiter: Waiter)
    requires ListsOk(w) && waiter.id !in w.parked
    ensures ListsOk(Join(w, v, waiter))
  {
    var u := Join(w, v, waiter);
    JoinedParts(w, v, waiter);
    forall x | x in u.inflight
      ensures ListOk(u.parked, x, u.inflight[x])
    {
      ListAtOk(w, x);
      if x != v {
        OtherList(w.parked, x, ListAt(w, x), v, waiter.id);
      } else {
        JoinList(w.parked, v, ListAt(w, v), waiter);
      }
    }
  }

  lemma JoinReads(w: World, v: Virtual, waiter: Waiter)
    requires OneReadEach(w) && v !in w.cache
    ensures OneReadEach(Join(w, v, waiter))
  {
    var u := Join(w, v, waiter);
    JoinedParts(w, v, waiter);
    KeysAfter(w.inflight, v, ListAt(w, v) + [waiter]);
    if v in w.inflight {
      assert v in w.inflight.Keys;
      assert w.pending.Keys + {v} == w.pending.Keys;
    } else {
      KeysAfter(w.pending, v, None);
    }
  }

  lemma KeysAfter<V>(m: map<Virtual, V>, v: Virtual, x: V)
    ensures m[v := x].Keys == m.Keys + {v}
  {
  }

  lemma JoinContent(w: World, v: Virtual, waiter: Waiter)
    requires TrueContent(w) && v in w.content
    ensures TrueContent(Join(w, v, waiter))
  {
  }

  lemma JoinPromises(w: World, hand: set<nat>, v: Virtual, waiter: Waiter)
    requires PromisesOk(w, hand) && waiter.id in hand
    ensures PromisesOk(Join(w, v, waiter), hand - {waiter.id})
  {
    JoinedParts(w, v, waiter);
  }

  lemma JoinKeeps(w: World, hand: set<nat>, v: Virtual, waiter: Waiter)
    requires Inv(w, hand) && waiter.id in hand && v !in w.cache && v in w.content
    ensures Inv(Join(w, v, waiter), hand - {waiter.id})
  {
    JoinReads(w, v, waiter);
    JoinContent(w, v, waiter);
    JoinLists(w, v, waiter);
    JoinPromises(w, hand, v, waiter);
  }

  /** Where a descent parks: a live node that is not cached. */
  lemma {:induction false} ParksOnMiss(w: World, node: Node, i: nat, key: seq<nat>, version: nat, io: bool)
    requires TrueContent(w) && i <= |node.path|
    ensures
      var o := Descend(w, node, i, key, version, io);
      o.Park? ==> o.at !in w.cache && o.at in w.content && |o.key| < |key|
    decreases |key|
  {
    var path := node.path[i..];
    if version in w.valid && path <= key && |path| < |key| && key[|path|] in node.next {
      var v := Translate(w, node.next[key[|path|]]);
      if v.Some? && v.value in w.cache {
        ParksOnMiss(w, w.cache[v.value], 0, key[|path| + 1..], version, io);
      }
    }
  }

  lemma AdvanceKeeps(w: World, hand: set<nat>, id: nat, node: Node, i: nat, key: seq<nat>, version: nat, io: bool)
    requires Inv(w, hand) && id in hand && i <= |node.path|
    ensures Inv(Advance(w, id, node, i, key, version, io), hand - {id})
  {
    ParksOnMiss(w, node, i, key, version, io);
    match Descend(w, node, i, key, version, io)
    case Done(r) => AnswerKeeps(w, hand, id, r);
    case Park(v, rest) => JoinKeeps(w, hand, v, Waiter(id, rest, version, false));
  }

  // ---- completing a read ----

  ghost function Ids(ws: seq<Waiter>): set<nat> {
    set k | 0 <= k < |ws| :: ws[k].id
  }

  lemma IdsRest(ws: seq<Waiter>)
    requires ws != [] && Distinct(ws)
    ensures ws[0].id in Ids(ws) && Ids(ws) - {ws[0].id} == Ids(ws[1..]) && Distinct(ws[1..])
  {
    forall id
      ensures id in Ids(ws) - {ws[0].id} <==> id in Ids(ws[1..])
    {
      if id in Ids(ws) && id != ws[0].id {
        var k :| 0 <= k < |ws| && ws[k].id == id;
        assert ws[1..][k - 1].id == id;
      }
    }
  }

  lemma ResumeKeeps(w: World, hand: set<nat>, waiter: Waiter, node: Option<Node>)
    requires Inv(w, hand) && waiter.id in hand
    ensures Inv(Resume(w, waiter, node), hand - {waiter.id})
  {
    if node.None? {
      AnswerKeeps(w, hand, waiter.id, Result(VersionGone, None));
    } else if waiter.rootOnly {
      AnswerKeeps(w, hand, waiter.id, Result(Success, node));
    } else {
      AdvanceKeeps(w, hand, waiter.id, node.value, 0, waiter.key, waiter.version, true);
    }
  }

  lemma {:induction false} ResumeAllKeeps(w: World, ws: seq<Waiter>, node: Option<Node>)
    requires Inv(w, Ids(ws)) && Distinct(ws)
    ensures Inv(ResumeAll(w, ws, node), {})
    decreases |ws|
  {
    if ws == [] {
      assert Ids(ws) == {};
    } else {
      IdsRest(ws);
      ResumeKeeps(w, Ids(ws), ws[0], node);
      ResumeAllKeeps(Resume(w, ws[0], node), ws[1..], node);
    }
  }

  lemma TakenLists(w: World, at: Virtual)
    requires ListsOk(w) && at in w.pending
    ensures ListsOk(Taken(w, at))
  {
    var u := Taken(w, at);
    forall v | v in u.inflight
      ensures ListOk(u.parked, v, u.inflight[v])
    {
      assert ListOk(w.parked, v, w.inflight[v]);
    }
  }

  lemma TakenPromises(w: World, at: Virtual)
    requires ListsOk(w) && PromisesOk(w, {}) && at in w.pending && at in w.inflight
    ensures PromisesOk(Taken(w, at), Ids(w.inflight[at]))
  {
    var u, ws := Taken(w, at), w.inflight[at];
    assert ListOk(w.parked, at, ws);
    forall id
      ensures id in Ids(ws) <==> id in w.parked && w.parked[id] == at
    {
      if id in w.parked && w.parked[id] == at {
        var k :| 0 <= k < |ws| && ws[k].id == id;
      }
    }
  }

  /** A node that passes the check is the node written at that virtual offset. */
  lemma YieldIsTrue(w: World, at: Virtual)
    requires TrueContent(w) && at in w.pending
    ensures Yield(w, at).Some? ==> at in w.content && Yield(w, at).value == w.content[at]
  {
  }

  lemma TakenContent(w: World, at: Virtual)
    requires TrueContent(w) && OneReadEach(w) && at in w.pending
    ensures TrueContent(Taken(w, at)) && OneReadEach(Taken(w, at))
  {
    YieldIsTrue(w, at);
  }

  lemma CompleteKeeps(w: World, at: Virtual)
    requires Inv(w, {}) && at in w.pending && at in w.inflight
    ensures Inv(Completed(w, at), {})
  {
    TakenLists(w, at);
    TakenPromises(w, at);
    TakenContent(w, at);
    assert ListOk(w.parked, at, w.inflight[at]);
    ResumeAllKeeps(Taken(w, at), w.inflight[at], Yield(w, at));
  }

  lemma ResumeCache(w: World, waiter: Waiter, node: Option<Node>)
    ensures Resume(w, waiter, node).cache == w.cache
  {
  }

  lemma {:induction false} ResumeAllCache(w: World, ws: seq<Waiter>, node: Option<Node>)
    ensures ResumeAll(w, ws, node).cache == w.cache
    decreases |ws|
  {
    if ws != [] {
      ResumeCache(w, ws[0], node);
      ResumeAllCache(Resume(w, ws[0], node), ws[1..], node);
    }
  }

  /**
    A read that yields its node leaves it in the cache and is no longer
    outstanding; one that does not caches nothing.
   */
  lemma CompleteCaches(w: World, at: Virtual)
    requires at in w.pending && at in w.inflight
    ensures
      var u := Completed(w, at);
      if Yield(w, at).Some? then at in u.cache && u.cache[at] == Yield(w, at).value && u.cache - {at} == w.cache - {at}
      else u.cache == w.cache
  {
    ResumeAllCache(Taken(w, at), w.inflight[at], Yield(w, at));
  }

  // ---- the other events ----

  lemma OpenedKeeps(w: World, id: nat)
    requires Inv(w, {}) && id !in w.promises
    ensures Inv(Opened(w, id), {id})
  {
  }

  lemma StartKeeps(w: World, ev: Event)
    requires Inv(w, {}) && Enabled(w, ev) && ev.Start?
    ensures Inv(Next(w, ev), {})
  {
    var u := Opened(w, ev.id);
    OpenedKeeps(w, ev.id);
    assert {ev.id} - {ev.id} == {};
    if ev.version !in w.valid {
      AnswerKeeps(u, {ev.id}, ev.id, Result(VersionGone, ev.start));
    } else if ev.start.None? {
      AnswerKeeps(u, {ev.id}, ev.id, Result(RootIsNull, None));
    } else {
      AdvanceKeeps(u, {ev.id}, ev.id, ev.start.value, ev.i, ev.key, ev.version, ev.io);
    }
  }

  lemma LoadRootKeeps(w: World, ev: Event)
    requires Inv(w, {}) && Enabled(w, ev) && ev.LoadRoot?
    ensures Inv(Next(w, ev), {})
  {
    var u, v := Opened(w, ev.id), Translate(w, ev.phys);
    OpenedKeeps(w, ev.id);
    assert {ev.id} - {ev.id} == {};
    if ev.version !in w.valid || v.None? {
      AnswerKeeps(u, {ev.id}, ev.id, Result(VersionGone, None));
    } else if v.value in w.cache {
      AnswerKeeps(u, {ev.id}, ev.id, Result(Success, Some(w.cache[v.value])));
    } else if !ev.io {
      AnswerKeeps(u, {ev.id}, ev.id, Result(NeedIoThread, None));
    } else {
      JoinKeeps(u, {ev.id}, v.value, Waiter(ev.id, [], ev.version, true));
    }
  }

  lemma ArriveKeeps(w: World, at: Virtual, garbage: Node)
    requires OneReadEach(w) && TrueContent(w) && at in w.pending
    ensures
      var u := Next(w, Arrive(at, garbage));
      OneReadEach(u) && TrueContent(u)
  {
    var u := Next(w, Arrive(at, garbage));
    assert u.pending.Keys == w.pending.Keys;
  }

  /** A new epoch is not that of any read under way. */
  lemma AppendKeeps(w: World, phys: nat, node: Node)
    requires TrueContent(w) && phys !in w.live
    ensures TrueContent(Next(w, Append(phys, node)))
  {
    var u, born := Next(w, Append(phys, node)), Virtual(phys, w.nextEpoch);
    assert born !in w.content;
    forall v | v in u.pending && u.pending[v].Some? && Translate(u, v.phys) == Some(v)
      ensures v in u.content && u.pending[v].value == u.content[v]
    {
      assert v != born;
      assert Translate(w, v.phys) == Some(v);
    }
  }

  lemma EnvironmentKeeps(w: World, ev: Event)
    requires Inv(w, {}) && (ev.Evict? || ev.Release? || ev.Expire?)
    ensures OneReadEach(Next(w, ev)) && TrueContent(Next(w, ev))
  {
    forall v: Virtual | ev.Release? && Translate(Next(w, ev), v.phys) == Some(v)
      ensures Translate(w, v.phys) == Some(v)
    {
    }
  }

  lemma StepKeeps(w: World, ev: Event)
    requires Inv(w, {}) && Enabled(w, ev)
    ensures Inv(Next(w, ev), {})
  {
    match ev
    case Start(_, _, _, _, _, _) => StartKeeps(w, ev);
    case LoadRoot(_, _, _, _) => LoadRootKeeps(w, ev);
    case Complete(at) => CompleteKeeps(w, at);
    case Arrive(at, garbage) => ArriveKeeps(w, at, garbage);
    case Append(phys, node) => AppendKeeps(w, phys, node);
    case _ => EnvironmentKeeps(w, ev);
  }

  // ---- all runs ----

  /** Nothing asked, nothing read; any disk content. */
  ghost predicate Init(w: World) {
    TrueContent(w) && w.cache == map[] && w.inflight == map[] && w.pending == map[] && w.promises == map[] &&
    w.parked == map[]
  }

  ghost function After(w: World, evs: seq<Event>): World {
    if evs == [] then w
    else
      var u, ev := After(w, evs[..|evs| - 1]), evs[|evs| - 1];
      if Enabled(u, ev) then Next(u, ev) else u
  }

  lemma {:induction false} RunKeeps(w: World, evs: seq<Event>)
    requires Init(w)
    ensures Inv(After(w, evs), {})
    decreases |evs|
  {
    if evs != [] {
      var u, ev := After(w, evs[..|evs| - 1]), evs[|evs| - 1];
      RunKeeps(w, evs[..|evs| - 1]);
      if Enabled(u, ev) {
        StepKeeps(u, ev);
      }
    }
  }

  /**
    In every reachable state: there is exactly one outstanding read per
    virtual offset that requests wait for, and none for a cached node; every
    request was answered exactly once or waits in exactly one place; and the
    node a completing read hands out is the one written at that offset.
   */
  lemma EveryRequestOnce(w: World, evs: seq<Event>, id: nat, at: Virtual)
    requires Init(w) && id in After(w, evs).promises
    ensures
      var u := After(w, evs);
      u.inflight.Keys == u.pending.Keys && u.inflight.Keys !! u.cache.Keys &&
      (if id in u.parked then u.promises[id] == [] && u.parked[id] in u.inflight && Waits(u.inflight[u.parked[id]], id)
       else |u.promises[id]| == 1) &&
      (at in u.inflight && Waits(u.inflight[at], id) ==>
        id in u.parked && u.parked[id] == at &&
        Distinct(u.inflight[at])) &&
      (at in u.pending && Yield(u, at).Some? ==> at in u.content && Yield(u, at).value == u.content[at])
  {
    var u := After(w, evs);
    RunKeeps(w, evs);
    if id in u.parked {
      assert ListOk(u.parked, u.parked[id], u.inflight[u.parked[id]]);
    }
    if at in u.inflight {
      assert ListOk(u.parked, at, u.inflight[at]);
    }
    if at in u.pending {
      YieldIsTrue(u, at);
    }
  }

  /** Once no read is outstanding, every request has its answer. */
  lemma NoReadNoWaiter(w: World, evs: seq<Event>, id: nat)
    requires Init(w) && After(w, evs).pending == map[] && id in After(w, evs).promises
    ensures |After(w, evs).promises[id]| == 1
  {
    RunKeeps(w, evs);
    assert After(w, evs).inflight.Keys == {};
  }

  /** The receiver's assertion: a node is never cached while it is being read. */
  lemma NeverCachedTwice(w: World, evs: seq<Event>, at: Virtual)
    requires Init(w) && at in After(w, evs).pending
    ensures at !in After(w, evs).cache && at in After(w, evs).inflight
  {
    RunKeeps(w, evs);
  }
}
