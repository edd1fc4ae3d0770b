/**
  The statistics sidecar: one writer publishes a record of `SIZE` words under a
  sequence number that is odd while a publish is in flight, any number of
  readers copy the record word by word and accept it if the sequence number did
  not change. The writer may die at any store; a new one takes the file over.
  Every load and store of shared memory is one event.
 */
module StatsSeqlock {

  type Word = nat

  const SEQ_LIMIT: nat := 0x1_0000_0000
  const READ_ATTEMPTS: nat := 8

  datatype Writer =
    | Dead
    | Claimed                                             // magic cleared
    | HeldLoaded(held: nat)                               // sequence loaded, rounded up to odd
    | Idle
    | Loaded(begin: nat, rec: seq<Word>)
    | Writing(odd: nat, rec: seq<Word>, i: nat, takeover: bool)
    | Released                                            // takeover done, magic not yet set

  /** A successful read, and how many records had been completed when it began. */
  datatype Read = Read(rec: seq<Word>, index: nat)

  /** An attempt in progress: the sequence number it began with, the words copied so far, and the counters then. */
  datatype Attempt = NoAttempt | Attempt(begin: nat, copied: seq<Word>, ticks: nat, index: nat, writes: nat)

  /** Failed attempts of the current read, the attempt under way, the records returned, the reads given up. */
  datatype Reader = Reader(attempts: nat, now: Attempt, returned: seq<Read>, gaveUp: nat)

  /**
    Shared memory (`seqno`, `magic`, `words`), the writer and the readers.
    `ticks` counts every increment of the sequence number without wrap-around,
    `writes` the publishes and takeovers begun, `published` the records that
    were completed, in order.
   */
  datatype State = State(
    seqno: nat, magic: bool, words: seq<Word>, writer: Writer, readers: map<nat, Reader>,
    ticks: nat, writes: nat, published: seq<seq<Word>>)

  datatype Event =
    | TakeOver
    | LoadHeld
    | StoreHeld
    | StoreMagic
    | LoadSeq(rec: seq<Word>)
    | StoreOdd
    | StoreWord
    | StoreEven
    | Die
    | OpenReader(r: nat)
    | ReadBegin(r: nat)
    | ReadWord(r: nat)
    | ReadEnd(r: nat)

  function Zeros(size: nat): seq<Word> {
    seq(size, i => 0)
  }

  function RoundUpToOdd(x: nat): nat {
    if x % 2 == 0 then x + 1 else x
  }

  // ---- steps ----

  predicate Enabled(s: State, ev: Event) {
    match ev
    case TakeOver => s.writer.Dead?
    case LoadHeld => s.writer.Claimed?
    case StoreHeld => s.writer.HeldLoaded?
    case StoreMagic => s.writer.Released?
    case LoadSeq(rec) => s.writer.Idle? && |rec| == |s.words|
    case StoreOdd => s.writer.Loaded?
    case StoreWord => s.writer.Writing? && s.writer.i < |s.words| && s.writer.i < |s.writer.rec|
    case StoreEven => s.writer.Writing? && s.writer.i == |s.words|
    case Die => true
    case OpenReader(r) => s.magic && r !in s.readers
    case ReadBegin(r) => r in s.readers && s.readers[r].now.NoAttempt?
    case ReadWord(r) => r in s.readers && s.readers[r].now.Attempt? && |s.readers[r].now.copied| < |s.words|
    case ReadEnd(r) => r in s.readers && s.readers[r].now.Attempt? && |s.readers[r].now.copied| == |s.words|
  }

  /** A failed attempt; after `READ_ATTEMPTS` of them the read gives up. */
  function Retry(rd: Reader): Reader {
    if rd.attempts + 1 < READ_ATTEMPTS then rd.(now := NoAttempt, attempts := rd.attempts + 1)
    else rd.(now := NoAttempt, attempts := 0, gaveUp := rd.gaveUp + 1)
  }

  function BeginRead(s: State, rd: Reader): Reader {
    if s.seqno % 2 == 1 then Retry(rd) else rd.(now := Attempt(s.seqno, [], s.ticks, |s.published|, s.writes))
  }

  function EndRead(s: State, rd: Reader): Reader
    requires rd.now.Attempt?
  {
    if s.seqno != rd.now.begin then Retry(rd)
    else rd.(now := NoAttempt, attempts := 0, returned := rd.returned + [Read(rd.now.copied, rd.now.index)])
  }

  function Next(s: State, ev: Event): State
    requires Enabled(s, ev)
  {
    match ev
    case TakeOver => s.(magic := false, writer := Claimed)
    case LoadHeld => s.(writer := HeldLoaded(RoundUpToOdd(s.seqno)))
    case StoreHeld =>
      s.(seqno := s.writer.held, writer := Writing(s.writer.held, Zeros(|s.words|), 0, true),
         ticks := RoundUpToOdd(s.ticks), writes := s.writes + 1)
    case StoreMagic => s.(magic := true, writer := Idle)
    case LoadSeq(rec) => s.(writer := Loaded(s.seqno, rec))
    case StoreOdd =>
      var odd := (s.writer.begin + 1) % SEQ_LIMIT;
      s.(seqno := odd, writer := Writing(odd, s.writer.rec, 0, false), ticks := s.ticks + 1, writes := s.writes + 1)
    case StoreWord =>
      s.(words := s.words[s.writer.i := s.writer.rec[s.writer.i]], writer := s.writer.(i := s.writer.i + 1))
    case StoreEven =>
      s.(seqno := (s.writer.odd + 1) % SEQ_LIMIT, writer := if s.writer.takeover then Released else Idle,
         ticks := s.ticks + 1, published := s.published + [s.writer.rec])
    case Die => s.(writer := Dead)
    case OpenReader(r) => s.(readers := s.readers[r := Reader(0, NoAttempt, [], 0)])
    case ReadBegin(r) => s.(readers := s.readers[r := BeginRead(s, s.readers[r])])
    case ReadWord(r) =>
      var rd := s.readers[r];
      s.(readers := s.readers[r := rd.(now := rd.now.(copied := rd.now.copied + [s.words[|rd.now.copied|]]))])
    case ReadEnd(r) => s.(readers := s.readers[r := EndRead(s, s.readers[r])])
  }

  /** Fewer than 2^31 publishes and takeovers begin while one attempt is under way. */
  ghost predicate Timely(s: State, ev: Event)
    requires Enabled(s, ev)
  {
    ev.ReadEnd? ==> s.writes < s.readers[ev.r].now.writes + SEQ_LIMIT / 2
  }

  /** Any file content, any sequence number, nobody there. */
  ghost predicate Init(s: State) {
    s.seqno < SEQ_LIMIT && s.ticks == s.seqno && !s.magic && s.writer.Dead? && s.readers == map[] && s.published == []
  }

  ghost predicate Run(s: State, evs: seq<Event>) {
    evs == [] ||
    (Run(s, evs[..|evs| - 1]) &&
     var t := After(s, evs[..|evs| - 1]);
     Enabled(t, evs[|evs| - 1]) && Timely(t, evs[|evs| - 1]))
  }

  ghost function After(s: State, evs: seq<Event>): State {
    if evs == [] then s
    else
      var t := After(s, evs[..|evs| - 1]);
      if Enabled(t, evs[|evs| - 1]) then Next(t, evs[|evs| - 1]) else t
  }

  // ---- the invariant ----

  ghost predicate WriterOk(s: State) {
    s.seqno == s.ticks % SEQ_LIMIT && PhaseOk(s)
  }

  ghost predicate PhaseOk(s: State) {
    match s.writer
    case Dead => true
    case Claimed => true
    case HeldLoaded(held) => held == RoundUpToOdd(s.seqno)
    case Idle => s.ticks % 2 == 0
    case Loaded(begin, rec) => s.ticks % 2 == 0 && begin == s.seqno && |rec| == |s.words|
    case Writing(odd, rec, i, _) => s.ticks % 2 == 1 && odd == s.seqno && |rec| == |s.words| && i <= |s.words| &&
      s.words[..i] == rec[..i]
    case Released => s.ticks % 2 == 0 && s.published != []
  }

  /** Between writes the words are the last completed record. */
  ghost predicate WordsOk(s: State) {
    (s.ticks % 2 == 0 && s.published != [] ==> s.words == s.published[|s.published| - 1]) &&
    (s.magic || s.readers != map[] ==> s.published != [])
  }

  ghost predicate ReturnedOk(published: seq<seq<Word>>, returned: seq<Read>, upTo: nat) {
    EachPublished(published, returned, upTo) && forall k, m :: 0 <= k < m < |returned| ==>
    returned[k].index <= returned[m].index
  }

  /** Every record returned is one of the first `upTo` published. */
  ghost predicate EachPublished(published: seq<seq<Word>>, returned: seq<Read>, upTo: nat) {
    forall k :: 0 <= k < |returned| ==>
      0 < returned[k].index <= upTo <= |published| && returned[k].rec == published[returned[k].index - 1]
  }

  ghost predicate AttemptOk(s: State, a: Attempt) {
    a.Attempt? ==>
      a.ticks % 2 == 0 && a.ticks <= s.ticks && a.begin == a.ticks % SEQ_LIMIT && |a.copied| <= |s.words| &&
      0 < a.index <= |s.published| && a.writes <= s.writes &&
      s.ticks + s.ticks % 2 <= a.ticks + 2 * (s.writes - a.writes) &&
      (s.ticks == a.ticks ==> a.index == |s.published| && a.copied == s.words[..|a.copied|])
  }

  ghost predicate ReaderOk(s: State, rd: Reader) {
    AttemptOk(s, rd.now) &&
    ReturnedOk(s.published, rd.returned, if rd.now.Attempt? then rd.now.index else |s.published|)
  }

  ghost predicate Inv(s: State) {
    WriterOk(s) && WordsOk(s) && forall r :: r in s.readers ==> ReaderOk(s, s.readers[r])
  }

  // ---- the writer ----

  lemma ParityOfRemainder(t: nat)
    ensures t % SEQ_LIMIT % 2 == t % 2
    ensures (t % SEQ_LIMIT + 1) % SEQ_LIMIT == (t + 1) % SEQ_LIMIT
    ensures RoundUpToOdd(t % SEQ_LIMIT) == RoundUpToOdd(t) % SEQ_LIMIT
  {
  }

  ghost predicate WriterEvent(ev: Event) {
    ev.TakeOver? || ev.LoadHeld? || ev.StoreHeld? || ev.StoreMagic? || ev.LoadSeq? || ev.StoreOdd? || ev.StoreWord? ||
    ev.StoreEven? || ev.Die?
  }

  /** The sequence number counts on, modulo its width. */
  lemma SeqStep(s: State, ev: Event)
    requires WriterOk(s) && Enabled(s, ev) && WriterEvent(ev)
    ensures Next(s, ev).seqno == Next(s, ev).ticks % SEQ_LIMIT
  {
    ParityOfRemainder(s.ticks);
  }

  lemma WriterStep(s: State, ev: Event)
    requires WriterOk(s) && WordsOk(s) && Enabled(s, ev) && WriterEvent(ev)
    ensures WriterOk(Next(s, ev)) && WordsOk(Next(s, ev))
  {
    SeqStep(s, ev);
    match ev
    case StoreWord => StoredWord(s);
    case StoreEven => StoredEven(s);
    case _ => OtherStores(s, ev);
  }

  /** The words written so far are those of the record. */
  lemma StoredWord(s: State)
    requires PhaseOk(s) && WordsOk(s) && Enabled(s, StoreWord)
    ensures PhaseOk(Next(s, StoreWord)) && WordsOk(Next(s, StoreWord))
  {
    var i, rec := s.writer.i, s.writer.rec;
    var words := s.words[i := rec[i]];
    assert words[..i + 1] == s.words[..i] + [rec[i]];
    assert rec[..i + 1] == rec[..i] + [rec[i]];
  }

  /** All words written: the record is the last one published. */
  lemma StoredEven(s: State)
    requires PhaseOk(s) && Enabled(s, StoreEven)
    ensures PhaseOk(Next(s, StoreEven)) && WordsOk(Next(s, StoreEven))
  {
    var t, rec := Next(s, StoreEven), s.writer.rec;
    assert s.words == s.words[..|s.words|] && rec == rec[..|rec|];
    assert t.words == rec && t.published[|t.published| - 1] == rec;
    assert (s.ticks + 1) % 2 == 0;
  }

  lemma OtherStores(s: State, ev: Event)
    requires PhaseOk(s) && WordsOk(s) && Enabled(s, ev) && WriterEvent(ev) && !ev.StoreWord? && !ev.StoreEven?
    ensures PhaseOk(Next(s, ev)) && WordsOk(Next(s, ev))
  {
    match ev
    case StoreHeld => StoredHeld(s);
    case StoreOdd => StoredOdd(s);
    case _ =>
  }

  lemma StoredHeld(s: State)
    requires PhaseOk(s) && WordsOk(s) && Enabled(s, StoreHeld)
    ensures PhaseOk(Next(s, StoreHeld)) && WordsOk(Next(s, StoreHeld))
  {
    assert Next(s, StoreHeld).ticks % 2 == 1;
  }

  lemma StoredOdd(s: State)
    requires PhaseOk(s) && WordsOk(s) && Enabled(s, StoreOdd)
    ensures PhaseOk(Next(s, StoreOdd)) && WordsOk(Next(s, StoreOdd))
  {
    assert Next(s, StoreOdd).ticks % 2 == 1;
  }

  // ---- what a writer event means for a reader ----

  /** Counters and records only grow; words change only while the sequence number is odd. */
  ghost predicate Evolves(s: State, t: State) {
    s.ticks <= t.ticks && |t.words| == |s.words| && s.writes <= t.writes && s.published <= t.published &&
    t.ticks + t.ticks % 2 <= s.ticks + s.ticks % 2 + 2 * (t.writes - s.writes) &&
    (t.ticks == s.ticks && s.ticks % 2 == 0 ==> t.published == s.published && t.words == s.words)
  }

  lemma WriterEvolves(s: State, ev: Event)
    requires Inv(s) && Enabled(s, ev) && WriterEvent(ev)
    ensures Evolves(s, Next(s, ev)) && Next(s, ev).readers == s.readers
  {
    match ev
    case StoreHeld => assert RoundUpToOdd(s.ticks) % 2 == 1;
    case StoreOdd => assert (s.ticks + 1) % 2 == 1;
    case StoreEven => assert (s.ticks + 1) % 2 == 0;
    case _ =>
  }

  lemma ReaderKept(s: State, t: State, rd: Reader)
    requires ReaderOk(s, rd) && Evolves(s, t)
    ensures ReaderOk(t, rd)
  {
    ReturnedKept(s.published, t.published, rd.returned, if rd.now.Attempt? then rd.now.index else |s.published|);
  }

  lemma ReturnedKept(p: seq<seq<Word>>, q: seq<seq<Word>>, returned: seq<Read>, upTo: nat)
    requires ReturnedOk(p, returned, upTo) && p <= q
    ensures ReturnedOk(q, returned, upTo) || returned == []
    ensures ReturnedOk(q, returned, |q|)
  {
    EachKept(p, q, returned, upTo);
  }

  lemma EachKept(p: seq<seq<Word>>, q: seq<seq<Word>>, returned: seq<Read>, upTo: nat)
    requires EachPublished(p, returned, upTo) && p <= q
    ensures EachPublished(q, returned, upTo) && EachPublished(q, returned, |q|)
  {
    forall k | 0 <= k < |returned|
      ensures 0 < returned[k].index <= upTo <= |p| <= |q| && returned[k].rec == q[returned[k].index - 1]
    {
      assert p[returned[k].index - 1] == q[returned[k].index - 1];
    }
  }

  // ---- reader events ----

  /** If the sequence number is back where the attempt began, it never moved. */
  lemma NothingMoved(s: State, a: Attempt)
    requires WriterOk(s) && AttemptOk(s, a) && a.Attempt? && s.seqno == a.begin && s.writes < a.writes + SEQ_LIMIT / 2
    ensures s.ticks == a.ticks
  {
  }

  /** A successful read returns the last record completed when it began, whole. */
  lemma ReadIsWhole(s: State, rd: Reader)
    requires Inv(s) && ReaderOk(s, rd) && rd.now.Attempt? && |rd.now.copied| == |s.words|
    requires s.seqno == rd.now.begin && s.writes < rd.now.writes + SEQ_LIMIT / 2
    ensures 0 < rd.now.index == |s.published| && rd.now.copied == s.published[rd.now.index - 1]
  {
    NothingMoved(s, rd.now);
    assert s.words[..|s.words|] == s.words;
  }

  lemma EndReadOk(s: State, rd: Reader)
    requires Inv(s) && ReaderOk(s, rd) && rd.now.Attempt? && |rd.now.copied| == |s.words|
    requires s.writes < rd.now.writes + SEQ_LIMIT / 2
    ensures ReaderOk(s, EndRead(s, rd))
  {
    if s.seqno == rd.now.begin {
      ReadIsWhole(s, rd);
    } else {
      ReturnedKept(s.published, s.published, rd.returned, rd.now.index);
    }
  }

  lemma ReaderStep(s: State, ev: Event)
    requires Inv(s) && Enabled(s, ev) && Timely(s, ev) && !WriterEvent(ev)
    ensures ev.r in Next(s, ev).readers && ReaderOk(s, Next(s, ev).readers[ev.r])
  {
    ParityOfRemainder(s.ticks);
    match ev {
      case ReadEnd(r) => EndReadOk(s, s.readers[r]);
      case ReadWord(r) =>
        var a := s.readers[r].now;
        assert s.words[..|a.copied| + 1] == s.words[..|a.copied|] + [s.words[|a.copied|]];
      case _ =>
    }
  }

  lemma StepKeepsInv(s: State, ev: Event)
    requires Inv(s) && Enabled(s, ev) && Timely(s, ev)
    ensures Inv(Next(s, ev))
  {
    if WriterEvent(ev) {
      WriterStep(s, ev);
      WriterKeepsReaders(s, ev);
    } else {
      ReaderKeepsInv(s, ev);
    }
  }

  lemma WriterKeepsReaders(s: State, ev: Event)
    requires Inv(s) && Enabled(s, ev) && WriterEvent(ev)
    ensures
      var t := Next(s, ev);
      forall r :: r in t.readers ==> ReaderOk(t, t.readers[r])
  {
    var t := Next(s, ev);
    WriterEvolves(s, ev);
    forall r | r in t.readers
      ensures ReaderOk(t, t.readers[r])
    {
      ReaderKept(s, t, s.readers[r]);
    }
  }

  lemma ReaderKeepsInv(s: State, ev: Event)
    requires Inv(s) && Enabled(s, ev) && Timely(s, ev) && !WriterEvent(ev)
    ensures Inv(Next(s, ev))
  {
    var t := Next(s, ev);
    ReaderStep(s, ev);
    assert ev.r in t.readers;
    forall r | r in t.readers
      ensures ReaderOk(t, t.readers[r])
    {
      assert ReaderOk(s, t.readers[r]);
    }
  }

  lemma {:induction false} RunKeepsInv(s: State, evs: seq<Event>)
    requires Init(s) && Run(s, evs)
    ensures Inv(After(s, evs)) && |After(s, evs).words| == |s.words|
    decreases |evs|
  {
    if evs != [] {
      var t := After(s, evs[..|evs| - 1]);
      RunKeepsInv(s, evs[..|evs| - 1]);
      StepKeepsInv(t, evs[|evs| - 1]);
    }
  }

  /**
    In every interleaving, with any number of writer deaths and takeovers,
    every successful read returned one whole published record, and the reads of
    one reader never go back in publish order.
   */
  lemma ReadsAreWholeAndMonotone(s: State, evs: seq<Event>, r: nat)
    requires Init(s) && Run(s, evs) && r in After(s, evs).readers
    ensures
      var t := After(s, evs);
      var returned := t.readers[r].returned;
      (forall k :: 0 <= k < |returned| ==>
        0 < returned[k].index <= |t.published| &&
        returned[k].rec == t.published[returned[k].index - 1]) &&
      (forall k, m :: 0 <= k < m < |returned| ==> returned[k].index <= returned[m].index)
  {
    RunKeepsInv(s, evs);
  }

  /** A takeover that completes leaves the lock released, whatever state the dead writer left it in. */
  lemma TakeoverReleases(s: State, evs: seq<Event>)
    requires Init(s) && Run(s, evs) && (After(s, evs).writer.Released? || After(s, evs).writer.Idle?)
    ensures After(s, evs).seqno % 2 == 0
  {
    RunKeepsInv(s, evs);
    ParityOfRemainder(After(s, evs).ticks);
  }

  /** A takeover is under way. */
  ghost predicate TakingOver(w: Writer) {
    w.Claimed? || w.HeldLoaded? || w.Released? || (w.Writing? && w.takeover)
  }

  /** The magic is cleared during a takeover and set while the writer works. */
  ghost predicate MagicOk(s: State) {
    (TakingOver(s.writer) ==> !s.magic) &&
    (s.writer.Idle? || s.writer.Loaded? || (s.writer.Writing? && !s.writer.takeover) ==> s.magic)
  }

  lemma MagicStep(s: State, ev: Event)
    requires Enabled(s, ev) && MagicOk(s)
    ensures MagicOk(Next(s, ev))
  {
  }

  lemma {:induction false} RunKeepsMagic(s: State, evs: seq<Event>)
    requires Init(s) && Run(s, evs)
    ensures MagicOk(After(s, evs))
    decreases |evs|
  {
    if evs != [] {
      RunKeepsMagic(s, evs[..|evs| - 1]);
      MagicStep(After(s, evs[..|evs| - 1]), evs[|evs| - 1]);
    }
  }

  /** While a takeover is under way no reader is let in, and once it is over every reader is. */
  lemma TakeoverTurnsReadersAway(s: State, evs: seq<Event>, r: nat)
    requires Init(s) && Run(s, evs)
    ensures
      var t := After(s, evs);
      (TakingOver(t.writer) ==> !Enabled(t, OpenReader(r))) &&
      (t.writer.Idle? && r !in t.readers ==> Enabled(t, OpenReader(r)))
  {
    RunKeepsMagic(s, evs);
  }

  // ---- the published records ----

  /** A record counts as published only when it was passed to a publish or is the zero record of a takeover. */
  ghost predicate Offered(evs: seq<Event>, size: nat, rec: seq<Word>) {
    rec == Zeros(size) || exists k :: 0 <= k < |evs| && evs[k] == LoadSeq(rec)
  }

  ghost predicate AllOffered(s: State, evs: seq<Event>, size: nat) {
    (forall k :: 0 <= k < |s.published| ==> Offered(evs, size, s.published[k])) &&
    (s.writer.Loaded? ==> Offered(evs, size, s.writer.rec)) && (s.writer.Writing? ==> Offered(evs, size, s.writer.rec))
  }

  lemma OfferedMore(evs: seq<Event>, ev: Event, size: nat, rec: seq<Word>)
    requires Offered(evs, size, rec)
    ensures Offered(evs + [ev], size, rec)
  {
    if rec != Zeros(size) {
      var k :| 0 <= k < |evs| && evs[k] == LoadSeq(rec);
      assert (evs + [ev])[k] == LoadSeq(rec);
    }
  }

  lemma StillOffered(s: State, evs: seq<Event>, ev: Event, size: nat)
    requires AllOffered(s, evs, size)
    ensures AllOffered(s, evs + [ev], size)
  {
    forall rec | Offered(evs, size, rec)
      ensures Offered(evs + [ev], size, rec)
    {
      OfferedMore(evs, ev, size, rec);
    }
  }

  lemma StepOffers(s: State, evs: seq<Event>, ev: Event, size: nat)
    requires Enabled(s, ev) && |s.words| == size && AllOffered(s, evs, size)
    ensures AllOffered(Next(s, ev), evs + [ev], size)
  {
    StillOffered(s, evs, ev, size);
    if ev.LoadSeq? {
      assert (evs + [ev])[|evs|] == LoadSeq(ev.rec);
    }
  }

  lemma {:induction false} PublishedWereOffered(s: State, evs: seq<Event>)
    requires Init(s) && Run(s, evs)
    ensures AllOffered(After(s, evs), evs, |s.words|)
    decreases |evs|
  {
    if evs != [] {
      var init, ev := evs[..|evs| - 1], evs[|evs| - 1];
      PublishedWereOffered(s, init);
      RunKeepsInv(s, init);
      assert init + [ev] == evs;
      StepOffers(After(s, init), init, ev, |s.words|);
    }
  }

  // ---- joining runs ----

  lemma RunStep(s: State, evs: seq<Event>, t: State, ev: Event)
    requires Run(s, evs) && After(s, evs) == t && Enabled(t, ev) && Timely(t, ev)
    ensures Run(s, evs + [ev]) && After(s, evs + [ev]) == Next(t, ev)
  {
    assert (evs + [ev])[..|evs|] == evs;
  }

  /** One step can be made. */
  ghost predicate Can(s: State, ev: Event, t: State) {
    Enabled(s, ev) && Timely(s, ev) && Next(s, ev) == t
  }

  lemma RunOne(s: State, x: Event, a: State)
    requires Can(s, x, a)
    ensures Run(s, [x]) && After(s, [x]) == a
  {
    RunStep(s, [], s, x);
    assert [] + [x] == [x];
  }

  lemma RunTwo(s: State, x: Event, a: State, y: Event, b: State)
    requires Can(s, x, a) && Can(a, y, b)
    ensures Run(s, [x, y]) && After(s, [x, y]) == b
  {
    RunOne(s, x, a);
    RunStep(s, [x], a, y);
    assert [x] + [y] == [x, y];
  }

  lemma RunThree(s: State, x: Event, a: State, y: Event, b: State, z: Event, c: State)
    requires Can(s, x, a) && Can(a, y, b) && Can(b, z, c)
    ensures Run(s, [x, y, z]) && After(s, [x, y, z]) == c
  {
    RunTwo(s, x, a, y, b);
    RunStep(s, [x, y], b, z);
    assert [x, y] + [z] == [x, y, z];
  }

  lemma RunLast(t: State, evs: seq<Event>, ev: Event)
    requires Run(t, evs + [ev])
    ensures
      var u := After(t, evs);
      Run(t, evs) && Enabled(u, ev) && Timely(u, ev) && After(t, evs + [ev]) == Next(u, ev)
  {
    assert (evs + [ev])[..|evs|] == evs;
  }

  lemma RunJoinStep(s: State, a: seq<Event>, t: State, b: seq<Event>, ev: Event)
    requires Run(s, a + b) && After(s, a + b) == After(t, b) && Run(t, b + [ev])
    ensures Run(s, a + (b + [ev])) && After(s, a + (b + [ev])) == After(t, b + [ev])
  {
    RunLast(t, b, ev);
    RunStep(s, a + b, After(t, b), ev);
    assert (a + b) + [ev] == a + (b + [ev]);
  }

  lemma {:induction false} RunJoin(s: State, a: seq<Event>, t: State, b: seq<Event>)
    requires Run(s, a) && After(s, a) == t && Run(t, b)
    ensures Run(s, a + b) && After(s, a + b) == After(t, b)
    decreases |b|
  {
    if b == [] {
      assert a + b == a;
    } else {
      var init, ev := b[..|b| - 1], b[|b| - 1];
      assert b == init + [ev];
      RunLast(t, init, ev);
      RunJoin(s, a, t, init);
      RunJoinStep(s, a, t, init, ev);
    }
  }

  /** The run `evs` leads from `s` to `t`. */
  ghost predicate Leads(s: State, evs: seq<Event>, t: State) {
    Run(s, evs) && After(s, evs) == t
  }

  lemma LeadsOn(s: State, a: seq<Event>, t: State, b: seq<Event>, u: State)
    requires Leads(s, a, t) && Leads(t, b, u)
    ensures Leads(s, a + b, u)
  {
    RunJoin(s, a, t, b);
  }

  function Times(ev: Event, n: nat): seq<Event> {
    if n == 0 then [] else Times(ev, n - 1) + [ev]
  }

  lemma LeadsStep(s: State, evs: seq<Event>, t: State, ev: Event, u: State, more: seq<Event>)
    requires Leads(s, evs, t) && Can(t, ev, u) && more == evs + [ev]
    ensures Leads(s, more, u)
  {
    RunStep(s, evs, t, ev);
  }

  /** The same event again and again, along a given path. */
  lemma {:induction false} TimesRun(path: seq<State>, ev: Event, n: nat)
    requires n < |path| && forall i :: 0 <= i < n ==> Can(path[i], ev, path[i + 1])
    ensures Leads(path[0], Times(ev, n), path[n])
  {
    if n > 0 {
      TimesRun(path, ev, n - 1);
      assert Can(path[n - 1], ev, path[n - 1 + 1]);
      LeadsStep(path[0], Times(ev, n - 1), path[n - 1], ev, path[n], Times(ev, n));
    }
  }

  // ---- a read that meets no writer ----

  function ReadEvents(r: nat, size: nat): seq<Event> {
    [ReadBegin(r)] + Times(ReadWord(r), size) + [ReadEnd(r)]
  }

  function WithReader(s: State, r: nat, rd: Reader): State {
    s.(readers := s.readers[r := rd])
  }

  lemma WithReaderTwice(s: State, r: nat, a: Reader, b: Reader)
    ensures WithReader(WithReader(s, r, a), r, b) == WithReader(s, r, b)
  {
    assert s.readers[r := a][r := b] == s.readers[r := b];
  }

  lemma WithSameReader(s: State, r: nat)
    requires r in s.readers
    ensures WithReader(s, r, s.readers[r]) == s
  {
    assert s.readers[r := s.readers[r]] == s.readers;
  }

  /** The reader after copying up to word `m`. */
  function Copied(rd: Reader, words: seq<Word>, m: nat): Reader
    requires rd.now.Attempt? && |rd.now.copied| <= m <= |words|
  {
    rd.(now := rd.now.(copied := rd.now.copied + words[|rd.now.copied|..m]))
  }

  lemma CopiesOne(s: State, r: nat, rd: Reader, m: nat, next: nat)
    requires rd.now.Attempt? && |rd.now.copied| <= m < |s.words| && next == m + 1
    ensures Can(WithReader(s, r, Copied(rd, s.words, m)), ReadWord(r), WithReader(s, r, Copied(rd, s.words, next)))
  {
    var c := |rd.now.copied|;
    assert s.words[c..m] + [s.words[m]] == s.words[c..next];
    assert rd.now.copied + s.words[c..m] + [s.words[m]] == rd.now.copied + s.words[c..next];
    WithReaderTwice(s, r, Copied(rd, s.words, m), Copied(rd, s.words, next));
  }

  /** The words are copied one after the other. */
  lemma CopiesRun(s: State, r: nat, rd: Reader, n: nat, end: nat)
    requires r in s.readers && s.readers[r] == rd && rd.now.Attempt? && |rd.now.copied| + n == end <= |s.words|
    ensures Leads(s, Times(ReadWord(r), n), WithReader(s, r, Copied(rd, s.words, end)))
  {
    var path := CopyPath(s, r, rd, n);
    forall m | 0 <= m < n
      ensures Can(path[m], ReadWord(r), path[m + 1])
    {
      CopyPathStep(s, r, rd, n, path, m);
    }
    NoneCopied(s, r, rd);
    TimesRun(path, ReadWord(r), n);
  }

  lemma CopyPathStep(s: State, r: nat, rd: Reader, n: nat, path: seq<State>, m: nat)
    requires rd.now.Attempt? && |rd.now.copied| + n <= |s.words| && m < n && path == CopyPath(s, r, rd, n)
    ensures Can(path[m], ReadWord(r), path[m + 1])
  {
    CopiesOne(s, r, rd, |rd.now.copied| + m, |rd.now.copied| + (m + 1));
  }

  function CopyPath(s: State, r: nat, rd: Reader, n: nat): (path: seq<State>)
    requires rd.now.Attempt? && |rd.now.copied| + n <= |s.words|
    ensures |path| == n + 1
    ensures forall m :: 0 <= m <= n ==> path[m] == WithReader(s, r, Copied(rd, s.words, |rd.now.copied| + m))
  {
    seq(n + 1, m requires 0 <= m <= n => WithReader(s, r, Copied(rd, s.words, |rd.now.copied| + m)))
  }

  lemma NoneCopied(s: State, r: nat, rd: Reader)
    requires r in s.readers && s.readers[r] == rd && rd.now.Attempt? && |rd.now.copied| <= |s.words|
    ensures WithReader(s, r, Copied(rd, s.words, |rd.now.copied|)) == s
  {
    assert rd.now.copied + s.words[|rd.now.copied|..|rd.now.copied|] == rd.now.copied;
    WithSameReader(s, r);
  }

  /** A record returned. */
  function Returning(rd: Reader, rec: seq<Word>, index: nat): Reader {
    Reader(0, NoAttempt, rd.returned + [Read(rec, index)], rd.gaveUp)
  }

  lemma BeginsRead(s: State, r: nat, rd: Reader)
    requires r in s.readers && s.readers[r] == rd && rd.now.NoAttempt? && s.seqno % 2 == 0
    ensures Leads(s, [ReadBegin(r)], WithReader(s, r, rd.(now := Attempt(s.seqno, [], s.ticks, |s.published|,
        s.writes))))
  {
    RunOne(s, ReadBegin(r), Next(s, ReadBegin(r)));
  }

  lemma EndsRead(s: State, r: nat, rd: Reader)
    requires rd.now.Attempt? && rd.now.begin == s.seqno && rd.now.writes == s.writes && |rd.now.copied| == |s.words|
    ensures Leads(WithReader(s, r, rd), [ReadEnd(r)], WithReader(s, r, Returning(rd, rd.now.copied, rd.now.index)))
  {
    var done := Returning(rd, rd.now.copied, rd.now.index);
    WithReaderTwice(s, r, rd, done);
    RunOne(WithReader(s, r, rd), ReadEnd(r), WithReader(s, r, done));
  }

  /** With the sequence number even and the writer still, the read returns the words as they are. */
  lemma ReadRuns(s: State, r: nat)
    requires r in s.readers && s.readers[r].now.NoAttempt? && s.seqno % 2 == 0
    ensures Leads(s, ReadEvents(r, |s.words|), WithReader(s, r, Returning(s.readers[r], s.words, |s.published|)))
  {
    var rd, n := s.readers[r], |s.words|;
    var begun := rd.(now := Attempt(s.seqno, [], s.ticks, |s.published|, s.writes));
    var whole := Copied(begun, s.words, n);
    assert [] + s.words[0..n] == s.words;
    var t := WithReader(s, r, begun);
    BeginsRead(s, r, rd);
    CopiesRun(t, r, begun, n, n);
    WithReaderTwice(s, r, begun, whole);
    LeadsOn(s, [ReadBegin(r)], t, Times(ReadWord(r), n), WithReader(s, r, whole));
    EndsRead(s, r, whole);
    LeadsOn(s, [ReadBegin(r)] + Times(ReadWord(r), n), WithReader(s, r, whole), [ReadEnd(r)],
            WithReader(s, r, Returning(rd, s.words, |s.published|)));
  }

  /**
    From every reachable state with the writer idle, or at least no write in
    flight, the next read of any reader succeeds at the first attempt and
    returns the last published record, whatever its size.
   */
  lemma ReadSucceeds(s: State, evs: seq<Event>, r: nat)
    requires Init(s) && Run(s, evs) && r in After(s, evs).readers && After(s, evs).readers[r].now.NoAttempt?
    requires After(s, evs).writer.Idle? || After(s, evs).seqno % 2 == 0
    ensures
      var t := After(s, evs);
      var rd, n := t.readers[r], |t.published|;
      n > 0 && Run(s, evs + ReadEvents(r, |s.words|)) &&
      After(s, evs + ReadEvents(r, |s.words|)) ==
      t.(readers := t.readers[r := Reader(0, NoAttempt, rd.returned + [Read(t.published[n - 1], n)], rd.gaveUp)])
  {
    var t := After(s, evs);
    RunKeepsInv(s, evs);
    ParityOfRemainder(t.ticks);
    ReadRuns(t, r);
    RunJoin(s, evs, t, ReadEvents(r, |t.words|));
  }

  // ---- when a read gives up ----

  /** The event ends an attempt of reader `r` without a record. */
  ghost predicate Fails(s: State, ev: Event, r: nat) {
    (ev == ReadBegin(r) && s.seqno % 2 == 1) ||
    (ev == ReadEnd(r) && r in s.readers && s.readers[r].now.Attempt? && s.seqno != s.readers[r].now.begin)
  }

  ghost predicate Succeeds(s: State, ev: Event, r: nat) {
    ev == ReadEnd(r) && r in s.readers && s.readers[r].now.Attempt? && s.seqno == s.readers[r].now.begin
  }

  /** How many attempts of reader `r` failed since its last success. */
  ghost function Streak(s: State, evs: seq<Event>, r: nat): nat {
    if evs == [] then 0
    else
      var init, ev := evs[..|evs| - 1], evs[|evs| - 1];
      if Succeeds(After(s, init), ev, r) then 0
      else Streak(s, init, r) + if Fails(After(s, init), ev, r) then 1 else 0
  }

  lemma {:induction false} AttemptsCountFailures(s: State, evs: seq<Event>, r: nat)
    requires Init(s) && Run(s, evs)
    ensures CountsFailures(After(s, evs), Streak(s, evs, r), r)
    decreases |evs|
  {
    if evs != [] {
      var init, ev := evs[..|evs| - 1], evs[|evs| - 1];
      AttemptsCountFailures(s, init, r);
      FailuresStep(After(s, init), Streak(s, init, r), ev, r);
    }
  }

  ghost predicate CountsFailures(t: State, streak: nat, r: nat) {
    if r in t.readers then t.readers[r].attempts == streak % 8 else streak == 0
  }

  lemma FailuresStep(t: State, streak: nat, ev: Event, r: nat)
    requires Enabled(t, ev) && CountsFailures(t, streak, r)
    ensures CountsFailures(Next(t, ev), if Succeeds(t, ev, r) then 0 else streak + if Fails(t, ev, r) then 1 else 0, r)
  {
    NextRemainder(streak);
    if Fails(t, ev, r) {
    } else if !Succeeds(t, ev, r) {
      OtherEvent(t, ev, r);
    }
  }

  lemma NextRemainder(streak: nat)
    ensures (streak + 1) % 8 == if streak % 8 < 7 then streak % 8 + 1 else 0
  {
  }

  lemma OtherEvent(t: State, ev: Event, r: nat)
    requires Enabled(t, ev) && !Fails(t, ev, r) && !Succeeds(t, ev, r)
    ensures
      var u := Next(t, ev);
      if r in t.readers then r in u.readers && u.readers[r].attempts == t.readers[r].attempts
      else r in u.readers ==> u.readers[r].attempts == 0
  {
  }

  /**
    In every run, an event makes a read give up exactly if it is the failure of
    an attempt and seven attempts failed right before it in that read; reads
    have no other end than that and success.
   */
  lemma GivesUpExactlyAfterEight(s: State, evs: seq<Event>, ev: Event, r: nat)
    requires Init(s) && Run(s, evs + [ev]) && r in After(s, evs).readers
    ensures
      var t, u := After(s, evs), After(s, evs + [ev]);
      r in u.readers &&
      u.readers[r].gaveUp == t.readers[r].gaveUp + (if Fails(t, ev, r) && Streak(s, evs, r) % 8 == 7 then 1 else 0) &&
      |u.readers[r].returned| == |t.readers[r].returned| + if Succeeds(t, ev, r) then 1 else 0
  {
    RunLast(s, evs, ev);
    AttemptsCountFailures(s, evs, r);
  }

  lemma FailsOnce(s: State, r: nat, rd: Reader, n: nat)
    requires rd.now.NoAttempt? && s.seqno % 2 == 1 && n < 8
    ensures Can(WithReader(s, r, rd.(attempts := n)), ReadBegin(r),
                WithReader(s, r, if n < 7 then rd.(attempts := n + 1) else rd.(attempts := 0, gaveUp := rd.gaveUp + 1)))
  {
    WithReaderTwice(s, r, rd.(attempts := n),
                    if n < 7 then rd.(attempts := n + 1) else rd.(attempts := 0, gaveUp := rd.gaveUp + 1));
  }

  /** While a write stays in flight, eight attempts fail and the read gives up. */
  lemma HeldLockGivesUp(s: State, r: nat, n: nat)
    requires n == 8 && r in s.readers && s.readers[r].now.NoAttempt? && s.readers[r].attempts == 0 && s.seqno % 2 == 1
    ensures
      var rd := s.readers[r];
      Run(s, Times(ReadBegin(r), n)) &&
      After(s, Times(ReadBegin(r), n)) == s.(readers := s.readers[r := rd.(gaveUp := rd.gaveUp + 1)])
  {
    var rd := s.readers[r];
    EightFail(s, r, rd, n);
    WithSameReader(s, r);
  }

  lemma EightFail(s: State, r: nat, rd: Reader, n: nat)
    requires rd.now.NoAttempt? && s.seqno % 2 == 1 && n == 8
    ensures Leads(WithReader(s, r, rd.(attempts := 0)), Times(ReadBegin(r), n),
                  WithReader(s, r, rd.(attempts := 0, gaveUp := rd.gaveUp + 1)))
  {
    var path := seq(n + 1, m requires 0 <= m <= n =>
      WithReader(s, r, if m < 8 then rd.(attempts := m) else rd.(attempts := 0, gaveUp := rd.gaveUp + 1)));
    forall m | 0 <= m < n
      ensures Can(path[m], ReadBegin(r), path[m + 1])
    {
      FailsOnce(s, r, rd, m);
    }
    TimesRun(path, ReadBegin(r), n);
  }

  // ---- a publish and a takeover that nobody kills ----

  function Stored(s: State, rec: seq<Word>, m: nat): State
    requires s.writer.Writing? && |rec| == |s.words| && m <= |rec|
  {
    s.(words := rec[..m] + s.words[m..], writer := s.writer.(i := m))
  }

  lemma StoresOne(s: State, rec: seq<Word>, m: nat)
    requires s.writer.Writing? && s.writer.rec == rec && |rec| == |s.words| && m < |rec|
    ensures Can(Stored(s, rec, m), StoreWord, Stored(s, rec, m + 1))
  {
    assert (rec[..m] + s.words[m..])[m := rec[m]] == rec[..m + 1] + s.words[m + 1..];
  }

  /** All words of a write in flight. */
  lemma WritesAll(s: State, rec: seq<Word>)
    requires s.writer.Writing? && s.writer.rec == rec && s.writer.i == 0 && |rec| == |s.words|
    ensures Leads(s, Times(StoreWord, |rec|), s.(words := rec, writer := s.writer.(i := |rec|)))
  {
    var n := |rec|;
    var path := seq(n + 1, m requires 0 <= m <= n => Stored(s, rec, m));
    forall m | 0 <= m < n
      ensures Can(path[m], StoreWord, path[m + 1])
    {
      StoresOne(s, rec, m);
    }
    assert rec[..0] + s.words[0..] == s.words && rec[..n] + s.words[n..] == rec;
    TimesRun(path, StoreWord, n);
  }

  function PublishEvents(rec: seq<Word>): seq<Event> {
    [LoadSeq(rec), StoreOdd] + Times(StoreWord, |rec|) + [StoreEven]
  }

  /** What one publish does. */
  function Published(s: State, rec: seq<Word>): State {
    s.(seqno := (s.seqno + 2) % SEQ_LIMIT, words := rec, ticks := s.ticks + 2, writes := s.writes + 1,
       published := s.published + [rec])
  }

  /** A write in flight, no word stored yet. */
  function InFlight(s: State, rec: seq<Word>): State {
    var odd := (s.seqno + 1) % SEQ_LIMIT;
    s.(seqno := odd, writer := Writing(odd, rec, 0, false), ticks := s.ticks + 1, writes := s.writes + 1)
  }

  lemma PublishBegins(s: State, rec: seq<Word>)
    requires s.writer.Idle? && |s.words| == |rec|
    ensures Leads(s, [LoadSeq(rec), StoreOdd], InFlight(s, rec))
  {
    RunTwo(s, LoadSeq(rec), Next(s, LoadSeq(rec)), StoreOdd, InFlight(s, rec));
  }

  lemma PublishEnds(s: State, rec: seq<Word>, c: State)
    requires s.writer.Idle? && |s.words| == |rec| && s.seqno < SEQ_LIMIT
    requires c == InFlight(s, rec).(words := rec, writer := InFlight(s, rec).writer.(i := |rec|))
    ensures Leads(c, [StoreEven], Published(s, rec))
  {
    assert ((s.seqno + 1) % SEQ_LIMIT + 1) % SEQ_LIMIT == (s.seqno + 2) % SEQ_LIMIT;
    RunOne(c, StoreEven, Published(s, rec));
  }

  lemma PublishRuns(s: State, rec: seq<Word>)
    requires s.writer.Idle? && |s.words| == |rec| && s.seqno < SEQ_LIMIT
    ensures Leads(s, PublishEvents(rec), Published(s, rec))
  {
    var b := InFlight(s, rec);
    var c := b.(words := rec, writer := b.writer.(i := |rec|));
    PublishBegins(s, rec);
    WritesAll(b, rec);
    LeadsOn(s, [LoadSeq(rec), StoreOdd], b, Times(StoreWord, |rec|), c);
    PublishEnds(s, rec, c);
    LeadsOn(s, [LoadSeq(rec), StoreOdd] + Times(StoreWord, |rec|), c, [StoreEven], Published(s, rec));
  }

  /** From every reachable state with the writer idle, a publish of any record followed by a read returns it. */
  lemma PublishThenRead(s: State, evs: seq<Event>, rec: seq<Word>, r: nat)
    requires Init(s) && Run(s, evs) && After(s, evs).writer.Idle? && |rec| == |s.words|
    requires r in After(s, evs).readers && After(s, evs).readers[r].now.NoAttempt?
    ensures
      var more := evs + PublishEvents(rec) + ReadEvents(r, |rec|);
      var t, u := After(s, evs), After(s, more);
      Run(s, more) && u.words == rec && u.writer.Idle? && u.published == t.published + [rec] && r in u.readers &&
      u.readers[r].returned == t.readers[r].returned + [Read(rec, |t.published| + 1)]
  {
    var t := After(s, evs);
    RunKeepsInv(s, evs);
    PublishAndRead(t, rec, r);
    LeadsOn(s, evs, t, PublishEvents(rec), Published(t, rec));
    LeadsOn(s, evs + PublishEvents(rec), Published(t, rec), ReadEvents(r, |rec|),
            WithReader(Published(t, rec), r, Returning(t.readers[r], rec, |t.published| + 1)));
  }

  lemma PublishAndRead(t: State, rec: seq<Word>, r: nat)
    requires Inv(t) && t.writer.Idle? && |rec| == |t.words| && r in t.readers && t.readers[r].now.NoAttempt?
    ensures Leads(t, PublishEvents(rec), Published(t, rec))
    ensures Leads(Published(t, rec), ReadEvents(r, |rec|),
                  WithReader(Published(t, rec), r, Returning(t.readers[r], rec, |t.published| + 1)))
  {
    ParityOfRemainder(t.ticks);
    PublishRuns(t, rec);
    ReadRuns(Published(t, rec), r);
  }

  function TakeoverEvents(size: nat): seq<Event> {
    [TakeOver, LoadHeld, StoreHeld] + Times(StoreWord, size) + [StoreEven, StoreMagic]
  }

  /** What a takeover does: the sequence number moves to the next even one after it was odd. */
  function TakenOver(s: State): State {
    s.(seqno := (s.seqno + 2 - s.seqno % 2) % SEQ_LIMIT, magic := true, words := Zeros(|s.words|), writer := Idle,
       ticks := s.ticks + 2 - s.ticks % 2, writes := s.writes + 1, published := s.published + [Zeros(|s.words|)])
  }

  /** The lock held by the new writer, no word stored yet. */
  function Held(s: State): State {
    var odd := s.seqno + 1 - s.seqno % 2;
    s.(seqno := odd, magic := false, writer := Writing(odd, Zeros(|s.words|), 0, true),
       ticks := s.ticks + 1 - s.ticks % 2, writes := s.writes + 1)
  }

  lemma TakeoverBegins(s: State)
    requires s.writer.Dead?
    ensures Leads(s, [TakeOver, LoadHeld, StoreHeld], Held(s))
  {
    var a := Next(s, TakeOver);
    RunThree(s, TakeOver, a, LoadHeld, Next(a, LoadHeld), StoreHeld, Held(s));
  }

  lemma TakeoverEnds(s: State, d: State)
    requires s.writer.Dead? && s.seqno < SEQ_LIMIT && s.seqno % 2 == s.ticks % 2
    requires d == Held(s).(words := Zeros(|s.words|), writer := Held(s).writer.(i := |s.words|))
    ensures Leads(d, [StoreEven, StoreMagic], TakenOver(s))
  {
    RunTwo(d, StoreEven, Next(d, StoreEven), StoreMagic, TakenOver(s));
  }

  lemma TakeoverRuns(s: State)
    requires s.writer.Dead? && s.seqno < SEQ_LIMIT && s.seqno % 2 == s.ticks % 2
    ensures Leads(s, TakeoverEvents(|s.words|), TakenOver(s))
  {
    var n, c := |s.words|, Held(s);
    var d := c.(words := Zeros(n), writer := c.writer.(i := n));
    TakeoverBegins(s);
    WritesAll(c, Zeros(n));
    LeadsOn(s, [TakeOver, LoadHeld, StoreHeld], c, Times(StoreWord, n), d);
    TakeoverEnds(s, d);
    LeadsOn(s, [TakeOver, LoadHeld, StoreHeld] + Times(StoreWord, n), d, [StoreEven, StoreMagic], TakenOver(s));
  }

  lemma TakenOverIsEven(s: State)
    requires s.seqno < SEQ_LIMIT
    ensures TakenOver(s).seqno % 2 == 0
  {
  }

  /**
    From every reachable state, whatever the writer was doing when it died, a
    new one can take the file over: it ends idle over a zero record, and every
    reader is as it was.
   */
  lemma TakeoverCompletes(s: State, evs: seq<Event>)
    requires Init(s) && Run(s, evs)
    ensures
      var more := (evs + [Die]) + TakeoverEvents(|s.words|);
      var t, u := After(s, evs), After(s, more);
      Run(s, more) && u.writer.Idle? && u.magic && u.seqno % 2 == 0 && u.readers == t.readers &&
      |u.words| == |s.words| && (forall i :: 0 <= i < |u.words| ==> u.words[i] == 0) &&
      u.published == t.published + [u.words]
  {
    var t := After(s, evs);
    var dead := t.(writer := Dead);
    RunKeepsInv(s, evs);
    ParityOfRemainder(t.ticks);
    LeadsStep(s, evs, t, Die, dead, evs + [Die]);
    TakeoverRuns(dead);
    LeadsOn(s, evs + [Die], dead, TakeoverEvents(|s.words|), TakenOver(dead));
    TakenOverIsEven(dead);
  }

  // ---- the bound on publishes per attempt is the best possible ----

  function CopiesOf(rec: seq<Word>, n: nat): seq<seq<Word>> {
    if n == 0 then [] else CopiesOf(rec, n - 1) + [rec]
  }

  /** The state after `n` publishes of `rec`, in one step. */
  ghost function AfterPublishes(s: State, rec: seq<Word>, n: nat): State {
    s.(seqno := (s.seqno + 2 * n) % SEQ_LIMIT, words := if n == 0 then s.words else rec, ticks := s.ticks + 2 * n,
       writes := s.writes + n, published := s.published + CopiesOf(rec, n))
  }

  lemma OneMorePublish(s: State, rec: seq<Word>, n: nat)
    ensures Published(AfterPublishes(s, rec, n), rec) == AfterPublishes(s, rec, n + 1)
  {
    var x := s.seqno + 2 * n;
    assert (x % SEQ_LIMIT + 2) % SEQ_LIMIT == (x + 2) % SEQ_LIMIT;
    assert (s.published + CopiesOf(rec, n)) + [rec] == s.published + CopiesOf(rec, n + 1);
  }

  function Repeated(rec: seq<Word>, n: nat): seq<Event> {
    if n == 0 then [] else Repeated(rec, n - 1) + PublishEvents(rec)
  }

  /** `n` publishes of `rec`, one after the other. */
  lemma {:induction false} PublishesRun(s: State, rec: seq<Word>, n: nat)
    requires s.writer.Idle? && |s.words| == |rec| && s.seqno < SEQ_LIMIT
    ensures Leads(s, Repeated(rec, n), AfterPublishes(s, rec, n))
  {
    if n == 0 {
      assert s.published + [] == s.published;
    } else {
      PublishesRun(s, rec, n - 1);
      OneMoreRuns(s, rec, n - 1, n);
    }
  }

  lemma OneMoreRuns(s: State, rec: seq<Word>, m: nat, n: nat)
    requires s.writer.Idle? && |s.words| == |rec| && s.seqno < SEQ_LIMIT && n == m + 1
    requires Leads(s, Repeated(rec, m), AfterPublishes(s, rec, m))
    ensures Leads(s, Repeated(rec, n), AfterPublishes(s, rec, n))
  {
    OneMorePublish(s, rec, m);
    PublishRuns(AfterPublishes(s, rec, m), rec);
    LeadsOn(s, Repeated(rec, m), AfterPublishes(s, rec, m), PublishEvents(rec), AfterPublishes(s, rec, n));
  }

  /** The first word copied, `n` publishes of `rec`, the other words copied. */
  function TornEvents(r: nat, rec: seq<Word>, n: nat, rest: nat): seq<Event> {
    [ReadBegin(r), ReadWord(r)] + Repeated(rec, n) + Times(ReadWord(r), rest)
  }

  /** The first word of one record, the rest of another. */
  function Torn(was: seq<Word>, rec: seq<Word>): seq<Word>
    requires |was| == |rec| >= 2
  {
    [was[0]] + rec[1..]
  }

  lemma FirstWordRead(s: State, r: nat, rd: Reader)
    requires r in s.readers && rd == s.readers[r] && rd.now.NoAttempt? && s.seqno % 2 == 0 && |s.words| >= 2
    ensures Leads(s, [ReadBegin(r), ReadWord(r)],
                  WithReader(s, r, rd.(now := Attempt(s.seqno, [s.words[0]], s.ticks, |s.published|, s.writes))))
  {
    var a := Next(s, ReadBegin(r));
    var begun, one := a.readers[r], rd.(now := Attempt(s.seqno, [s.words[0]], s.ticks, |s.published|, s.writes));
    assert [] + [s.words[0]] == [s.words[0]];
    WithReaderTwice(s, r, begun, one);
    RunTwo(s, ReadBegin(r), a, ReadWord(r), WithReader(s, r, one));
  }

  lemma RestCopied(later: State, r: nat, one: Reader, rec: seq<Word>, rest: nat)
    requires later.words == rec && r in later.readers && later.readers[r] == one
    requires one.now.Attempt? && |one.now.copied| == 1 && 1 + rest == |rec|
    ensures Leads(later, Times(ReadWord(r), rest), WithReader(later, r, Copied(one, rec, |rec|)))
  {
    CopiesRun(later, r, one, rest, |rec|);
  }

  lemma TornRuns(s: State, r: nat, rec: seq<Word>, n: nat, rest: nat, first: State, one: Reader)
    requires s.writer.Idle? && |s.words| == |rec| == 1 + rest >= 2 && s.seqno < SEQ_LIMIT && s.seqno % 2 == 0 && n > 0
    requires r in s.readers && s.readers[r].now.NoAttempt? && first == WithReader(s, r, one)
    requires one == s.readers[r].(now := Attempt(s.seqno, [s.words[0]], s.ticks, |s.published|, s.writes))
    ensures Leads(s, TornEvents(r, rec, n, rest), WithReader(AfterPublishes(first, rec, n), r, Copied(one, rec, |rec|)))
  {
    FirstWordRead(s, r, s.readers[r]);
    PublishesRun(first, rec, n);
    var later := AfterPublishes(first, rec, n);
    LeadsOn(s, [ReadBegin(r), ReadWord(r)], first, Repeated(rec, n), later);
    RestCopied(later, r, one, rec, rest);
    LeadsOn(s, [ReadBegin(r), ReadWord(r)] + Repeated(rec, n), later, Times(ReadWord(r), rest),
            WithReader(later, r, Copied(one, rec, |rec|)));
  }

  /** After exactly 2^31 publishes the sequence number is back where the attempt began. */
  lemma TornAfterWrapAround(s: State, r: nat, rec: seq<Word>, n: nat, rest: nat)
    requires n == SEQ_LIMIT / 2 && |rec| == 1 + rest
    requires s.writer.Idle? && |s.words| == |rec| >= 2 && s.seqno < SEQ_LIMIT && s.seqno % 2 == 0
    requires r in s.readers && s.readers[r].now.NoAttempt?
    ensures
      var evs := TornEvents(r, rec, n, rest);
      var last := After(s, evs);
      Run(s, evs) && Enabled(last, ReadEnd(r)) && last.writes == last.readers[r].now.writes + n &&
      last.published == s.published + CopiesOf(rec, n) &&
      Next(last, ReadEnd(r)).readers[r].returned ==
      s.readers[r].returned + [Read(Torn(s.words, rec), |s.published|)]
  {
    var one := s.readers[r].(now := Attempt(s.seqno, [s.words[0]], s.ticks, |s.published|, s.writes));
    var first := WithReader(s, r, one);
    var later := AfterPublishes(first, rec, n);
    TornRuns(s, r, rec, n, rest, first, one);
    WrapsAround(s.seqno, n);
    TornEnds(s, r, rec, n, one, later, WithReader(later, r, Copied(one, rec, |rec|)));
  }

  lemma WrapsAround(seqno: nat, n: nat)
    requires seqno < SEQ_LIMIT && n == SEQ_LIMIT / 2
    ensures (seqno + 2 * n) % SEQ_LIMIT == seqno
  {
  }

  lemma TornEnds(s: State, r: nat, rec: seq<Word>, n: nat, one: Reader, later: State, last: State)
    requires |s.words| == |rec| >= 2 && later.words == rec && later.seqno == s.seqno && later.writes == s.writes + n
    requires one.now.Attempt? && one.now.begin == s.seqno && one.now.copied == [s.words[0]]
    requires one.now.writes == s.writes && last == WithReader(later, r, Copied(one, rec, |rec|))
    ensures Enabled(last, ReadEnd(r)) && last.writes == last.readers[r].now.writes + n
    ensures last.published == later.published
    ensures Next(last, ReadEnd(r)).readers[r].returned == one.returned + [Read(Torn(s.words, rec), one.now.index)]
  {
    assert rec[1..|rec|] == rec[1..];
  }

  /** A record of nines, none of them zero. */
  function Nines(size: nat): seq<Word> {
    seq(size, i => 9)
  }

  /** A writer between publishes over a zero record, and a reader that has not read yet. */
  lemma Opened(s: State, r: nat)
    requires Init(s)
    ensures
      var evs := TakeoverEvents(|s.words|) + [OpenReader(r)];
      Leads(s, evs, WithReader(TakenOver(s), r, Reader(0, NoAttempt, [], 0)))
  {
    TakeoverRuns(s);
    var t := TakenOver(s);
    RunOne(t, OpenReader(r), Next(t, OpenReader(r)));
    LeadsOn(s, TakeoverEvents(|s.words|), t, [OpenReader(r)], Next(t, OpenReader(r)));
  }

  /**
    From every initial file of at least two words there is a run, timely up to a
    last read that ends exactly one publish too late, which returns a record
    nobody published.
   */
  lemma TornReadHappens(s: State, r: nat, n: nat, rest: nat) returns (evs: seq<Event>)
    requires Init(s) && |s.words| == 1 + rest >= 2 && n == SEQ_LIMIT / 2
    ensures Run(s, evs) && Enabled(After(s, evs), ReadEnd(r))
    ensures
      var last := After(s, evs);
      var torn := [0] + Nines(rest);
      last.writes == last.readers[r].now.writes + n &&
      Next(last, ReadEnd(r)).readers[r].returned == [Read(torn, 1)] && torn !in last.published
  {
    var rec := Nines(1 + rest);
    var t := WithReader(TakenOver(s), r, Reader(0, NoAttempt, [], 0));
    var open := TakeoverEvents(|s.words|) + [OpenReader(r)];
    Opened(s, r);
    TornAfterWrapAround(t, r, rec, n, rest);
    RunJoin(s, open, t, TornEvents(r, rec, n, rest));
    evs := open + TornEvents(r, rec, n, rest);
    TornIsNew(t.words, rest, n);
  }

  lemma TornIsNew(zeros: seq<Word>, rest: nat, n: nat)
    requires zeros == Zeros(1 + rest) && rest > 0
    ensures Torn(zeros, Nines(1 + rest)) == [0] + Nines(rest)
    ensures [0] + Nines(rest) !in [zeros] + CopiesOf(Nines(1 + rest), n)
  {
    var torn := [0] + Nines(rest);
    assert torn[1] == 9 && torn[0] == 0 && zeros[1] == 0 && Nines(1 + rest)[0] == 9;
    OnlyCopies(Nines(1 + rest), torn, n);
  }

  lemma {:induction false} OnlyCopies(rec: seq<Word>, x: seq<Word>, n: nat)
    requires x != rec
    ensures x !in CopiesOf(rec, n)
  {
    if n > 0 {
      OnlyCopies(rec, x, n - 1);
    }
  }
}
