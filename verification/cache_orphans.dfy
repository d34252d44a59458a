/** When readers can be left waiting, and that nothing else keeps them. */
module CacheOrphans {
  import opened Bytes
  import opened CachedFiles
  import opened CacheProtocol
  import opened CacheInvariant
  import opened CacheSteps
  import opened CacheResults
  import opened CacheProgress

  /** A session that has something to send has read a whole chunk, so a takeover thread starts only
      behind a whole chunk or at the end. */
  predicate Begun(c: Config, th: Thread, k: Compressor) {
    match th
    case Sender(_, pc, _, _) =>
      (pc.Insert? || pc.Bump? || pc.Check? || pc.Decide? || pc.Send?) && !k.failbit ==> c.chunk <= k.pos
    case Takeover(_, _) => k.eofbit || c.chunk <= k.pos
    case _ => true
  }

  ghost predicate AllBegun(c: Config, s: State) {
    forall t | t in s.threads && LiveWriter(s.threads[t]) && s.threads[t].maker in s.compressors ::
      Begun(c, s.threads[t], s.compressors[s.threads[t].maker])
  }

  lemma WriterKeepsOthersBegun(c: Config, s: State, t: nat, choice: Choice, u: nat)
    requires Inv(c, s) && AllBegun(c, s) && t in s.threads && LiveWriter(s.threads[t])
    requires u in s.threads && u != t && LiveWriter(s.threads[u])
    ensures var s' := WriterStep(c, s, t, choice);
      u in s'.threads && s'.threads[u] == s.threads[u]
      && s.threads[u].maker in s.compressors && s.threads[u].maker in s'.compressors
      && s'.compressors[s.threads[u].maker] == s.compressors[s.threads[u].maker]
  {
    hide Inv, Fetched, TestPc, CheckPc, DecidePc, AfterRead, Inserted, Bumped, Marked, Flagged, AllBegun;
    OwnerIsLive(c, s, t);
    OwnerIsLive(c, s, u);
  }

  lemma WriterKeepsBegun(c: Config, s: State, t: nat, choice: Choice)
    requires Inv(c, s) && AllBegun(c, s) && t in s.threads && LiveWriter(s.threads[t])
    ensures var s' := WriterStep(c, s, t, choice);
      t in s'.threads && !s'.threads[t].Reader? && s'.threads[t].maker in s'.compressors
      && (LiveWriter(s'.threads[t]) ==> Begun(c, s'.threads[t], s'.compressors[s'.threads[t].maker]))
  {
    hide Inv, Inserted, Bumped, Marked, Flagged, Stage;
    LiveFacts(c, s, t);
    assert Begun(c, s.threads[t], s.compressors[s.threads[t].maker]);
  }

  /** Only a failed send starts a thread. */
  lemma HeirBegun(c: Config, s: State, t: nat, choice: Choice, u: nat)
    requires Inv(c, s) && AllBegun(c, s) && t in s.threads && LiveWriter(s.threads[t])
    requires u !in s.threads && u in WriterStep(c, s, t, choice).threads
    ensures var s' := WriterStep(c, s, t, choice);
      !s'.threads[u].Reader? && s'.threads[u].maker in s'.compressors
      && Begun(c, s'.threads[u], s'.compressors[s'.threads[u].maker])
  {
    hide Inv, Stage, Fetched, WithPc, TestPc, CheckPc, DecidePc, AfterRead, AllBegun, WriterOk, SendStep, Begun;
    LiveFacts(c, s, t);
    SentHeirBegun(c, s, t, choice, u);
  }

  lemma SentHeirBegun(c: Config, s: State, t: nat, choice: Choice, u: nat)
    requires Inv(c, s) && AllBegun(c, s) && t in s.threads && LiveWriter(s.threads[t]) && u !in s.threads
    requires s.threads[t].maker in s.compressors
    ensures s.threads[t].Sender? && s.threads[t].pc.Send? ==>
      var s' := SendStep(s, t, s.threads[t].pc.chunk, choice);
      u in s'.threads ==>
        !s'.threads[u].Reader? && s'.threads[u].maker in s'.compressors
        && Begun(c, s'.threads[u], s'.compressors[s'.threads[u].maker])
  {
    hide Inv, Stage;
    LiveFacts(c, s, t);
    assert Begun(c, s.threads[t], s.compressors[s.threads[t].maker]);
  }

  lemma NextKeepsBegun(c: Config, s: State, a: Action)
    requires Inv(c, s) && AllBegun(c, s)
    ensures AllBegun(c, Next(c, s, a))
  {
    hide Inv, WriterStep, Reading, Begun;
    var s' := Next(c, s, a);
    forall u | u in s'.threads && LiveWriter(s'.threads[u]) && s'.threads[u].maker in s'.compressors
      ensures Begun(c, s'.threads[u], s'.compressors[s'.threads[u].maker])
    {
      if a.Step? && a.thread in s.threads && LiveWriter(s.threads[a.thread]) {
        if u == a.thread {
          WriterKeepsBegun(c, s, a.thread, a.choice);
        } else if u in s.threads {
          OtherThreadStays(c, s, a, u);
          WriterKeepsOthersBegun(c, s, a.thread, a.choice, u);
        } else {
          HeirBegun(c, s, a.thread, a.choice, u);
        }
      } else if a.Request? && a.thread !in s.threads {
        RequestBegun(c, s, a.thread, a.file, u);
      } else {
        assert u in s.threads && s'.threads[u] == s.threads[u];
        assert s'.compressors == s.compressors;
      }
    }
  }

  lemma RequestBegun(c: Config, s: State, t: nat, f: nat, u: nat)
    requires Inv(c, s) && AllBegun(c, s) && t !in s.threads
    requires var s' := Requested(c, s, t, f);
      u in s'.threads && LiveWriter(s'.threads[u]) && s'.threads[u].maker in s'.compressors
    ensures var s' := Requested(c, s, t, f); Begun(c, s'.threads[u], s'.compressors[s'.threads[u].maker])
  {
    hide Inv;
    if u != t {
      OwnerIsLive(c, s, u);
      NoCompressor(c, s, t);
    }
  }

  lemma WriterLeavesThreads(c: Config, s: State, t: nat, choice: Choice, u: nat)
    requires t in s.threads && LiveWriter(s.threads[t]) && u in s.threads && u != t
    ensures u in WriterStep(c, s, t, choice).threads && WriterStep(c, s, t, choice).threads[u] == s.threads[u]
  {
    hide Fetched, TestPc, CheckPc, DecidePc, AfterRead, Inserted, Bumped, Marked, Flagged, WithPc, SendStep;
    if s.threads[t].Sender? && s.threads[t].pc.Send? && s.threads[t].maker in s.compressors {
      SendLeavesThreads(s, t, s.threads[t].pc.chunk, choice, u);
    }
  }

  lemma SendLeavesThreads(s: State, t: nat, chunk: Bytes, choice: Choice, u: nat)
    requires t in s.threads && s.threads[t].Sender? && s.threads[t].maker in s.compressors && u in s.threads && u != t
    ensures u in SendStep(s, t, chunk, choice).threads && SendStep(s, t, chunk, choice).threads[u] == s.threads[u]
  {}

  /** No thread ever changes another. */
  lemma OtherThreadStays(c: Config, s: State, a: Action, u: nat)
    requires u in s.threads && u != a.thread
    ensures u in Next(c, s, a).threads && Next(c, s, a).threads[u] == s.threads[u]
  {
    hide Reading, WriterStep;
    if a.Step? && a.thread in s.threads && LiveWriter(s.threads[a.thread]) {
      WriterLeavesThreads(c, s, a.thread, a.choice, u);
    }
  }

  lemma {:induction false} RunKeepsBegun(c: Config, s: State, actions: seq<Action>)
    requires Inv(c, s) && AllBegun(c, s)
    ensures AllBegun(c, Run(c, s, actions))
    decreases |actions|
  {
    hide Inv, Next, AllBegun;
    if actions != [] {
      NextKeepsBegun(c, s, actions[0]);
      NextKeepsInv(c, s, actions[0]);
      RunKeepsBegun(c, Next(c, s, actions[0]), actions[1..]);
    }
  }

  lemma StuckNeedsChunk(c: Config, actions: seq<Action>, f: nat)
    requires Stuck(Run(c, INIT, actions), f)
    ensures c.size(f) < c.threshold && c.chunk <= |c.stream(f)|
  {
    hide Run, Inv;
    var s := Run(c, INIT, actions);
    Reachable(c, actions);
    InitInv(c);
    RunKeepsBegun(c, INIT, actions);
    Accounting(c, actions);
    EntriesAreTended(c, s, f);
  }

  lemma RunExtends(c: Config, actions: seq<Action>, a: Action)
    ensures Run(c, INIT, actions + [a]) == Next(c, Run(c, INIT, actions), a)
  {
    hide Next, Run;
    RunInParts(c, INIT, actions, [a]);
    RunOne(c, Run(c, INIT, actions), a);
  }

  const FINE := Choice(false, 0, 0)
  const TROUBLE := Choice(true, 0, 1)

  lemma Extended(c: Config, actions: seq<Action>, a: Action, s': State) returns (more: seq<Action>)
    requires Next(c, Run(c, INIT, actions), a) == s'
    ensures Run(c, INIT, more) == s'
  {
    hide Next, Run;
    RunExtends(c, actions, a);
    more := actions + [a];
  }

  /** A cache with one file and its session. */
  function Alone(c: Config, f: nat, e: Cached, k: Compressor, pc: WriterPc): State {
    State(map[f := e], c.size(f), map[0 := k], map[0 := Sender(0, pc, [], false)], map[f := 0], map[0 := 0])
  }

  lemma AloneMoves(c: Config, f: nat, e: Cached, k: Compressor, pc: WriterPc)
    requires !k.failbit && !k.eofbit && (pc == Test || pc.Check? || pc.Decide?)
    ensures var next := match pc { case Test => Fetch case Check(chunk) => Decide(chunk) case _ => Send(Pending(pc)) };
      Next(c, Alone(c, f, e, k, pc), Step(0, FINE)) == Alone(c, f, e, k, next)
  {
    hide Fetched, SendStep, Reading, Inserted, Bumped, Marked, Flagged;
  }

  lemma AloneFetches(c: Config, f: nat, e: Cached)
    requires c.chunk <= |c.stream(f)|
    ensures Next(c, Alone(c, f, e, Compressor(f, true, 0, false, false), Fetch), Step(0, FINE))
         == Alone(c, f, e, Compressor(f, true, c.chunk, false, false), Insert(c.stream(f)[..c.chunk]))
  {}

  lemma AloneInserts(c: Config, f: nat, e: Cached, k: Compressor, chunk: Bytes)
    requires k.caching && k.file == f && !e.done
    ensures Next(c, Alone(c, f, e, k, Insert(chunk)), Step(0, FINE)) == Alone(c, f, Inserted(e, chunk), k, Bump(chunk))
  {
    hide Fetched, SendStep, Reading, Inserted, Bumped, Marked, Flagged;
  }

  lemma AloneBumps(c: Config, f: nat, e: Cached, k: Compressor, chunk: Bytes)
    requires k.file == f
    ensures Next(c, Alone(c, f, e, k, Bump(chunk)), Step(0, FINE)) == Alone(c, f, Bumped(e, |chunk|), k, Check(chunk))
  {
    hide Fetched, SendStep, Reading, Inserted, Bumped, Marked, Flagged;
  }

  /** One chunk of a session that finds its stream in order. */
  lemma FirstChunk(c: Config, f: nat) returns (actions: seq<Action>)
    requires c.size(f) < c.threshold && c.chunk <= |c.stream(f)|
    ensures var chunk := c.stream(f)[..c.chunk];
      Run(c, INIT, actions)
      == Alone(c, f, Cached(chunk, c.chunk, false), Compressor(f, true, c.chunk, false, false), Send(chunk))
  {
    hide Next, Run, Alone;
    var chunk := c.stream(f)[..c.chunk];
    var k0, k := Compressor(f, true, 0, false, false), Compressor(f, true, c.chunk, false, false);
    var e1, e2 := Inserted(EMPTY, chunk), Bumped(Inserted(EMPTY, chunk), c.chunk);
    actions := AloneStarts(c, f);
    AloneMoves(c, f, EMPTY, k0, Test);
    actions := Extended(c, actions, Step(0, FINE), Alone(c, f, EMPTY, k0, Fetch));
    AloneFetches(c, f, EMPTY);
    actions := Extended(c, actions, Step(0, FINE), Alone(c, f, EMPTY, k, Insert(chunk)));
    AloneInserts(c, f, EMPTY, k, chunk);
    actions := Extended(c, actions, Step(0, FINE), Alone(c, f, e1, k, Bump(chunk)));
    AloneBumps(c, f, e1, k, chunk);
    actions := Extended(c, actions, Step(0, FINE), Alone(c, f, e2, k, Check(chunk)));
    AloneMoves(c, f, e2, k, Check(chunk));
    AloneMoves(c, f, e2, k, Decide(chunk));
    actions := Extended(c, actions, Step(0, FINE), Alone(c, f, e2, k, Decide(chunk)));
    actions := Extended(c, actions, Step(0, FINE), Alone(c, f, e2, k, Send(chunk)));
    assert e2 == Cached(chunk, c.chunk, false);
  }

  lemma AloneStarts(c: Config, f: nat) returns (actions: seq<Action>)
    requires c.size(f) < c.threshold
    ensures Run(c, INIT, actions) == Alone(c, f, EMPTY, Compressor(f, true, 0, false, false), Test)
  {
    hide Run;
    actions := [Request(0, f)];
    RunOne(c, INIT, Request(0, f));
  }

  /** The same cache after a takeover. */
  function TakenOver(c: Config, f: nat, e: Cached, k: Compressor, pc: WriterPc): State {
    State(map[f := e], c.size(f), map[0 := k],
          map[0 := Sender(0, Finished, [], true), 1 := Takeover(0, pc)], map[f := 0], map[0 := 1])
  }

  lemma ClientGoes(c: Config, f: nat, e: Cached, k: Compressor, chunk: Bytes)
    requires k.caching
    ensures Next(c, Alone(c, f, e, k, Send(chunk)), Step(0, TROUBLE)) == TakenOver(c, f, e, k, Test)
  {
    assert [] + chunk[..0] == [];
    assert map[0 := Sender(0, Finished, [], true)][1 := Takeover(0, Test)]
        == map[0 := Sender(0, Finished, [], true), 1 := Takeover(0, Test)];
  }

  lemma TakeoverFails(c: Config, f: nat, e: Cached, k: Compressor)
    requires k.pos <= |c.stream(k.file)| && !k.failbit && !k.eofbit
    ensures Next(c, TakenOver(c, f, e, k, Test), Step(1, FINE)) == TakenOver(c, f, e, k, Fetch)
    ensures Next(c, TakenOver(c, f, e, k, Fetch), Step(1, TROUBLE))
         == TakenOver(c, f, e, k.(failbit := true), Insert([]))
  {
    assert c.stream(k.file)[k.pos..k.pos] == [];
  }

  /** Its client goes away, and then the stream breaks down under the takeover thread. */
  lemma GetsStuck(c: Config, f: nat) returns (actions: seq<Action>)
    requires c.size(f) < c.threshold && c.chunk <= |c.stream(f)|
    ensures Stuck(Run(c, INIT, actions), f)
  {
    hide Run, Next;
    var chunk := c.stream(f)[..c.chunk];
    var k := Compressor(f, true, c.chunk, false, false);
    var e := Cached(chunk, c.chunk, false);
    actions := FirstChunk(c, f);
    ClientGoes(c, f, e, k, chunk);
    actions := Extended(c, actions, Step(0, TROUBLE), TakenOver(c, f, e, k, Test));
    TakeoverFails(c, f, e, k);
    actions := Extended(c, actions, Step(1, FINE), TakenOver(c, f, e, k, Fetch));
    actions := Extended(c, actions, Step(1, TROUBLE), TakenOver(c, f, e, k.(failbit := true), Insert([])));
  }

  /** A file can get stuck if and only if it is small enough to be cached and its stream fills at
      least one chunk of a session. */
  lemma WhoGetsStuck(c: Config, f: nat)
    ensures (exists actions :: Stuck(Run(c, INIT, actions), f)) <==> c.size(f) < c.threshold && c.chunk <= |c.stream(f)|
  {
    hide Run, Stuck;
    if c.size(f) < c.threshold && c.chunk <= |c.stream(f)| {
      var actions := GetsStuck(c, f);
    } else {
      forall actions ensures !Stuck(Run(c, INIT, actions), f) {
        if Stuck(Run(c, INIT, actions), f) {
          StuckNeedsChunk(c, actions, f);
        }
      }
    }
  }

  /** As long as no read for its own entry breaks down, a file does not get stuck. */
  lemma ReliableNeverStuck(c: Config, actions: seq<Action>, f: nat)
    requires Reliable(c, INIT, actions, OfFile(f))
    ensures !Stuck(Run(c, INIT, actions), f)
  {
    hide Run, Inv, Reliable;
    var s := Run(c, INIT, actions);
    Reachable(c, actions);
    NoneFailedAfter(c, actions, OfFile(f));
    if f in s.entries {
      EntriesAreTended(c, s, f);
    }
  }

  /** The steps a reader still takes once its entry is finished. */
  function ReaderRank(at: ReaderPc, atEof: bool): nat {
    match at
    case EofCheck => if atEof then 7 else 5
    case Poll => if atEof then 6 else 4
    case Copy => if atEof then 5 else 3
    case Advance(_) => if atEof then 4 else 2
    case ReadSend(_) => if atEof then 3 else 7
    case ReadTest => if atEof then 2 else 6
    case ReadFinished => 0
  }

  /** The chunks that so many bytes take. */
  function Rounds(bytes: nat, chunk: nat): nat
    requires chunk > 0
  {
    if bytes == 0 then 0 else if bytes <= chunk then 1 else 1 + Rounds(bytes - chunk, chunk)
  }

  /** As many as it takes, and no more. */
  lemma {:induction false} RoundsSuffice(bytes: nat, chunk: nat)
    requires chunk > 0
    ensures var r := Rounds(bytes, chunk); bytes <= r * chunk && (r > 0 ==> (r - 1) * chunk < bytes)
  {
    if bytes > chunk {
      RoundsSuffice(bytes - chunk, chunk);
      var r := Rounds(bytes - chunk, chunk);
      assert (r + 1) * chunk == r * chunk + chunk && (r - 1) * chunk == r * chunk - chunk;
    }
  }

  lemma RoundsDrop(rest: nat, data: nat, chunk: nat)
    requires chunk > 0 && rest > 0 && data <= rest && (data == chunk || data == rest)
    ensures Rounds(rest - data, chunk) < Rounds(rest, chunk)
  {}

  lemma {:induction false} RoundsGrow(a: nat, b: nat, chunk: nat)
    requires chunk > 0 && a <= b
    ensures Rounds(a, chunk) <= Rounds(b, chunk)
    decreases a
  {
    if a > chunk {
      RoundsGrow(a - chunk, b - chunk, chunk);
    }
  }

  function ReaderMeasure(th: Thread, e: Cached, chunk: nat): nat
    requires th.Reader? && th.curPos <= e.eof && chunk > 0
  {
    8 * Rounds(e.eof - th.curPos, chunk) + ReaderRank(th.at, th.curPos == e.eof)
  }

  lemma ReadingNears(c: Config, th: Thread, e: Cached, choice: Choice)
    requires th.Reader? && Disciplined(e) && ReaderOk(c, th, e) && e.done && c.chunk > 0 && !th.at.ReadFinished?
    ensures var th' := Reading(c, th, e, choice);
      th'.curPos <= e.eof && ReaderMeasure(th', e, c.chunk) < ReaderMeasure(th, e, c.chunk)
  {
    hide Rounds;
    if th.at.Advance? && th.curPos < e.eof {
      RoundsDrop(e.eof - th.curPos, |th.at.data|, c.chunk);
    }
  }

  /** The turns that thread t gets in a run. */
  function Turns(actions: seq<Action>, t: nat): nat {
    if actions == [] then 0 else (if IsTurn(actions[0], t) then 1 else 0) + Turns(actions[1..], t)
  }

  predicate IsTurn(a: Action, t: nat) {
    a.Step? && a.thread == t
  }

  ghost predicate AtDone(c: Config, s: State, t: nat) {
    && t in s.threads && s.threads[t].Reader? && s.threads[t].file in s.entries && s.entries[s.threads[t].file].done
    && ReaderOk(c, s.threads[t], s.entries[s.threads[t].file]) && Disciplined(s.entries[s.threads[t].file])
  }

  /** Thread t has come to its end, or at least `turns` nearer to it. */
  ghost predicate ReaderNearer(c: Config, s: State, s': State, t: nat, turns: nat)
    requires AtDone(c, s, t) && c.chunk > 0
  {
    && AtDone(c, s', t) && s'.threads[t].file == s.threads[t].file
    && s'.entries[s.threads[t].file] == s.entries[s.threads[t].file]
    && (s'.threads[t].at.ReadFinished?
        || ReaderMeasure(s'.threads[t], s'.entries[s.threads[t].file], c.chunk) + turns
           <= ReaderMeasure(s.threads[t], s.entries[s.threads[t].file], c.chunk))
  }

  lemma NextNearsReader(c: Config, s: State, a: Action, t: nat)
    requires Inv(c, s) && c.chunk > 0 && AtDone(c, s, t)
    ensures ReaderNearer(c, s, Next(c, s, a), t, if IsTurn(a, t) then 1 else 0)
    ensures s.threads[t].at.ReadFinished? ==> Next(c, s, a).threads[t].at.ReadFinished?
  {
    hide Total, WriterStep, Reading, KnownCompressor, ReaderOk, ReaderMeasure;
    var f := s.threads[t].file;
    NextGrows(c, s, a, f);
    if a.thread != t {
      OtherThreadStays(c, s, a, t);
    } else if a.Step? {
      assert EntryOk(c, s, f);
      LocalReader(c, s.threads[t], s.entries[f], a.choice);
      if s.threads[t].at.ReadFinished? {
        FinishedReads(c, s.threads[t], s.entries[f], a.choice);
      } else {
        ReadingNears(c, s.threads[t], s.entries[f], a.choice);
      }
    }
  }

  lemma FinishedReads(c: Config, th: Thread, e: Cached, choice: Choice)
    requires th.Reader? && th.at.ReadFinished? && e.eof <= |e.buf|
    ensures Reading(c, th, e, choice) == th
  {}

  lemma {:induction false} BoundedReading(c: Config, s: State, actions: seq<Action>, t: nat)
    requires Inv(c, s) && c.chunk > 0 && AtDone(c, s, t)
    ensures ReaderNearer(c, s, Run(c, s, actions), t, Turns(actions, t))
    ensures s.threads[t].at.ReadFinished? ==> Run(c, s, actions).threads[t].at.ReadFinished?
    decreases |actions|
  {
    hide Inv, Next, ReaderMeasure, ReaderOk, IsTurn, Disciplined;
    if actions != [] {
      NextNearsReader(c, s, actions[0], t);
      NextKeepsInv(c, s, actions[0]);
      BoundedReading(c, Next(c, s, actions[0]), actions[1..], t);
    }
  }

  /** A reader of a finished entry is at its own end once it has had 8 r + 7 turns, r the number of
      chunks in the entry, however the threads are interleaved; none of those turns waits. */
  lemma ReadersComeToTheirEnd(c: Config, before: seq<Action>, after: seq<Action>, t: nat)
    requires c.chunk > 0
    requires var s := Run(c, INIT, before);
      t in s.threads && s.threads[t].Reader? && s.threads[t].file in s.entries && s.entries[s.threads[t].file].done
      && Turns(after, t) >= 8 * Rounds(s.entries[s.threads[t].file].eof, c.chunk) + 7
    ensures var s' := Run(c, INIT, before + after);
      t in s'.threads && s'.threads[t].Reader? && s'.threads[t].at.ReadFinished?
  {
    hide Run, Total, KnownCompressor, Turns, Rounds;
    var s := Run(c, INIT, before);
    Reachable(c, before);
    RunInParts(c, INIT, before, after);
    assert ThreadOk(c, s, t) && EntryOk(c, s, s.threads[t].file);
    RoundsGrow(s.entries[s.threads[t].file].eof - s.threads[t].curPos, s.entries[s.threads[t].file].eof, c.chunk);
    BoundedReading(c, s, after, t);
  }

  lemma {:induction false} RunKeepsReader(c: Config, s: State, actions: seq<Action>, t: nat)
    requires t in s.threads && s.threads[t].Reader?
    ensures var s' := Run(c, s, actions);
      t in s'.threads && s'.threads[t].Reader? && s'.threads[t].file == s.threads[t].file
    decreases |actions|
  {
    hide Next;
    if actions != [] {
      NextKeepsReader(c, s, actions[0], t);
      RunKeepsReader(c, Next(c, s, actions[0]), actions[1..], t);
    }
  }

  lemma NextKeepsReader(c: Config, s: State, a: Action, t: nat)
    requires t in s.threads && s.threads[t].Reader?
    ensures var s' := Next(c, s, a); t in s'.threads && s'.threads[t].Reader? && s'.threads[t].file == s.threads[t].file
  {
    hide WriterStep, Reading;
    if a.thread != t {
      OtherThreadStays(c, s, a, t);
    }
  }

  lemma {:induction false} ReliableInParts(c: Config, s: State, first: seq<Action>, second: seq<Action>, w: Concern)
    requires Reliable(c, s, first + second, w)
    ensures Reliable(c, s, first, w)
    decreases |first|
  {
    hide Next, BreaksDown;
    if first != [] {
      assert (first + second)[0] == first[0] && (first + second)[1..] == first[1..] + second;
      ReliableInParts(c, Next(c, s, first[0]), first[1..], second, w);
    }
  }

  /** A waiting reader is served: however the threads are interleaved, whoever else disconnects and
      whatever else breaks down, once the owner of its entry and then the reader itself have had enough
      turns, the reader is at its end, and a client that is still there has the whole stream. */
  lemma ReaderIsServed(c: Config, before: seq<Action>, middle: seq<Action>, after: seq<Action>, t: nat)
    requires c.chunk > 0 && c.takeoverChunk > 0
    requires var s := Run(c, INIT, before);
      t in s.threads && s.threads[t].Reader? && var f := s.threads[t].file;
      && Reliable(c, INIT, before + middle + after, OfFile(f))
      && OwnerSteps(c, s, middle, f) > 10 * (|c.stream(f)| + 1) + 9
      && Turns(after, t) >= 8 * Rounds(|c.stream(f)|, c.chunk) + 7
    ensures var s := Run(c, INIT, before); var s2 := Run(c, INIT, before + middle + after);
      && t in s2.threads && s2.threads[t].Reader? && s2.threads[t].file == s.threads[t].file
      && s2.threads[t].at.ReadFinished?
      && (!s2.threads[t].broken ==> s2.threads[t].sent == c.stream(s.threads[t].file))
  {
    hide Run, Reliable, OwnerSteps, Turns, Stuck, Rounds;
    var s, s1 := Run(c, INIT, before), Run(c, INIT, before + middle);
    var f := s.threads[t].file;
    RunInParts(c, INIT, before, middle);
    RunInParts(c, INIT, before + middle, after);
    Transparency(c, before, t);
    Release(c, before, middle, f);
    ReliableInParts(c, INIT, before + middle, after, OfFile(f));
    ReliableNeverStuck(c, before + middle, f);
    RunKeepsReader(c, s, middle, t);
    Transparency(c, before + middle, t);
    RunKeepsReader(c, s1, after, t);
    RoundsGrow(s1.entries[f].eof, |c.stream(f)|, c.chunk);
    ReadersComeToTheirEnd(c, before + middle, after, t);
    WholeStreams(c, before + middle + after, t);
  }
}
