/** Whether readers are released: what brings an entry to its end, and the one way it never gets there. */
module CacheProgress {
  import opened CachedFiles
  import opened CacheProtocol
  import opened CacheInvariant
  import opened CacheSteps
  import opened CacheResults

  /** Entry f is in the books with its compressor and the thread that uses it. */
  predicate Tended(s: State, f: nat) {
    && f in s.entries && f in s.makers && s.makers[f] in s.compressors && s.makers[f] in s.owner
    && s.owner[s.makers[f]] in s.threads && !s.threads[s.owner[s.makers[f]]].Reader?
  }

  function OwnerOf(s: State, f: nat): nat
    requires Tended(s, f)
  {
    s.owner[s.makers[f]]
  }

  lemma EntriesAreTended(c: Config, s: State, f: nat)
    requires Inv(c, s) && f in s.entries
    ensures Tended(s, f) && s.threads[OwnerOf(s, f)].maker == s.makers[f]
    ensures var k := s.compressors[s.makers[f]];
      && k.caching && k.file == f && EntryOf(s, k) == s.entries[f]
      && WriterOk(c, s.threads[OwnerOf(s, f)], k, s.entries[f])
  {
    hide Total, WriterOk, ReaderOk, ThreadOk;
    assert EntryOk(c, s, f) && KnownCompressor(c, s, s.makers[f]);
  }

  /** The takeover thread only looks at eof(). When a read breaks down under it, nobody ever calls
      fail(), so the entry stays unfinished. */
  predicate Stuck(s: State, f: nat) {
    && Tended(s, f) && !s.entries[f].done && s.threads[OwnerOf(s, f)].Takeover?
    && s.compressors[s.makers[f]].failbit && !s.compressors[s.makers[f]].eofbit
  }

  function Rank(pc: WriterPc): nat {
    match pc
    case Insert(_) => 9
    case Bump(_) => 8
    case Check(_) => 7
    case Decide(_) => 6
    case Send(_) => 5
    case Test => 4
    case Mark(_) => 3
    case Flag(_) => 2
    case Fetch => 1
    case Finished => 0
  }

  /** An upper bound on the steps that the owner of f still takes until f is finished. */
  function Distance(c: Config, pc: WriterPc, k: Compressor): nat
    requires k.pos <= |c.stream(k.file)|
  {
    10 * (|c.stream(k.file)| - k.pos + if k.failbit then 0 else 1) + Rank(pc)
  }

  function Measure(c: Config, s: State, f: nat): nat {
    if Tended(s, f) && s.compressors[s.makers[f]].pos <= |c.stream(s.compressors[s.makers[f]].file)| then
      Distance(c, s.threads[OwnerOf(s, f)].pc, s.compressors[s.makers[f]])
    else
      0
  }

  /** What the thread that owns f can see and change. */
  ghost predicate SameCorner(s: State, s': State, f: nat) {
    && Tended(s, f) && Tended(s', f)
    && s'.makers[f] == s.makers[f] && OwnerOf(s', f) == OwnerOf(s, f)
    && s'.entries[f] == s.entries[f] && s'.compressors[s.makers[f]] == s.compressors[s.makers[f]]
    && s'.threads[OwnerOf(s, f)] == s.threads[OwnerOf(s, f)]
  }

  /** A step of the owner of an unfinished entry either finishes it, or gets nearer to that, or is
      the breakdown of a stream that nobody will notice. */
  ghost predicate Nearer(c: Config, s: State, s': State, f: nat) {
    && Tended(s, f) && Tended(s', f) && s'.makers[f] == s.makers[f]
    && (s'.entries[f].done || Stuck(s', f) || Measure(c, s', f) < Measure(c, s, f))
  }

  lemma FetchNears(c: Config, k: Compressor, n: nat, choice: Choice)
    requires n > 0 && CompressorOk(c, k) && !(k.failbit && !k.eofbit) && !k.eofbit
    ensures var (chunk, k1) := Fetched(c, k, n, choice);
      && CompressorOk(c, k1) && Distance(c, Insert(chunk), k1) < Distance(c, Fetch, k)
      && (!choice.wrong && k1.failbit ==> k1.eofbit)
  {}

  lemma OwnerFetches(c: Config, s: State, f: nat, choice: Choice)
    requires Inv(c, s) && f in s.entries && !s.entries[f].done && !Stuck(s, f) && c.chunk > 0 && c.takeoverChunk > 0
    requires Tended(s, f) && s.threads[OwnerOf(s, f)].pc == Fetch
    ensures Nearer(c, s, WriterStep(c, s, OwnerOf(s, f), choice), f)
    ensures !choice.wrong ==> !Stuck(WriterStep(c, s, OwnerOf(s, f), choice), f)
  {
    hide Inv, Fetched, Stage, Distance, Rank;
    EntriesAreTended(c, s, f);
    var th := s.threads[OwnerOf(s, f)];
    FetchNears(c, s.compressors[th.maker], if th.Sender? then c.chunk else c.takeoverChunk, choice);
  }

  /** Outside Fetch and Send the owner moves to a lower rank. */
  lemma OwnerMoves(c: Config, s: State, f: nat, choice: Choice)
    requires Inv(c, s) && f in s.entries && !s.entries[f].done && !Stuck(s, f)
    requires Tended(s, f) && var pc := s.threads[OwnerOf(s, f)].pc; pc != Fetch && !pc.Send?
    ensures var t := OwnerOf(s, f); LiveWriter(s.threads[t]) && Nearer(c, s, WriterStep(c, s, t, choice), f)
    ensures !Stuck(WriterStep(c, s, OwnerOf(s, f), choice), f)
  {
    hide Inv, Stage, Inserted, Bumped;
    EntriesAreTended(c, s, f);
    var th := s.threads[OwnerOf(s, f)];
    var k := s.compressors[th.maker];
    if th.pc.Mark? {
      LocalMark(c, th, k, s.entries[f]);
    }
  }

  /** A step is possible unless it names a thread that exists as the one it starts. */
  predicate Possible(s: State, choice: Choice) {
    choice.heir !in s.threads || !choice.wrong
  }

  lemma OwnerSends(c: Config, s: State, f: nat, choice: Choice)
    requires Inv(c, s) && f in s.entries && !s.entries[f].done && !Stuck(s, f) && Possible(s, choice)
    requires Tended(s, f) && s.threads[OwnerOf(s, f)].pc.Send?
    ensures Nearer(c, s, WriterStep(c, s, OwnerOf(s, f), choice), f)
    ensures !Stuck(WriterStep(c, s, OwnerOf(s, f), choice), f)
  {
    hide Inv, Stage;
    EntriesAreTended(c, s, f);
  }

  lemma OwnerNears(c: Config, s: State, f: nat, choice: Choice)
    requires Inv(c, s) && f in s.entries && !s.entries[f].done && !Stuck(s, f) && c.chunk > 0 && c.takeoverChunk > 0
    requires Possible(s, choice)
    ensures Tended(s, f) && Nearer(c, s, Next(c, s, Step(OwnerOf(s, f), choice)), f)
    ensures !choice.wrong ==> !Stuck(Next(c, s, Step(OwnerOf(s, f), choice)), f)
  {
    hide Inv, WriterStep, Nearer, Stuck, WriterOk;
    EntriesAreTended(c, s, f);
    var th := s.threads[OwnerOf(s, f)];
    if th.pc == Fetch {
      OwnerFetches(c, s, f, choice);
    } else if th.pc.Send? {
      OwnerSends(c, s, f, choice);
    } else {
      OwnerMoves(c, s, f, choice);
    }
  }

  lemma OtherWriterLeaves(c: Config, s: State, t: nat, choice: Choice, f: nat)
    requires Inv(c, s) && f in s.entries && Tended(s, f)
    requires t in s.threads && LiveWriter(s.threads[t]) && t != OwnerOf(s, f)
    ensures SameCorner(s, WriterStep(c, s, t, choice), f)
  {
    hide Inv, Fetched, TestPc, CheckPc, DecidePc, AfterRead, Inserted, Bumped, Marked, Flagged, Stage, NextOk,
      CompressorOk;
    EntriesAreTended(c, s, f);
    LiveFacts(c, s, t);
    OtherCompressor(c, s, t, f);
  }

  lemma OtherCompressor(c: Config, s: State, t: nat, f: nat)
    requires Inv(c, s) && f in s.entries && Tended(s, f)
    requires t in s.threads && LiveWriter(s.threads[t]) && t != OwnerOf(s, f)
    ensures var m := s.threads[t].maker;
      m in s.compressors && m != s.makers[f] && (s.compressors[m].caching ==> s.compressors[m].file != f)
  {
    hide Total, WriterOk, ReaderOk, EntryOk;
    OwnerIsLive(c, s, t);
    assert KnownCompressor(c, s, s.threads[t].maker);
  }

  /** Whatever the other threads do, the owner of f finds its things as it left them. */
  lemma OthersLeave(c: Config, s: State, a: Action, f: nat)
    requires Inv(c, s) && f in s.entries && Tended(s, f) && a.thread != OwnerOf(s, f)
    ensures SameCorner(s, Next(c, s, a), f)
  {
    hide WriterStep, Reading, Total, ReaderOk, WriterOk, KnownCompressor, ThreadOk;
    match a
    case Request(t, g) =>
      if t !in s.threads {
        NoCompressor(c, s, t);
        assert EntryOk(c, s, f);
      }
    case Step(t, choice) =>
      if t in s.threads && LiveWriter(s.threads[t]) {
        OtherWriterLeaves(c, s, t, choice, f);
      }
  }

  /** The owner of a finished entry leaves it as it is, and a stuck owner stays stuck. */
  lemma StuckStays(c: Config, s: State, a: Action, f: nat)
    requires Inv(c, s) && Stuck(s, f)
    ensures Stuck(Next(c, s, a), f)
  {
    hide Inv, WriterStep, Stage;
    if a.thread != OwnerOf(s, f) {
      OthersLeave(c, s, a, f);
    } else {
      EntriesAreTended(c, s, f);
      if a.Step? { StuckOwnerStays(c, s, f, a.choice); }
    }
  }

  lemma StuckOwnerStays(c: Config, s: State, f: nat, choice: Choice)
    requires Inv(c, s) && Stuck(s, f) && LiveWriter(s.threads[OwnerOf(s, f)])
    ensures Stuck(WriterStep(c, s, OwnerOf(s, f), choice), f)
  {
    hide Inv, Stage;
    EntriesAreTended(c, s, f);
  }

  lemma {:induction false} StuckForever(c: Config, s: State, actions: seq<Action>, f: nat)
    requires Inv(c, s) && Stuck(s, f)
    ensures Stuck(Run(c, s, actions), f) && Inv(c, Run(c, s, actions))
    decreases |actions|
  {
    hide Inv, Next, Stuck;
    if actions != [] {
      StuckStays(c, s, actions[0], f);
      NextKeepsInv(c, s, actions[0]);
      StuckForever(c, Next(c, s, actions[0]), actions[1..], f);
    }
  }

  /** Going on without further trouble brings every entry that is not stuck to its end. */
  lemma {:induction false} WayOut(c: Config, s: State, f: nat) returns (actions: seq<Action>)
    requires Inv(c, s) && f in s.entries && !Stuck(s, f) && c.chunk > 0 && c.takeoverChunk > 0
    ensures f in Run(c, s, actions).entries && Run(c, s, actions).entries[f].done
    ensures |actions| <= Measure(c, s, f) + 1
    decreases Measure(c, s, f)
  {
    hide Inv, Next, Stuck, Measure, OwnerOf;
    if s.entries[f].done {
      actions := [];
    } else {
      EntriesAreTended(c, s, f);
      var a := Step(OwnerOf(s, f), Choice(false, 0, 0));
      var s' := Next(c, s, a);
      OwnerNears(c, s, f, a.choice);
      NextKeepsInv(c, s, a);
      if s'.entries[f].done {
        actions := [a];
        RunOne(c, s, a);
      } else {
        var rest := WayOut(c, s', f);
        actions := [a] + rest;
        assert actions[0] == a && actions[1..] == rest;
      }
    }
  }

  lemma RunOne(c: Config, s: State, a: Action)
    ensures Run(c, s, [a]) == Next(c, s, a)
  {
    hide Next;
    assert [a][1..] == [];
    assert Run(c, Next(c, s, a), []) == Next(c, s, a);
  }

  ghost predicate CanFinish(c: Config, s: State, f: nat) {
    exists actions :: f in Run(c, s, actions).entries && Run(c, s, actions).entries[f].done
  }

  /** An entry can still be finished exactly when its takeover thread has not met a breakdown. */
  lemma FinishesUnlessStuck(c: Config, before: seq<Action>, f: nat)
    requires c.chunk > 0 && c.takeoverChunk > 0
    ensures var s := Run(c, INIT, before); f in s.entries ==> (CanFinish(c, s, f) <==> !Stuck(s, f))
  {
    hide Run, Inv;
    var s := Run(c, INIT, before);
    Reachable(c, before);
    if f in s.entries {
      if Stuck(s, f) {
        forall actions ensures !(f in Run(c, s, actions).entries && Run(c, s, actions).entries[f].done) {
          StuckForever(c, s, actions, f);
        }
      } else {
        var actions := WayOut(c, s, f);
        assert f in Run(c, s, actions).entries && Run(c, s, actions).entries[f].done;
      }
    }
  }

  /** Readers of a stuck entry never come to their end, however the run goes on. */
  lemma StuckReadersWait(c: Config, before: seq<Action>, after: seq<Action>, f: nat, t: nat)
    requires Stuck(Run(c, INIT, before), f)
    ensures var s := Run(c, INIT, before + after);
      t in s.threads && s.threads[t].Reader? && s.threads[t].file == f && !s.threads[t].broken ==>
        !s.threads[t].at.ReadFinished?
  {
    hide Run, Total, WriterOk, KnownCompressor, EntryOk;
    Reachable(c, before);
    RunInParts(c, INIT, before, after);
    StuckForever(c, Run(c, INIT, before), after, f);
    var s := Run(c, INIT, before + after);
    if t in s.threads {
      assert ThreadOk(c, s, t);
    }
  }

  /** The turns that the owner of f gets in a run, those after f is finished included. */
  function OwnerSteps(c: Config, s: State, actions: seq<Action>, f: nat): nat
    decreases |actions|
  {
    if actions == [] then 0 else
      (if IsOwnerStep(s, actions[0], f) then 1 else 0) + OwnerSteps(c, Next(c, s, actions[0]), actions[1..], f)
  }

  predicate IsOwnerStep(s: State, a: Action, f: nat) {
    Tended(s, f) && a.Step? && a.thread == OwnerOf(s, f) && Possible(s, a.choice)
  }

  lemma MeasureStays(c: Config, s: State, s': State, f: nat)
    requires SameCorner(s, s', f)
    ensures Measure(c, s', f) == Measure(c, s, f) && (Stuck(s', f) <==> Stuck(s, f))
  {}

  lemma NextNears(c: Config, s: State, a: Action, f: nat)
    requires Inv(c, s) && f in s.entries && !s.entries[f].done && !Stuck(s, f) && c.chunk > 0 && c.takeoverChunk > 0
    ensures var s' := Next(c, s, a);
      && f in s'.entries
      && (s'.entries[f].done || Stuck(s', f)
          || Measure(c, s', f) + (if IsOwnerStep(s, a, f) then 1 else 0) <= Measure(c, s, f))
  {
    hide Inv, Measure, Stuck;
    EntriesAreTended(c, s, f);
    NextGrows(c, s, a, f);
    if IsOwnerStep(s, a, f) {
      OwnerNears(c, s, f, a.choice);
    } else if a.thread != OwnerOf(s, f) {
      OthersLeave(c, s, a, f);
      MeasureStays(c, s, Next(c, s, a), f);
    } else {
      ImpossibleStep(c, s, a, f);
    }
  }

  /** A step of the owner that is not possible either breaks the stream down or changes nothing. */
  lemma ImpossibleStep(c: Config, s: State, a: Action, f: nat)
    requires Inv(c, s) && f in s.entries && Tended(s, f) && !s.entries[f].done && !Stuck(s, f)
    requires a.thread == OwnerOf(s, f) && (a.Step? ==> !Possible(s, a.choice)) && c.chunk > 0 && c.takeoverChunk > 0
    ensures var s' := Next(c, s, a);
      f in s'.entries && (s'.entries[f].done || Stuck(s', f) || Measure(c, s', f) <= Measure(c, s, f))
  {
    hide Inv, Measure, Stuck, WriterStep, WriterOk;
    EntriesAreTended(c, s, f);
    NextGrows(c, s, a, f);
    if a.Step? {
      var th := s.threads[a.thread];
      if th.pc == Fetch {
        OwnerFetches(c, s, f, a.choice);
      } else if th.pc.Send? {
        assert Next(c, s, a) == s by { BlockedSend(c, s, f, a.choice); }
      } else {
        OwnerMoves(c, s, f, a.choice);
      }
    }
  }

  lemma BlockedSend(c: Config, s: State, f: nat, choice: Choice)
    requires Inv(c, s) && f in s.entries && Tended(s, f) && !Possible(s, choice)
    requires s.threads[OwnerOf(s, f)].pc.Send?
    ensures Next(c, s, Step(OwnerOf(s, f), choice)) == s
  {
    hide Inv, Stage;
    EntriesAreTended(c, s, f);
  }

  /** In every run the owner of an entry takes a bounded number of steps until the entry is finished
      or stuck; and until then it can always take one. */
  lemma {:induction false} BoundedWork(c: Config, s: State, actions: seq<Action>, f: nat)
    requires Inv(c, s) && f in s.entries && !s.entries[f].done && !Stuck(s, f) && c.chunk > 0 && c.takeoverChunk > 0
    ensures var s' := Run(c, s, actions);
      && f in s'.entries
      && (s'.entries[f].done || Stuck(s', f) || Measure(c, s', f) + OwnerSteps(c, s, actions, f) <= Measure(c, s, f))
    decreases |actions|
  {
    hide Inv, Next, Measure, Stuck, IsOwnerStep;
    if actions != [] {
      var s1 := Next(c, s, actions[0]);
      NextNears(c, s, actions[0], f);
      NextKeepsInv(c, s, actions[0]);
      if s1.entries[f].done {
        RunGrows(c, s1, actions[1..], f);
      } else if Stuck(s1, f) {
        StuckForever(c, s1, actions[1..], f);
        RunGrows(c, s1, actions[1..], f);
      } else {
        BoundedWork(c, s1, actions[1..], f);
      }
    }
  }

  /** Release under fair scheduling: however the threads are interleaved, once its owner has had more
      than 10 (n + 1) + 9 turns the entry of a file whose stream has n bytes is finished, or stuck. */
  lemma Release(c: Config, before: seq<Action>, after: seq<Action>, f: nat)
    requires c.chunk > 0 && c.takeoverChunk > 0
    requires var s := Run(c, INIT, before);
      f in s.entries && OwnerSteps(c, s, after, f) > 10 * (|c.stream(f)| + 1) + 9
    ensures var s' := Run(c, INIT, before + after); f in s'.entries && (s'.entries[f].done || Stuck(s', f))
  {
    hide Run, Inv, OwnerSteps, Stuck;
    var s := Run(c, INIT, before);
    Reachable(c, before);
    RunInParts(c, INIT, before, after);
    EntriesAreTended(c, s, f);
    RunGrows(c, s, after, f);
    if !s.entries[f].done {
      if Stuck(s, f) {
        StuckForever(c, s, after, f);
      } else {
        BoundedWork(c, s, after, f);
      }
    }
  }

  /** Until then a step of the owner is always possible and never idle. */
  lemma OwnerNeverBlocked(c: Config, before: seq<Action>, f: nat)
    ensures var s := Run(c, INIT, before);
      f in s.entries && !s.entries[f].done ==>
        Tended(s, f) && Next(c, s, Step(OwnerOf(s, f), Choice(false, 0, 0))) != s
  {
    hide Run, Inv;
    var s := Run(c, INIT, before);
    Reachable(c, before);
    if f in s.entries && !s.entries[f].done {
      EntriesAreTended(c, s, f);
      NeverIdle(c, s, f);
    }
  }

  lemma NeverIdle(c: Config, s: State, f: nat)
    requires Inv(c, s) && f in s.entries && !s.entries[f].done && Tended(s, f)
    ensures Next(c, s, Step(OwnerOf(s, f), Choice(false, 0, 0))) != s
  {
    hide Inv, Stage;
    EntriesAreTended(c, s, f);
    var t := OwnerOf(s, f);
    assert Next(c, s, Step(t, Choice(false, 0, 0))).threads[t].pc != s.threads[t].pc;
  }
}
