/** What the cache promises its clients, over every run. */
module CacheResults {
  import opened Bytes
  import opened CachedFiles
  import opened CacheProtocol
  import opened CacheInvariant
  import opened CacheSteps

  lemma Reachable(c: Config, actions: seq<Action>)
    ensures Inv(c, Run(c, INIT, actions))
  {
    hide Inv, Run;
    InitInv(c);
    RunKeepsInv(c, INIT, actions);
  }

  /** The entry of a file is what its one compressor has produced. */
  lemma EntryIsProduced(c: Config, s: State, f: nat)
    requires Inv(c, s) && f in s.entries && s.entries[f].done
    ensures f in s.makers && s.makers[f] in s.compressors
    ensures var k := s.compressors[s.makers[f]];
      && k.file == f && k.caching && k.failbit && k.pos <= |c.stream(f)|
      && (k.eofbit ==> k.pos == |c.stream(f)|)
      && s.entries[f].buf == c.stream(f)[..k.pos] && s.entries[f].eof == |s.entries[f].buf|
  {
    hide Total, ReaderOk, ThreadOk;
    assert EntryOk(c, s, f) && KnownCompressor(c, s, s.makers[f]);
  }

  /** What a client that reads from the cache gets is the compressed stream: at every moment a
      prefix, and at the end all that the compressor produced. */
  lemma Transparency(c: Config, actions: seq<Action>, t: nat)
    ensures var s := Run(c, INIT, actions);
      t in s.threads && s.threads[t].Reader? ==>
        var th := s.threads[t];
        && th.file in s.entries && 0 <= th.curPos <= s.entries[th.file].eof <= |c.stream(th.file)|
        && th.taken == c.stream(th.file)[..th.curPos] && th.sent <= th.taken
        && (th.at.ReadFinished? && !th.broken ==>
              && s.entries[th.file].done && th.sent == s.entries[th.file].buf
              && th.file in s.makers && s.makers[th.file] in s.compressors
              && (th.sent == c.stream(th.file) <==> s.compressors[s.makers[th.file]].pos == |c.stream(th.file)|))
  {
    hide Total, WriterOk, Run, KnownCompressor;
    var s := Run(c, INIT, actions);
    Reachable(c, actions);
    if t in s.threads && s.threads[t].Reader? {
      var th := s.threads[t];
      assert ThreadOk(c, s, t) && EntryOk(c, s, th.file);
      if th.at.ReadFinished? && !th.broken {
        EntryIsProduced(c, s, th.file);
      }
    }
  }

  /** Whose stream matters: the one that fills the cache with a file, or the one of a session. */
  datatype Concern = OfFile(file: nat) | OfSession(session: nat)

  predicate Concerns(w: Concern, m: nat, k: Compressor) {
    match w
    case OfFile(f) => k.caching && k.file == f
    case OfSession(t) => m == t
  }

  /** No read from the stream in question breaks down. Others may. */
  ghost predicate Reliable(c: Config, s: State, actions: seq<Action>, w: Concern)
    decreases |actions|
  {
    actions == [] || (!BreaksDown(s, actions[0], w) && Reliable(c, Next(c, s, actions[0]), actions[1..], w))
  }

  predicate BreaksDown(s: State, a: Action, w: Concern) {
    && a.Step? && a.choice.wrong && a.thread in s.threads
    && !s.threads[a.thread].Reader? && s.threads[a.thread].pc == Fetch
    && s.threads[a.thread].maker in s.compressors
    && Concerns(w, s.threads[a.thread].maker, s.compressors[s.threads[a.thread].maker])
  }

  ghost predicate NoneFailed(s: State, w: Concern) {
    forall m | m in s.compressors && Concerns(w, m, s.compressors[m]) ::
      s.compressors[m].failbit ==> s.compressors[m].eofbit
  }

  lemma FetchKeepsReliable(c: Config, k: Compressor, n: nat, choice: Choice)
    requires k.pos <= |c.stream(k.file)|
    ensures var k' := Fetched(c, k, n, choice).1;
      && k'.file == k.file && k'.caching == k.caching
      && ((k.failbit ==> k.eofbit) && !choice.wrong ==> (k'.failbit ==> k'.eofbit))
  {}

  lemma WriterKeepsReliable(c: Config, s: State, t: nat, choice: Choice, w: Concern)
    requires NoneFailed(s, w) && t in s.threads && LiveWriter(s.threads[t]) && !BreaksDown(s, Step(t, choice), w)
    ensures NoneFailed(WriterStep(c, s, t, choice), w)
  {
    hide Fetched, Inserted, Bumped, Marked, Flagged, TestPc, CheckPc, DecidePc, AfterRead, WithPc;
    var th := s.threads[t];
    if th.pc == Fetch && th.maker in s.compressors {
      var k := s.compressors[th.maker];
      if k.pos <= |c.stream(k.file)| {
        FetchKeepsReliable(c, k, if th.Sender? then c.chunk else c.takeoverChunk, choice);
      }
    }
  }

  lemma NextKeepsReliable(c: Config, s: State, a: Action, w: Concern)
    requires NoneFailed(s, w) && !BreaksDown(s, a, w)
    ensures NoneFailed(Next(c, s, a), w)
  {
    hide Reading, WriterStep;
    if a.Step? && a.thread in s.threads && LiveWriter(s.threads[a.thread]) {
      WriterKeepsReliable(c, s, a.thread, a.choice, w);
    }
  }

  lemma {:induction false} RunKeepsReliable(c: Config, s: State, actions: seq<Action>, w: Concern)
    requires NoneFailed(s, w) && Reliable(c, s, actions, w)
    ensures NoneFailed(Run(c, s, actions), w)
    decreases |actions|
  {
    hide Next, NoneFailed, BreaksDown;
    if actions != [] {
      NextKeepsReliable(c, s, actions[0], w);
      RunKeepsReliable(c, Next(c, s, actions[0]), actions[1..], w);
    }
  }

  lemma InitNoneFailed(w: Concern)
    ensures NoneFailed(INIT, w)
  {}

  lemma WholeReader(c: Config, s: State, t: nat)
    requires Inv(c, s) && t in s.threads && s.threads[t].Reader? && NoneFailed(s, OfFile(s.threads[t].file))
    requires s.threads[t].at.ReadFinished? && !s.threads[t].broken
    ensures s.threads[t].sent == c.stream(s.threads[t].file)
  {
    hide Total, KnownCompressor;
    var f := s.threads[t].file;
    assert ThreadOk(c, s, t) && EntryOk(c, s, f);
    EntryIsProduced(c, s, f);
  }

  lemma WholeSender(c: Config, s: State, t: nat)
    requires Inv(c, s) && t in s.threads && s.threads[t].Sender? && NoneFailed(s, OfSession(s.threads[t].maker))
    requires s.threads[t].pc == Finished && !s.threads[t].broken
    ensures var m := s.threads[t].maker; m in s.compressors && s.threads[t].sent == c.stream(s.compressors[m].file)
  {
    hide Total, EntryOk, Stage, PcOk;
    assert ThreadOk(c, s, t);
    assert KnownCompressor(c, s, s.threads[t].maker);
  }

  lemma WholeTakeover(c: Config, s: State, t: nat)
    requires Inv(c, s) && t in s.threads && s.threads[t].Takeover? && s.threads[t].pc == Finished
    ensures var m := s.threads[t].maker;
      && m in s.compressors && s.compressors[m].file in s.entries
      && s.entries[s.compressors[m].file].done
      && s.entries[s.compressors[m].file].buf == c.stream(s.compressors[m].file)
  {
    hide Total, EntryOk, ReaderOk;
    assert ThreadOk(c, s, t);
    assert KnownCompressor(c, s, s.threads[t].maker);
  }

  /** A client that stayed has the whole stream, unless its own stream broke down: that of the session,
      or the one that filled the cache. What happens to other streams does not matter. */
  lemma WholeStreams(c: Config, actions: seq<Action>, t: nat)
    ensures var s := Run(c, INIT, actions);
      t in s.threads && s.threads[t].Reader? && s.threads[t].at.ReadFinished? && !s.threads[t].broken
      && Reliable(c, INIT, actions, OfFile(s.threads[t].file)) ==>
        s.threads[t].sent == c.stream(s.threads[t].file)
    ensures var s := Run(c, INIT, actions);
      t in s.threads && s.threads[t].Sender? && s.threads[t].pc == Finished && !s.threads[t].broken
      && Reliable(c, INIT, actions, OfSession(s.threads[t].maker)) ==>
        && s.threads[t].maker in s.compressors
        && s.threads[t].sent == c.stream(s.compressors[s.threads[t].maker].file)
    ensures var s := Run(c, INIT, actions);
      t in s.threads && s.threads[t].Takeover? && s.threads[t].pc == Finished ==>
        && s.threads[t].maker in s.compressors
        && var f := s.compressors[s.threads[t].maker].file;
           f in s.entries && s.entries[f].done && s.entries[f].buf == c.stream(f)
  {
    hide Inv, Run, Reliable, NoneFailed;
    var s := Run(c, INIT, actions);
    Reachable(c, actions);
    if t in s.threads {
      var th := s.threads[t];
      if th.Reader? && th.at.ReadFinished? && !th.broken && Reliable(c, INIT, actions, OfFile(th.file)) {
        NoneFailedAfter(c, actions, OfFile(th.file));
        WholeReader(c, s, t);
      } else if th.Sender? && th.pc == Finished && !th.broken && Reliable(c, INIT, actions, OfSession(th.maker)) {
        NoneFailedAfter(c, actions, OfSession(th.maker));
        WholeSender(c, s, t);
      } else if th.Takeover? && th.pc == Finished {
        WholeTakeover(c, s, t);
      }
    }
  }

  lemma NoneFailedAfter(c: Config, actions: seq<Action>, w: Concern)
    requires Reliable(c, INIT, actions, w)
    ensures NoneFailed(Run(c, INIT, actions), w)
  {
    hide Run, Reliable, NoneFailed;
    InitNoneFailed(w);
    RunKeepsReliable(c, INIT, actions, w);
  }

  lemma WriterGrows(c: Config, s: State, t: nat, choice: Choice, f: nat)
    requires Inv(c, s) && t in s.threads && LiveWriter(s.threads[t]) && f in s.entries
    ensures f in WriterStep(c, s, t, choice).entries && Grows(s.entries[f], WriterStep(c, s, t, choice).entries[f])
  {
    hide Inv, Fetched, TestPc, CheckPc, DecidePc, AfterRead, Stage, SendStep, CompressorOk;
    LiveFacts(c, s, t);
    var th := s.threads[t];
    var k := s.compressors[th.maker];
    if th.pc.Mark? { LocalMark(c, th, k, EntryOf(s, k)); }
    if th.pc.Send? { SendLeavesEntries(s, t, th.pc.chunk, choice); }
  }

  lemma SendLeavesEntries(s: State, t: nat, chunk: Bytes, choice: Choice)
    requires t in s.threads && s.threads[t].Sender? && s.threads[t].maker in s.compressors
    ensures SendStep(s, t, chunk, choice).entries == s.entries
  {}

  /** At every micro-step: bytes below eof never change, and a finished entry never changes. */
  lemma NextGrows(c: Config, s: State, a: Action, f: nat)
    requires Inv(c, s) && f in s.entries
    ensures f in Next(c, s, a).entries && Grows(s.entries[f], Next(c, s, a).entries[f])
  {
    hide WriterStep, Reading, KnownCompressor, ThreadOk;
    assert EntryOk(c, s, f);
    match a
    case Request(_, _) =>
    case Step(t, choice) =>
      if t in s.threads && LiveWriter(s.threads[t]) { WriterGrows(c, s, t, choice, f); }
  }

  lemma {:induction false} RunGrows(c: Config, s: State, actions: seq<Action>, f: nat)
    requires Inv(c, s) && f in s.entries
    ensures f in Run(c, s, actions).entries && Grows(s.entries[f], Run(c, s, actions).entries[f])
    decreases |actions|
  {
    hide Inv, Next;
    if actions != [] {
      NextGrows(c, s, actions[0], f);
      NextKeepsInv(c, s, actions[0]);
      RunGrows(c, Next(c, s, actions[0]), actions[1..], f);
      GrowsTransitive(s.entries[f], Next(c, s, actions[0]).entries[f], Run(c, s, actions).entries[f]);
    }
  }

  lemma {:induction false} RunInParts(c: Config, s: State, first: seq<Action>, second: seq<Action>)
    ensures Run(c, s, first + second) == Run(c, Run(c, s, first), second)
    decreases |first|
  {
    hide Next;
    if first == [] {
      assert first + second == second;
    } else {
      assert (first + second)[0] == first[0] && (first + second)[1..] == first[1..] + second;
      RunInParts(c, Next(c, s, first[0]), first[1..], second);
    }
  }

  /** The discipline of the buffers between any two moments of a run. */
  lemma BufferDiscipline(c: Config, before: seq<Action>, after: seq<Action>, f: nat)
    ensures var s := Run(c, INIT, before); var s' := Run(c, INIT, before + after);
      f in s.entries ==>
        && f in s'.entries && Disciplined(s.entries[f]) && Grows(s.entries[f], s'.entries[f])
        && s.entries[f].buf <= c.stream(f)
  {
    hide Total, Run, KnownCompressor, ThreadOk;
    var s := Run(c, INIT, before);
    Reachable(c, before);
    RunInParts(c, INIT, before, after);
    if f in s.entries {
      assert EntryOk(c, s, f);
      RunGrows(c, s, after, f);
    }
  }

  /** Thread t is on its way to finishing the entry of file f. */
  predicate Fills(s: State, t: nat, f: nat) {
    && t in s.threads && LiveWriter(s.threads[t]) && s.threads[t].maker in s.compressors
    && s.compressors[s.threads[t].maker].caching && s.compressors[s.threads[t].maker].file == f
  }

  lemma FillersAgree(c: Config, s: State, t: nat, f: nat)
    requires Inv(c, s) && Fills(s, t, f)
    ensures f in s.entries && f in s.makers && s.makers[f] == s.threads[t].maker
    ensures s.makers[f] in s.owner && s.owner[s.makers[f]] == t
  {
    hide Total, WriterOk, ReaderOk;
    OwnerIsLive(c, s, t);
    assert KnownCompressor(c, s, s.threads[t].maker);
  }

  lemma OwnerFills(c: Config, s: State, f: nat)
    requires Inv(c, s) && f in s.entries && !s.entries[f].done
    ensures f in s.makers && s.makers[f] in s.owner && Fills(s, s.owner[s.makers[f]], f)
  {
    hide Total, ReaderOk, ThreadOk, Stage;
    assert EntryOk(c, s, f) && KnownCompressor(c, s, s.makers[f]);
  }

  /** No orphans: an entry that is not finished has exactly one live thread that works on it, a
      session or a takeover thread, and no entry ever has two. */
  lemma OneOwner(c: Config, actions: seq<Action>, f: nat)
    ensures var s := Run(c, INIT, actions);
      && (f in s.entries && !s.entries[f].done ==> exists t :: Fills(s, t, f))
      && (forall t, u :: Fills(s, t, f) && Fills(s, u, f) ==> t == u)
  {
    hide Inv, Run, Fills;
    var s := Run(c, INIT, actions);
    Reachable(c, actions);
    if f in s.entries && !s.entries[f].done {
      OwnerFills(c, s, f);
    }
    forall t, u | Fills(s, t, f) && Fills(s, u, f) ensures t == u {
      FillersAgree(c, s, t, f);
      FillersAgree(c, s, u, f);
    }
  }

  /** The books of the cache: its size is the sum over its files, all of them below the threshold,
      and every file has been given one caching compressor. */
  lemma Accounting(c: Config, actions: seq<Action>)
    ensures var s := Run(c, INIT, actions);
      && s.cacheSize == Total(c.size, s.entries.Keys)
      && (forall f | f in s.entries :: c.size(f) < c.threshold)
      && (forall m, n | m in s.compressors && n in s.compressors ::
            s.compressors[m].caching && s.compressors[n].caching && s.compressors[m].file == s.compressors[n].file ==>
              m == n)
  {
    hide Run, ThreadOk, WriterOk;
    var s := Run(c, INIT, actions);
    Reachable(c, actions);
    forall f | f in s.entries ensures c.size(f) < c.threshold { assert EntryOk(c, s, f); }
    forall m, n | m in s.compressors && n in s.compressors
      && s.compressors[m].caching && s.compressors[n].caching && s.compressors[m].file == s.compressors[n].file
      ensures m == n
    {
      assert KnownCompressor(c, s, m) && KnownCompressor(c, s, n);
    }
  }

  /** Once a file is cached every later request for it is served from that entry: no compressor is
      made, and nothing but the new reader changes. */
  lemma LaterRequestsRead(c: Config, before: seq<Action>, after: seq<Action>, t: nat, f: nat)
    ensures var s := Run(c, INIT, before); var s' := Run(c, INIT, before + after);
      f in s.entries && t !in s'.threads ==>
        && f in s'.entries
        && Next(c, s', Request(t, f)) == s'.(threads := s'.threads[t := Reader(f, 0, ReadTest, [], [], false)])
  {
    hide Run, Inv;
    BufferDiscipline(c, before, after, f);
    Accounting(c, before + after);
  }

  /** A chunk that leaves the cache has the requested length, or it is the end of a finished entry. */
  lemma FullChunks(c: Config, actions: seq<Action>, t: nat)
    ensures var s := Run(c, INIT, actions);
      t in s.threads && s.threads[t].Reader? && s.threads[t].at.Advance? ==>
        var th := s.threads[t];
        && th.file in s.entries
        && (|th.at.data| == c.chunk
            || (|th.at.data| < c.chunk && s.entries[th.file].done
                && th.curPos + |th.at.data| == s.entries[th.file].eof))
  {
    hide Total, WriterOk, Run, KnownCompressor, EntryOk;
    var s := Run(c, INIT, actions);
    Reachable(c, actions);
    if t in s.threads {
      assert ThreadOk(c, s, t);
    }
  }

  /** A reader that need no longer wait may take its time: however the others go on, it copies the
      same bytes. */
  lemma CopyCanWait(c: Config, before: seq<Action>, after: seq<Action>, t: nat)
    ensures var s := Run(c, INIT, before); var s' := Run(c, INIT, before + after);
      t in s.threads && s.threads[t].Reader? && s.threads[t].at.Copy?
      && t in s'.threads && s'.threads[t] == s.threads[t] ==>
        var f := s.threads[t].file;
        && f in s.entries && f in s'.entries && Disciplined(s.entries[f]) && Disciplined(s'.entries[f])
        && Copied(s'.entries[f], s.threads[t].curPos, c.chunk) == Copied(s.entries[f], s.threads[t].curPos, c.chunk)
  {
    hide Total, Run, KnownCompressor, Copied;
    var s := Run(c, INIT, before);
    Reachable(c, before);
    Reachable(c, before + after);
    if t in s.threads && s.threads[t].Reader? && s.threads[t].at.Copy? {
      var f := s.threads[t].file;
      assert ThreadOk(c, s, t);
      BufferDiscipline(c, before, after, f);
      assert EntryOk(c, Run(c, INIT, before + after), f);
      CopiesStay(s.entries[f], Run(c, INIT, before + after).entries[f], s.threads[t].curPos, c.chunk);
    }
  }
}
