/** Readers that take a part of a stream for the whole: who gets them, and for how long. */
module CacheCutShort {
  import opened Bytes
  import opened CachedFiles
  import opened CacheProtocol
  import opened CacheResults
  import opened CacheOrphans

  /** Reader t of file f has come to its end with its client still there, and the client has less than
      the stream. */
  predicate CutShort(c: Config, s: State, t: nat, f: nat) {
    && t in s.threads && s.threads[t].Reader? && s.threads[t].file == f
    && s.threads[t].at.ReadFinished? && !s.threads[t].broken && s.threads[t].sent != c.stream(f)
  }

  lemma AloneBreaks(c: Config, f: nat, e: Cached)
    ensures Next(c, Alone(c, f, e, Compressor(f, true, 0, false, false), Fetch), Step(0, TROUBLE))
         == Alone(c, f, e, Compressor(f, true, 0, false, true), Insert([]))
  {
    hide SendStep, Reading, Inserted, Bumped, Marked, Flagged;
    assert c.stream(f)[0..0] == [];
  }

  /** A session that finds its stream broken finishes the entry before it gives up. */
  lemma AloneGivesUp(c: Config, f: nat, e: Cached, k: Compressor, pc: WriterPc)
    requires k.file == f && k.caching && k.failbit && (pc.Check? || pc.Mark? || pc.Flag?)
    ensures var next := match pc { case Check(chunk) => Mark(Decide(chunk)) case Mark(n) => Flag(n) case _ => pc.next };
      var e' := match pc { case Check(_) => e case Mark(_) => Marked(e) case _ => Flagged(e) };
      Next(c, Alone(c, f, e, k, pc), Step(0, FINE)) == Alone(c, f, e', k, next)
  {
    hide Fetched, SendStep, Reading, Inserted, Bumped, Marked, Flagged;
  }

  /** The first read breaks down, and the entry is finished with nothing in it. */
  lemma EmptyEntry(c: Config, f: nat) returns (actions: seq<Action>)
    requires c.size(f) < c.threshold
    ensures Run(c, INIT, actions) == Alone(c, f, Cached([], 0, true), Compressor(f, true, 0, false, true), Decide([]))
  {
    hide Next, Run, Alone;
    var k0, k := Compressor(f, true, 0, false, false), Compressor(f, true, 0, false, true);
    actions := AloneStarts(c, f);
    AloneMoves(c, f, EMPTY, k0, Test);
    actions := Extended(c, actions, Step(0, FINE), Alone(c, f, EMPTY, k0, Fetch));
    AloneBreaks(c, f, EMPTY);
    actions := Extended(c, actions, Step(0, TROUBLE), Alone(c, f, EMPTY, k, Insert([])));
    AloneInserts(c, f, EMPTY, k, []);
    assert Inserted(EMPTY, []) == EMPTY && Bumped(EMPTY, 0) == EMPTY;
    actions := Extended(c, actions, Step(0, FINE), Alone(c, f, EMPTY, k, Bump([])));
    AloneBumps(c, f, EMPTY, k, []);
    actions := Extended(c, actions, Step(0, FINE), Alone(c, f, EMPTY, k, Check([])));
    AloneGivesUp(c, f, EMPTY, k, Check([]));
    actions := Extended(c, actions, Step(0, FINE), Alone(c, f, EMPTY, k, Mark(Decide([]))));
    AloneGivesUp(c, f, EMPTY, k, Mark(Decide([])));
    actions := Extended(c, actions, Step(0, FINE), Alone(c, f, Marked(EMPTY), k, Flag(Decide([]))));
    AloneGivesUp(c, f, Marked(EMPTY), k, Flag(Decide([])));
    actions := Extended(c, actions, Step(0, FINE), Alone(c, f, Flagged(Marked(EMPTY)), k, Decide([])));
    assert Flagged(Marked(EMPTY)) == Cached([], 0, true);
  }

  /** A client that asks for the file afterwards gets nothing and takes it for all. */
  lemma LateClient(c: Config, f: nat, k: Compressor, pc: WriterPc)
    requires c.size(f) < c.threshold && c.stream(f) != []
    ensures var s := Alone(c, f, Cached([], 0, true), k, pc);
      CutShort(c, Next(c, Next(c, s, Request(1, f)), Step(1, FINE)), 1, f)
  {
    hide WriterStep;
  }

  lemma GetsCutShort(c: Config, f: nat) returns (actions: seq<Action>)
    requires c.size(f) < c.threshold && c.stream(f) != []
    ensures CutShort(c, Run(c, INIT, actions), 1, f)
  {
    hide Next, Run, CutShort;
    actions := EmptyEntry(c, f);
    var k := Compressor(f, true, 0, false, true);
    LateClient(c, f, k, Decide([]));
    var s := Run(c, INIT, actions);
    actions := Extended(c, actions, Request(1, f), Next(c, s, Request(1, f)));
    actions := Extended(c, actions, Step(1, FINE), Next(c, Next(c, s, Request(1, f)), Step(1, FINE)));
  }

  lemma CutShortNeedsCache(c: Config, actions: seq<Action>, t: nat, f: nat)
    requires CutShort(c, Run(c, INIT, actions), t, f)
    ensures c.size(f) < c.threshold && c.stream(f) != []
  {
    hide Run;
    Transparency(c, actions, t);
    Accounting(c, actions);
  }

  /** A file can be taken for less than it is if and only if it is small enough to be cached and its
      stream is not empty. */
  lemma WhoIsCutShort(c: Config, f: nat)
    ensures (exists actions, t :: CutShort(c, Run(c, INIT, actions), t, f))
       <==> c.size(f) < c.threshold && c.stream(f) != []
  {
    hide Run, CutShort;
    if c.size(f) < c.threshold && c.stream(f) != [] {
      var actions := GetsCutShort(c, f);
    } else {
      forall actions, t ensures !CutShort(c, Run(c, INIT, actions), t, f) {
        if CutShort(c, Run(c, INIT, actions), t, f) {
          CutShortNeedsCache(c, actions, t, f);
        }
      }
    }
  }

  /** Nothing repairs an entry that was finished too early: however the run goes on, every later request
      is served from it, no reader of it ever gets the whole stream, and those that come to their end are
      cut short. */
  lemma CutShortForGood(c: Config, before: seq<Action>, after: seq<Action>, f: nat, t: nat)
    requires var s := Run(c, INIT, before); f in s.entries && s.entries[f].done && s.entries[f].buf != c.stream(f)
    ensures var s := Run(c, INIT, before); var s' := Run(c, INIT, before + after);
      && f in s'.entries && s'.entries[f] == s.entries[f]
      && (t !in s'.threads ==>
            Next(c, s', Request(t, f)) == s'.(threads := s'.threads[t := Reader(f, 0, ReadTest, [], [], false)]))
      && (t in s'.threads && s'.threads[t].Reader? && s'.threads[t].file == f ==>
            && s'.threads[t].sent != c.stream(f)
            && (s'.threads[t].at.ReadFinished? && !s'.threads[t].broken ==> CutShort(c, s', t, f)))
  {
    hide Run, Next;
    BufferDiscipline(c, before, after, f);
    LaterRequestsRead(c, before, after, t, f);
    var s' := Run(c, INIT, before + after);
    if t in s'.threads && s'.threads[t].Reader? && s'.threads[t].file == f {
      Transparency(c, before + after, t);
      NotTheWhole(s'.entries[f], c.stream(f), s'.threads[t].taken, s'.threads[t].sent, s'.threads[t].curPos);
    }
  }

  lemma NotTheWhole(e: Cached, stream: Bytes, taken: Bytes, sent: Bytes, pos: nat)
    requires Disciplined(e) && e.buf <= stream && e.buf != stream
    requires pos <= e.eof && taken == stream[..pos] && sent <= taken
    ensures sent != stream
  {
    assert |e.buf| == |stream| ==> e.buf == stream;
  }
}
