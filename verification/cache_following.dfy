/** Readers follow right behind the writer: they do not wait for bytes that are there. */
module CacheFollowing {
  import opened CachedFiles
  import opened CacheProtocol
  import opened CacheInvariant
  import opened CacheSteps
  import opened CacheResults
  import opened CacheOrphans

  /** Turns until a reader that finds a chunk takes it. */
  function TurnsToTake(at: ReaderPc): nat {
    match at
    case Advance(_) => 1
    case Copy => 2
    case Poll => 3
    case EofCheck => 4
    case ReadTest => 5
    case ReadSend(_) => 6
    case ReadFinished => 0
  }

  /** Reader t of file f is at position p0 with its client there, and a chunk is in its entry. */
  ghost predicate ChunkAhead(c: Config, s: State, t: nat, f: nat, p0: nat) {
    && t in s.threads && s.threads[t].Reader? && s.threads[t].file == f && !s.threads[t].broken
    && s.threads[t].curPos == p0 && f in s.entries && p0 + c.chunk <= s.entries[f].eof
  }

  /** It has lost its client, or it has taken the chunk. */
  ghost predicate Taken(c: Config, s: State, t: nat, f: nat, p0: nat) {
    && t in s.threads && s.threads[t].Reader? && s.threads[t].file == f
    && (s.threads[t].broken || s.threads[t].curPos >= p0 + c.chunk)
  }

  lemma ReadingTakes(c: Config, th: Thread, e: Cached, choice: Choice)
    requires th.Reader? && Disciplined(e) && ReaderOk(c, th, e) && !th.broken
    requires c.chunk > 0 && th.curPos + c.chunk <= e.eof
    ensures var th' := Reading(c, th, e, choice);
      || th'.broken || th'.curPos == th.curPos + c.chunk
      || (th'.curPos == th.curPos && TurnsToTake(th'.at) + 1 == TurnsToTake(th.at))
  {}

  /** A reader never goes back, and a lost client stays lost. */
  lemma ReadingGoesOn(c: Config, th: Thread, e: Cached, choice: Choice)
    requires th.Reader? && e.eof <= |e.buf| && (th.broken ==> th.at.ReadFinished?)
    ensures var th' := Reading(c, th, e, choice); th'.curPos >= th.curPos && (th.broken ==> th' == th)
  {}

  lemma BrokenIsFinished(c: Config, s: State, t: nat)
    requires Inv(c, s) && t in s.threads && s.threads[t].Reader?
    ensures s.threads[t].broken ==> s.threads[t].at.ReadFinished?
  {
    hide Total, EntryOk, KnownCompressor;
    assert ThreadOk(c, s, t);
  }

  lemma NextKeepsTaken(c: Config, s: State, a: Action, t: nat, f: nat, p0: nat)
    requires Inv(c, s) && Taken(c, s, t, f, p0)
    ensures Taken(c, Next(c, s, a), t, f, p0)
  {
    hide Inv, WriterStep, Reading;
    BrokenIsFinished(c, s, t);
    if a.thread != t {
      OtherThreadStays(c, s, a, t);
    } else if a.Step? && f in s.entries && s.entries[f].eof <= |s.entries[f].buf| {
      ReadingGoesOn(c, s.threads[t], s.entries[f], a.choice);
    }
  }

  lemma {:induction false} RunKeepsTaken(c: Config, s: State, actions: seq<Action>, t: nat, f: nat, p0: nat)
    requires Inv(c, s) && Taken(c, s, t, f, p0)
    ensures Taken(c, Run(c, s, actions), t, f, p0)
    decreases |actions|
  {
    hide Inv, Next, Taken;
    if actions != [] {
      NextKeepsTaken(c, s, actions[0], t, f, p0);
      NextKeepsInv(c, s, actions[0]);
      RunKeepsTaken(c, Next(c, s, actions[0]), actions[1..], t, f, p0);
    }
  }

  lemma NextTakes(c: Config, s: State, a: Action, t: nat, f: nat, p0: nat)
    requires Inv(c, s) && c.chunk > 0 && ChunkAhead(c, s, t, f, p0)
    ensures var s' := Next(c, s, a);
      || Taken(c, s', t, f, p0)
      || (ChunkAhead(c, s', t, f, p0)
          && TurnsToTake(s'.threads[t].at) + (if IsTurn(a, t) then 1 else 0) <= TurnsToTake(s.threads[t].at))
  {
    hide Total, WriterStep, Reading, KnownCompressor, ReaderOk, TurnsToTake;
    NextGrows(c, s, a, f);
    if a.thread != t {
      OtherThreadStays(c, s, a, t);
    } else if a.Step? {
      assert ThreadOk(c, s, t) && EntryOk(c, s, f);
      ReadingTakes(c, s.threads[t], s.entries[f], a.choice);
    }
  }

  lemma NotYet(c: Config, s: State, t: nat, f: nat, p0: nat)
    requires Inv(c, s) && c.chunk > 0 && ChunkAhead(c, s, t, f, p0)
    ensures 1 <= TurnsToTake(s.threads[t].at) <= 6
  {
    hide Total, EntryOk, KnownCompressor;
    assert ThreadOk(c, s, t);
  }

  lemma {:induction false} RunTakes(c: Config, s: State, actions: seq<Action>, t: nat, f: nat, p0: nat)
    requires Inv(c, s) && c.chunk > 0 && ChunkAhead(c, s, t, f, p0)
    ensures Taken(c, Run(c, s, actions), t, f, p0) || Turns(actions, t) < TurnsToTake(s.threads[t].at)
    decreases |actions|
  {
    hide Inv, Next, Taken, ChunkAhead, IsTurn, TurnsToTake;
    NotYet(c, s, t, f, p0);
    if actions != [] {
      var s1 := Next(c, s, actions[0]);
      NextTakes(c, s, actions[0], t, f, p0);
      NextKeepsInv(c, s, actions[0]);
      if Taken(c, s1, t, f, p0) {
        RunKeepsTaken(c, s1, actions[1..], t, f, p0);
      } else {
        RunTakes(c, s1, actions[1..], t, f, p0);
      }
    }
  }

  /** Whether its entry is finished, still being filled, or stuck: a reader with a whole chunk in front of
      it has taken that chunk, the next bytes of the stream, after six turns of its own, unless its client
      has gone away. */
  lemma ReadersDoNotWait(c: Config, before: seq<Action>, after: seq<Action>, t: nat)
    requires c.chunk > 0 && Turns(after, t) >= 6
    requires var s := Run(c, INIT, before);
      && t in s.threads && s.threads[t].Reader? && !s.threads[t].broken && s.threads[t].file in s.entries
      && s.entries[s.threads[t].file].eof - s.threads[t].curPos >= c.chunk
    ensures var th := Run(c, INIT, before).threads[t]; var s' := Run(c, INIT, before + after);
      && t in s'.threads && s'.threads[t].Reader?
      && (s'.threads[t].broken
          || (s'.threads[t].curPos >= th.curPos + c.chunk
              && th.curPos + c.chunk <= |c.stream(th.file)|
              && c.stream(th.file)[..th.curPos + c.chunk] <= s'.threads[t].taken))
  {
    hide Run, Inv, Turns;
    var s := Run(c, INIT, before);
    var f, p0 := s.threads[t].file, s.threads[t].curPos;
    Reachable(c, before);
    RunInParts(c, INIT, before, after);
    NotYet(c, s, t, f, p0);
    RunTakes(c, s, after, t, f, p0);
    Transparency(c, before, t);
    Transparency(c, before + after, t);
  }
}
