/** Every action of the cache keeps the invariant. */
module CacheSteps {
  import opened Bytes
  import opened CachedFiles
  import opened CacheProtocol
  import opened CacheInvariant

  lemma LocalTest(c: Config, th: Thread, k: Compressor, e: Cached)
    requires !th.Reader? && WriterOk(c, th, k, e) && th.pc == Test && (!k.caching ==> e == EMPTY)
    ensures WriterOk(c, WithPc(th, TestPc(th, k)), k, e)
  {}

  /** What a read of a compressing stream does, in terms of the stream. */
  lemma FetchedFacts(c: Config, k: Compressor, n: nat, choice: Choice)
    requires k.pos <= |c.stream(k.file)|
    ensures var (s, k') := Fetched(c, k, n, choice);
      && k'.file == k.file && k'.caching == k.caching
      && k.pos <= k'.pos <= |c.stream(k.file)|
      && s == c.stream(k.file)[k.pos..k'.pos] && c.stream(k.file)[..k.pos] + s == c.stream(k.file)[..k'.pos]
      && (!k.failbit && !k.eofbit ==>
            && (k'.failbit && !k'.eofbit ==> choice.wrong)
            && (k'.eofbit ==> k'.failbit && k'.pos == |c.stream(k.file)|)
            && (n > 0 ==> k'.failbit || k.pos < k'.pos))
      && (k.failbit ==> k' == k)
      && (!k.failbit && !k.eofbit ==>
            var rest := |c.stream(k.file)| - k.pos;
            && |s| == Min(if choice.wrong then Min(choice.passed, n) else n, rest)
            && k'.failbit == (choice.wrong || n > rest) && k'.eofbit == (!choice.wrong && n > rest))
  {
    var stream := c.stream(k.file);
    var (s, k') := Fetched(c, k, n, choice);
    assert stream[..k.pos] + stream[k.pos..k'.pos] == stream[..k'.pos];
  }

  lemma LocalFetch(c: Config, th: Thread, k: Compressor, e: Cached, n: nat, choice: Choice)
    requires !th.Reader? && WriterOk(c, th, k, e) && th.pc == Fetch
    ensures var (chunk, k1) := Fetched(c, k, n, choice); WriterOk(c, WithPc(th, Insert(chunk)), k1, e)
  {
    hide Fetched;
    FetchedFacts(c, k, n, choice);
  }

  /** A session asks for its own chunk size and a takeover thread for another. */
  lemma FetchAsks(c: Config, s: State, t: nat, choice: Choice)
    requires t in s.threads && LiveWriter(s.threads[t]) && s.threads[t].pc == Fetch
    requires s.threads[t].maker in s.compressors
    requires var k := s.compressors[s.threads[t].maker];
      k.pos <= |c.stream(k.file)| && !k.failbit && !k.eofbit && !choice.wrong
    ensures var th, s' := s.threads[t], WriterStep(c, s, t, choice);
      var k := s.compressors[th.maker];
      var end := k.pos + Min(if th.Takeover? then c.takeoverChunk else c.chunk, |c.stream(k.file)| - k.pos);
      s'.threads[t].pc == Insert(c.stream(k.file)[k.pos..end]) && s'.compressors[th.maker].pos == end
  {
    hide Fetched;
    var th := s.threads[t];
    FetchedFacts(c, s.compressors[th.maker], if th.Sender? then c.chunk else c.takeoverChunk, choice);
  }

  /** What a client gets of a chunk: all of it, or as many bytes as still pass. */
  lemma ClientGets(c: Config, s: State, t: nat, choice: Choice, e: Cached)
    requires t in s.threads && e.eof <= |e.buf| && choice.heir !in s.threads
    ensures s.threads[t].Sender? && s.threads[t].pc.Send? && s.threads[t].maker in s.compressors ==>
      var th, chunk := s.threads[t], s.threads[t].pc.chunk;
      SendStep(s, t, chunk, choice).threads[t].sent
      == th.sent + chunk[..if choice.wrong then Min(choice.passed, |chunk|) else |chunk|]
    ensures s.threads[t].Reader? && s.threads[t].at.ReadSend? ==>
      var th, data := s.threads[t], s.threads[t].at.data;
      Reading(c, th, e, choice).sent
      == th.sent + data[..if choice.wrong then Min(choice.passed, |data|) else |data|]
  {}

  lemma LocalInsert(c: Config, th: Thread, k: Compressor, e: Cached)
    requires !th.Reader? && WriterOk(c, th, k, e) && th.pc.Insert? && k.caching
    ensures WriterOk(c, WithPc(th, Bump(th.pc.chunk)), k, Inserted(e, th.pc.chunk))
    ensures Inserted(e, th.pc.chunk).buf <= c.stream(k.file)
  {}

  lemma LocalSkip(c: Config, th: Thread, k: Compressor, e: Cached)
    requires !th.Reader? && WriterOk(c, th, k, e) && th.pc.Insert? && !k.caching && e == EMPTY
    ensures WriterOk(c, WithPc(th, AfterRead(th, th.pc.chunk)), k, e)
  {}

  lemma LocalBump(c: Config, th: Thread, k: Compressor, e: Cached)
    requires !th.Reader? && WriterOk(c, th, k, e) && th.pc.Bump?
    ensures WriterOk(c, WithPc(th, AfterRead(th, th.pc.chunk)), k, Bumped(e, |th.pc.chunk|))
  {}

  lemma LocalCheck(c: Config, th: Thread, k: Compressor, e: Cached)
    requires !th.Reader? && WriterOk(c, th, k, e) && th.pc.Check? && (!k.caching ==> e == EMPTY)
    ensures WriterOk(c, WithPc(th, CheckPc(k, th.pc.chunk)), k, e)
  {}

  lemma LocalDecide(c: Config, th: Thread, k: Compressor, e: Cached)
    requires !th.Reader? && WriterOk(c, th, k, e) && th.pc.Decide? && (!k.caching ==> e == EMPTY)
    ensures WriterOk(c, WithPc(th, DecidePc(k, th.pc.chunk)), k, e)
  {}

  lemma LocalMark(c: Config, th: Thread, k: Compressor, e: Cached)
    requires !th.Reader? && WriterOk(c, th, k, e) && th.pc.Mark?
    ensures WriterOk(c, WithPc(th, Flag(th.pc.next)), k, Marked(e))
    ensures Marked(e) == e
  {}

  lemma LocalFlag(c: Config, th: Thread, k: Compressor, e: Cached)
    requires !th.Reader? && WriterOk(c, th, k, e) && th.pc.Flag?
    ensures WriterOk(c, WithPc(th, th.pc.next), k, Flagged(e))
    ensures e.eof == |e.buf|
  {}

  lemma LocalSend(c: Config, th: Thread, k: Compressor, e: Cached)
    requires th.Sender? && WriterOk(c, th, k, e) && th.pc.Send? && (!k.caching ==> e == EMPTY)
    ensures WriterOk(c, th.(pc := Test, sent := th.sent + th.pc.chunk), k, e)
  {}

  lemma LocalBreak(c: Config, th: Thread, k: Compressor, e: Cached, m: nat)
    requires th.Sender? && WriterOk(c, th, k, e) && th.pc.Send? && m <= |th.pc.chunk| && (!k.caching ==> e == EMPTY)
    ensures th.sent + th.pc.chunk[..m] <= c.stream(k.file)[..k.pos] <= c.stream(k.file)
    ensures !k.caching ==> WriterOk(c, th.(pc := Finished, sent := th.sent + th.pc.chunk[..m], broken := true), k, e)
    ensures k.caching ==> WriterOk(c, Takeover(th.maker, Test), k, e)
  {}

  /** What is known of a live thread. */
  lemma LiveFacts(c: Config, s: State, t: nat)
    requires Inv(c, s) && t in s.threads && LiveWriter(s.threads[t])
    ensures var th := s.threads[t]; th.maker in s.compressors && th.maker in s.owner && s.owner[th.maker] == t
    ensures var th := s.threads[t]; var k := s.compressors[th.maker];
      && WriterOk(c, th, k, EntryOf(s, k)) && Disciplined(EntryOf(s, k))
      && EntryOf(s, k).buf <= c.stream(k.file)
      && (if k.caching then k.file in s.entries else EntryOf(s, k) == EMPTY)
  {
    hide Total, WriterOk, ReaderOk;
    OwnerIsLive(c, s, t);
    var k := s.compressors[s.threads[t].maker];
    assert KnownCompressor(c, s, s.threads[t].maker);
    if k.caching {
      assert EntryOk(c, s, k.file);
    }
  }

  /** The thread moves on, its compressor and the entry are as before. */
  lemma MoveKeepsInv(c: Config, s: State, t: nat, th: Thread)
    requires Inv(c, s) && t in s.threads && LiveWriter(s.threads[t]) && s.threads[t].maker in s.compressors
    requires !th.Reader? && th.Sender? == s.threads[t].Sender? && th.maker == s.threads[t].maker
    requires WriterOk(c, th, s.compressors[th.maker], EntryOf(s, s.compressors[th.maker]))
    ensures Inv(c, Moved(s, t, th))
  {
    hide Total, WriterOk, ReaderOk, Disciplined, Inv;
    LiveFacts(c, s, t);
    var k := s.compressors[th.maker];
    UpdateKeepsInv(c, s, t, th, k, EntryOf(s, k));
    assert s.compressors[th.maker := k] == s.compressors;
    assert k.caching ==> s.entries[k.file := EntryOf(s, k)] == s.entries;
  }

  lemma FetchKeepsInv(c: Config, s: State, t: nat, choice: Choice)
    requires Inv(c, s) && t in s.threads && LiveWriter(s.threads[t]) && s.threads[t].pc == Fetch
    ensures Inv(c, WriterStep(c, s, t, choice))
  {
    hide Total, WriterOk, ReaderOk, Disciplined, Inv;
    LiveFacts(c, s, t);
    var th := s.threads[t];
    var k := s.compressors[th.maker];
    var n := if th.Sender? then c.chunk else c.takeoverChunk;
    if k.pos <= |c.stream(k.file)| {
      LocalFetch(c, th, k, EntryOf(s, k), n, choice);
      var (chunk, k1) := Fetched(c, k, n, choice);
      UpdateKeepsInv(c, s, t, WithPc(th, Insert(chunk)), k1, EntryOf(s, k));
      assert k.caching ==> s.entries[k.file := EntryOf(s, k)] == s.entries;
    }
  }

  /** The thread moves on and changes its entry. */
  lemma ChangeKeepsInv(c: Config, s: State, t: nat, th: Thread, e: Cached)
    requires Inv(c, s) && t in s.threads && LiveWriter(s.threads[t]) && s.threads[t].maker in s.compressors
    requires !th.Reader? && th.Sender? == s.threads[t].Sender? && th.maker == s.threads[t].maker
    requires var k := s.compressors[th.maker];
      && k.caching && WriterOk(c, th, k, e)
      && Grows(EntryOf(s, k), e) && Disciplined(e) && e.buf <= c.stream(k.file)
    ensures Inv(c, Moved(s, t, th).(entries := s.entries[s.compressors[th.maker].file := e]))
  {
    hide Total, WriterOk, ReaderOk, Disciplined, Grows, Inv;
    LiveFacts(c, s, t);
    var k := s.compressors[th.maker];
    UpdateKeepsInv(c, s, t, th, k, e);
    assert s.compressors[th.maker := k] == s.compressors;
  }

  lemma InsertKeepsInv(c: Config, s: State, t: nat, choice: Choice)
    requires Inv(c, s) && t in s.threads && LiveWriter(s.threads[t]) && s.threads[t].pc.Insert?
    ensures Inv(c, WriterStep(c, s, t, choice))
  {
    hide Total, ReaderOk, Inv, Stage;
    LiveFacts(c, s, t);
    var th := s.threads[t];
    var k := s.compressors[th.maker];
    if k.caching {
      LocalInsert(c, th, k, EntryOf(s, k));
      ChangeKeepsInv(c, s, t, WithPc(th, Bump(th.pc.chunk)), Inserted(EntryOf(s, k), th.pc.chunk));
    } else {
      LocalSkip(c, th, k, EntryOf(s, k));
      MoveKeepsInv(c, s, t, WithPc(th, AfterRead(th, th.pc.chunk)));
    }
  }

  lemma BumpKeepsInv(c: Config, s: State, t: nat, choice: Choice)
    requires Inv(c, s) && t in s.threads && LiveWriter(s.threads[t]) && s.threads[t].pc.Bump?
    ensures Inv(c, WriterStep(c, s, t, choice))
  {
    hide Total, ReaderOk, Inv;
    LiveFacts(c, s, t);
    var th := s.threads[t];
    var k := s.compressors[th.maker];
    LocalBump(c, th, k, EntryOf(s, k));
    ChangeKeepsInv(c, s, t, WithPc(th, AfterRead(th, th.pc.chunk)), Bumped(EntryOf(s, k), |th.pc.chunk|));
  }

  lemma MarkKeepsInv(c: Config, s: State, t: nat, choice: Choice)
    requires Inv(c, s) && t in s.threads && LiveWriter(s.threads[t]) && (s.threads[t].pc.Mark? || s.threads[t].pc.Flag?)
    ensures Inv(c, WriterStep(c, s, t, choice))
  {
    hide Total, ReaderOk, Inv, Stage;
    LiveFacts(c, s, t);
    var th := s.threads[t];
    var k := s.compressors[th.maker];
    if th.pc.Mark? {
      LocalMark(c, th, k, EntryOf(s, k));
      ChangeKeepsInv(c, s, t, WithPc(th, Flag(th.pc.next)), Marked(EntryOf(s, k)));
    } else {
      LocalFlag(c, th, k, EntryOf(s, k));
      ChangeKeepsInv(c, s, t, WithPc(th, th.pc.next), Flagged(EntryOf(s, k)));
    }
  }

  lemma TurnKeepsInv(c: Config, s: State, t: nat, choice: Choice)
    requires Inv(c, s) && t in s.threads && LiveWriter(s.threads[t])
    requires s.threads[t].pc == Test || s.threads[t].pc.Check? || s.threads[t].pc.Decide?
    ensures Inv(c, WriterStep(c, s, t, choice))
  {
    hide Total, ReaderOk, Inv, WriterOk, Disciplined;
    LiveFacts(c, s, t);
    var th := s.threads[t];
    var k := s.compressors[th.maker];
    if th.pc == Test {
      LocalTest(c, th, k, EntryOf(s, k));
      MoveKeepsInv(c, s, t, WithPc(th, TestPc(th, k)));
    } else if th.pc.Check? {
      LocalCheck(c, th, k, EntryOf(s, k));
      MoveKeepsInv(c, s, t, WithPc(th, CheckPc(k, th.pc.chunk)));
    } else {
      LocalDecide(c, th, k, EntryOf(s, k));
      MoveKeepsInv(c, s, t, WithPc(th, DecidePc(k, th.pc.chunk)));
    }
  }

  /** The owner of a compressor retires and a takeover thread becomes the owner. */
  function HandedOver(s: State, t: nat, gone: Thread, heir: nat): State
    requires !gone.Reader?
  {
    s.(threads := s.threads[t := gone][heir := Takeover(gone.maker, Test)], owner := s.owner[gone.maker := heir])
  }

  ghost predicate HandsOver(c: Config, s: State, t: nat, gone: Thread, heir: nat) {
    && t in s.threads && LiveWriter(s.threads[t]) && heir !in s.threads
    && gone.Sender? && gone.maker == s.threads[t].maker && gone.maker in s.compressors
    && var k := s.compressors[gone.maker];
       k.caching && RetiredOk(c, gone, k) && WriterOk(c, Takeover(gone.maker, Test), k, EntryOf(s, k))
  }

  lemma HandoverKeepsCompressor(c: Config, s: State, t: nat, gone: Thread, heir: nat, m: nat)
    requires Inv(c, s) && HandsOver(c, s, t, gone, heir) && m in s.compressors
    ensures KnownCompressor(c, HandedOver(s, t, gone, heir), m)
  {
    hide Total, WriterOk, RetiredOk, EntryOk, ThreadOk;
    OwnerIsLive(c, s, t);
    assert KnownCompressor(c, s, m);
  }

  lemma HandoverKeepsThread(c: Config, s: State, t: nat, gone: Thread, heir: nat, u: nat)
    requires Inv(c, s) && HandsOver(c, s, t, gone, heir) && u in s.threads
    ensures ThreadOk(c, HandedOver(s, t, gone, heir), u)
  {
    hide Total, WriterOk, RetiredOk, ReaderOk, EntryOk, KnownCompressor;
    OwnerIsLive(c, s, t);
    assert ThreadOk(c, s, u);
  }

  lemma HandoverKeepsInv(c: Config, s: State, t: nat, gone: Thread, heir: nat)
    requires Inv(c, s) && HandsOver(c, s, t, gone, heir)
    ensures Inv(c, HandedOver(s, t, gone, heir))
  {
    hide Total, WriterOk, RetiredOk, ReaderOk, KnownCompressor, ThreadOk;
    var s' := HandedOver(s, t, gone, heir);
    OwnerIsLive(c, s, t);
    forall f | f in s'.entries ensures EntryOk(c, s', f) {
      assert EntryOk(c, s, f);
    }
    forall m | m in s'.compressors ensures KnownCompressor(c, s', m) {
      HandoverKeepsCompressor(c, s, t, gone, heir, m);
    }
    forall u | u in s'.threads ensures ThreadOk(c, s', u) {
      if u == heir {
        HeirOk(c, s, t, gone, heir);
      } else {
        HandoverKeepsThread(c, s, t, gone, heir, u);
      }
    }
  }

  lemma HeirOk(c: Config, s: State, t: nat, gone: Thread, heir: nat)
    requires HandsOver(c, s, t, gone, heir)
    ensures ThreadOk(c, HandedOver(s, t, gone, heir), heir)
  {
    hide WriterOk, RetiredOk, ReaderOk;
  }

  lemma SendKeepsInv(c: Config, s: State, t: nat, choice: Choice)
    requires Inv(c, s) && t in s.threads && LiveWriter(s.threads[t]) && s.threads[t].pc.Send?
    ensures Inv(c, WriterStep(c, s, t, choice))
  {
    hide Total, ReaderOk, Inv, WriterOk, Disciplined;
    LiveFacts(c, s, t);
    var th := s.threads[t];
    var k := s.compressors[th.maker];
    if th.Sender? {
      var m := Min(choice.passed, |th.pc.chunk|);
      LocalBreak(c, th, k, EntryOf(s, k), m);
      if !choice.wrong {
        LocalSend(c, th, k, EntryOf(s, k));
        MoveKeepsInv(c, s, t, th.(pc := Test, sent := th.sent + th.pc.chunk));
      } else {
        var gone := th.(pc := Finished, sent := th.sent + th.pc.chunk[..m], broken := true);
        if !k.caching {
          MoveKeepsInv(c, s, t, gone);
        } else if choice.heir !in s.threads {
          HandoverKeepsInv(c, s, t, gone, choice.heir);
        }
      }
    }
  }

  lemma WriterStepKeepsInv(c: Config, s: State, t: nat, choice: Choice)
    requires Inv(c, s) && t in s.threads && LiveWriter(s.threads[t])
    ensures Inv(c, WriterStep(c, s, t, choice))
  {
    hide Inv, WriterStep;
    match s.threads[t].pc
    case Fetch => FetchKeepsInv(c, s, t, choice);
    case Insert(_) => InsertKeepsInv(c, s, t, choice);
    case Bump(_) => BumpKeepsInv(c, s, t, choice);
    case Mark(_) => MarkKeepsInv(c, s, t, choice);
    case Flag(_) => MarkKeepsInv(c, s, t, choice);
    case Send(_) => SendKeepsInv(c, s, t, choice);
    case _ => TurnKeepsInv(c, s, t, choice);
  }

  lemma LocalReader(c: Config, th: Thread, e: Cached, choice: Choice)
    requires th.Reader? && Disciplined(e) && e.buf <= c.stream(th.file) && ReaderOk(c, th, e)
    ensures var th' := Reading(c, th, e, choice); th'.Reader? && th'.file == th.file && ReaderOk(c, th', e)
  {
    if th.at.Copy? {
      CopyIsStream(e, c.stream(th.file), th.curPos, c.chunk);
    } else if th.at.Advance? {
      assert th.taken + th.at.data == c.stream(th.file)[..th.curPos + |th.at.data|];
    }
  }

  lemma CopyIsStream(e: Cached, stream: Bytes, pos: nat, n: nat)
    requires Disciplined(e) && e.buf <= stream && pos <= e.eof && Ready(e, pos, n)
    ensures var data := Copied(e, pos, n);
      && pos + |data| <= e.eof && data == stream[pos..pos + |data|]
      && (|data| == n || (|data| < n && e.done && pos + |data| == e.eof))
  {}

  lemma ReaderStepKeepsInv(c: Config, s: State, t: nat, choice: Choice)
    requires Inv(c, s) && t in s.threads && s.threads[t].Reader?
    ensures Inv(c, ReaderStep(c, s, t, choice))
  {
    hide Total, WriterOk, ReaderOk, Reading, RetiredOk;
    var s' := ReaderStep(c, s, t, choice);
    assert ThreadOk(c, s, t) && EntryOk(c, s, s.threads[t].file);
    LocalReader(c, s.threads[t], s.entries[s.threads[t].file], choice);
    forall f | f in s'.entries ensures EntryOk(c, s', f) {
      assert EntryOk(c, s, f);
    }
    forall m | m in s'.compressors ensures KnownCompressor(c, s', m) {
      assert KnownCompressor(c, s, m);
    }
    forall u | u in s'.threads ensures ThreadOk(c, s', u) {
      assert ThreadOk(c, s, u);
    }
  }

  lemma RequestKeepsEntry(c: Config, s: State, t: nat, f: nat, g: nat)
    requires Inv(c, s) && t !in s.threads && g in Requested(c, s, t, f).entries
    ensures EntryOk(c, Requested(c, s, t, f), g)
  {
    hide Total, WriterOk, ReaderOk, RetiredOk, ThreadOk;
    NoCompressor(c, s, t);
    if g in s.entries {
      assert EntryOk(c, s, g);
    }
  }

  lemma NoCompressor(c: Config, s: State, t: nat)
    requires Inv(c, s) && t !in s.threads
    ensures t !in s.compressors
  {
    hide Total, WriterOk, ThreadOk, EntryOk;
    assert t in s.compressors ==> KnownCompressor(c, s, t);
  }

  lemma RequestKeepsCompressor(c: Config, s: State, t: nat, f: nat, m: nat)
    requires Inv(c, s) && t !in s.threads && m in s.compressors
    ensures m in Requested(c, s, t, f).compressors && KnownCompressor(c, Requested(c, s, t, f), m)
  {
    hide Total, WriterOk, ReaderOk, RetiredOk, ThreadOk, EntryOk;
    NoCompressor(c, s, t);
    assert KnownCompressor(c, s, m);
  }

  lemma RequestedCompressorOk(c: Config, s: State, t: nat, f: nat)
    requires t !in s.compressors && t in Requested(c, s, t, f).compressors
    ensures KnownCompressor(c, Requested(c, s, t, f), t)
  {
    hide WriterOk;
    NewThreads(c, f, t);
  }

  lemma RequestKeepsThread(c: Config, s: State, t: nat, f: nat, u: nat)
    requires Inv(c, s) && t !in s.threads && u in s.threads
    ensures ThreadOk(c, Requested(c, s, t, f), u)
  {
    hide Total, WriterOk, ReaderOk, RetiredOk, KnownCompressor, EntryOk;
    NoCompressor(c, s, t);
    assert ThreadOk(c, s, u);
  }

  lemma RequestedThreadOk(c: Config, s: State, t: nat, f: nat)
    requires Inv(c, s) && t !in s.threads
    ensures ThreadOk(c, Requested(c, s, t, f), t)
  {
    hide Total, WriterOk, ReaderOk, RetiredOk, KnownCompressor;
    NewThreads(c, f, t);
    if f in s.entries {
      assert EntryOk(c, s, f);
    }
  }

  lemma NewThreads(c: Config, f: nat, t: nat)
    ensures WriterOk(c, Sender(t, Test, [], false), Compressor(f, true, 0, false, false), EMPTY)
    ensures WriterOk(c, Sender(t, Test, [], false), Compressor(f, false, 0, false, false), EMPTY)
    ensures forall e: Cached :: e.eof <= |c.stream(f)| ==> ReaderOk(c, Reader(f, 0, ReadTest, [], [], false), e)
  {}

  lemma RequestKeepsInv(c: Config, s: State, t: nat, f: nat)
    requires Inv(c, s) && t !in s.threads
    ensures Inv(c, Requested(c, s, t, f))
  {
    hide EntryOk, KnownCompressor, ThreadOk;
    var s' := Requested(c, s, t, f);
    forall g | g in s'.entries ensures EntryOk(c, s', g) { RequestKeepsEntry(c, s, t, f, g); }
    forall m | m in s'.compressors ensures KnownCompressor(c, s', m) {
      NoCompressor(c, s, t);
      if m == t { RequestedCompressorOk(c, s, t, f); } else { RequestKeepsCompressor(c, s, t, f, m); }
    }
    forall u | u in s'.threads ensures ThreadOk(c, s', u) {
      if u == t { RequestedThreadOk(c, s, t, f); } else { RequestKeepsThread(c, s, t, f, u); }
    }
    if f !in s.entries && c.size(f) < c.threshold {
      TotalWithout(c.size, s.entries.Keys + {f}, f);
      assert s.entries.Keys + {f} - {f} == s.entries.Keys;
      assert s.entries[f := EMPTY].Keys == s.entries.Keys + {f};
    }
  }

  lemma NextKeepsInv(c: Config, s: State, a: Action)
    requires Inv(c, s)
    ensures Inv(c, Next(c, s, a))
  {
    hide Inv, WriterStep, ReaderStep, Requested;
    match a
    case Request(t, f) => if t !in s.threads { RequestKeepsInv(c, s, t, f); }
    case Step(t, choice) =>
      if t in s.threads {
        if s.threads[t].Reader? {
          ReaderStepKeepsInv(c, s, t, choice);
        } else if s.threads[t].pc != Finished {
          WriterStepKeepsInv(c, s, t, choice);
        }
      }
  }

  lemma {:induction false} RunKeepsInv(c: Config, s: State, actions: seq<Action>)
    requires Inv(c, s)
    ensures Inv(c, Run(c, s, actions))
    decreases |actions|
  {
    hide Inv, Next;
    if actions != [] {
      NextKeepsInv(c, s, actions[0]);
      RunKeepsInv(c, Next(c, s, actions[0]), actions[1..]);
    }
  }
}
