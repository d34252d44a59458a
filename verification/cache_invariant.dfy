/** What every micro-step of the cache keeps. */
module CacheInvariant {
  import opened Bytes
  import opened CachedFiles
  import opened CacheProtocol

  /** Sum of the sizes of the cached files. */
  ghost function Total(size: nat -> nat, keys: set<nat>): nat
    decreases |keys|
  {
    if keys == {} then 0 else
      var k :| k in keys;
      size(k) + Total(size, keys - {k})
  }

  lemma {:induction false} TotalWithout(size: nat -> nat, keys: set<nat>, k: nat)
    requires k in keys
    ensures Total(size, keys) == size(k) + Total(size, keys - {k})
    decreases |keys|
  {
    var j :| j in keys && Total(size, keys) == size(j) + Total(size, keys - {j});
    if j != k {
      TotalWithout(size, keys - {j}, k);
      TotalWithout(size, keys - {k}, j);
      assert keys - {j} - {k} == keys - {k} - {j};
    }
  }

  /** The chunk of a session that has left the stream and not yet reached the client. */
  function Pending(pc: WriterPc): Bytes {
    match pc
    case Insert(chunk) => chunk
    case Bump(chunk) => chunk
    case Check(chunk) => chunk
    case Decide(chunk) => chunk
    case Send(chunk) => chunk
    case Mark(next) => Pending(next)
    case Flag(next) => Pending(next)
    case _ => []
  }

  /** The cached file a compressor fills has what the compressor has produced, up to the step its
      thread is in. */
  ghost predicate Stage(c: Config, k: Compressor, e: Cached, pc: WriterPc)
    requires k.pos <= |c.stream(k.file)|
  {
    var produced := c.stream(k.file)[..k.pos];
    if pc.Insert? then !e.done && e.buf + pc.chunk == produced && e.eof == |e.buf|
    else if pc.Bump? then !e.done && e.buf == produced && e.eof + |pc.chunk| == |e.buf|
    else e.buf == produced && e.eof == |e.buf|
  }

  /** The entry is finished, or there is none. */
  predicate Closed(k: Compressor, e: Cached) {
    !k.caching || e.done
  }

  /** Where a thread can be, given the stream and the entry. */
  ghost predicate PcOk(session: bool, pc: WriterPc, k: Compressor, e: Cached) {
    match pc
    case Test => if session then (k.failbit ==> Closed(k, e)) && (e.done ==> k.failbit) else e.done ==> k.eofbit
    case Fetch => !k.eofbit && (k.caching ==> !e.done) && (session ==> !k.failbit)
    case Insert(_) => k.caching ==> !e.done
    case Bump(_) => k.caching && !e.done
    case Check(_) => session && (k.caching ==> !e.done)
    case Decide(_) => session && (k.failbit ==> Closed(k, e)) && (e.done ==> k.failbit)
    case Send(_) => session && (k.failbit ==> Closed(k, e) && k.eofbit) && (e.done ==> k.failbit)
    case Mark(next) => k.caching && k.failbit && NextOk(session, next, k)
    case Flag(next) => k.caching && k.failbit && NextOk(session, next, k)
    case Finished => (k.caching ==> e.done) && (e.done ==> k.failbit) && (!session ==> k.eofbit)
  }

  /** Where a thread goes on after it has finished its entry. */
  ghost predicate NextOk(session: bool, next: WriterPc, k: Compressor) {
    || (next == Finished && k.eofbit)
    || (next.Decide? && session)
    || (next.Send? && session && k.eofbit)
  }

  ghost predicate CompressorOk(c: Config, k: Compressor) {
    && k.pos <= |c.stream(k.file)|
    && (k.eofbit ==> k.failbit && k.pos == |c.stream(k.file)|)
  }

  /** A thread that uses its compressor. */
  ghost predicate WriterOk(c: Config, th: Thread, k: Compressor, e: Cached)
    requires !th.Reader?
  {
    && CompressorOk(c, k)
    && PcOk(th.Sender?, th.pc, k, e)
    && (k.caching ==> Stage(c, k, e, th.pc))
    && (th.Takeover? ==> k.caching)
    && (th.Sender? && th.pc != Finished ==> !th.broken && th.sent + Pending(th.pc) == c.stream(k.file)[..k.pos])
    && (th.Sender? && th.pc == Finished ==> th.sent <= c.stream(k.file)[..k.pos])
    && (th.Sender? && th.pc == Finished && !th.broken ==>
          k.failbit && (k.eofbit ==> th.sent == c.stream(k.file)))
  }

  /** A session that has handed its compressor over. */
  ghost predicate RetiredOk(c: Config, th: Thread, k: Compressor)
    requires !th.Reader?
  {
    th.Sender? && th.broken && th.pc == Finished && th.sent <= c.stream(k.file)
  }

  ghost predicate ReaderOk(c: Config, th: Thread, e: Cached)
    requires th.Reader?
  {
    && th.curPos <= e.eof <= |c.stream(th.file)|
    && th.taken == c.stream(th.file)[..th.curPos]
    && match th.at
       case Copy => th.sent == th.taken && !th.broken && Ready(e, th.curPos, c.chunk)
       case Advance(data) =>
         && th.sent == th.taken && !th.broken
         && th.curPos + |data| <= e.eof && data == c.stream(th.file)[th.curPos..th.curPos + |data|]
         && (|data| == c.chunk || (|data| < c.chunk && e.done && th.curPos + |data| == e.eof))
       case ReadSend(data) => th.sent + data == th.taken && !th.broken
       case ReadFinished => th.sent <= th.taken && (!th.broken ==> th.sent == th.taken && e.done && th.curPos == e.eof)
       case _ => th.sent == th.taken && !th.broken
  }

  /** The entry a compressor fills; any value for a compressor that does not cache. */
  function EntryOf(s: State, k: Compressor): Cached {
    if k.caching && k.file in s.entries then s.entries[k.file] else EMPTY
  }

  ghost predicate EntryOk(c: Config, s: State, f: nat)
    requires f in s.entries
  {
    && Disciplined(s.entries[f])
    && s.entries[f].buf <= c.stream(f)
    && c.size(f) < c.threshold
    && f in s.makers && s.makers[f] in s.compressors
    && s.compressors[s.makers[f]].file == f && s.compressors[s.makers[f]].caching
  }

  ghost predicate KnownCompressor(c: Config, s: State, m: nat)
    requires m in s.compressors
  {
    var k := s.compressors[m];
    && m in s.threads && m in s.owner && s.owner[m] in s.threads
    && !s.threads[s.owner[m]].Reader? && s.threads[s.owner[m]].maker == m
    && WriterOk(c, s.threads[s.owner[m]], k, EntryOf(s, k))
    && (k.caching ==> k.file in s.entries && k.file in s.makers && s.makers[k.file] == m)
  }

  ghost predicate ThreadOk(c: Config, s: State, t: nat)
    requires t in s.threads
  {
    var th := s.threads[t];
    if th.Reader? then
      th.file in s.entries && ReaderOk(c, th, s.entries[th.file])
    else
      th.maker in s.compressors && th.maker in s.owner
      && (s.owner[th.maker] == t || RetiredOk(c, th, s.compressors[th.maker]))
  }

  ghost predicate Inv(c: Config, s: State) {
    && (forall f | f in s.entries :: EntryOk(c, s, f))
    && (forall m | m in s.compressors :: KnownCompressor(c, s, m))
    && (forall t | t in s.threads :: ThreadOk(c, s, t))
    && s.cacheSize == Total(c.size, s.entries.Keys)
  }

  lemma InitInv(c: Config)
    ensures Inv(c, INIT)
  {}

  /** What one thread does to its entry leaves every reader where it was. */
  lemma ReaderGrows(c: Config, th: Thread, e: Cached, e': Cached)
    requires th.Reader? && ReaderOk(c, th, e) && Grows(e, e') && e'.eof <= |c.stream(th.file)|
    ensures ReaderOk(c, th, e')
  {}

  /** The state after thread t has changed itself, its compressor and the entry that one fills. */
  function Updated(s: State, t: nat, th: Thread, k: Compressor, e: Cached): State
    requires !th.Reader?
  {
    s.(threads := s.threads[t := th], compressors := s.compressors[th.maker := k],
       entries := if k.caching then s.entries[k.file := e] else s.entries)
  }

  /** What a step of a thread has to respect: the rest of the state needs no more. */
  ghost predicate Respects(c: Config, s: State, t: nat, th: Thread, k: Compressor, e: Cached) {
    && t in s.threads && LiveWriter(s.threads[t]) && s.threads[t].maker in s.compressors
    && !th.Reader? && th.Sender? == s.threads[t].Sender? && th.maker == s.threads[t].maker
    && (var k0 := s.compressors[th.maker];
        && k.file == k0.file && k.caching == k0.caching
        && Grows(EntryOf(s, k0), e) && Disciplined(e) && e.buf <= c.stream(k.file)
        && (!k.caching ==> e == EMPTY))
    && WriterOk(c, th, k, e)
  }

  lemma UpdateKeepsCompressor(c: Config, s: State, t: nat, th: Thread, k: Compressor, e: Cached, m: nat)
    requires Inv(c, s) && Respects(c, s, t, th, k, e) && m in s.compressors
    ensures KnownCompressor(c, Updated(s, t, th, k, e), m)
  {
    hide Total, WriterOk, ReaderOk, EntryOk, Grows, Disciplined, ThreadOk;
    assert KnownCompressor(c, s, m) && KnownCompressor(c, s, th.maker);
    OwnerIsLive(c, s, t);
  }

  /** A thread that has not finished is the owner of its compressor. */
  lemma OwnerIsLive(c: Config, s: State, t: nat)
    requires Inv(c, s) && t in s.threads && LiveWriter(s.threads[t])
    ensures s.threads[t].maker in s.compressors && s.threads[t].maker in s.owner && s.owner[s.threads[t].maker] == t
  {
    hide Total, WriterOk, ReaderOk, EntryOk;
    assert ThreadOk(c, s, t);
  }

  lemma UpdateKeepsEntry(c: Config, s: State, t: nat, th: Thread, k: Compressor, e: Cached, f: nat)
    requires Inv(c, s) && Respects(c, s, t, th, k, e) && f in Updated(s, t, th, k, e).entries
    ensures f in s.entries && EntryOk(c, Updated(s, t, th, k, e), f)
  {
    hide Total, WriterOk, ReaderOk;
    assert KnownCompressor(c, s, th.maker);
    assert EntryOk(c, s, f);
  }

  /** A reader follows the step of another thread. */
  lemma UpdateKeepsReader(c: Config, s: State, t: nat, th: Thread, k: Compressor, e: Cached, u: nat)
    requires Inv(c, s) && Respects(c, s, t, th, k, e) && u in s.threads && s.threads[u].Reader?
    ensures ThreadOk(c, Updated(s, t, th, k, e), u)
  {
    hide Total, WriterOk, ReaderOk, EntryOk, Disciplined, Grows;
    assert ThreadOk(c, s, u) && KnownCompressor(c, s, th.maker);
    var x := s.threads[u];
    if k.caching && x.file == k.file {
      EofInStream(c, e, k);
      ReaderGrows(c, x, s.entries[x.file], e);
    }
  }

  /** So do the other threads that have had a compressor. */
  lemma UpdateKeepsWriter(c: Config, s: State, t: nat, th: Thread, k: Compressor, e: Cached, u: nat)
    requires Inv(c, s) && Respects(c, s, t, th, k, e) && u in s.threads && !s.threads[u].Reader?
    ensures ThreadOk(c, Updated(s, t, th, k, e), u)
  {
    hide Total, WriterOk, ReaderOk, EntryOk, Disciplined, Grows, KnownCompressor;
    assert ThreadOk(c, s, u);
    OwnerIsLive(c, s, t);
  }

  lemma EofInStream(c: Config, e: Cached, k: Compressor)
    requires Disciplined(e) && e.buf <= c.stream(k.file)
    ensures e.eof <= |c.stream(k.file)|
  {}

  lemma UpdateKeepsInv(c: Config, s: State, t: nat, th: Thread, k: Compressor, e: Cached)
    requires Inv(c, s) && Respects(c, s, t, th, k, e)
    ensures Inv(c, Updated(s, t, th, k, e))
  {
    hide Total, EntryOk, ThreadOk, WriterOk;
    var s' := Updated(s, t, th, k, e);
    assert KnownCompressor(c, s, th.maker);
    assert s'.entries.Keys == s.entries.Keys;
    forall f | f in s'.entries ensures EntryOk(c, s', f) { UpdateKeepsEntry(c, s, t, th, k, e, f); }
    forall m | m in s'.compressors ensures KnownCompressor(c, s', m) { UpdateKeepsCompressor(c, s, t, th, k, e, m); }
    forall u | u in s'.threads ensures ThreadOk(c, s', u) {
      if s.threads[u].Reader? {
        UpdateKeepsReader(c, s, t, th, k, e, u);
      } else {
        UpdateKeepsWriter(c, s, t, th, k, e, u);
      }
    }
  }
}
