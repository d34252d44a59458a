/** The cache as a system of threads. Every session either compresses a file, and then also fills
    the cache with it, or reads a cached file. A session whose client is gone hands its compressor
    to a takeover thread. One action is one micro-step of one thread. */
module CacheProtocol {
  import opened Bytes
  import opened CachedFiles

  /** Sizes of the files, their compressed streams, the size below which a file is cached, and how
      many bytes a session and a takeover thread ask for at a time. */
  datatype Config = Config(size: nat -> nat, stream: nat -> Bytes, threshold: nat, chunk: nat, takeoverChunk: nat)

  /** A compressing stream: how far it is, and its state bits. A read that ends early sets both bits;
      a read that breaks down sets failbit only. */
  datatype Compressor = Compressor(file: nat, caching: bool, pos: nat, eofbit: bool, failbit: bool)

  /** Where a thread with a compressor is. `Mark` and `Flag` are the halves of doneWriting. */
  datatype WriterPc =
    | Test | Fetch | Insert(chunk: Bytes) | Bump(chunk: Bytes) | Check(chunk: Bytes) | Decide(chunk: Bytes)
    | Send(chunk: Bytes) | Mark(next: WriterPc) | Flag(next: WriterPc) | Finished

  /** Where a cached reader is. */
  datatype ReaderPc =
    | ReadTest | EofCheck | Poll | Copy | Advance(data: Bytes) | ReadSend(data: Bytes) | ReadFinished

  /** `sent` has gone to the client, `taken` has left the cache, `broken` says that the client is gone. */
  datatype Thread =
    | Sender(maker: nat, pc: WriterPc, sent: Bytes, broken: bool)
    | Takeover(maker: nat, pc: WriterPc)
    | Reader(file: nat, curPos: nat, at: ReaderPc, taken: Bytes, sent: Bytes, broken: bool)

  /** A compressor goes by the session that made it. `makers` and `owner` are history: they name the
      compressor of a cached file and the thread that uses a compressor. No step looks at them. */
  datatype State = State(
    entries: map<nat, Cached>, cacheSize: nat, compressors: map<nat, Compressor>, threads: map<nat, Thread>,
    makers: map<nat, nat>, owner: map<nat, nat>)

  const INIT := State(map[], 0, map[], map[], map[], map[])

  /** How the environment decides a step: whether it goes wrong, how many bytes still pass if it
      does, and the identity of a thread it starts. */
  datatype Choice = Choice(wrong: bool, passed: nat, heir: nat)

  datatype Action =
    | Request(thread: nat, file: nat)
    | Step(thread: nat, choice: Choice)

  /** getCompressedFileBuffer, one critical section. */
  function Requested(c: Config, s: State, t: nat, f: nat): State {
    if c.size(f) > c.threshold || f !in s.entries then
      var caching := c.size(f) < c.threshold;
      var s1 := s.(compressors := s.compressors[t := Compressor(f, caching, 0, false, false)],
                   threads := s.threads[t := Sender(t, Test, [], false)], owner := s.owner[t := t]);
      if caching then
        s1.(entries := s.entries[f := EMPTY], cacheSize := s.cacheSize + c.size(f), makers := s.makers[f := t])
      else
        s1
    else
      s.(threads := s.threads[t := Reader(f, 0, ReadTest, [], [], false)])
  }

  /** Reading n bytes from a compressing stream: the chunk and the stream after it. */
  function Fetched(c: Config, k: Compressor, n: nat, choice: Choice): (r: (Bytes, Compressor))
    requires k.pos <= |c.stream(k.file)|
  {
    var rest := |c.stream(k.file)| - k.pos;
    if k.failbit || k.eofbit then
      ([], k.(failbit := true))
    else if choice.wrong then
      var m := Min(choice.passed, Min(n, rest));
      (c.stream(k.file)[k.pos..k.pos + m], k.(pos := k.pos + m, failbit := true))
    else if n <= rest then
      (c.stream(k.file)[k.pos..k.pos + n], k.(pos := k.pos + n))
    else
      (c.stream(k.file)[k.pos..], k.(pos := k.pos + rest, eofbit := true, failbit := true))
  }

  /** Only a caching compressor finishes a cached file. */
  function Finishing(k: Compressor, next: WriterPc): WriterPc {
    if k.caching then Mark(next) else next
  }

  function WithPc(th: Thread, pc: WriterPc): Thread
    requires !th.Reader?
  {
    match th
    case Sender(maker, _, sent, broken) => Sender(maker, pc, sent, broken)
    case Takeover(maker, _) => Takeover(maker, pc)
  }

  predicate LiveWriter(th: Thread) {
    !th.Reader? && th.pc != Finished
  }

  /** A step of a thread that does not touch the shared state. */
  function Moved(s: State, t: nat, th: Thread): State {
    s.(threads := s.threads[t := th])
  }

  /** The loop heads of sendFile and of the takeover thread differ in the test of the stream. */
  function TestPc(th: Thread, k: Compressor): WriterPc
    requires !th.Reader?
  {
    if th.Sender? && k.failbit then Finished
    else if k.eofbit then Finishing(k, Finished)
    else Fetch
  }

  /** sendFile after a read: failing finishes the cached file, and only the end of file lets the chunk go out. */
  function CheckPc(k: Compressor, chunk: Bytes): WriterPc {
    if k.failbit then Finishing(k, Decide(chunk)) else Decide(chunk)
  }

  function DecidePc(k: Compressor, chunk: Bytes): WriterPc {
    if !k.failbit then Send(chunk)
    else if k.eofbit then Finishing(k, Send(chunk))
    else Finished
  }

  function AfterRead(th: Thread, chunk: Bytes): WriterPc
    requires !th.Reader?
  {
    if th.Sender? then Check(chunk) else Test
  }

  function WriterStep(c: Config, s: State, t: nat, choice: Choice): State
    requires t in s.threads && LiveWriter(s.threads[t])
  {
    var th := s.threads[t];
    if th.maker !in s.compressors then
      s
    else
      var k := s.compressors[th.maker];
      match th.pc
      case Test => Moved(s, t, WithPc(th, TestPc(th, k)))
      case Fetch =>
        if k.pos > |c.stream(k.file)| then
          s
        else
          var (chunk, k1) := Fetched(c, k, if th.Sender? then c.chunk else c.takeoverChunk, choice);
          Moved(s, t, WithPc(th, Insert(chunk))).(compressors := s.compressors[th.maker := k1])
      case Insert(chunk) =>
        if k.caching && k.file in s.entries && !s.entries[k.file].done then
          Moved(s, t, WithPc(th, Bump(chunk))).(entries := s.entries[k.file := Inserted(s.entries[k.file], chunk)])
        else
          Moved(s, t, WithPc(th, AfterRead(th, chunk)))
      case Bump(chunk) =>
        if k.file in s.entries then
          Moved(s, t, WithPc(th, AfterRead(th, chunk))).(
            entries := s.entries[k.file := Bumped(s.entries[k.file], |chunk|)])
        else
          s
      case Check(chunk) => Moved(s, t, WithPc(th, CheckPc(k, chunk)))
      case Decide(chunk) => Moved(s, t, WithPc(th, DecidePc(k, chunk)))
      case Mark(next) =>
        if k.file in s.entries then
          Moved(s, t, WithPc(th, Flag(next))).(entries := s.entries[k.file := Marked(s.entries[k.file])])
        else
          s
      case Flag(next) =>
        if k.file in s.entries then
          Moved(s, t, WithPc(th, next)).(entries := s.entries[k.file := Flagged(s.entries[k.file])])
        else
          s
      case Send(chunk) => if th.Sender? then SendStep(s, t, chunk, choice) else s
  }

  /** Writing a chunk to the client. If the client is gone and the file is being cached, a takeover
      thread goes on compressing. */
  function SendStep(s: State, t: nat, chunk: Bytes, choice: Choice): State
    requires t in s.threads && s.threads[t].Sender? && s.threads[t].maker in s.compressors
  {
    var th := s.threads[t];
    if !choice.wrong then
      Moved(s, t, th.(pc := Test, sent := th.sent + chunk))
    else
      var gone := th.(pc := Finished, sent := th.sent + chunk[..Min(choice.passed, |chunk|)], broken := true);
      if !s.compressors[th.maker].caching then
        Moved(s, t, gone)
      else if choice.heir in s.threads then
        s
      else
        s.(threads := s.threads[t := gone][choice.heir := Takeover(th.maker, Test)],
           owner := s.owner[th.maker := choice.heir])
  }

  /** One micro-step of a cached reader that finds its entry as e. */
  function Reading(c: Config, th: Thread, e: Cached, choice: Choice): (r: Thread)
    requires th.Reader? && e.eof <= |e.buf|
    ensures r.Reader? && r.file == th.file
  {
    var atEof := e.done && th.curPos == e.eof;
    match th.at
    case ReadTest => th.(at := if atEof then ReadFinished else EofCheck)
    case EofCheck => th.(at := if atEof then ReadSend([]) else Poll)
    case Poll => if Ready(e, th.curPos, c.chunk) then th.(at := Copy) else th
    case Copy => th.(at := Advance(Copied(e, th.curPos, c.chunk)))
    case Advance(data) => th.(at := ReadSend(data), curPos := th.curPos + |data|, taken := th.taken + data)
    case ReadSend(data) =>
      if !choice.wrong then
        th.(at := ReadTest, sent := th.sent + data)
      else
        th.(at := ReadFinished, sent := th.sent + data[..Min(choice.passed, |data|)], broken := true)
    case ReadFinished => th
  }

  function ReaderStep(c: Config, s: State, t: nat, choice: Choice): State
    requires t in s.threads && s.threads[t].Reader?
  {
    var th := s.threads[t];
    if th.file in s.entries && s.entries[th.file].eof <= |s.entries[th.file].buf| then
      Moved(s, t, Reading(c, th, s.entries[th.file], choice))
    else
      s
  }

  /** An action that is not possible changes nothing. */
  function Next(c: Config, s: State, a: Action): State {
    match a
    case Request(t, f) => if t in s.threads then s else Requested(c, s, t, f)
    case Step(t, choice) =>
      if t !in s.threads then s
      else if s.threads[t].Reader? then ReaderStep(c, s, t, choice)
      else if s.threads[t].pc == Finished then s
      else WriterStep(c, s, t, choice)
  }

  function Run(c: Config, s: State, actions: seq<Action>): State
    decreases |actions|
  {
    if actions == [] then s else Run(c, Next(c, s, actions[0]), actions[1..])
  }
}
