/** The two kinds of compressed stream, the cache that hands them out, and the loops that drain them. */
module CompressedFiles {
  import opened Bytes
  import opened CachedFiles
  import opened CacheProtocol
  import opened CacheInvariant
  import opened CacheSteps

  /** A file that is compressed while it is read. What the compressor yields is c.stream(file); a
      choice says whether a read breaks down. */
  class CompressedFileCompressing {
    const c: Config
    const file: nat
    const pCachedFile: CachedFile?
    var pos: nat
    var eofbit: bool
    var failbit: bool

    constructor (c: Config, file: nat, pCachedFile: CachedFile?)
      ensures this.c == c && this.file == file && this.pCachedFile == pCachedFile
      ensures Contents() == Compressor(file, pCachedFile != null, 0, false, false)
    {
      this.c, this.file, this.pCachedFile := c, file, pCachedFile;
      pos, eofbit, failbit := 0, false, false;
    }

    function Contents(): Compressor
      reads this
    {
      Compressor(file, pCachedFile != null, pos, eofbit, failbit)
    }

    function Cache(): set<object> {
      if pCachedFile == null then {} else {pCachedFile}
    }

    /** The cached file holds what has been read. */
    ghost predicate Follows(done: bool)
      reads this, Cache()
    {
      && pos <= |c.stream(file)|
      && (pCachedFile != null ==> pCachedFile.Contents() == Cached(c.stream(file)[..pos], pos, done))
    }

    /** The stream the compressor reads from, as one read finds it. */
    method ReadSource(n: nat, choice: Choice) returns (s: Bytes)
      requires pos <= |c.stream(file)|
      modifies `pos, `eofbit, `failbit
      ensures (s, Contents()) == Fetched(c, old(Contents()), n, choice)
    {
      var rest := c.stream(file)[pos..];
      assert forall k | 0 <= k <= |rest| :: rest[..k] == c.stream(file)[pos..pos + k];
      if failbit || eofbit {
        s, failbit := [], true;
      } else if choice.wrong {
        s, failbit := rest[..Min(choice.passed, Min(n, |rest|))], true;
      } else if n <= |rest| {
        s := rest[..n];
      } else {
        s, eofbit, failbit := rest, true, true;
      }
      pos := pos + |s|;
    }

    method Read(n: nat, choice: Choice) returns (s: Bytes)
      requires pos <= |c.stream(file)|
      modifies this, Cache()
      ensures (s, Contents()) == Fetched(c, old(Contents()), n, choice)
      ensures pCachedFile != null ==> pCachedFile.Contents() == Written(old(pCachedFile.Contents()), s)
      ensures old(Follows(false)) ==> Follows(false)
    {
      hide Fetched;
      FetchedFacts(c, Contents(), n, choice);
      s := ReadSource(n, choice);
      if pCachedFile != null {
        var _ := pCachedFile.Write(s);
      }
    }

    method Valid() returns (r: bool)
      ensures r == !failbit
    {
      return !failbit;
    }

    method Fail() returns (r: bool)
      modifies Cache()
      ensures r == failbit
      ensures pCachedFile != null ==>
        pCachedFile.Contents()
        == if r then Flagged(Marked(old(pCachedFile.Contents()))) else old(pCachedFile.Contents())
      ensures (old(Follows(false)) ==> Follows(r)) && (old(Follows(true)) ==> Follows(true))
    {
      if failbit && pCachedFile != null {
        pCachedFile.DoneWriting();
      }
      return failbit;
    }

    method Eof() returns (r: bool)
      modifies Cache()
      ensures r == eofbit
      ensures pCachedFile != null ==>
        pCachedFile.Contents()
        == if r then Flagged(Marked(old(pCachedFile.Contents()))) else old(pCachedFile.Contents())
      ensures (old(Follows(false)) ==> Follows(r)) && (old(Follows(true)) ==> Follows(true))
    {
      if eofbit && pCachedFile != null {
        pCachedFile.DoneWriting();
      }
      return eofbit;
    }

    method IsCaching() returns (r: bool)
      ensures r == (pCachedFile != null)
    {
      return pCachedFile != null;
    }

    /** The stream may go on as long as the cached file is unfinished. */
    ghost predicate InStep()
      reads this, Cache()
    {
      Follows(failbit) && (eofbit ==> failbit && pos == |c.stream(file)|)
    }
  }

  /** A reader of a cached file. */
  class CompressedFileCached {
    const pCachedFile: CachedFile?
    var curPos: nat

    constructor (pCachedFile: CachedFile?)
      ensures this.pCachedFile == pCachedFile && curPos == 0
    {
      this.pCachedFile, curPos := pCachedFile, 0;
    }

    ghost predicate InBounds()
      reads this, pCachedFile
    {
      pCachedFile != null ==> Disciplined(pCachedFile.Contents()) && curPos <= pCachedFile.eof
    }

    method Valid() returns (r: bool)
      ensures r == (pCachedFile != null)
    {
      return pCachedFile != null;
    }

    method Fail() returns (r: bool)
      ensures r == (pCachedFile == null)
    {
      return pCachedFile == null;
    }

    method Eof() returns (r: bool)
      ensures r == (pCachedFile == null || (pCachedFile.completlyCached && curPos == pCachedFile.eof))
    {
      if pCachedFile == null {
        return true;
      }
      return pCachedFile.completlyCached && curPos == pCachedFile.eof;
    }

    /** None while the reader has to wait. */
    method Read(n: nat) returns (r: Option<Bytes>)
      requires InBounds()
      modifies this
      ensures InBounds()
      ensures pCachedFile == null ==> r == Some([]) && curPos == old(curPos)
      ensures pCachedFile != null && !Ready(pCachedFile.Contents(), old(curPos), n) ==>
        r == None && curPos == old(curPos)
      ensures pCachedFile != null && Ready(pCachedFile.Contents(), old(curPos), n) ==>
        r.Some? && old(curPos) <= curPos && r.value == pCachedFile.buf[old(curPos)..curPos]
        && (curPos - old(curPos) == n
            || (curPos - old(curPos) < n && pCachedFile.completlyCached && curPos == pCachedFile.eof))
      ensures pCachedFile != null && pCachedFile.eof - old(curPos) >= n ==>
        r == Some(pCachedFile.buf[old(curPos)..old(curPos) + n]) && curPos == old(curPos) + n
      ensures pCachedFile != null && pCachedFile.eof - old(curPos) < n && pCachedFile.completlyCached ==>
        r == Some(pCachedFile.buf[old(curPos)..pCachedFile.eof]) && curPos == pCachedFile.eof
      ensures pCachedFile != null && pCachedFile.eof - old(curPos) < n && !pCachedFile.completlyCached ==>
        r == None && curPos == old(curPos)
    {
      var eof := Eof();
      var fail := Fail();
      if eof || fail {
        return Some([]);
      }
      r := pCachedFile.Read(curPos, n);
      if r.Some? {
        curPos := curPos + |r.value|;
      }
    }
  }

  datatype Source =
    | FromCompressor(compressor: CompressedFileCompressing)
    | FromCache(reader: CompressedFileCached)

  lemma TotalWith<T>(size: nat -> nat, m: map<nat, T>, f: nat, x: T)
    requires f !in m
    ensures Total(size, m[f := x].Keys) == Total(size, m.Keys) + size(f)
  {
    TotalWithout(size, m.Keys + {f}, f);
    assert m.Keys + {f} - {f} == m.Keys;
    assert m[f := x].Keys == m.Keys + {f};
  }

  /** The request of the protocol changes the cache in the same way. */
  lemma RequestedCache(s: State, c: Config, t: nat, f: nat)
    requires f in s.entries ==> c.size(f) < c.threshold
    ensures var s' := Requested(c, s, t, f);
      && s'.entries == (if f in s.entries || c.size(f) >= c.threshold then s.entries else s.entries[f := EMPTY])
      && s'.cacheSize == s.cacheSize + (if f in s.entries || c.size(f) >= c.threshold then 0 else c.size(f))
      && (s'.threads[t].Reader? <==> f in s.entries)
  {}

  class CompressionCache {
    const c: Config
    var cachedFiles: map<nat, CachedFile>
    var cacheSize: nat

    constructor (c: Config)
      ensures this.c == c && Valid() && cachedFiles == map[] && cacheSize == 0
    {
      this.c, cachedFiles, cacheSize := c, map[], 0;
    }

    /** Every file has an entry of its own, the files are below the threshold, and the size is right. */
    ghost predicate Valid()
      reads this
    {
      && (forall f, g | f in cachedFiles && g in cachedFiles && f != g :: cachedFiles[f] != cachedFiles[g])
      && (forall f | f in cachedFiles :: c.size(f) < c.threshold)
      && cacheSize == Total(c.size, cachedFiles.Keys)
    }

    ghost function Entries(): map<nat, Cached>
      reads this, cachedFiles.Values
    {
      map f | f in cachedFiles :: cachedFiles[f].Contents()
    }

    method AddFileToCache(f: nat) returns (pCachedFile: CachedFile)
      requires Valid() && f !in cachedFiles && c.size(f) < c.threshold
      modifies this
      ensures Valid() && fresh(pCachedFile) && pCachedFile.Contents() == EMPTY
      ensures cachedFiles == old(cachedFiles)[f := pCachedFile] && cacheSize == old(cacheSize) + c.size(f)
      ensures Entries() == old(Entries())[f := EMPTY]
    {
      hide Total;
      pCachedFile := new CachedFile();
      TotalWith(c.size, cachedFiles, f, pCachedFile);
      cachedFiles := cachedFiles[f := pCachedFile];
      cacheSize := cacheSize + c.size(f);
    }

    /** `s` and `t` are any state of the protocol with this cache in it, and any new session. */
    method GetCompressedFileBuffer(f: nat, ghost s: State, ghost t: nat) returns (r: Source)
      requires Valid() && s.entries == Entries() && s.cacheSize == cacheSize
      modifies this
      ensures Valid()
      ensures Entries() == Requested(c, s, t, f).entries && cacheSize == Requested(c, s, t, f).cacheSize
      ensures r.FromCache? <==> Requested(c, s, t, f).threads[t].Reader?
      ensures old(f in cachedFiles) ==>
        cachedFiles == old(cachedFiles) && r.FromCache? && fresh(r.reader)
        && r.reader.pCachedFile == cachedFiles[f] && r.reader.curPos == 0
      ensures old(f !in cachedFiles) ==>
        && r.FromCompressor? && fresh(r.compressor) && r.compressor.c == c
        && r.compressor.Contents() == Compressor(f, c.size(f) < c.threshold, 0, false, false)
        && (if c.size(f) < c.threshold then
              f in cachedFiles && fresh(cachedFiles[f]) && cachedFiles == old(cachedFiles)[f := cachedFiles[f]]
              && r.compressor.pCachedFile == cachedFiles[f] && cachedFiles[f].Contents() == EMPTY
            else cachedFiles == old(cachedFiles))
    {
      hide Requested, Total;
      RequestedCache(s, c, t, f);
      if c.size(f) > c.threshold || f !in cachedFiles {
        if c.size(f) < c.threshold {
          var pCachedFile := AddFileToCache(f);
          var compressor := new CompressedFileCompressing(c, f, pCachedFile);
          return FromCompressor(compressor);
        }
        var compressor := new CompressedFileCompressing(c, f, null);
        return FromCompressor(compressor);
      } else {
        var reader := new CompressedFileCached(cachedFiles[f]);
        return FromCache(reader);
      }
    }
  }

  /** The client's end of the connection. */
  class Client {
    var received: Bytes
    var counter: nat

    constructor ()
      ensures received == [] && counter == 0
    {
      received, counter := [], 0;
    }

    method Write(s: Bytes, choice: Choice) returns (error: bool)
      modifies this
      ensures error == choice.wrong
      ensures received == old(received) + (if error then s[..Min(choice.passed, |s|)] else s)
      ensures counter == old(counter) + (|received| - |old(received)|)
    {
      error := choice.wrong;
      var sent := if error then s[..Min(choice.passed, |s|)] else s;
      received, counter := received + sent, counter + |sent|;
    }
  }

  /** How a transfer ends. */
  datatype Outcome = Complete | StreamFailed | ClientGone(takeover: bool)

  /** The read of sendFile and the tests behind it. */
  method NextChunk(source: CompressedFileCompressing, size: nat, choice: Choice) returns (data: Bytes, failed: bool)
    requires size > 0 && source.InStep() && !source.failbit
    modifies source, source.Cache()
    ensures source.InStep() && old(source.pos) <= source.pos <= |source.c.stream(source.file)|
    ensures source.failbit || old(source.pos) < source.pos
    ensures source.c.stream(source.file)[..old(source.pos)] + data == source.c.stream(source.file)[..source.pos]
    ensures failed == (source.failbit && !source.eofbit) && (failed ==> choice.wrong)
  {
    hide Fetched, Written, Marked, Flagged;
    FetchedFacts(source.c, source.Contents(), size, choice);
    data := source.Read(size, choice);
    failed := source.Fail();
    if failed {
      var eof := source.Eof();
      failed := !eof;
    }
  }

  /** sendFile on a compressing stream; `onRead` and `onWrite` say what goes wrong. */
  method SendCompressed(source: CompressedFileCompressing, client: Client, size: nat,
                        onRead: nat -> Choice, onWrite: nat -> Choice) returns (outcome: Outcome)
    requires size > 0 && source.InStep() && source.pos == 0 && !source.failbit && client.received == []
    modifies source, source.Cache(), client
    ensures source.InStep() && client.received <= source.c.stream(source.file)
    ensures client.counter == old(client.counter) + |client.received|
    ensures outcome.Complete? ==> client.received == source.c.stream(source.file) && source.eofbit
    ensures outcome.StreamFailed? ==>
      client.received <= source.c.stream(source.file)[..source.pos] && source.failbit && !source.eofbit
    ensures outcome.ClientGone? ==>
      outcome.takeover == (source.pCachedFile != null) && (source.failbit ==> source.eofbit)
    ensures (forall i :: !onRead(i).wrong) ==> !outcome.StreamFailed?
    ensures (forall i :: !onWrite(i).wrong) ==> !outcome.ClientGone?
  {
    hide Fetched, Written, Marked, Flagged, CompressedFileCompressing.Follows;
    var i := 0;
    var valid := source.Valid();
    var eof := source.Eof();
    while valid && !eof
      invariant valid == !source.failbit && (valid ==> eof == source.eofbit) && source.InStep()
      invariant source.pos <= |source.c.stream(source.file)|
      invariant source.failbit ==> source.eofbit
      invariant client.received == source.c.stream(source.file)[..source.pos]
      invariant client.counter == old(client.counter) + |client.received|
      decreases |source.c.stream(source.file)| - source.pos + if source.failbit then 0 else 1
    {
      var data, failed := NextChunk(source, size, onRead(i));
      if failed {
        return StreamFailed;
      }
      ghost var sent := client.received + data;
      var error := client.Write(data, onWrite(i));
      assert client.received <= sent == source.c.stream(source.file)[..source.pos];
      if error {
        var caching := source.IsCaching();
        return ClientGone(caching);
      }
      i := i + 1;
      valid := source.Valid();
      if valid {
        eof := source.Eof();
      }
    }
    return Complete;
  }

  /** The takeover thread, watched for any number of rounds. It ends at the end of the stream and leaves
      all of it in a finished file. If a read breaks down it goes on for ever, and the file is unfinished
      after every round. */
  method Takeover(source: CompressedFileCompressing, size: nat, onRead: nat -> Choice, rounds: nat)
    returns (ended: bool)
    requires size > 0 && source.pCachedFile != null && source.InStep() && (source.failbit ==> source.eofbit)
    modifies source, source.Cache()
    ensures ended == source.eofbit && source.pos <= |source.c.stream(source.file)|
    ensures source.pCachedFile.Contents() == Cached(source.c.stream(source.file)[..source.pos], source.pos, ended)
    ensures ended ==> source.pos == |source.c.stream(source.file)|
    ensures !ended && rounds > |source.c.stream(source.file)| ==> source.failbit
    ensures !ended && source.failbit ==> exists i | 0 <= i < rounds :: onRead(i).wrong
  {
    hide Fetched;
    ended := source.Eof();
    var i := 0;
    while !ended && i < rounds
      invariant i <= rounds && ended == source.eofbit
      invariant source.pos <= |source.c.stream(source.file)| && (ended ==> source.pos == |source.c.stream(source.file)|)
      invariant source.pCachedFile.Contents() == Cached(source.c.stream(source.file)[..source.pos], source.pos, ended)
      invariant ended || source.failbit || i <= source.pos
      invariant !ended && source.failbit ==> exists j | 0 <= j < i :: onRead(j).wrong
      decreases rounds - i
    {
      FetchedFacts(source.c, source.Contents(), size, onRead(i));
      var _ := source.Read(size, onRead(i));
      ended := source.Eof();
      i := i + 1;
    }
  }

  /** A session and, when its client goes away, the takeover thread behind it. The cached file ends up with
      all of the stream unless a read breaks down, whatever the client does. If one does under the session,
      the file is finished with a part of the stream; if one does under the takeover thread, never. */
  method Serve(source: CompressedFileCompressing, client: Client, size: nat,
               onRead: nat -> Choice, onWrite: nat -> Choice,
               takeoverSize: nat, onTakeover: nat -> Choice, rounds: nat) returns (outcome: Outcome)
    requires size > 0 && takeoverSize > 0
    requires source.InStep() && source.pos == 0 && !source.failbit && client.received == []
    requires rounds > |source.c.stream(source.file)|
    modifies source, source.Cache(), client
    ensures client.received <= source.c.stream(source.file)
    ensures outcome.Complete? ==> client.received == source.c.stream(source.file)
    ensures outcome.StreamFailed? ==> source.failbit && !source.eofbit
    ensures source.Follows(source.eofbit || outcome.StreamFailed?)
    ensures source.eofbit ==> source.pos == |source.c.stream(source.file)|
    ensures source.pCachedFile != null && !source.eofbit ==>
      (exists i :: onRead(i).wrong) || (exists i :: onTakeover(i).wrong)
  {
    outcome := SendCompressed(source, client, size, onRead, onWrite);
    if outcome.ClientGone? && outcome.takeover {
      var _ := Takeover(source, takeoverSize, onTakeover, rounds);
    }
  }

  /** After so many rounds a reader that asks for size bytes each time is at pos. */
  ghost predicate Paced(rounds: nat, size: nat, pos: nat, n: nat) {
    pos <= n && (rounds * size == pos || (pos == n && rounds > 0 && (rounds - 1) * size < n))
  }

  lemma PacedBound(rounds: nat, size: nat, pos: nat, n: nat)
    requires size > 0 && Paced(rounds, size, pos, n)
    ensures rounds <= n / size + 1
  {
    var q := n / size;
    Times(rounds - 1, q + 1, size);
  }

  lemma Times(a: int, b: int, size: nat)
    ensures a >= b ==> a * size >= b * size
  {}

  lemma PacedStart(size: nat, n: nat)
    ensures Paced(0, size, 0, n)
  {}

  lemma PacedNext(rounds: nat, size: nat, pos: nat, pos': nat, n: nat)
    requires Paced(rounds, size, pos, n) && pos < n && pos <= pos' <= n
    requires pos' == pos + size || pos' == n
    ensures Paced(rounds + 1, size, pos', n)
  {
    assert (rounds + 1) * size == rounds * size + size;
  }

  /** sendFile on a finished cached file: the client gets all of it, in at most n / size + 1 reads. */
  method SendCached(source: CompressedFileCached, client: Client, size: nat, onWrite: nat -> Choice)
    returns (rounds: nat, outcome: Outcome)
    requires size > 0 && source.InBounds() && source.curPos == 0 && client.received == []
    requires source.pCachedFile != null && source.pCachedFile.completlyCached
    modifies source, client
    ensures client.received <= source.pCachedFile.buf
    ensures outcome.Complete? ==> client.received == source.pCachedFile.buf
    ensures !outcome.StreamFailed? && (outcome.ClientGone? ==> !outcome.takeover)
    ensures (forall i :: !onWrite(i).wrong) ==> outcome.Complete?
    ensures rounds <= |source.pCachedFile.buf| / size + 1
  {
    hide Paced;
    ghost var n := |source.pCachedFile.buf|;
    rounds := 0;
    PacedStart(size, n);
    while true
      invariant source.InBounds() && client.received == source.pCachedFile.buf[..source.curPos]
      invariant Paced(rounds, size, source.curPos, n)
      decreases n - source.curPos
    {
      var valid := source.Valid();
      var eof := source.Eof();
      if !valid || eof {
        break;
      }
      ghost var pos := source.curPos;
      var data := source.Read(size);
      PacedNext(rounds, size, pos, source.curPos, n);
      PacedBound(rounds + 1, size, source.curPos, n);
      rounds := rounds + 1;
      var error := client.Write(data.value, onWrite(rounds - 1));
      if error {
        outcome := ClientGone(false);
        return;
      }
    }
    PacedBound(rounds, size, source.curPos, n);
    outcome := Complete;
  }
}
