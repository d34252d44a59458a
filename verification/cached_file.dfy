/** One compressed file in memory: a buffer that one writer fills while readers follow. */
module CachedFiles {
  import opened Bytes

  datatype Cached = Cached(buf: Bytes, eof: nat, done: bool)

  const EMPTY := Cached([], 0, false)

  ghost predicate Disciplined(e: Cached) {
    e.eof <= |e.buf| && (e.done ==> e.eof == |e.buf|)
  }

  /** The two halves of a write, each visible to readers. A finished file takes no more bytes. */
  function Inserted(e: Cached, s: Bytes): Cached {
    if e.done then e else e.(buf := e.buf + s)
  }

  function Bumped(e: Cached, n: nat): Cached {
    e.(eof := e.eof + n)
  }

  function Written(e: Cached, s: Bytes): Cached {
    if e.done then e else Bumped(Inserted(e, s), |s|)
  }

  /** The two halves of finishing. */
  function Marked(e: Cached): Cached {
    e.(eof := |e.buf|)
  }

  function Flagged(e: Cached): Cached {
    e.(done := true)
  }

  /** A reader at `pos` that wants n bytes need not wait. */
  predicate Ready(e: Cached, pos: nat, n: nat) {
    e.done || (e.eof as int) - pos >= n
  }

  /** What a reader copies once it need not wait. */
  function Copied(e: Cached, pos: nat, n: nat): Bytes
    requires e.eof <= |e.buf|
  {
    if pos > e.eof then [] else e.buf[pos..pos + Min(e.eof - pos, n)]
  }

  /** e' may be what another thread finds after e: bytes below eof stay, and a finished file stays
      as it is. */
  ghost predicate Grows(e: Cached, e': Cached) {
    && e.buf <= e'.buf
    && e.eof <= e'.eof
    && (e.done ==> e' == e)
  }

  lemma GrowsTransitive(a: Cached, b: Cached, c: Cached)
    requires Grows(a, b) && Grows(b, c)
    ensures Grows(a, c)
  {}

  /** Whatever a reader could copy it could still copy later, and more only at the end. */
  lemma CopiesStay(e: Cached, e': Cached, pos: nat, n: nat)
    requires Disciplined(e) && Disciplined(e') && Grows(e, e') && pos <= e.eof && Ready(e, pos, n)
    ensures Copied(e', pos, n) == Copied(e, pos, n)
  {}

  lemma WritingKeepsDiscipline(e: Cached, s: Bytes)
    requires Disciplined(e)
    ensures Disciplined(Inserted(e, s)) && Grows(e, Inserted(e, s))
    ensures Disciplined(Written(e, s)) && Grows(e, Written(e, s))
    ensures Disciplined(Flagged(Marked(e))) && Grows(e, Flagged(Marked(e)))
    ensures Flagged(Marked(Flagged(Marked(e)))) == Flagged(Marked(e))
    ensures Written(Flagged(Marked(e)), s) == Flagged(Marked(e))
  {}

  /** The class of the source. */
  class CachedFile {
    var eof: nat
    var buf: Bytes
    var completlyCached: bool

    constructor ()
      ensures Contents() == EMPTY
    {
      eof, buf, completlyCached := 0, [], false;
    }

    function Contents(): Cached
      reads this
    {
      Cached(buf, eof, completlyCached)
    }

    /** One look at the file: the bytes, or None while the reader has to wait. */
    method Read(pos: nat, maxRead: nat) returns (r: Option<Bytes>)
      requires Disciplined(Contents())
      ensures r == if Ready(Contents(), pos, maxRead) then Some(Copied(Contents(), pos, maxRead)) else None
      ensures (eof as int) - pos >= maxRead ==> r == Some(buf[pos..pos + maxRead])
      ensures (eof as int) - pos < maxRead && !completlyCached ==> r == None
      ensures completlyCached && (eof as int) - pos < maxRead ==> r == Some(if pos <= eof then buf[pos..eof] else [])
    {
      if completlyCached {
        if pos > eof {
          return Some([]);
        }
        return Some(buf[pos..pos + Min(eof - pos, maxRead)]);
      }
      if !(eof - pos >= maxRead) {
        return None;
      }
      return Some(buf[pos..pos + Min(eof - pos, maxRead)]);
    }

    method Write(s: Bytes) returns (n: nat)
      modifies this
      ensures Contents() == Written(old(Contents()), s)
      ensures n == if old(completlyCached) then 0 else |s|
      ensures completlyCached == old(completlyCached)
      ensures if completlyCached then buf == old(buf) && eof == old(eof)
              else buf == old(buf) + s && eof == old(eof) + |s|
    {
      if completlyCached {
        return 0;
      }
      buf := buf + s;
      eof := eof + |s|;
      return |s|;
    }

    method DoneWriting()
      modifies this
      ensures Contents() == Flagged(Marked(old(Contents())))
      ensures completlyCached && eof == |buf| && buf == old(buf)
    {
      eof := |buf|;
      completlyCached := true;
    }
  }
}
