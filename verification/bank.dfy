/** The files of a mod in the bank, compressed and uncompressed in place. */
module Banks {
  import opened Bytes
  import opened Hex

  /** zlib: the compressor, and the decompressor with what it puts out and whether it accepts the input. */
  datatype Zlib = Zlib(deflate: Bytes -> Bytes, inflate: Bytes -> (Bytes, bool))

  ghost predicate Inverse(z: Zlib) {
    forall x: Bytes :: z.inflate(z.deflate(x)) == (x, true)
  }

  type FileSystem = map<string, Bytes>

  const SUFFIX := ".cmpress"

  function Twin(p: string): string {
    p + SUFFIX
  }

  /** A file that does not exist reads like an empty one. */
  function Content(fs: FileSystem, p: string): Bytes {
    if p in fs then fs[p] else []
  }

  function Lookup(fs: FileSystem, p: string): Option<Bytes> {
    if p in fs then Some(fs[p]) else None
  }

  function Compressed(z: Zlib, fs: FileSystem, p: string): FileSystem {
    fs[Twin(p) := z.deflate(Content(fs, p))] - {p}
  }

  /** If the decompressor refuses, its output so far stays and so does its input. */
  function Uncompressed(z: Zlib, fs: FileSystem, p: string): (FileSystem, bool) {
    var (output, ok) := z.inflate(Content(fs, Twin(p)));
    (if ok then fs[p := output] - {Twin(p)} else fs[p := output], ok)
  }

  /** One file compressed: its twin holds the compressed content, the file is gone, all else is as before. */
  lemma CompressedFile(z: Zlib, fs: FileSystem, p: string, q: string)
    ensures Lookup(Compressed(z, fs, p), q)
         == if q == p + ".cmpress" then Some(z.deflate(if p in fs then fs[p] else []))
            else if q == p then None
            else Lookup(fs, q)
  {
    assert p + ".cmpress" != p;
  }

  /** One file uncompressed. If the decompressor refuses, the compressed file stays, beside what came out
      before that. */
  lemma UncompressedFile(z: Zlib, fs: FileSystem, p: string, q: string)
    ensures var packed := p + ".cmpress";
      var (output, ok) := z.inflate(if packed in fs then fs[packed] else []);
      && Uncompressed(z, fs, p).1 == ok
      && Lookup(Uncompressed(z, fs, p).0, q)
         == if q == p then Some(output)
            else if q == packed && ok then None
            else Lookup(fs, q)
  {
    assert p + ".cmpress" != p;
  }

  function CompressedAll(z: Zlib, fs: FileSystem, ps: seq<string>): FileSystem
    decreases |ps|
  {
    if ps == [] then fs else CompressedAll(z, Compressed(z, fs, ps[0]), ps[1..])
  }

  /** The first refusal ends the loop. */
  function UncompressedAll(z: Zlib, fs: FileSystem, ps: seq<string>): (FileSystem, bool)
    decreases |ps|
  {
    if ps == [] then (fs, true) else
      var (next, ok) := Uncompressed(z, fs, ps[0]);
      if ok then UncompressedAll(z, next, ps[1..]) else (next, false)
  }

  /** No two places of the list name the same file. */
  ghost predicate NoRepeats(ps: seq<string>) {
    forall i, j | 0 <= i < j < |ps| :: ps[i] != ps[j]
  }

  /** No file of the list is the twin of another. */
  ghost predicate TwinFree(ps: seq<string>) {
    forall i, j | 0 <= i < |ps| && 0 <= j < |ps| :: ps[i] != Twin(ps[j])
  }

  predicate IsTwinOf(q: string, ps: seq<string>) {
    |q| >= |SUFFIX| && q[|q| - |SUFFIX|..] == SUFFIX && q[..|q| - |SUFFIX|] in ps
  }

  lemma TwinsOf(q: string, ps: seq<string>)
    ensures IsTwinOf(q, ps) <==> exists i :: 0 <= i < |ps| && q == Twin(ps[i])
  {
    if IsTwinOf(q, ps) {
      var i :| 0 <= i < |ps| && ps[i] == q[..|q| - |SUFFIX|];
      assert q == Twin(ps[i]);
    }
    forall i | 0 <= i < |ps| && q == Twin(ps[i]) ensures IsTwinOf(q, ps) {
      assert q[..|q| - |SUFFIX|] == ps[i];
    }
  }

  lemma TwinFreeRest(ps: seq<string>)
    requires TwinFree(ps) && ps != []
    ensures TwinFree(ps[1..]) && Twin(ps[0]) !in ps && !IsTwinOf(ps[0], ps)
    ensures forall q :: IsTwinOf(q, ps) <==> q == Twin(ps[0]) || IsTwinOf(q, ps[1..])
    ensures forall q :: IsTwinOf(q, ps) ==> q !in ps
    ensures IsTwinOf(Twin(ps[0]), ps[1..]) <==> ps[0] in ps[1..]
  {
    forall q ensures IsTwinOf(q, ps) <==> q == Twin(ps[0]) || IsTwinOf(q, ps[1..]) {
      TwinsOf(q, ps);
      TwinsOf(q, ps[1..]);
      if i :| 0 <= i < |ps| && q == Twin(ps[i]) {
        assert i > 0 ==> q == Twin(ps[1..][i - 1]);
      }
    }
    forall q | IsTwinOf(q, ps) ensures q !in ps {
      TwinsOf(q, ps);
    }
    TwinsOf(ps[0], ps);
    StemOfTwin(ps[0]);
  }

  lemma SameTwin(p: string, q: string)
    ensures Twin(p) == Twin(q) ==> p == q
  {
    assert Twin(p)[..|Twin(p)| - |SUFFIX|] == p;
    assert Twin(q)[..|Twin(q)| - |SUFFIX|] == q;
  }

  predicate Repeated(ps: seq<string>, p: string) {
    multiset(ps)[p] >= 2
  }

  /** What ends up compressed for file p: its content, or nothing if the list names it again. */
  function Kept(fs: FileSystem, ps: seq<string>, p: string): Bytes {
    if Repeated(ps, p) then [] else Content(fs, p)
  }

  lemma RepeatedRest(ps: seq<string>, p: string)
    requires ps != []
    ensures Repeated(ps, p) <==> if p == ps[0] then p in ps[1..] else Repeated(ps[1..], p)
    ensures p in ps <==> p == ps[0] || p in ps[1..]
  {
    assert ps == [ps[0]] + ps[1..];
    assert multiset(ps) == multiset{ps[0]} + multiset(ps[1..]);
    assert p in ps[1..] <==> p in multiset(ps[1..]);
  }

  function Stem(q: string): string
    requires |q| >= |SUFFIX|
  {
    q[..|q| - |SUFFIX|]
  }

  /** What stands at q after the files have been compressed. */
  lemma {:induction false} CompressedAt(z: Zlib, fs: FileSystem, ps: seq<string>, q: string)
    requires TwinFree(ps)
    ensures Lookup(CompressedAll(z, fs, ps), q)
         == if IsTwinOf(q, ps) then Some(z.deflate(Kept(fs, ps, Stem(q))))
            else if q in ps then None
            else Lookup(fs, q)
    decreases |ps|
  {
    hide IsTwinOf, TwinFree, Repeated;
    if ps == [] {
      NoTwins(q);
    } else {
      TwinFreeRest(ps);
      var fs1 := Compressed(z, fs, ps[0]);
      CompressedAt(z, fs1, ps[1..], q);
      RepeatedRest(ps, q);
      if IsTwinOf(q, ps) {
        KeptInRest(z, fs, ps, q);
      }
    }
  }

  lemma KeptInRest(z: Zlib, fs: FileSystem, ps: seq<string>, q: string)
    requires TwinFree(ps) && ps != [] && IsTwinOf(q, ps)
    ensures IsTwinOf(q, ps[1..]) ==> Kept(Compressed(z, fs, ps[0]), ps[1..], Stem(q)) == Kept(fs, ps, Stem(q))
    ensures !IsTwinOf(q, ps[1..]) ==>
      Lookup(Compressed(z, fs, ps[0]), q) == Some(z.deflate(Kept(fs, ps, Stem(q)))) && q !in ps[1..]
  {
    hide TwinFree, Repeated;
    TwinFreeRest(ps);
    RepeatedRest(ps, Stem(q));
    RepeatedRest(ps, q);
    StemOfTwin(ps[0]);
    assert q == Twin(Stem(q));
  }

  lemma NoTwins(q: string)
    ensures !IsTwinOf(q, [])
  {}

  lemma StemOfTwin(p: string)
    ensures |Twin(p)| >= |SUFFIX|
    ensures Stem(Twin(p)) == p && Twin(p)[|Twin(p)| - |SUFFIX|..] == SUFFIX
  {}

  /** Uncompressing the files of the list, of which those in `seen` have been uncompressed before, from
      what was kept of them. */
  ghost predicate Packed(z: Zlib, fs: FileSystem, ps: seq<string>, seen: set<string>, kept: string -> Bytes) {
    forall p | p in ps :: Lookup(fs, Twin(p)) == if p in seen then None else Some(z.deflate(kept(p)))
  }

  /** The list comes to a file that has been uncompressed already. */
  ghost predicate Again(ps: seq<string>, seen: set<string>) {
    exists p | p in ps :: p in seen || Repeated(ps, p)
  }

  /** It then finds an empty input. */
  function Unpacked(z: Zlib, ps: seq<string>, seen: set<string>, kept: string -> Bytes, p: string): Bytes {
    if p in seen || Repeated(ps, p) then z.inflate([]).0 else kept(p)
  }

  lemma PackedNext(z: Zlib, fs: FileSystem, ps: seq<string>, seen: set<string>, kept: string -> Bytes)
    requires Inverse(z) && TwinFree(ps) && ps != [] && Packed(z, fs, ps, seen, kept)
    requires ps[0] in seen ==> z.inflate([]).1
    ensures var (fs1, ok) := Uncompressed(z, fs, ps[0]);
      && ok && Packed(z, fs1, ps[1..], seen + {ps[0]}, kept)
      && fs1 == fs[ps[0] := if ps[0] in seen then z.inflate([]).0 else kept(ps[0])] - {Twin(ps[0])}
  {
    hide TwinFree;
    TwinFreeRest(ps);
    var p0 := ps[0];
    assert Lookup(fs, Twin(p0)) == if p0 in seen then None else Some(z.deflate(kept(p0)));
    assert Content(fs, Twin(p0)) == if p0 in seen then [] else z.deflate(kept(p0));
    var fs1 := Uncompressed(z, fs, p0).0;
    forall p | p in ps[1..]
      ensures Lookup(fs1, Twin(p)) == if p in seen + {p0} then None else Some(z.deflate(kept(p)))
    {
      RepeatedRest(ps, p);
      SameTwin(p, p0);
      IsTwin(p, ps);
    }
  }

  /** What stands at q after compressed files have been uncompressed, if the decompressor accepts empty
      inputs or never sees one. */
  lemma {:induction false} UncompressedAt(z: Zlib, fs: FileSystem, ps: seq<string>, seen: set<string>,
                                          kept: string -> Bytes, q: string)
    requires Inverse(z) && TwinFree(ps) && Packed(z, fs, ps, seen, kept)
    requires z.inflate([]).1 || !Again(ps, seen)
    ensures UncompressedAll(z, fs, ps).1
    ensures Lookup(UncompressedAll(z, fs, ps).0, q)
         == if q in ps then Some(Unpacked(z, ps, seen, kept, q))
            else if IsTwinOf(q, ps) then None
            else Lookup(fs, q)
    decreases |ps|
  {
    hide IsTwinOf, TwinFree, Inverse, Packed, Repeated, Uncompressed;
    if ps == [] {
      NoTwins(q);
    } else {
      assert ps[0] in ps;
      PackedNext(z, fs, ps, seen, kept);
      TwinFreeRest(ps);
      AgainRest(ps, seen);
      UncompressedAt(z, Uncompressed(z, fs, ps[0]).0, ps[1..], seen + {ps[0]}, kept, q);
      RepeatedRest(ps, q);
    }
  }

  lemma AgainRest(ps: seq<string>, seen: set<string>)
    requires ps != []
    ensures Again(ps, seen) <==> ps[0] in seen || Again(ps[1..], seen + {ps[0]})
  {
    hide Repeated;
    forall p ensures p in ps && (p in seen || Repeated(ps, p)) <==>
      (p == ps[0] && (p in seen || p in ps[1..])) || (p != ps[0] && p in ps[1..] && (p in seen || Repeated(ps[1..], p)))
    {
      RepeatedRest(ps, p);
    }
  }

  /** Otherwise the loop ends with a refusal. */
  lemma {:induction false} UncompressedFails(z: Zlib, fs: FileSystem, ps: seq<string>, seen: set<string>,
                                             kept: string -> Bytes)
    requires Inverse(z) && TwinFree(ps) && Packed(z, fs, ps, seen, kept)
    requires !z.inflate([]).1 && Again(ps, seen)
    ensures !UncompressedAll(z, fs, ps).1
    decreases |ps|
  {
    hide TwinFree, Inverse, Packed, Repeated, Uncompressed;
    AgainRest(ps, seen);
    if ps[0] in seen {
      SeenIsEmpty(z, fs, ps, seen, kept);
    } else {
      PackedNext(z, fs, ps, seen, kept);
      TwinFreeRest(ps);
      UncompressedFails(z, Uncompressed(z, fs, ps[0]).0, ps[1..], seen + {ps[0]}, kept);
    }
  }

  lemma SeenIsEmpty(z: Zlib, fs: FileSystem, ps: seq<string>, seen: set<string>, kept: string -> Bytes)
    requires Packed(z, fs, ps, seen, kept) && ps != [] && ps[0] in seen && !z.inflate([]).1
    ensures !Uncompressed(z, fs, ps[0]).1
  {
    assert Lookup(fs, Twin(ps[0])) == None;
  }

  lemma SameLookup(a: FileSystem, b: FileSystem)
    requires forall q :: Lookup(a, q) == Lookup(b, q)
    ensures a == b
  {
    forall q ensures q in a <==> q in b {
      assert Lookup(a, q) == Lookup(b, q);
    }
    forall q | q in a ensures a[q] == b[q] {
      assert Lookup(a, q) == Lookup(b, q);
    }
  }

  lemma CompressedIsPacked(z: Zlib, fs: FileSystem, ps: seq<string>)
    requires TwinFree(ps)
    ensures Packed(z, CompressedAll(z, fs, ps), ps, {}, p => Kept(fs, ps, p))
  {
    hide TwinFree, CompressedAll, Kept, IsTwinOf;
    var kept := p => Kept(fs, ps, p);
    forall p | p in ps ensures Lookup(CompressedAll(z, fs, ps), Twin(p)) == Some(z.deflate(kept(p))) {
      CompressedAt(z, fs, ps, Twin(p));
      StemOfTwin(p);
      IsTwin(p, ps);
    }
  }

  /** The decompressor copes with the empty inputs that repeated files lead to. */
  ghost predicate Copes(z: Zlib, ps: seq<string>) {
    z.inflate([]).1 || forall p | p in ps :: !Repeated(ps, p)
  }

  /** The whole round trip, at every path and for every file system: a file that was missing comes back
      empty, one that is repeated as what the decompressor makes of nothing, and a compressed twin that
      was there before is gone. */
  lemma RoundTripAt(z: Zlib, fs: FileSystem, ps: seq<string>, q: string)
    requires Inverse(z) && TwinFree(ps)
    ensures UncompressedAll(z, CompressedAll(z, fs, ps), ps).1 <==> Copes(z, ps)
    ensures Copes(z, ps) ==>
      Lookup(UncompressedAll(z, CompressedAll(z, fs, ps), ps).0, q)
      == if q in ps then Some(if Repeated(ps, q) then z.inflate([]).0 else Content(fs, q))
         else if IsTwinOf(q, ps) then None
         else Lookup(fs, q)
  {
    hide IsTwinOf, TwinFree, Inverse, CompressedAll, UncompressedAll, Packed, Repeated;
    var packed := CompressedAll(z, fs, ps);
    var kept := p => Kept(fs, ps, p);
    CompressedIsPacked(z, fs, ps);
    if Copes(z, ps) {
      UncompressedAt(z, packed, ps, {}, kept, q);
      CompressedAt(z, fs, ps, q);
    } else {
      UncompressedFails(z, packed, ps, {}, kept);
    }
  }

  lemma TwinIsNoFile(ps: seq<string>, p: string)
    requires TwinFree(ps) && p in ps
    ensures Twin(p) !in ps
  {}

  lemma IsTwin(p: string, ps: seq<string>)
    requires p in ps
    ensures IsTwinOf(Twin(p), ps)
  {
    StemOfTwin(p);
  }

  /** All the files are there, and none has a compressed twin beside it. */
  ghost predicate Intact(fs: FileSystem, ps: seq<string>) {
    forall p | p in ps :: p in fs && Twin(p) !in fs
  }

  /** Compressing and uncompressing a mod gives the same bank again exactly when all its files were there,
      none of them had a compressed twin beside it, and each that is listed twice held just what the
      decompressor makes of nothing. */
  lemma Restored(z: Zlib, fs: FileSystem, ps: seq<string>)
    requires Inverse(z) && TwinFree(ps)
    ensures UncompressedAll(z, CompressedAll(z, fs, ps), ps) == (fs, true)
       <==> Intact(fs, ps) && forall p | p in ps && Repeated(ps, p) :: z.inflate([]) == (fs[p], true)
  {
    hide IsTwinOf, TwinFree, Inverse, CompressedAll, UncompressedAll, Repeated;
    var (after, ok) := UncompressedAll(z, CompressedAll(z, fs, ps), ps);
    RoundTripAt(z, fs, ps, "");
    if (after, ok) == (fs, true) {
      forall p | p in ps ensures p in fs && Twin(p) !in fs && (Repeated(ps, p) ==> z.inflate([]) == (fs[p], true)) {
        RoundTripAt(z, fs, ps, p);
        RoundTripAt(z, fs, ps, Twin(p));
        IsTwin(p, ps);
        TwinIsNoFile(ps, p);
      }
    }
    if Intact(fs, ps) && forall p | p in ps && Repeated(ps, p) :: z.inflate([]) == (fs[p], true) {
      forall q ensures Lookup(after, q) == Lookup(fs, q) {
        RoundTripAt(z, fs, ps, q);
        if IsTwinOf(q, ps) { TwinOfSome(q, ps); }
      }
      SameLookup(after, fs);
    }
  }

  lemma TwinOfSome(q: string, ps: seq<string>)
    requires IsTwinOf(q, ps)
    ensures exists p | p in ps :: q == Twin(p)
  {
    var p := q[..|q| - |SUFFIX|];
    assert q == Twin(p);
  }

  /** The two file systems differ at most in what stands at w. */
  ghost predicate SameBut(fs: FileSystem, fs': FileSystem, w: string) {
    fs - {w} == fs' - {w}
  }

  lemma CompressedSameBut(z: Zlib, fs: FileSystem, fs': FileSystem, q: string, w: string)
    requires SameBut(fs, fs', w) && q != w
    ensures SameBut(Compressed(z, fs, q), Compressed(z, fs', q), w)
    ensures Twin(q) == w ==> Compressed(z, fs, q) == Compressed(z, fs', q)
  {
    assert q in fs <==> q in fs - {w};
    assert q in fs' <==> q in fs' - {w};
    assert q in fs ==> fs[q] == (fs - {w})[q] && fs'[q] == (fs' - {w})[q];
    var value := z.deflate(Content(fs, q));
    assert fs[Twin(q) := value] - {w} == if Twin(q) == w then fs - {w} else (fs - {w})[Twin(q) := value];
    assert fs'[Twin(q) := value] - {w} == if Twin(q) == w then fs' - {w} else (fs' - {w})[Twin(q) := value];
    Removed(fs[Twin(q) := value], fs'[Twin(q) := value], q, w);
    if Twin(q) == w {
      assert fs[w := value] == (fs - {w})[w := value] && fs'[w := value] == (fs' - {w})[w := value];
    }
  }

  lemma Removed(fs: FileSystem, fs': FileSystem, q: string, w: string)
    requires SameBut(fs, fs', w)
    ensures SameBut(fs - {q}, fs' - {q}, w)
  {
    assert fs - {q} - {w} == fs - {w} - {q} && fs' - {q} - {w} == fs' - {w} - {q};
  }

  /** Whatever was in a twin before is overwritten when its file is compressed. */
  lemma {:induction false} OldTwinIsLost(z: Zlib, fs: FileSystem, fs': FileSystem, ps: seq<string>, p: string)
    requires p in ps && Twin(p) !in ps && SameBut(fs, fs', Twin(p))
    ensures CompressedAll(z, fs, ps) == CompressedAll(z, fs', ps)
    decreases |ps|
  {
    hide Compressed, SameBut;
    assert ps == [ps[0]] + ps[1..];
    CompressedSameBut(z, fs, fs', ps[0], Twin(p));
    if ps[0] != p {
      OldTwinIsLost(z, Compressed(z, fs, ps[0]), Compressed(z, fs', ps[0]), ps[1..], p);
    }
  }

  lemma {:induction false} RepeatedIsLost(z: Zlib, fs: FileSystem, fs': FileSystem, ps: seq<string>, p: string)
    requires Repeated(ps, p) && Twin(p) !in ps && SameBut(fs, fs', p)
    ensures CompressedAll(z, fs, ps) == CompressedAll(z, fs', ps)
    decreases |ps|
  {
    hide Compressed, SameBut;
    assert ps == [ps[0]] + ps[1..];
    assert multiset(ps) == multiset{ps[0]} + multiset(ps[1..]);
    if ps[0] == p {
      assert p in multiset(ps[1..]);
      CompressedOnce(z, fs, fs', p);
      OldTwinIsLost(z, Compressed(z, fs, p), Compressed(z, fs', p), ps[1..], p);
    } else {
      CompressedSameBut(z, fs, fs', ps[0], p);
      RepeatedIsLost(z, Compressed(z, fs, ps[0]), Compressed(z, fs', ps[0]), ps[1..], p);
    }
  }

  lemma CompressedOnce(z: Zlib, fs: FileSystem, fs': FileSystem, p: string)
    requires SameBut(fs, fs', p)
    ensures SameBut(Compressed(z, fs, p), Compressed(z, fs', p), Twin(p))
  {
    assert Compressed(z, fs, p) - {Twin(p)} == fs - {p} - {Twin(p)};
    assert Compressed(z, fs', p) - {Twin(p)} == fs' - {p} - {Twin(p)};
  }

  /** A file that the list names twice is lost: the second time there is nothing left to compress, so
      the result is the same whatever the file held. */
  lemma NamedTwiceIsLost(z: Zlib, fs: FileSystem, ps: seq<string>, p: string, x: Bytes)
    requires Repeated(ps, p) && Twin(p) !in ps
    ensures CompressedAll(z, fs[p := x], ps) == CompressedAll(z, fs, ps)
  {
    assert fs[p := x] - {p} == fs - {p};
    RepeatedIsLost(z, fs[p := x], fs, ps, p);
  }

  /** Of the lists without twins, those without repetition are exactly the ones that every bank
      survives. */
  lemma EveryBankSurvives(z: Zlib, ps: seq<string>)
    requires Inverse(z) && TwinFree(ps)
    ensures (forall fs :: Intact(fs, ps) ==> UncompressedAll(z, CompressedAll(z, fs, ps), ps) == (fs, true))
       <==> NoRepeats(ps)
  {
    hide Inverse, CompressedAll, UncompressedAll;
    if NoRepeats(ps) {
      forall fs | Intact(fs, ps) ensures UncompressedAll(z, CompressedAll(z, fs, ps), ps) == (fs, true) {
        Restored(z, fs, ps);
        NoneRepeated(ps);
      }
    } else {
      var i, j :| 0 <= i < j < |ps| && ps[i] == ps[j];
      Twice(ps, i, j);
      TwoBanksAlike(z, ps, ps[i]);
    }
  }

  /** Two banks that differ in a file that is listed twice are the same once they are compressed. */
  lemma TwoBanksAlike(z: Zlib, ps: seq<string>, p: string)
    requires Inverse(z) && TwinFree(ps) && Repeated(ps, p)
    ensures exists fs :: Intact(fs, ps) && UncompressedAll(z, CompressedAll(z, fs, ps), ps) != (fs, true)
  {
    hide Inverse, CompressedAll, UncompressedAll, Repeated;
    var fs: FileSystem := map q | q in ps :: [];
    RepeatedIsListed(ps, p);
    NamedTwiceIsLost(z, fs, ps, p, [0]);
    var fs' := fs[p := [0]];
    assert Intact(fs, ps) && Intact(fs', ps);
    assert fs'[p] != fs[p];
    if UncompressedAll(z, CompressedAll(z, fs, ps), ps) == (fs, true) {
      assert UncompressedAll(z, CompressedAll(z, fs', ps), ps) != (fs', true);
    }
  }

  lemma RepeatedIsListed(ps: seq<string>, p: string)
    requires Repeated(ps, p)
    ensures p in ps
  {}

  lemma {:induction false} NoneRepeated(ps: seq<string>)
    requires NoRepeats(ps)
    ensures forall p | p in ps :: !Repeated(ps, p)
  {
    if ps != [] {
      NoneRepeated(ps[1..]);
      forall p | p in ps ensures !Repeated(ps, p) {
        RepeatedRest(ps, p);
      }
    }
  }

  lemma Twice(ps: seq<string>, i: nat, j: nat)
    requires i < j < |ps| && ps[i] == ps[j]
    ensures Repeated(ps, ps[i])
  {
    assert ps == ps[..j] + ps[j..];
    assert ps[i] == ps[..j][i] && ps[j] == ps[j..][0];
    assert ps[i] in multiset(ps[..j]) && ps[i] in multiset(ps[j..]);
  }

  datatype BankFile = BankFile(md5sum: uint128, fileName: string)

  function Paths(base: string, files: seq<BankFile>): seq<string> {
    seq(|files|, i requires 0 <= i < |files| => FilePath(base, files[i].md5sum, files[i].fileName))
  }

  /** No name of the list has the suffix of the twins. */
  predicate NoSuffix(files: seq<BankFile>) {
    forall f | f in files :: !(|f.fileName| >= |SUFFIX| && f.fileName[|f.fileName| - |SUFFIX|..] == SUFFIX)
  }

  /** Then no path is the twin of another, and two places have the same path only if they name the same file. */
  lemma FilesAreSeparate(base: string, files: seq<BankFile>)
    requires NoSuffix(files)
    ensures TwinFree(Paths(base, files))
    ensures NoRepeats(Paths(base, files)) <==> forall i, j | 0 <= i < j < |files| :: files[i] != files[j]
  {
    hide FilePath;
    var ps := Paths(base, files);
    forall i, j | 0 <= i < j < |ps| ensures ps[i] != ps[j] <==> files[i] != files[j] {
      if ps[i] == ps[j] {
        FilePathIsInjective(base, files[i].md5sum, files[i].fileName, files[j].md5sum, files[j].fileName);
      }
    }
    forall i, j | 0 <= i < |ps| && 0 <= j < |ps| ensures ps[i] != Twin(ps[j]) {
      assert files[i] in files;
      StemOfTwin(files[j].fileName);
      assert files[i].fileName != Twin(files[j].fileName);
      TwinPath(base, files[j]);
      if ps[i] == Twin(ps[j]) {
        FilePathIsInjective(base, files[i].md5sum, files[i].fileName, files[j].md5sum, files[j].fileName + SUFFIX);
      }
    }
  }

  lemma TwinPath(base: string, f: BankFile)
    ensures Twin(FilePath(base, f.md5sum, f.fileName)) == FilePath(base, f.md5sum, f.fileName + SUFFIX)
  {}

  /** The bank restored: any mod of different files without that suffix, over any bank. */
  lemma ModRestored(z: Zlib, fs: FileSystem, base: string, files: seq<BankFile>)
    requires Inverse(z) && NoSuffix(files)
    requires forall i, j | 0 <= i < j < |files| :: files[i] != files[j]
    ensures UncompressedAll(z, CompressedAll(z, fs, Paths(base, files)), Paths(base, files)) == (fs, true)
       <==> Intact(fs, Paths(base, files))
  {
    FilesAreSeparate(base, files);
    hide *;
    NoneRepeated(Paths(base, files));
    Restored(z, fs, Paths(base, files));
  }

  /** Nothing outside the files and their twins is touched. */
  ghost predicate SameOutside(fs: FileSystem, fs': FileSystem, ps: seq<string>) {
    forall q | q !in ps && !IsTwinOf(q, ps) :: Lookup(fs', q) == Lookup(fs, q)
  }

  lemma StepOutside(z: Zlib, fs: FileSystem, ps: seq<string>, p: string)
    requires p in ps
    ensures SameOutside(fs, Compressed(z, fs, p), ps) && SameOutside(fs, Uncompressed(z, fs, p).0, ps)
  {
    IsTwin(p, ps);
  }

  class Bank {
    const z: Zlib
    const base: string
    var fs: FileSystem

    constructor (z: Zlib, base: string, fs: FileSystem)
      ensures this.z == z && this.base == base && this.fs == fs
    {
      this.z, this.base, this.fs := z, base, fs;
    }

    method Path(f: BankFile) returns (p: string)
      ensures IsFilePath(p, base, f.md5sum, f.fileName) && p == FilePath(base, f.md5sum, f.fileName)
    {
      hide IsFilePath;
      FilePathHasParts(base, f.md5sum, f.fileName);
      var path := GetServerPathFromMD5(base, f.md5sum);
      return path + f.fileName;
    }

    method CompressFileInBank(f: BankFile)
      modifies this
      ensures fs == Compressed(z, old(fs), FilePath(base, f.md5sum, f.fileName))
    {
      hide FilePath;
      var filePath := Path(f);
      var data := Content(fs, filePath);
      fs := fs[filePath + SUFFIX := z.deflate(data)];
      fs := fs - {filePath};
    }

    method UncompressFileInBank(f: BankFile) returns (ok: bool)
      modifies this
      ensures (fs, ok) == Uncompressed(z, old(fs), FilePath(base, f.md5sum, f.fileName))
    {
      hide FilePath;
      var filePath := Path(f);
      var (output, accepted) := z.inflate(Content(fs, filePath + SUFFIX));
      fs := fs[filePath := output];
      if !accepted {
        return false;
      }
      fs := fs - {filePath + SUFFIX};
      return true;
    }

    method CompressMod(files: seq<BankFile>)
      modifies this
      ensures fs == CompressedAll(z, old(fs), Paths(base, files))
      ensures SameOutside(old(fs), fs, Paths(base, files))
    {
      hide FilePath, Compressed, IsTwinOf;
      ghost var ps := Paths(base, files);
      for i := 0 to |files|
        invariant CompressedAll(z, fs, ps[i..]) == CompressedAll(z, old(fs), ps)
        invariant SameOutside(old(fs), fs, ps)
      {
        StepOutside(z, fs, ps, ps[i]);
        assert ps[i..][1..] == ps[i + 1..];
        CompressFileInBank(files[i]);
      }
    }

    method UncompressMod(files: seq<BankFile>) returns (ok: bool)
      modifies this
      ensures (fs, ok) == UncompressedAll(z, old(fs), Paths(base, files))
      ensures SameOutside(old(fs), fs, Paths(base, files))
    {
      hide FilePath, Uncompressed, IsTwinOf;
      ghost var ps := Paths(base, files);
      for i := 0 to |files|
        invariant UncompressedAll(z, fs, ps[i..]) == UncompressedAll(z, old(fs), ps)
        invariant SameOutside(old(fs), fs, ps)
      {
        StepOutside(z, fs, ps, ps[i]);
        assert ps[i..][1..] == ps[i + 1..];
        ok := UncompressFileInBank(files[i]);
        if !ok {
          return;
        }
      }
      return true;
    }
  }
}
