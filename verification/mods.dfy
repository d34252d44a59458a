/** Mods, the manager that keeps them unique, and the sorted list of the mods a file belongs to. */
module Mods {

  /** The order of std::string. */
  predicate Before(a: string, b: string) {
    b != [] && (a == [] || a[0] < b[0] || (a[0] == b[0] && Before(a[1..], b[1..])))
  }

  lemma {:induction false} BeforeIsTotal(a: string, b: string)
    ensures !Before(a, a)
    ensures a != b ==> Before(a, b) || Before(b, a)
    ensures !(Before(a, b) && Before(b, a))
    decreases |a| + |b|
  {
    if a != [] {
      BeforeIsTotal(a[1..], if b == [] then [] else b[1..]);
      if b != [] && a[0] == b[0] {
        assert a == [a[0]] + a[1..] && b == [b[0]] + b[1..];
      }
    }
  }

  lemma {:induction false} BeforeIsTransitive(a: string, b: string, c: string)
    requires Before(a, b) && Before(b, c)
    ensures Before(a, c)
    decreases |a|
  {
    if a != [] && a[0] == b[0] && b[0] == c[0] {
      BeforeIsTransitive(a[1..], b[1..], c[1..]);
    }
  }

  /** The same order by the first place where two strings differ, or where one of them ends. */
  ghost predicate DiffersAt(a: string, b: string, k: nat) {
    && k <= |a| && k < |b| && a[..k] == b[..k]
    && (k == |a| || a[k] < b[k])
  }

  ghost predicate Precedes(a: string, b: string) {
    exists k :: DiffersAt(a, b, k)
  }

  lemma {:induction false} BeforeIsFirstDifference(a: string, b: string)
    ensures Before(a, b) <==> Precedes(a, b)
    decreases |a|
  {
    if Before(a, b) {
      if a == [] || a[0] < b[0] {
        assert DiffersAt(a, b, 0);
      } else {
        BeforeIsFirstDifference(a[1..], b[1..]);
        var k :| DiffersAt(a[1..], b[1..], k);
        LaterDifference(a, b, k);
      }
    }
    if Precedes(a, b) {
      var k :| DiffersAt(a, b, k);
      if k > 0 {
        EarlierDifference(a, b, k);
        BeforeIsFirstDifference(a[1..], b[1..]);
      }
    }
  }

  lemma LaterDifference(a: string, b: string, k: nat)
    requires a != [] && b != [] && a[0] == b[0] && DiffersAt(a[1..], b[1..], k)
    ensures DiffersAt(a, b, k + 1)
  {
    assert a[..k + 1] == [a[0]] + a[1..][..k] && b[..k + 1] == [b[0]] + b[1..][..k];
  }

  lemma EarlierDifference(a: string, b: string, k: nat)
    requires DiffersAt(a, b, k) && k > 0
    ensures a != [] && a[0] == b[0] && DiffersAt(a[1..], b[1..], k - 1)
  {
    assert a[0] == a[..k][0] && b[0] == b[..k][0];
    assert a[1..][..k - 1] == a[..k][1..] && b[1..][..k - 1] == b[..k][1..];
  }

  /** Mods are shared by reference. */
  class Mod {
    const name: string
    const description: string
    const download: string
    const version: string

    constructor (name: string, description: string, download: string, version: string)
      ensures this.name == name && this.description == description
      ensures this.download == download && this.version == version
    {
      this.name, this.description, this.download, this.version := name, description, download, version;
    }
  }

  predicate SameKey(a: Mod, b: Mod) {
    a.name == b.name && a.version == b.version
  }

  predicate IsLessThan(a: Mod, b: Mod) {
    if a.name == b.name then Before(a.version, b.version) else Before(a.name, b.name)
  }

  /** isLessThan is a strict order, total up to name and version. */
  lemma IsLessThanIsTotal(a: Mod, b: Mod)
    ensures IsLessThan(a, b) || IsLessThan(b, a) <==> !SameKey(a, b)
    ensures !(IsLessThan(a, b) && IsLessThan(b, a))
  {
    BeforeIsTotal(a.name, b.name);
    BeforeIsTotal(a.version, b.version);
    BeforeIsTotal(b.version, a.version);
  }

  lemma IsLessThanIsTransitive(a: Mod, b: Mod, c: Mod)
    requires IsLessThan(a, b) && IsLessThan(b, c)
    ensures IsLessThan(a, c)
  {
    hide Before;
    if a.name == b.name == c.name {
      BeforeIsTransitive(a.version, b.version, c.version);
    } else if a.name != b.name && b.name != c.name {
      BeforeIsTransitive(a.name, b.name, c.name);
      BeforeIsTotal(a.name, b.name);
    }
  }

  /** What a sorting algorithm with this comparison promises: it may order equivalent mods as it likes. */
  ghost predicate Sorted(s: seq<Mod>) {
    forall i, j | 0 <= i < j < |s| :: !IsLessThan(s[j], s[i])
  }

  ghost predicate StrictlyIncreasing(s: seq<Mod>) {
    forall i, j | 0 <= i < j < |s| :: IsLessThan(s[i], s[j])
  }

  /** Different mods differ in name or version. */
  ghost predicate Distinguishable(mods: set<Mod>) {
    forall a, b | a in mods && b in mods :: SameKey(a, b) ==> a == b
  }

  function Elements(s: seq<Mod>): set<Mod> {
    set m | m in s
  }

  /** Neighbours that are the same object become one. */
  function Unique(s: seq<Mod>): seq<Mod> {
    if |s| <= 1 then s
    else if s[0] == s[1] then Unique(s[1..])
    else [s[0]] + Unique(s[1..])
  }

  lemma {:induction false} UniqueKeeps(s: seq<Mod>)
    requires Sorted(s)
    ensures Elements(Unique(s)) == Elements(s) && Sorted(Unique(s))
    ensures s != [] ==> Unique(s) != [] && Unique(s)[0] == s[0]
    ensures forall i | 0 < i < |Unique(s)| :: Unique(s)[i - 1] != Unique(s)[i]
  {
    if |s| > 1 {
      UniqueKeeps(s[1..]);
      var rest := Unique(s[1..]);
      assert s == [s[0]] + s[1..];
      assert Elements(s) == {s[0]} + Elements(s[1..]);
      assert Elements(rest) == Elements(s[1..]);
      if s[0] != s[1] {
        assert Elements([s[0]] + rest) == {s[0]} + Elements(rest);
        forall j | 0 <= j < |rest| ensures !IsLessThan(rest[j], s[0]) {
          assert rest[j] in Elements(rest);
          assert rest[j] in s[1..];
        }
      }
    }
  }

  /** One call of addMod: some sort of the list with the new mod, then unique. */
  ghost predicate Added(before: seq<Mod>, m: Mod, sorted: seq<Mod>, after: seq<Mod>) {
    Sorted(sorted) && multiset(sorted) == multiset(before + [m]) && after == Unique(sorted)
  }

  /** A history of calls: the mods added, the sorted lists in between, and the states of the list. */
  ghost predicate History(added: seq<Mod>, sorts: seq<seq<Mod>>, states: seq<seq<Mod>>) {
    && |sorts| == |added| && |states| == |added| + 1 && states[0] == []
    && forall i | 0 <= i < |added| :: Added(states[i], added[i], sorts[i], states[i + 1])
  }

  lemma AddedElements(before: seq<Mod>, m: Mod, sorted: seq<Mod>, after: seq<Mod>)
    requires Added(before, m, sorted, after)
    ensures Elements(after) == Elements(before) + {m} && Sorted(after)
    ensures forall i | 0 < i < |after| :: after[i - 1] != after[i]
  {
    UniqueKeeps(sorted);
    forall x ensures x in Elements(sorted) <==> x in Elements(before) + {m} {
      assert x in sorted <==> x in multiset(sorted);
      assert x in before + [m] <==> x in multiset(before + [m]);
    }
  }

  /** The list holds exactly the mods that were added, sorted, and no neighbours are the same. */
  lemma {:induction false} HoldsExactlyTheAdded(added: seq<Mod>, sorts: seq<seq<Mod>>, states: seq<seq<Mod>>)
    requires History(added, sorts, states)
    ensures var pMods := states[|added|];
      && Elements(pMods) == Elements(added) && Sorted(pMods)
      && (forall i | 0 < i < |pMods| :: pMods[i - 1] != pMods[i])
    decreases |added|
  {
    hide Added, Sorted, Unique;
    var n := |added|;
    if n == 0 {
      EmptySorted();
    } else {
      var before := added[..n - 1];
      forall i | 0 <= i < n - 1 ensures Added(states[..n][i], before[i], sorts[..n - 1][i], states[..n][i + 1]) {
        assert Added(states[i], added[i], sorts[i], states[i + 1]);
      }
      HoldsExactlyTheAdded(before, sorts[..n - 1], states[..n]);
      assert Added(states[n - 1], added[n - 1], sorts[n - 1], states[n]);
      AddedElements(states[n - 1], added[n - 1], sorts[n - 1], states[n]);
      assert added == before + [added[n - 1]];
      assert Elements(added) == Elements(before) + {added[n - 1]};
    }
  }

  lemma EmptySorted()
    ensures Sorted([])
  {}

  lemma {:induction false} NeighboursSuffice(s: seq<Mod>, i: nat, j: nat)
    requires forall k | 0 < k < |s| :: IsLessThan(s[k - 1], s[k])
    requires i < j < |s|
    ensures IsLessThan(s[i], s[j])
    decreases j - i
  {
    hide IsLessThan;
    if i + 1 < j {
      NeighboursSuffice(s, i, j - 1);
      IsLessThanIsTransitive(s[i], s[j - 1], s[j]);
    }
  }

  lemma SortedIsStrict(s: seq<Mod>)
    requires Sorted(s) && (forall i | 0 < i < |s| :: s[i - 1] != s[i])
    ensures StrictlyIncreasing(s) <==> Distinguishable(Elements(s))
  {
    hide IsLessThan;
    if Distinguishable(Elements(s)) {
      forall k | 0 < k < |s| ensures IsLessThan(s[k - 1], s[k]) {
        assert s[k - 1] in Elements(s) && s[k] in Elements(s);
        IsLessThanIsTotal(s[k - 1], s[k]);
      }
      forall i, j | 0 <= i < j < |s| ensures IsLessThan(s[i], s[j]) {
        NeighboursSuffice(s, i, j);
      }
    }
    if StrictlyIncreasing(s) {
      forall i, j | 0 <= i < |s| && 0 <= j < |s| && SameKey(s[i], s[j]) ensures i == j {
        IsLessThanIsTotal(s[i], s[j]);
      }
    }
  }

  /** The list is strictly increasing if and only if no two of the added mods share name and version. */
  lemma NormalForm(added: seq<Mod>, sorts: seq<seq<Mod>>, states: seq<seq<Mod>>)
    requires History(added, sorts, states)
    ensures StrictlyIncreasing(states[|added|]) <==> Distinguishable(Elements(added))
  {
    hide Added, Sorted, Distinguishable, StrictlyIncreasing;
    HoldsExactlyTheAdded(added, sorts, states);
    SortedIsStrict(states[|added|]);
  }

  /** The order of the list in plain terms: names never decrease, versions never decrease among equal names,
      and they increase if the mods are distinguishable. */
  lemma NamesThenVersions(added: seq<Mod>, sorts: seq<seq<Mod>>, states: seq<seq<Mod>>, i: nat, j: nat)
    requires History(added, sorts, states) && i < j < |states[|added|]|
    ensures var a, b := states[|added|][i], states[|added|][j];
      && !Precedes(b.name, a.name)
      && (a.name == b.name ==> !Precedes(b.version, a.version))
      && (a.name == b.name && Distinguishable(Elements(added)) ==> Precedes(a.version, b.version))
      && (a.name != b.name ==> Precedes(a.name, b.name))
  {
    hide Added, Distinguishable, Precedes, Before;
    HoldsExactlyTheAdded(added, sorts, states);
    var a, b := states[|added|][i], states[|added|][j];
    assert !IsLessThan(b, a);
    BeforeIsTotal(a.name, b.name);
    BeforeIsFirstDifference(a.name, b.name);
    BeforeIsFirstDifference(b.name, a.name);
    BeforeIsFirstDifference(a.version, b.version);
    BeforeIsFirstDifference(b.version, a.version);
    if Distinguishable(Elements(added)) {
      NormalForm(added, sorts, states);
    }
  }

  lemma {:induction false} OneListPerSet(s: seq<Mod>, t: seq<Mod>)
    requires StrictlyIncreasing(s) && StrictlyIncreasing(t) && Elements(s) == Elements(t)
    ensures s == t
    decreases |s|
  {
    hide IsLessThan;
    if s == [] || t == [] {
      NoElements(s);
      NoElements(t);
    } else {
      FirstsAgree(s, t);
      RestElements(s);
      RestElements(t);
      OneListPerSet(s[1..], t[1..]);
    }
  }

  lemma NoElements(s: seq<Mod>)
    ensures Elements(s) == {} <==> s == []
  {
    if s != [] {
      assert s[0] in Elements(s);
    }
  }

  lemma FirstsAgree(s: seq<Mod>, t: seq<Mod>)
    requires StrictlyIncreasing(s) && StrictlyIncreasing(t) && Elements(s) == Elements(t) && s != [] && t != []
    ensures s[0] == t[0]
  {
    hide IsLessThan;
    assert s[0] in Elements(t) && t[0] in Elements(s);
    var i :| 0 <= i < |t| && t[i] == s[0];
    var j :| 0 <= j < |s| && s[j] == t[0];
    IsLessThanIsTotal(s[0], t[0]);
  }

  lemma RestElements(s: seq<Mod>)
    requires StrictlyIncreasing(s) && s != []
    ensures Elements(s[1..]) == Elements(s) - {s[0]}
  {
    hide IsLessThan;
    assert s == [s[0]] + s[1..];
    forall i | 0 < i < |s| ensures s[i] != s[0] {
      IsLessThanIsTotal(s[0], s[i]);
    }
  }

  /** Neither the order nor the repetition of the calls matters, nor how the sort treats equivalent mods. */
  lemma OrderDoesNotMatter(added: seq<Mod>, sorts: seq<seq<Mod>>, states: seq<seq<Mod>>,
                           added': seq<Mod>, sorts': seq<seq<Mod>>, states': seq<seq<Mod>>)
    requires History(added, sorts, states) && History(added', sorts', states')
    requires Elements(added) == Elements(added') && Distinguishable(Elements(added))
    ensures states[|added|] == states'[|added'|]
  {
    hide Added, Sorted, Distinguishable, StrictlyIncreasing;
    NormalForm(added, sorts, states);
    NormalForm(added', sorts', states');
    HoldsExactlyTheAdded(added, sorts, states);
    HoldsExactlyTheAdded(added', sorts', states');
    OneListPerSet(states[|added|], states'[|added'|]);
  }

  lemma UniqueOfDifferent(s: seq<Mod>)
    requires |s| > 1 && s[0] != s[1] && Unique(s[1..]) == s[1..]
    ensures Unique(s) == s
  {}

  lemma AddedEquivalent(before: seq<Mod>, m: Mod, after: seq<Mod>)
    requires after == before + [m] && Unique(after) == after
    requires forall i, j | 0 <= i < |after| && 0 <= j < |after| :: SameKey(after[i], after[j])
    ensures Added(before, m, after, after)
  {
    forall i, j | 0 <= i < j < |after| ensures !IsLessThan(after[j], after[i]) {
      IsLessThanIsTotal(after[i], after[j]);
    }
  }

  /** Without that, the same mod can be in the list twice: unique() compares the objects, and another
      mod of the same name and version can stand in between. */
  lemma TwiceInTheList(a: Mod, b: Mod)
    requires SameKey(a, b) && a != b
    ensures History([a, b, a], [[a], [a, b], [a, b, a]], [[], [a], [a, b], [a, b, a]])
  {
    hide IsLessThan, Unique, Added;
    assert [a, b][1..] == [b] && [b, a][1..] == [a] && [a, b, a][1..] == [b, a];
    Singles(a);
    Singles(b);
    UniqueOfDifferent([a, b]);
    UniqueOfDifferent([b, a]);
    UniqueOfDifferent([a, b, a]);
    AddedEquivalent([], a, [a]);
    AddedEquivalent([a], b, [a, b]);
    AddedEquivalent([a, b], a, [a, b, a]);
  }

  lemma Singles(a: Mod)
    ensures Unique([a]) == [a]
  {}

  lemma InsertedSame(s: seq<Mod>, i: nat, m: Mod)
    requires i <= |s|
    ensures multiset(s[..i] + [m] + s[i..]) == multiset(s + [m])
  {
    assert s == s[..i] + s[i..];
  }

  lemma InsertedSorted(s: seq<Mod>, i: nat, m: Mod)
    requires Sorted(s) && i <= |s|
    requires forall k | 0 <= k < i :: !IsLessThan(m, s[k])
    requires forall k | i <= k < |s| :: !IsLessThan(s[k], m)
    ensures Sorted(s[..i] + [m] + s[i..])
  {
    hide IsLessThan;
  }

  /** The insertion of one mod into a sorted list. */
  method Insert(s: seq<Mod>, m: Mod) returns (t: seq<Mod>)
    requires Sorted(s)
    ensures Sorted(t) && multiset(t) == multiset(s + [m])
  {
    hide IsLessThan;
    var i := |s|;
    while i > 0 && IsLessThan(m, s[i - 1])
      invariant 0 <= i <= |s|
      invariant forall k | i <= k < |s| :: IsLessThan(m, s[k])
    {
      i := i - 1;
    }
    t := s[..i] + [m] + s[i..];
    InsertedSame(s, i, m);
    forall k | 0 <= k < i ensures !IsLessThan(m, s[k]) {
      if IsLessThan(m, s[k]) && k < i - 1 {
        NotBelow(s, m, k, i - 1);
      }
    }
    forall k | i <= k < |s| ensures !IsLessThan(s[k], m) {
      IsLessThanIsTotal(m, s[k]);
    }
    InsertedSorted(s, i, m);
  }

  lemma NotBelow(s: seq<Mod>, m: Mod, k: nat, l: nat)
    requires Sorted(s) && k < l < |s| && IsLessThan(m, s[k])
    ensures IsLessThan(m, s[l])
  {
    hide IsLessThan;
    IsLessThanIsTotal(s[k], s[l]);
    if SameKey(s[k], s[l]) {
      SameKeySameOrder(m, s[k], s[l]);
    } else {
      IsLessThanIsTransitive(m, s[k], s[l]);
    }
  }

  lemma SameKeySameOrder(m: Mod, a: Mod, b: Mod)
    requires SameKey(a, b)
    ensures IsLessThan(m, a) == IsLessThan(m, b)
  {}

  /** A sort: nothing but its contract is used. */
  method Sort(s: seq<Mod>) returns (t: seq<Mod>)
    ensures Sorted(t) && multiset(t) == multiset(s)
  {
    hide Sorted;
    EmptySorted();
    t := [];
    for i := 0 to |s|
      invariant Sorted(t) && multiset(t) == multiset(s[..i])
    {
      assert s[..i + 1] == s[..i] + [s[i]];
      t := Insert(t, s[i]);
    }
    assert s[..|s|] == s;
  }

  /** std::unique with erase, as one pass over the list. */
  method EraseDuplicates(s: seq<Mod>) returns (t: seq<Mod>)
    ensures t == Unique(s)
  {
    if s == [] {
      return [];
    }
    t := [];
    var i := 0;
    while i + 1 < |s|
      invariant 0 <= i < |s| && t + Unique(s[i..]) == Unique(s)
    {
      if s[i] != s[i + 1] {
        t := t + [s[i]];
      }
      i := i + 1;
    }
    t := t + [s[i]];
  }

  class File {
    var pMods: seq<Mod>

    constructor ()
      ensures pMods == []
    {
      pMods := [];
    }

    /** A file without mods has no last one. */
    method GetMod() returns (r: Mod)
      requires pMods != []
      ensures r == pMods[|pMods| - 1]
    {
      return pMods[|pMods| - 1];
    }

    method AddMod(pMod: Mod) returns (ghost sorted: seq<Mod>)
      modifies this
      ensures Added(old(pMods), pMod, sorted, pMods)
      ensures Elements(pMods) == Elements(old(pMods)) + {pMod} && Sorted(pMods)
      ensures Distinguishable(Elements(old(pMods)) + {pMod}) ==> StrictlyIncreasing(pMods)
    {
      hide Sorted, Distinguishable, StrictlyIncreasing, Unique;
      var list := Sort(pMods + [pMod]);
      sorted := list;
      pMods := EraseDuplicates(list);
      AddedElements(old(pMods), pMod, sorted, pMods);
      SortedIsStrict(pMods);
    }
  }

  /** The mod that getMod returns: none of the others comes after it by name, or by version under the same
      name. */
  lemma LastMod(added: seq<Mod>, sorts: seq<seq<Mod>>, states: seq<seq<Mod>>, m: Mod)
    requires History(added, sorts, states) && m in added
    ensures var pMods := states[|added|];
      && pMods != []
      && var last := pMods[|pMods| - 1];
         !Precedes(last.name, m.name) && (last.name == m.name ==> !Precedes(last.version, m.version))
  {
    hide Added, Precedes, Before;
    HoldsExactlyTheAdded(added, sorts, states);
    var pMods := states[|added|];
    assert m in Elements(pMods);
    var i :| 0 <= i < |pMods| && pMods[i] == m;
    if i < |pMods| - 1 {
      NamesThenVersions(added, sorts, states, i, |pMods| - 1);
      BeforeIsTotal(m.name, pMods[|pMods| - 1].name);
      BeforeIsFirstDifference(m.name, pMods[|pMods| - 1].name);
      BeforeIsFirstDifference(pMods[|pMods| - 1].name, m.name);
      var last := pMods[|pMods| - 1];
      assert !IsLessThan(last, m);
      BeforeIsFirstDifference(last.version, m.version);
    } else {
      NeverBeforeItself(m.name);
      NeverBeforeItself(m.version);
    }
  }

  lemma NeverBeforeItself(a: string)
    ensures !Precedes(a, a)
  {
    BeforeIsTotal(a, a);
    BeforeIsFirstDifference(a, a);
  }

  class ModManager {
    var mods: seq<Mod>

    constructor (modsInit: seq<Mod>)
      ensures mods == modsInit
    {
      mods := modsInit;
    }

    /** Each mod is unique by name and version. */
    ghost predicate Valid()
      reads this
    {
      forall i, j | 0 <= i < j < |mods| :: !SameKey(mods[i], mods[j])
    }

    method FindModByNameAndVersion(name: string, version: string) returns (r: Mod?)
      ensures r != null ==> r in mods && r.name == name && r.version == version
      ensures r == null ==> forall m | m in mods :: !(m.name == name && m.version == version)
      ensures Valid() ==> forall m | m in mods && m.name == name && m.version == version :: m == r
    {
      for i := 0 to |mods|
        invariant forall k | 0 <= k < i :: !(mods[k].name == name && mods[k].version == version)
      {
        if mods[i].name == name && mods[i].version == version {
          return mods[i];
        }
      }
      return null;
    }

    /** `inserted` is the answer of the database. */
    method IndexMod(name: string, description: string, download: string, version: string, inserted: bool)
      requires Valid()
      modifies this
      ensures Valid()
      ensures (exists m | m in old(mods) :: m.name == name && m.version == version) || !inserted ==> mods == old(mods)
      ensures (forall m | m in old(mods) :: !(m.name == name && m.version == version)) && inserted ==>
        && |mods| == |old(mods)| + 1 && mods[..|old(mods)|] == old(mods) && fresh(mods[|old(mods)|])
        && var m := mods[|old(mods)|];
           m.name == name && m.description == description && m.download == download && m.version == version
    {
      var found := FindModByNameAndVersion(name, version);
      if found != null {
        return;
      }
      var modPtr := new Mod(name, description, download, version);
      if inserted {
        mods := mods + [modPtr];
      }
    }
  }

  /** The mods of a manager are as the normal form needs them, so the list of every file is strictly increasing. */
  lemma ManagedNormalForm(manager: ModManager, added: seq<Mod>, sorts: seq<seq<Mod>>, states: seq<seq<Mod>>)
    requires manager.Valid() && (forall m | m in added :: m in manager.mods) && History(added, sorts, states)
    ensures StrictlyIncreasing(states[|added|])
  {
    hide Added, Sorted, StrictlyIncreasing;
    NormalForm(added, sorts, states);
  }
}
