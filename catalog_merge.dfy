/**
 * mergeSnaps: one catalog out of the installed and the remote payloads,
 * one entry per name, installed entries first in precedence, sorted by name.
 */
module CatalogMerge {
  import opened Payload
  import opened NameOrder

  /** The names occurring in `pkgs`. */
  function Names(pkgs: seq<SnapPkg>): set<string>
  {
    set p | p in pkgs :: p.name
  }

  /**
   * The name-keyed map left by storing each entry of `pkgs` under its name,
   * first to last: of several entries with one name, the last one stays.
   */
  function ByName(pkgs: seq<SnapPkg>): map<string, SnapPkg>
  {
    if pkgs == [] then map[]
    else ByName(pkgs[..|pkgs| - 1])[pkgs[|pkgs| - 1].name := pkgs[|pkgs| - 1]]
  }

  /** Every value of the map sits under its own name. */
  ghost predicate KeyedByName(m: map<string, SnapPkg>)
  {
    forall n | n in m :: m[n].name == n
  }

  /**
   * The catalog mergeSnaps emits, by name: the installed map, plus, unless
   * only installed packages are wanted, the remote entries whose names are
   * not installed (map `+` lets its right operand win).
   */
  function Merged(installed: seq<SnapPkg>, remote: seq<SnapPkg>, installedOnly: bool): map<string, SnapPkg>
  {
    if installedOnly then ByName(installed) else ByName(remote) + ByName(installed)
  }

  /** The map has exactly the names of the list. */
  lemma {:induction false} ByNameKeys(pkgs: seq<SnapPkg>)
    ensures ByName(pkgs).Keys == Names(pkgs)
  {
    if pkgs != [] {
      var init, last := pkgs[..|pkgs| - 1], pkgs[|pkgs| - 1];
      ByNameKeys(init);
      assert pkgs == init + [last];
      assert Names(pkgs) == Names(init) + {last.name};
    }
  }

  /** Each value of the map is an entry of the list, filed under its own name. */
  lemma {:induction false} ByNameValues(pkgs: seq<SnapPkg>, n: string)
    requires n in ByName(pkgs)
    ensures ByName(pkgs)[n].name == n && ByName(pkgs)[n] in pkgs
  {
    var init, last := pkgs[..|pkgs| - 1], pkgs[|pkgs| - 1];
    if n != last.name {
      ByNameValues(init, n);
      assert ByName(pkgs)[n] in init;
    }
  }

  /** The entry kept for a name is the last entry of the list that carries it. */
  lemma {:induction false} ByNameLastWins(pkgs: seq<SnapPkg>, i: nat)
    requires i < |pkgs|
    requires forall j | i < j < |pkgs| :: pkgs[j].name != pkgs[i].name
    ensures pkgs[i].name in ByName(pkgs) && ByName(pkgs)[pkgs[i].name] == pkgs[i]
  {
    if i < |pkgs| - 1 {
      var init := pkgs[..|pkgs| - 1];
      ByNameLastWins(init, i);
    }
  }

  /** Every value of the name-keyed map sits under its own name. */
  lemma ByNameKeyedByName(pkgs: seq<SnapPkg>)
    ensures KeyedByName(ByName(pkgs))
  {
    forall n | n in ByName(pkgs) ensures ByName(pkgs)[n].name == n {
      ByNameValues(pkgs, n);
    }
  }

  /**
   * The catalog's names are the installed names, together with the remote
   * names unless `installedOnly` is set.
   */
  lemma MergedNames(installed: seq<SnapPkg>, remote: seq<SnapPkg>, installedOnly: bool)
    ensures Merged(installed, remote, installedOnly).Keys ==
            Names(installed) + (if installedOnly then {} else Names(remote))
  {
    ByNameKeys(installed);
    ByNameKeys(remote);
  }

  /**
   * Whatever `installedOnly` is, every installed name is in the catalog with
   * an installed entry (the last installed one of that name), never a remote one.
   */
  lemma InstalledWins(installed: seq<SnapPkg>, remote: seq<SnapPkg>, installedOnly: bool, n: string)
    requires n in Names(installed)
    ensures n in ByName(installed) && n in Merged(installed, remote, installedOnly)
    ensures Merged(installed, remote, installedOnly)[n] == ByName(installed)[n]
    ensures Merged(installed, remote, installedOnly)[n] in installed
  {
    ByNameKeys(installed);
    ByNameValues(installed, n);
  }

  /**
   * A remote name that is not installed is in the catalog, with a remote entry
   * of that name, exactly when `installedOnly` is not set.
   */
  lemma RemoteOnlyNames(installed: seq<SnapPkg>, remote: seq<SnapPkg>, installedOnly: bool, n: string)
    requires n in Names(remote) && n !in Names(installed)
    ensures n in Merged(installed, remote, installedOnly) <==> !installedOnly
    ensures n in ByName(remote) && ByName(remote)[n] in remote
    ensures !installedOnly ==> Merged(installed, remote, installedOnly)[n] == ByName(remote)[n]
  {
    ByNameKeys(installed);
    ByNameKeys(remote);
    ByNameValues(remote, n);
  }

  /** Each catalog entry is filed under its own name. */
  lemma MergedKeyedByName(installed: seq<SnapPkg>, remote: seq<SnapPkg>, installedOnly: bool)
    ensures KeyedByName(Merged(installed, remote, installedOnly))
  {
    ByNameKeyedByName(installed);
    ByNameKeyedByName(remote);
  }

  /** Neighbours are in name order. */
  ghost predicate AdjacentSorted(s: seq<SnapPkg>)
  {
    forall k | 0 < k < |s| :: LessOrEqual(s[k - 1].name, s[k].name)
  }

  /** Names strictly increase along the list, so no name occurs twice. */
  ghost predicate StrictlySorted(s: seq<SnapPkg>)
  {
    forall i, j | 0 <= i < j < |s| :: Less(s[i].name, s[j].name)
  }

  /** `catalog` lists the entries of `m`, each once, strictly ascending by name. */
  ghost predicate IsCatalogOf(catalog: seq<SnapPkg>, m: map<string, SnapPkg>)
  {
    && StrictlySorted(catalog)
    && Names(catalog) == m.Keys
    && forall p | p in catalog :: p == m[p.name]
  }

  /** sort.Sort(snapPkgsByName(a)): reorders the slice in place into name order. */
  method SortByName(a: array<SnapPkg>)
    modifies a
    ensures AdjacentSorted(a[..])
    ensures multiset(a[..]) == old(multiset(a[..]))
  {
    var i := 0;
    while i < a.Length
      invariant 0 <= i <= a.Length
      invariant forall k | 0 < k < i :: LessOrEqual(a[k - 1].name, a[k].name)
      invariant multiset(a[..]) == old(multiset(a[..]))
    {
      InsertAt(a, i);
      i := i + 1;
    }
  }

  /** One insertion step: moves `a[i]` left past every larger name, so `a[..i + 1]` ends up in name order. */
  method InsertAt(a: array<SnapPkg>, i: nat)
    requires i < a.Length
    requires forall k | 0 < k < i :: LessOrEqual(a[k - 1].name, a[k].name)
    modifies a
    ensures forall k | 0 < k <= i :: LessOrEqual(a[k - 1].name, a[k].name)
    ensures multiset(a[..]) == old(multiset(a[..]))
  {
    var j := i;
    while 0 < j && Less(a[j].name, a[j - 1].name)
      invariant 0 <= j <= i
      invariant forall k | 0 < k < j :: LessOrEqual(a[k - 1].name, a[k].name)
      invariant forall k | j < k <= i :: LessOrEqual(a[k - 1].name, a[k].name)
      invariant 0 < j < i ==> LessOrEqual(a[j - 1].name, a[j + 1].name)
      invariant multiset(a[..]) == old(multiset(a[..]))
    {
      SwapWithPrevious(a, j);
      j := j - 1;
    }
    if 0 < j && a[j - 1].name != a[j].name {
      LessTotal(a[j - 1].name, a[j].name);
    }
  }

  /** Exchanges `a[j - 1]` and `a[j]`. */
  method SwapWithPrevious(a: array<SnapPkg>, j: nat)
    requires 0 < j < a.Length
    modifies a
    ensures a[j - 1] == old(a[j]) && a[j] == old(a[j - 1])
    ensures forall k | 0 <= k < a.Length && k != j - 1 && k != j :: a[k] == old(a[k])
    ensures multiset(a[..]) == old(multiset(a[..]))
  {
    a[j - 1], a[j] := a[j], a[j - 1];
  }

  /** A list with pairwise different elements holds each value at most once. */
  lemma {:induction false} DistinctCount(s: seq<SnapPkg>, x: SnapPkg)
    requires forall i, j | 0 <= i < j < |s| :: s[i] != s[j]
    ensures multiset(s)[x] <= 1
  {
    if s != [] {
      var init := s[..|s| - 1];
      assert s == init + [s[|s| - 1]];
      DistinctCount(init, x);
      if x == s[|s| - 1] {
        assert x !in init;
      }
    }
  }

  /** A value at two positions is counted at least twice. */
  lemma DuplicateCount(s: seq<SnapPkg>, i: nat, j: nat)
    requires i < j < |s| && s[i] == s[j]
    ensures multiset(s)[s[i]] >= 2
  {
    assert s == s[..j] + s[j..];
    assert s[i] in s[..j] && s[j] in s[j..];
  }

  /** In name order with no name twice, names strictly increase. */
  lemma {:induction false} StrictlySortedFromAdjacent(s: seq<SnapPkg>)
    requires AdjacentSorted(s)
    requires forall i, j | 0 <= i < j < |s| :: s[i].name != s[j].name
    ensures StrictlySorted(s)
  {
    if |s| > 1 {
      var init := s[..|s| - 1];
      StrictlySortedFromAdjacent(init);
      var n := |s| - 1;
      assert Less(s[n - 1].name, s[n].name);
      forall i | 0 <= i < n - 1 ensures Less(s[i].name, s[n].name) {
        assert Less(init[i].name, init[n - 1].name);
        LessTransitive(s[i].name, s[n - 1].name, s[n].name);
      }
    }
  }

  /** Fills a fresh map with the entries of `pkgs`, each under its name, first to last. */
  method IndexByName(pkgs: seq<SnapPkg>) returns (m: map<string, SnapPkg>)
    ensures m == ByName(pkgs)
  {
    m := map[];
    var i := 0;
    while i < |pkgs|
      invariant 0 <= i <= |pkgs|
      invariant m == ByName(pkgs[..i])
    {
      assert pkgs[..i + 1][..i] == pkgs[..i];
      m := m[pkgs[i].name := pkgs[i]];
      i := i + 1;
    }
    assert pkgs[..i] == pkgs;
  }

  /**
   * The loop over `remoteMap`: a remote name already in `allMap` is passed
   * over; any other is added unless `installedOnly` is set.
   */
  method AddRemote(allMap: map<string, SnapPkg>, remoteMap: map<string, SnapPkg>, installedOnly: bool)
    returns (merged: map<string, SnapPkg>)
    ensures merged == if installedOnly then allMap else remoteMap + allMap
  {
    merged := allMap;
    var pending := remoteMap.Keys;
    while pending != {}
      invariant pending <= remoteMap.Keys
      invariant forall n :: n in merged <==> n in allMap || (!installedOnly && n in remoteMap && n !in pending)
      invariant forall n | n in merged :: merged[n] == if n in allMap then allMap[n] else remoteMap[n]
      decreases pending
    {
      var pkgName :| pkgName in pending;
      if pkgName in merged {
        // an installed entry stays as it is
      } else if !installedOnly {
        merged := merged[pkgName := remoteMap[pkgName]];
      }
      pending := pending - {pkgName};
    }
  }

  /** Appends the values of `allMap` to a fresh list, in whatever order the keys are visited. */
  method ValuesOf(allMap: map<string, SnapPkg>) returns (values: seq<SnapPkg>)
    requires KeyedByName(allMap)
    ensures Names(values) == allMap.Keys
    ensures forall k | 0 <= k < |values| :: values[k] == allMap[values[k].name]
    ensures forall k, l | 0 <= k < l < |values| :: values[k].name != values[l].name
  {
    values := [];
    var rest := allMap.Keys;
    while rest != {}
      invariant rest <= allMap.Keys
      invariant forall n | n in allMap :: n in rest || n in Names(values)
      invariant forall k | 0 <= k < |values| ::
        values[k].name in allMap && values[k] == allMap[values[k].name] && values[k].name !in rest
      invariant forall k, l | 0 <= k < l < |values| :: values[k].name != values[l].name
      decreases rest
    {
      var pkgName :| pkgName in rest;
      values := values + [allMap[pkgName]];
      rest := rest - {pkgName};
    }
  }

  /**
   * mergeSnaps. The result is the catalog `Merged` describes, each entry once,
   * strictly ascending by name.
   */
  method MergeSnaps(installed: seq<SnapPkg>, remote: seq<SnapPkg>, installedOnly: bool)
    returns (snapPkgs: seq<SnapPkg>)
    ensures IsCatalogOf(snapPkgs, Merged(installed, remote, installedOnly))
  {
    var remoteMap := IndexByName(remote);
    var allMap := IndexByName(installed);
    allMap := AddRemote(allMap, remoteMap, installedOnly);
    MergedKeyedByName(installed, remote, installedOnly);
    var values := ValuesOf(allMap);

    var a := new SnapPkg[|values|](k requires 0 <= k < |values| => values[k]);
    assert a[..] == values;
    SortByName(a);
    snapPkgs := a[..];
    SortedCatalog(values, snapPkgs);
  }

  /**
   * A name-ordered rearrangement of a list without repeated names has names
   * strictly increasing, the same names, and the same entries.
   */
  lemma SortedCatalog(values: seq<SnapPkg>, sorted: seq<SnapPkg>)
    requires forall k, l | 0 <= k < l < |values| :: values[k].name != values[l].name
    requires multiset(sorted) == multiset(values)
    requires AdjacentSorted(sorted)
    ensures StrictlySorted(sorted)
    ensures Names(sorted) == Names(values)
    ensures forall p :: p in sorted <==> p in values
  {
    forall p ensures p in sorted <==> p in values {
      assert p in sorted <==> p in multiset(sorted);
      assert p in values <==> p in multiset(values);
    }
    forall i, j | 0 <= i < j < |sorted| ensures sorted[i].name != sorted[j].name {
      if sorted[i].name == sorted[j].name {
        assert sorted[i] == sorted[j] by {
          assert sorted[i] in values && sorted[j] in values;
          var k :| 0 <= k < |values| && values[k] == sorted[i];
          var l :| 0 <= l < |values| && values[l] == sorted[j];
          assert k == l;
        }
        DuplicateCount(sorted, i, j);
        DistinctCount(values, sorted[i]);
        assert false;
      }
    }
    StrictlySortedFromAdjacent(sorted);
  }

  /** Two strictly name-ordered lists with the same entries are the same list. */
  lemma {:induction false} StrictlySortedUnique(s: seq<SnapPkg>, t: seq<SnapPkg>)
    requires StrictlySorted(s) && StrictlySorted(t)
    requires forall p :: p in s <==> p in t
    ensures s == t
  {
    assert t != [] ==> t[0] in t;
    if s != [] {
      assert t != [] by {
        assert s[0] in t;
      }
      assert s[0] in t && t[0] in s;
      var k :| 0 <= k < |t| && t[k] == s[0];
      var m :| 0 <= m < |s| && s[m] == t[0];
      if k > 0 {
        LessIrreflexive(s[0].name);
        if m > 0 {
          LessTransitive(s[0].name, s[m].name, s[0].name);
        }
        assert false;
      }
      forall p ensures p in s[1..] <==> p in t[1..] {
        if p in s[1..] {
          var i :| 1 <= i < |s| && s[i] == p;
          LessIrreflexive(s[0].name);
          assert p != t[0];
          assert p in t;
        }
        if p in t[1..] {
          var i :| 1 <= i < |t| && t[i] == p;
          LessIrreflexive(t[0].name);
          assert p != s[0];
          assert p in s;
        }
      }
      StrictlySortedUnique(s[1..], t[1..]);
      assert s == [s[0]] + s[1..] && t == [t[0]] + t[1..];
    }
  }

  /**
   * The catalog of a map is unique, so mergeSnaps' output does not depend on
   * the order in which Go happens to iterate its maps.
   */
  lemma CatalogUnique(c1: seq<SnapPkg>, c2: seq<SnapPkg>, m: map<string, SnapPkg>)
    requires IsCatalogOf(c1, m) && IsCatalogOf(c2, m)
    ensures c1 == c2
  {
    forall p | p in c1 ensures p in c2 {
      assert p.name in Names(c2);
      var q :| q in c2 && q.name == p.name;
    }
    forall p | p in c2 ensures p in c1 {
      assert p.name in Names(c1);
      var q :| q in c1 && q.name == p.name;
    }
    StrictlySortedUnique(c1, c2);
  }

  /** The merged maps of the example below. */
  lemma MergeExampleMaps(foo: SnapPkg, remoteFoo: SnapPkg, bar: SnapPkg)
    requires foo.name == "foo" && remoteFoo.name == "foo" && bar.name == "bar"
    ensures Merged([foo], [remoteFoo, bar], false) == map["foo" := foo, "bar" := bar]
    ensures Merged([foo], [remoteFoo, bar], true) == map["foo" := foo]
  {
    assert [foo][..0] == [] && [remoteFoo][..0] == [] && [remoteFoo, bar][..1] == [remoteFoo];
    assert ByName([foo]) == map["foo" := foo];
    assert ByName([remoteFoo]) == map["foo" := remoteFoo];
    assert ByName([remoteFoo, bar]) == map["foo" := remoteFoo, "bar" := bar];
  }

  /**
   * An installed "foo" and remote "foo" and "bar": the catalog is bar (remote)
   * then foo (installed); with installedOnly it is foo alone.
   */
  lemma MergeExample(foo: SnapPkg, remoteFoo: SnapPkg, bar: SnapPkg, all: seq<SnapPkg>, onlyInstalled: seq<SnapPkg>)
    requires foo.name == "foo" && remoteFoo.name == "foo" && bar.name == "bar"
    requires IsCatalogOf(all, Merged([foo], [remoteFoo, bar], false))
    requires IsCatalogOf(onlyInstalled, Merged([foo], [remoteFoo, bar], true))
    ensures all == [bar, foo]
    ensures onlyInstalled == [foo]
  {
    MergeExampleMaps(foo, remoteFoo, bar);
    assert IsCatalogOf([bar, foo], map["foo" := foo, "bar" := bar]) by {
      assert Less("bar", "foo");
      assert Names([bar, foo]) == {"bar", "foo"};
    }
    CatalogUnique(all, [bar, foo], map["foo" := foo, "bar" := bar]);
    assert IsCatalogOf([foo], map["foo" := foo]) by {
      assert Names([foo]) == {"foo"};
    }
    CatalogUnique(onlyInstalled, [foo], map["foo" := foo]);
  }
}
