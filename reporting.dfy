/**
 * The coordinator tabs of the reporting view (reporting_tab.py): one tab
 * per project coordinator with open jobs, stored under a "safe" key in
 * which every '.' is written "_dot_". A refresh creates the tabs that are
 * missing, in sorted coordinator order, and removes those of coordinators
 * who no longer have open jobs. The widgets themselves are not modelled;
 * the registry of keys and tab labels is.
 */
module Reporting {
  import opened Wrappers
  import opened PyStrings
  import opened Analytics

  /** Tab labels show at most this many characters of the coordinator's name. */
  const TabLabelLength: nat := 20

  /** The key a coordinator's tab is stored under: every '.' becomes "_dot_". */
  function SafeName(name: string): string {
    ReplaceChar(name, '.', "_dot_")
  }

  /** A key has no '.' left, so sanitising it again changes nothing. */
  lemma SafeNameIdempotent(name: string)
    ensures '.' !in SafeName(name)
    ensures SafeName(SafeName(name)) == SafeName(name)
  {
    ReplaceCharRemoves(name, '.', "_dot_");
    ReplaceCharRemoves(SafeName(name), '.', "_dot_");
  }

  /** The name shown for a stored key: every "_dot_" read back as '.'. */
  function DisplayName(safe: string): string {
    Replace(safe, "_dot_", ".")
  }

  /** `str(name)[:20]`. */
  function TabLabel(name: string): (shown: string)
    ensures |shown| <= TabLabelLength && |shown| <= |name| && shown == name[..|shown|]
    ensures |name| <= TabLabelLength ==> shown == name
  {
    if |name| <= TabLabelLength then name else name[..TabLabelLength]
  }

  /** A name without underscores comes back unchanged from its key. */
  lemma {:induction false} DisplayNameRoundTrip(name: string)
    requires '_' !in name
    ensures DisplayName(SafeName(name)) == name
  {
    if name != [] {
      var rest := name[1..];
      assert name == [name[0]] + rest;
      DisplayNameRoundTrip(rest);
      var s := SafeName(name);
      assert s == (if name[0] == '.' then "_dot_" else [name[0]]) + SafeName(rest);
      if name[0] == '.' {
        assert s[..5] == "_dot_" && s[5..] == SafeName(rest);
      } else if |s| >= 5 {
        assert s[0] == name[0] && s[1..] == SafeName(rest);
      }
    }
  }

  /** With an underscore the key can read back as a different name. */
  lemma DisplayNameMisreads()
    ensures SafeName("a_dot.") == "a_dot_dot_"
    ensures DisplayName("a_dot_dot_") == "a.dot_"
  {
    TrailingDotWidened();
    DotKeyReadBack();
  }

  lemma TrailingDotWidened()
    ensures SafeName("a_dot.") == "a_dot_dot_"
  {
    var name := "a_dot";
    assert '.' !in name;
    DotAppendedWidened(name);
    assert name + "." == "a_dot." && name + "_dot_" == "a_dot_dot_";
  }

  /** A dot after a dot-free name becomes "_dot_" after it. */
  lemma DotAppendedWidened(name: string)
    requires '.' !in name
    ensures SafeName(name + ".") == name + "_dot_"
  {
    ReplaceCharRemoves(name, '.', "_dot_");
    ReplaceCharSingle('.', "_dot_");
    ReplaceCharConcat(name, ['.'], '.', "_dot_");
  }

  lemma DotKeyReadBack()
    ensures DisplayName("a_dot_dot_") == "a.dot_"
  {
    assert DisplayName("dot_") == "dot_";
    assert DisplayName("_dot_dot_") == "." + DisplayName("dot_") by {
      assert "_dot_dot_"[..5] == "_dot_" && "_dot_dot_"[5..] == "dot_";
    }
    assert DisplayName("a_dot_dot_") == "a" + DisplayName("_dot_dot_") by {
      assert "a_dot_dot_"[..5] != "_dot_" && "a_dot_dot_"[1..] == "_dot_dot_";
    }
  }

  /** Two coordinators can share one key, and so one tab. */
  lemma SafeNamesCollide()
    ensures SafeName("a.b") == SafeName("a_dot_b") == "a_dot_b"
  {
    DotlessNameKept();
    DottedNameWidened();
  }

  lemma DotlessNameKept()
    ensures SafeName("a_dot_b") == "a_dot_b"
  {
    assert '.' !in "a_dot_b";
  }

  lemma DottedNameWidened()
    ensures SafeName("a.b") == "a_dot_b"
  {
    assert "a.b"[1..] == ".b" && ".b"[1..] == "b";
    assert ReplaceChar("b", '.', "_dot_") == "b";
    assert ReplaceChar(".b", '.', "_dot_") == "_dot_b";
  }

  // ---------------------------------------------------------------------
  // The tab registry as a sequence of keys (a dict keeps insertion order)

  /** A key not yet present goes at the end. */
  function AddKey(keys: seq<string>, k: string): seq<string> {
    if k in keys then keys else keys + [k]
  }

  /** Tabs for the given coordinators, in that order, added to the existing ones. */
  function AddTabsFor(keys: seq<string>, names: seq<string>): seq<string> {
    if names == [] then keys
    else AddKey(AddTabsFor(keys, names[..|names| - 1]), SafeName(names[|names| - 1]))
  }

  /** The keys in `active`, in their order. */
  function KeepKeys(keys: seq<string>, active: set<string>): (r: seq<string>)
    ensures forall x :: x in r <==> x in keys && x in active
  {
    if keys == [] then []
    else (if keys[0] in active then [keys[0]] else []) + KeepKeys(keys[1..], active)
  }

  /** The keys other than `k`, in their order. */
  function Erase(keys: seq<string>, k: string): (r: seq<string>)
    ensures forall x :: x in r <==> x in keys && x != k
  {
    if keys == [] then []
    else (if keys[0] == k then [] else [keys[0]]) + Erase(keys[1..], k)
  }

  function SafeNames(names: seq<string>): set<string> {
    set n | n in names :: SafeName(n)
  }

  /** The coordinators that get a tab: none without data, else those with open jobs, sorted. */
  function ActiveCoordinators(prepared: Option<seq<OpenJob>>): seq<string> {
    match prepared
    case None => []
    case Some(js) => Coordinators(js)
  }

  /** The tab keys after a refresh. */
  function RefreshedTabs(keys: seq<string>, prepared: Option<seq<OpenJob>>): seq<string> {
    var names := ActiveCoordinators(prepared);
    KeepKeys(AddTabsFor(keys, names), SafeNames(names))
  }

  lemma {:induction false} AddTabsForGrows(keys: seq<string>, names: seq<string>)
    ensures var r := AddTabsFor(keys, names);
      && keys <= r
      && (forall x :: x in r <==> x in keys || x in SafeNames(names))
      && (NoDuplicates(keys) ==> NoDuplicates(r))
  {
    if names != [] {
      var front := names[..|names| - 1];
      AddTabsForGrows(keys, front);
      assert names == front + [names[|names| - 1]];
      assert SafeNames(names) == SafeNames(front) + {SafeName(names[|names| - 1])};
    }
  }

  lemma {:induction false} KeepKeysConcat(a: seq<string>, b: seq<string>, active: set<string>)
    ensures KeepKeys(a + b, active) == KeepKeys(a, active) + KeepKeys(b, active)
  {
    if a == [] {
      assert a + b == b;
    } else {
      assert (a + b)[0] == a[0] && (a + b)[1..] == a[1..] + b;
      KeepKeysConcat(a[1..], b, active);
    }
  }

  lemma {:induction false} KeepKeysDistinct(keys: seq<string>, active: set<string>)
    requires NoDuplicates(keys)
    ensures NoDuplicates(KeepKeys(keys, active))
  {
    if keys != [] {
      KeepKeysDistinct(keys[1..], active);
    }
  }

  lemma {:induction false} KeepAllKeys(keys: seq<string>, active: set<string>)
    requires forall x :: x in keys ==> x in active
    ensures KeepKeys(keys, active) == keys
  {
    if keys != [] {
      KeepAllKeys(keys[1..], active);
    }
  }

  lemma {:induction false} AddPresentTabs(keys: seq<string>, names: seq<string>)
    requires forall n :: n in names ==> SafeName(n) in keys
    ensures AddTabsFor(keys, names) == keys
  {
    if names != [] {
      AddPresentTabs(keys, names[..|names| - 1]);
    }
  }

  /**
   * After a refresh there is exactly one tab per active coordinator key, and
   * the tabs that survive keep their order, ahead of the new ones.
   */
  lemma RefreshedTabsExact(keys: seq<string>, prepared: Option<seq<OpenJob>>)
    requires NoDuplicates(keys)
    ensures var names := ActiveCoordinators(prepared);
      var r := RefreshedTabs(keys, prepared);
      && NoDuplicates(r)
      && (forall x :: x in r <==> exists n :: n in names && SafeName(n) == x)
      && KeepKeys(keys, SafeNames(names)) <= r
  {
    var names := ActiveCoordinators(prepared);
    var added := AddTabsFor(keys, names);
    AddTabsForGrows(keys, names);
    KeepKeysDistinct(added, SafeNames(names));
    var tail := added[|keys|..];
    assert added == keys + tail;
    KeepKeysConcat(keys, tail, SafeNames(names));
  }

  /** Without open jobs that have a coordinator, every coordinator tab goes. */
  lemma NoCoordinatorsNoTabs(keys: seq<string>, prepared: Option<seq<OpenJob>>)
    requires prepared.None? || forall j :: j in prepared.value ==> CoordinatorKey(j).None?
    ensures RefreshedTabs(keys, prepared) == []
  {
    if prepared.Some? {
      NoCoordinatorKeys(prepared.value, []);
    }
    assert SafeNames([]) == {};
    KeepNoKeys(AddTabsFor(keys, []), {});
  }

  lemma {:induction false} NoCoordinatorKeys(js: seq<OpenJob>, seen: seq<string>)
    requires NoDuplicates(seen)
    requires forall j :: j in js ==> CoordinatorKey(j).None?
    ensures UniqueCoordinators(js, seen) == seen
  {
    if js != [] {
      assert js[0] in js;
      NoCoordinatorKeys(js[1..], seen);
    }
  }

  lemma {:induction false} KeepNoKeys(keys: seq<string>, active: set<string>)
    requires forall x :: x in keys ==> x !in active
    ensures KeepKeys(keys, active) == []
  {
    if keys != [] {
      KeepNoKeys(keys[1..], active);
    }
  }

  /** Refreshing twice with the same data is the same as refreshing once. */
  lemma RefreshIdempotent(keys: seq<string>, prepared: Option<seq<OpenJob>>)
    requires NoDuplicates(keys)
    ensures RefreshedTabs(RefreshedTabs(keys, prepared), prepared) == RefreshedTabs(keys, prepared)
  {
    var names := ActiveCoordinators(prepared);
    var once := RefreshedTabs(keys, prepared);
    RefreshedTabsExact(keys, prepared);
    AddPresentTabs(once, names);
    KeepAllKeys(once, SafeNames(names));
  }

  lemma {:induction false} EraseAbsent(keys: seq<string>, k: string)
    requires k !in keys
    ensures Erase(keys, k) == keys
  {
    if keys != [] {
      EraseAbsent(keys[1..], k);
    }
  }

  lemma {:induction false} EraseConcat(a: seq<string>, b: seq<string>, k: string)
    ensures Erase(a + b, k) == Erase(a, k) + Erase(b, k)
  {
    if a == [] {
      assert a + b == b;
    } else {
      assert (a + b)[0] == a[0] && (a + b)[1..] == a[1..] + b;
      EraseConcat(a[1..], b, k);
    }
  }

  lemma {:induction false} EraseDistinct(keys: seq<string>, k: string)
    requires NoDuplicates(keys)
    ensures NoDuplicates(Erase(keys, k))
  {
    if keys != [] {
      EraseDistinct(keys[1..], k);
      var rest := Erase(keys[1..], k);
      var head := if keys[0] == k then [] else [keys[0]];
      assert Erase(keys, k) == head + rest;
      assert forall i :: 0 <= i < |rest| ==> rest[i] in keys[1..];
    }
  }

  lemma DistinctAround(s: seq<string>, i: nat)
    requires i < |s| && NoDuplicates(s)
    ensures s[i] !in s[..i] && s[i] !in s[i + 1..]
  {
  }

  lemma KeepOneMore(snapshot: seq<string>, i: nat, active: set<string>)
    requires i < |snapshot|
    ensures KeepKeys(snapshot[..i + 1], active)
      == KeepKeys(snapshot[..i], active) + (if snapshot[i] in active then [snapshot[i]] else [])
  {
    assert snapshot[..i + 1] == snapshot[..i] + [snapshot[i]];
    KeepKeysConcat(snapshot[..i], [snapshot[i]], active);
    assert KeepKeys([snapshot[i]], active) == (if snapshot[i] in active then [snapshot[i]] else []) + KeepKeys([], active);
  }

  lemma EraseMiddle(kept: seq<string>, k: string, rest: seq<string>)
    requires k !in kept && k !in rest
    ensures Erase(kept + [k] + rest, k) == kept + rest
  {
    var tail := [k] + rest;
    assert kept + [k] + rest == kept + tail;
    EraseConcat(kept, tail, k);
    assert tail[0] == k && tail[1..] == rest;
    assert Erase(tail, k) == Erase(rest, k);
    EraseAbsent(kept, k);
    EraseAbsent(rest, k);
  }

  /** One step of the removal loop: the key at the cursor is kept or erased. */
  lemma RemovalStep(snapshot: seq<string>, i: nat, active: set<string>)
    requires i < |snapshot| && NoDuplicates(snapshot)
    ensures var current := KeepKeys(snapshot[..i], active) + snapshot[i..];
      var next := KeepKeys(snapshot[..i + 1], active) + snapshot[i + 1..];
      && (snapshot[i] in active ==> next == current)
      && (snapshot[i] !in active ==> next == Erase(current, snapshot[i]))
  {
    var k := snapshot[i];
    var kept := KeepKeys(snapshot[..i], active);
    KeepOneMore(snapshot, i, active);
    assert snapshot[i..] == [k] + snapshot[i + 1..];
    if k !in active {
      DistinctAround(snapshot, i);
      EraseMiddle(kept, k, snapshot[i + 1..]);
      assert kept + snapshot[i..] == kept + [k] + snapshot[i + 1..];
    }
  }

  lemma {:induction false} AddTabsForStep(keys: seq<string>, names: seq<string>, i: nat)
    requires i < |names|
    ensures AddTabsFor(keys, names[..i + 1]) == AddKey(AddTabsFor(keys, names[..i]), SafeName(names[i]))
    ensures SafeNames(names[..i + 1]) == SafeNames(names[..i]) + {SafeName(names[i])}
  {
    assert names[..i + 1][..i] == names[..i];
    assert names[..i + 1] == names[..i] + [names[i]];
  }

  /** Every tab keeps the label it had; a tab that is new shows the first characters of its key. */
  predicate NewLabelsShowKeys(labels: map<string, string>, before: map<string, string>) {
    forall k :: k in labels ==> labels[k] == (if k in before then before[k] else TabLabel(k))
  }

  // ---------------------------------------------------------------------
  // The reporting view's tab registry

  class ReportingTab {
    /** The keys of the coordinator tabs, in the order they were created. */
    var coordinatorTabs: seq<string>
    /** The label each tab shows. */
    var tabLabels: map<string, string>

    ghost predicate Valid()
      reads this
    {
      NoDuplicates(coordinatorTabs) && forall k :: k in tabLabels <==> k in coordinatorTabs
    }

    constructor()
      ensures Valid() && coordinatorTabs == [] && tabLabels == map[]
    {
      coordinatorTabs := [];
      tabLabels := map[];
    }

    /** Makes sure the coordinator has a tab; an existing tab is reused as it is. */
    method CreateOrGetCoordinatorTab(name: string)
      requires Valid()
      modifies this
      ensures Valid()
      ensures coordinatorTabs == AddKey(old(coordinatorTabs), SafeName(name))
      ensures SafeName(name) in old(coordinatorTabs) ==> tabLabels == old(tabLabels)
      ensures SafeName(name) !in old(coordinatorTabs) ==>
        tabLabels == old(tabLabels)[SafeName(name) := TabLabel(name)]
    {
      var safe := SafeName(name);
      if safe in coordinatorTabs {
        return;
      }
      tabLabels := tabLabels[safe := TabLabel(name)];
      coordinatorTabs := coordinatorTabs + [safe];
    }

    /** Forgets a coordinator's tab. */
    method RemoveTab(k: string)
      requires Valid()
      modifies this
      ensures Valid()
      ensures coordinatorTabs == Erase(old(coordinatorTabs), k)
      ensures tabLabels == old(tabLabels) - {k}
    {
      EraseDistinct(coordinatorTabs, k);
      coordinatorTabs := Erase(coordinatorTabs, k);
      tabLabels := tabLabels - {k};
    }

    /** Removes the tab of every key outside `active`; the others keep their order and labels. */
    method RemoveTabsOutside(active: set<string>)
      requires Valid()
      modifies this
      ensures Valid()
      ensures coordinatorTabs == KeepKeys(old(coordinatorTabs), active)
      ensures forall k :: k in tabLabels ==> tabLabels[k] == old(tabLabels)[k]
    {
      var snapshot := coordinatorTabs;
      var i := 0;
      while i < |snapshot|
        invariant 0 <= i <= |snapshot|
        invariant Valid() && NoDuplicates(snapshot)
        invariant coordinatorTabs == KeepKeys(snapshot[..i], active) + snapshot[i..]
        invariant forall k :: k in tabLabels ==> k in old(tabLabels) && tabLabels[k] == old(tabLabels)[k]
      {
        RemovalStep(snapshot, i, active);
        var k := snapshot[i];
        if k !in active {
          RemoveTab(k);
        }
        assert coordinatorTabs == KeepKeys(snapshot[..i + 1], active) + snapshot[i + 1..];
        i := i + 1;
      }
      assert snapshot[..i] == snapshot;
    }

    /** Asks for a tab for each coordinator in turn, by key; returns the keys asked for. */
    method CreateTabsFor(names: seq<string>) returns (active: set<string>)
      requires Valid()
      modifies this
      ensures Valid()
      ensures coordinatorTabs == AddTabsFor(old(coordinatorTabs), names)
      ensures active == SafeNames(names)
      ensures NewLabelsShowKeys(tabLabels, old(tabLabels))
    {
      active := {};
      for i := 0 to |names|
        invariant Valid()
        invariant coordinatorTabs == AddTabsFor(old(coordinatorTabs), names[..i])
        invariant active == SafeNames(names[..i])
        invariant NewLabelsShowKeys(tabLabels, old(tabLabels))
        invariant forall k :: k in old(tabLabels) ==> k in tabLabels
      {
        AddTabsForStep(old(coordinatorTabs), names, i);
        var safe := SafeName(names[i]);
        SafeNameIdempotent(names[i]);
        active := active + {safe};
        CreateOrGetCoordinatorTab(safe);
      }
      assert names[..|names|] == names;
    }

    /**
     * The refresh of the coordinator tabs: with no data every tab goes;
     * otherwise each coordinator with open jobs gets a tab, in sorted order,
     * and the tabs of the others are removed. A coordinator's tab is asked
     * for by its key, so a new tab is labelled with the key, not the name.
     */
    method DisplayAllStats(prepared: Option<seq<OpenJob>>)
      requires Valid()
      modifies this
      ensures Valid()
      ensures coordinatorTabs == RefreshedTabs(old(coordinatorTabs), prepared)
      ensures NewLabelsShowKeys(tabLabels, old(tabLabels))
    {
      if prepared.None? {
        assert SafeNames([]) == {};
        RemoveTabsOutside({});
        return;
      }
      var names := Coordinators(prepared.value);
      var active := CreateTabsFor(names);
      RemoveTabsOutside(active);
    }
  }
}
