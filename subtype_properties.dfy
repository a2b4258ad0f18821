/**
 * What the subtype lists built by `SubtypeLocaleUtils` look like, for every locale string and
 * every predefined-layout table.
 */
module SubtypeProperties {
  import opened Options
  import opened SubtypeLocaleUtils

  /** No entry of `s` occurs twice. */
  ghost predicate NoRepeats<T>(s: seq<T>) {
    forall i, j :: 0 <= i < j < |s| ==> s[i] != s[j]
  }

  /** No entry of `s` other than `x` occurs twice. */
  ghost predicate NoRepeatsExcept<T>(s: seq<T>, x: T) {
    forall i, j :: 0 <= i < j < |s| && s[i] != x ==> s[i] != s[j]
  }

  /** The first subtype of `subtypes` whose layout set is `layoutSet`, if any. */
  function FirstWithLayout(subtypes: seq<Subtype>, layoutSet: string): (r: Option<Subtype>)
    ensures r.None? <==> forall k :: 0 <= k < |subtypes| ==> subtypes[k].layoutSet != layoutSet
    ensures r.Some? ==>
      exists k :: 0 <= k < |subtypes| && subtypes[k] == r.value && subtypes[k].layoutSet == layoutSet
        && forall j :: 0 <= j < k ==> subtypes[j].layoutSet != layoutSet
  {
    var k := IndexOf(LayoutsOf(subtypes), layoutSet);
    if k < 0 then None else Some(subtypes[k])
  }

  // ---------------------------------------------------------------------------------------
  // The full list of a locale
  // ---------------------------------------------------------------------------------------

  /** The full list is the "qwerty" subtype followed by the generic subtypes of the other rows. */
  lemma SubtypesShape(locale: string, res: Resources)
    requires res.Aligned()
    ensures GetSubtypes(locale, res) == [PrimarySubtype(res, locale, LayoutQwerty)]
      + Generics(res, locale, IndicesNotIn(res.predefinedLayouts, [LayoutQwerty], |res.predefinedLayouts|))
  {
    var layouts := res.predefinedLayouts;
    var policy := Policy(true, None);
    var primary := [PrimarySubtype(res, locale, LayoutQwerty)];
    assert !ShouldSkipLayout(policy, 0, LayoutQwerty);
    assert Build(res, locale, policy) == primary + GenericAdded(res, locale, policy, primary, |layouts|);
    assert LayoutsOf(primary) == [LayoutQwerty];
  }

  /**
   * After the leading "qwerty" subtype come the table entries that are not "qwerty", in table
   * order, each with its own display name and the flag set; nothing else.
   */
  lemma SubtypesAfterDefault(locale: string, res: Resources)
    requires res.Aligned()
    ensures var r := GetSubtypes(locale, res);
      var idx := IndicesNotIn(res.predefinedLayouts, [LayoutQwerty], |res.predefinedLayouts|);
      |r| == 1 + |idx|
      && forall k :: 0 <= k < |idx| ==> r[k + 1] == GenericSubtype(res, locale, idx[k])
  {
    SubtypesShape(locale, res);
    var idx := IndicesNotIn(res.predefinedLayouts, [LayoutQwerty], |res.predefinedLayouts|);
    var generics := Generics(res, locale, idx);
    var r := GetSubtypes(locale, res);
    forall k | 0 <= k < |idx| ensures r[k + 1] == generics[k] {
    }
  }

  /** No subtype after the first has layout set "qwerty"; all of them carry a name and the flag. */
  lemma SubtypesAfterDefaultAreGeneric(locale: string, res: Resources)
    requires res.Aligned()
    ensures var r := GetSubtypes(locale, res);
      forall k :: 1 <= k < |r| ==> r[k].layoutSet != LayoutQwerty && r[k].flag && r[k].layoutName.Some?
  {
    SubtypesShape(locale, res);
    IndicesNotInSelects(res.predefinedLayouts, [LayoutQwerty], |res.predefinedLayouts|);
  }

  /**
   * The generic loop compares only with the subtypes present before it started, so the list
   * repeats no layout set exactly when the table repeats no entry other than "qwerty".
   */
  lemma SubtypesRepeatNoLayout(locale: string, res: Resources)
    requires res.Aligned()
    ensures NoRepeats(LayoutsOf(GetSubtypes(locale, res))) <==> NoRepeatsExcept(res.predefinedLayouts, LayoutQwerty)
  {
    var layouts := res.predefinedLayouts;
    var names := LayoutsOf(GetSubtypes(locale, res));
    var idx := IndicesNotIn(layouts, [LayoutQwerty], |layouts|);
    SubtypesAfterDefault(locale, res);
    IndicesNotInSelects(layouts, [LayoutQwerty], |layouts|);
    SelectionRepeatsNothing(layouts, LayoutQwerty, idx, names);
  }

  /**
   * A list made of `x` followed by the entries of `s` other than `x`, in order, repeats
   * nothing exactly when `s` repeats no entry other than `x`.
   */
  lemma SelectionRepeatsNothing<T>(s: seq<T>, x: T, idx: seq<nat>, names: seq<T>)
    requires forall k :: 0 <= k < |idx| ==> idx[k] < |s| && s[idx[k]] != x
    requires forall j, k :: 0 <= j < k < |idx| ==> idx[j] < idx[k]
    requires forall i :: 0 <= i < |s| && s[i] != x ==> i in idx
    requires |names| == 1 + |idx| && names[0] == x
    requires forall k :: 0 <= k < |idx| ==> names[k + 1] == s[idx[k]]
    ensures NoRepeats(names) <==> NoRepeatsExcept(s, x)
  {
    if NoRepeatsExcept(s, x) {
      forall a, b | 0 <= a < b < |names| ensures names[a] != names[b] {
        if a > 0 {
          assert idx[a - 1] < idx[b - 1];
          assert names[a] == s[idx[a - 1]] && names[b] == s[idx[b - 1]];
        } else {
          assert names[b] == s[idx[b - 1]];
        }
      }
    } else {
      var i, j :| 0 <= i < j < |s| && s[i] != x && s[i] == s[j];
      var a :| 0 <= a < |idx| && idx[a] == i;
      var b :| 0 <= b < |idx| && idx[b] == j;
      assert names[a + 1] == names[b + 1];
    }
  }

  /** A table without repeats gives a list without repeated layout sets. */
  lemma DistinctTableGivesDistinctLayouts(locale: string, res: Resources)
    requires res.Aligned() && NoRepeats(res.predefinedLayouts)
    ensures NoRepeats(LayoutsOf(GetSubtypes(locale, res)))
  {
    SubtypesRepeatNoLayout(locale, res);
  }

  /** A repeated "qwerty" row is absorbed by the leading subtype. */
  lemma RepeatedQwertyIsAbsorbed()
    ensures var res := Resources(["qwerty", "qwerty"], ["QWERTY", "QWERTY 2"]);
      LayoutsOf(GetSubtypes("en_US", res)) == ["qwerty"]
  {
    var res := Resources(["qwerty", "qwerty"], ["QWERTY", "QWERTY 2"]);
    SubtypesAfterDefault("en_US", res);
    assert IndicesNotIn(res.predefinedLayouts, [LayoutQwerty], |res.predefinedLayouts|) == [];
  }

  /** Any other repeated row is copied into the list once per occurrence. */
  lemma RepeatedLayoutIsKept()
    ensures var res := Resources(["qwerty", "azerty", "azerty"], ["QWERTY", "AZERTY", "AZERTY"]);
      LayoutsOf(GetSubtypes("en_US", res)) == ["qwerty", "azerty", "azerty"]
  {
    var res := Resources(["qwerty", "azerty", "azerty"], ["QWERTY", "AZERTY", "AZERTY"]);
    SubtypesShape("en_US", res);
    var layouts := res.predefinedLayouts;
    assert IndicesNotIn(layouts, [LayoutQwerty], 1) == [];
    assert IndicesNotIn(layouts, [LayoutQwerty], 2) == [1];
    assert IndicesNotIn(layouts, [LayoutQwerty], |layouts|) == [1, 2];
    var r := GetSubtypes("en_US", res);
    assert |r| == 3;
    assert r[1] == GenericSubtype(res, "en_US", 1) && r[2] == GenericSubtype(res, "en_US", 2);
    assert r[0].layoutSet == "qwerty";
  }

  /** The list for a locale and a two-row table, element by element. */
  lemma TwoLayoutTable()
    ensures var res := Resources(["qwerty", "azerty"], ["QWERTY", "AZERTY"]);
      GetSubtypes("en_US", res) == [
        Subtype("en_US", "qwerty", Some("QWERTY"), false),
        Subtype("en_US", "azerty", Some("AZERTY"), true)]
      && GetDefaultSubtype("en_US", res) == Some(Subtype("en_US", "qwerty", Some("QWERTY"), false))
      && GetSubtype("en_US", "azerty", res) == Some(Subtype("en_US", "azerty", Some("AZERTY"), true))
      && GetSubtype("fr_FR", "dvorak", res) == None
  {
    var res := Resources(["qwerty", "azerty"], ["QWERTY", "AZERTY"]);
    SubtypesAfterDefault("en_US", res);
    var layouts := res.predefinedLayouts;
    assert IndicesNotIn(layouts, [LayoutQwerty], 1) == [];
    assert IndicesNotIn(layouts, [LayoutQwerty], |layouts|) == [1];
    assert IndexOf(layouts, "azerty") == 1;
    assert "dvorak" !in layouts;
  }

  // ---------------------------------------------------------------------------------------
  // Single-result builders
  // ---------------------------------------------------------------------------------------

  /** A builder asked only for the default gives exactly the first subtype of the full list. */
  lemma DefaultOnlyBuildIsFirstOfAll(locale: string, res: Resources)
    requires res.Aligned()
    ensures Build(res, locale, Policy(false, None)) == [GetSubtypes(locale, res)[0]]
  {
  }

  /**
   * Asking for one layout set gives the first subtype of the full list with that layout set,
   * or null when the full list has none.
   */
  lemma SubtypeIsFirstMatchOfAll(locale: string, layoutSet: string, res: Resources)
    requires res.Aligned()
    ensures GetSubtype(locale, layoutSet, res) == FirstWithLayout(GetSubtypes(locale, res), layoutSet)
  {
    var layouts := res.predefinedLayouts;
    var r := GetSubtypes(locale, res);
    var idx := IndicesNotIn(layouts, [LayoutQwerty], |layouts|);
    SubtypesAfterDefault(locale, res);
    IndicesNotInSelects(layouts, [LayoutQwerty], |layouts|);
    SelectionIndexOf(layouts, LayoutQwerty, idx, LayoutsOf(r), layoutSet);
  }

  /**
   * In a list made of `x` followed by the entries of `s` other than `x`, in order, the first
   * `y` is at the front when `y` is `x`, and otherwise stands for the first `y` of `s`.
   */
  lemma SelectionIndexOf<T>(s: seq<T>, x: T, idx: seq<nat>, names: seq<T>, y: T)
    requires forall k :: 0 <= k < |idx| ==> idx[k] < |s| && s[idx[k]] != x
    requires forall j, k :: 0 <= j < k < |idx| ==> idx[j] < idx[k]
    requires forall i :: 0 <= i < |s| && s[i] != x ==> i in idx
    requires |names| == 1 + |idx| && names[0] == x
    requires forall k :: 0 <= k < |idx| ==> names[k + 1] == s[idx[k]]
    ensures y == x ==> IndexOf(names, y) == 0
    ensures y != x && IndexOf(s, y) < 0 ==> IndexOf(names, y) < 0
    ensures y != x && IndexOf(s, y) >= 0 ==>
      IndexOf(names, y) >= 1 && idx[IndexOf(names, y) - 1] == IndexOf(s, y)
  {
    if y == x {
      IndexOfIs(names, y, 0);
    } else {
      var i := IndexOf(s, y);
      if i < 0 {
        forall k | 1 <= k < |names| ensures names[k] != y {
          assert names[k] == s[idx[k - 1]];
        }
        assert y !in names;
      } else {
        var a :| 0 <= a < |idx| && idx[a] == i;
        forall k | 1 <= k < a + 1 ensures names[k] != y {
          assert idx[k - 1] < idx[a];
          assert names[k] == s[idx[k - 1]];
        }
        IndexOfIs(names, y, a + 1);
      }
    }
  }

  /** An index holding `x` with no `x` before it is the one `IndexOf` finds. */
  lemma IndexOfIs<T>(s: seq<T>, x: T, m: nat)
    requires m < |s| && s[m] == x
    requires forall j :: 0 <= j < m ==> s[j] != x
    ensures IndexOf(s, x) == m
  {
  }

  // ---------------------------------------------------------------------------------------
  // Default subtypes for the system's languages
  // ---------------------------------------------------------------------------------------

  /** `IndexOf` of an element already in a prefix is its index in that prefix. */
  lemma IndexOfInPrefix<T>(s: seq<T>, m: nat, x: T)
    requires m <= |s| && x in s[..m]
    ensures IndexOf(s, x) == IndexOf(s[..m], x)
  {
  }

  /**
   * The matched locales appear in the order in which the system locales first reach them.
   */
  lemma {:induction false} DistinctHitsInFirstHitOrder<L>(hits: seq<Option<L>>)
    ensures var r := DistinctHits(hits);
      forall j, k :: 0 <= j < k < |r| ==> IndexOf(hits, Some(r[j])) < IndexOf(hits, Some(r[k]))
    decreases |hits|
  {
    if |hits| > 0 {
      var n := |hits| - 1;
      var init := hits[..n];
      DistinctHitsInFirstHitOrder(init);
      DistinctHitsStep(hits, n);
      assert hits[..n + 1] == hits;
      var before := DistinctHits(init);
      var r := DistinctHits(hits);
      forall j | 0 <= j < |before| ensures IndexOf(hits, Some(before[j])) == IndexOf(init, Some(before[j])) {
        IndexOfInPrefix(hits, n, Some(before[j]));
      }
      if r != before {
        var v := hits[n].value;
        assert r == before + [v];
        assert Some(v) !in init;
        assert IndexOf(hits, Some(v)) == n;
      }
    }
  }

}
