/**
 * Building the keyboard subtypes (locale + keyboard layout set) that the input method offers.
 *
 * The platform's string tables for the predefined layouts are given as a `Resources` value,
 * and the locale helpers (parsing, system locales, best match, formatting) as a
 * `LocaleUtils` value of functions: both are collaborators this model does not look inside.
 */
module SubtypeLocaleUtils {
  import opened Options

  const LocaleEnglishUnitedStates: string := "en_US"

  /** The locales the keyboard explicitly supports. */
  const SupportedLocales: seq<string> := [LocaleEnglishUnitedStates]

  const LayoutQwerty: string := "qwerty"

  // ---------------------------------------------------------------------------------------
  // Data model
  // ---------------------------------------------------------------------------------------

  /**
   * The stored fields of a subtype. `layoutName` is the display name handed to the
   * constructor (None for null); `flag` is the boolean the builder passes along with it
   * (false from the single-layout path, true from the generic-layout path).
   */
  datatype Subtype = Subtype(locale: string, layoutSet: string, layoutName: Option<string>, flag: bool)

  /** The two string arrays `predefined_layouts` and `predefined_layout_display_names`. */
  datatype Resources = Resources(predefinedLayouts: seq<string>, displayNames: seq<string>)
  {
    /** Every layout index is also an index of the display-name array. */
    predicate Aligned() {
      |displayNames| >= |predefinedLayouts|
    }
  }

  /**
   * What a builder was asked for: every subtype (`allowMultiple`), only the first one, or
   * only the one whose layout set is `expectedLayoutSet`.
   */
  datatype Policy = Policy(allowMultiple: bool, expectedLayoutSet: Option<string>)

  /** The locale helpers the default-subtype computation relies on. */
  datatype LocaleUtils<!L> = LocaleUtils(
    constructLocaleFromString: string -> L,
    findBestLocale: (L, seq<L>) -> Option<L>,
    getLocaleString: L -> string)

  // ---------------------------------------------------------------------------------------
  // Table lookups
  // ---------------------------------------------------------------------------------------

  /** `List.indexOf`: the first position of `x` in `s`, or -1. */
  function IndexOf<T(==)>(s: seq<T>, x: T): (i: int)
    ensures -1 <= i < |s|
    ensures i >= 0 ==> s[i] == x && forall j :: 0 <= j < i ==> s[j] != x
    ensures i < 0 <==> x !in s
  {
    IndexFrom(s, x, 0)
  }

  /** The first position of `x` in `s` at or after `from`, or -1. */
  function IndexFrom<T(==)>(s: seq<T>, x: T, from: nat): (i: int)
    requires from <= |s|
    ensures i == -1 || from <= i < |s|
    ensures i >= 0 ==> s[i] == x && forall j :: from <= j < i ==> s[j] != x
    ensures i < 0 ==> forall j :: from <= j < |s| ==> s[j] != x
    decreases |s| - from
  {
    if from == |s| then -1
    else if s[from] == x then from
    else IndexFrom(s, x, from + 1)
  }

  /**
   * The display name `addLayout` gives a layout set: the name paired with its first
   * occurrence in the predefined table, or null when the table does not list it.
   */
  function LookupDisplayName(res: Resources, layoutSet: string): (name: Option<string>)
    requires res.Aligned()
    ensures name.None? <==> layoutSet !in res.predefinedLayouts
    ensures name.Some? ==>
      exists i :: 0 <= i < |res.predefinedLayouts| && res.predefinedLayouts[i] == layoutSet
        && name.value == res.displayNames[i]
        && forall j :: 0 <= j < i ==> res.predefinedLayouts[j] != layoutSet
  {
    var index := IndexOf(res.predefinedLayouts, layoutSet);
    if index >= 0 then Some(res.displayNames[index]) else None
  }

  /**
   * The subtype `addLayout(layoutSet)` appends: flag false, and the display name of the
   * layout set's first table row, or none when the table does not list it.
   */
  function PrimarySubtype(res: Resources, locale: string, layoutSet: string): (s: Subtype)
    requires res.Aligned()
    ensures s.locale == locale && s.layoutSet == layoutSet && !s.flag
    ensures s.layoutName.None? <==> layoutSet !in res.predefinedLayouts
    ensures s.layoutName.Some? ==>
      s.layoutName.value == res.displayNames[IndexOf(res.predefinedLayouts, layoutSet)]
  {
    Subtype(locale, layoutSet, LookupDisplayName(res, layoutSet), false)
  }

  /**
   * The subtype the generic-layout loop appends for table index `i`: that row's layout set
   * and display name, flag true.
   */
  function GenericSubtype(res: Resources, locale: string, i: nat): (s: Subtype)
    requires res.Aligned() && i < |res.predefinedLayouts|
    ensures s.locale == locale && s.flag
    ensures s.layoutSet == res.predefinedLayouts[i] && s.layoutName == Some(res.displayNames[i])
  {
    Subtype(locale, res.predefinedLayouts[i], Some(res.displayNames[i]), true)
  }

  /** The layout sets of a list of subtypes, in order. */
  function LayoutsOf(subtypes: seq<Subtype>): (layouts: seq<string>)
    ensures |layouts| == |subtypes|
    ensures forall k :: 0 <= k < |subtypes| ==> layouts[k] == subtypes[k].layoutSet
  {
    seq(|subtypes|, k requires 0 <= k < |subtypes| => subtypes[k].layoutSet)
  }

  // ---------------------------------------------------------------------------------------
  // The builder's rules, on values
  // ---------------------------------------------------------------------------------------

  /** `shouldSkipLayout`, for a builder whose list currently holds `size` subtypes. */
  function ShouldSkipLayout(policy: Policy, size: nat, layoutSet: string): (skip: bool)
    ensures skip ==> !policy.allowMultiple
    ensures !policy.allowMultiple && size > 0 ==> skip
  {
    if policy.allowMultiple then false
    else if size > 0 then true
    else if policy.expectedLayoutSet.Some? then policy.expectedLayoutSet.value != layoutSet
    else false
  }

  /**
   * The indices below `k`, in increasing order, whose entry of `s` does not occur in
   * `excluded`.
   */
  function IndicesNotIn<T(==)>(s: seq<T>, excluded: seq<T>, k: nat): (idx: seq<nat>)
    requires k <= |s|
    ensures forall j :: 0 <= j < |idx| ==> idx[j] < k
    decreases k
  {
    if k == 0 then []
    else
      var before := IndicesNotIn(s, excluded, k - 1);
      if s[k - 1] in excluded then before else before + [k - 1]
  }

  /**
   * `IndicesNotIn` selects exactly the entries below `k` outside `excluded`, in increasing
   * index order.
   */
  lemma {:induction false} IndicesNotInSelects<T>(s: seq<T>, excluded: seq<T>, k: nat)
    requires k <= |s|
    ensures var idx := IndicesNotIn(s, excluded, k);
      (forall j :: 0 <= j < |idx| ==> s[idx[j]] !in excluded)
      && (forall i, j :: 0 <= i < j < |idx| ==> idx[i] < idx[j])
      && (forall i :: 0 <= i < k && s[i] !in excluded ==> i in idx)
    decreases k
  {
    if k > 0 {
      IndicesNotInSelects(s, excluded, k - 1);
    }
  }

  /**
   * Whether a single-result builder expecting `expected` accepts `layoutSet`: exactly when
   * the skip rule lets it through while the list is still empty.
   */
  function Accepts(expected: Option<string>, layoutSet: string): (ok: bool)
    ensures ok <==> !ShouldSkipLayout(Policy(false, expected), 0, layoutSet)
  {
    expected.None? || expected.value == layoutSet
  }

  /**
   * The first index below `k` that a single-result builder would accept: any index when no
   * layout set is expected, otherwise the first that holds the expected one.
   */
  function FirstAccepted(layouts: seq<string>, expected: Option<string>, k: nat): (r: Option<nat>)
    requires k <= |layouts|
    ensures r.Some? ==> r.value < k && Accepts(expected, layouts[r.value])
    ensures r.Some? ==> forall j :: 0 <= j < r.value ==> !Accepts(expected, layouts[j])
    ensures r.None? ==> forall j :: 0 <= j < k ==> !Accepts(expected, layouts[j])
    decreases k
  {
    if k == 0 then None
    else
      var before := FirstAccepted(layouts, expected, k - 1);
      if before.Some? then before
      else if Accepts(expected, layouts[k - 1]) then Some(k - 1)
      else None
  }

  /** The generic subtypes for the table indices `idx`, in that order. */
  function Generics(res: Resources, locale: string, idx: seq<nat>): (r: seq<Subtype>)
    requires res.Aligned()
    requires forall k :: 0 <= k < |idx| ==> idx[k] < |res.predefinedLayouts|
    ensures |r| == |idx|
    ensures forall k :: 0 <= k < |idx| ==> r[k] == GenericSubtype(res, locale, idx[k])
  {
    seq(|idx|, k requires 0 <= k < |idx| => GenericSubtype(res, locale, idx[k]))
  }

  /**
   * What `addGenericLayouts` appends to a list that held `existing` when it started, having
   * looked at the first `k` table entries. With several results allowed, every entry whose
   * layout set is not among `existing` (later additions are not compared); otherwise
   * nothing when a subtype is already there, else the first accepted entry.
   */
  function GenericAdded(res: Resources, locale: string, policy: Policy, existing: seq<Subtype>, k: nat): (r: seq<Subtype>)
    requires res.Aligned() && k <= |res.predefinedLayouts|
    ensures forall s | s in r :: s.locale == locale
    ensures !policy.allowMultiple ==> |r| <= 1
  {
    var layouts := res.predefinedLayouts;
    if policy.allowMultiple then
      Generics(res, locale, IndicesNotIn(layouts, LayoutsOf(existing), k))
    else if |existing| > 0 then []
    else
      match FirstAccepted(layouts, policy.expectedLayoutSet, k)
      case None => []
      case Some(i) => [GenericSubtype(res, locale, i)]
  }

  /**
   * The list a builder produces: `addLayout(LAYOUT_QWERTY)` followed by
   * `addGenericLayouts()`, whatever the locale.
   */
  function Build(res: Resources, locale: string, policy: Policy): (r: seq<Subtype>)
    requires res.Aligned()
    ensures forall s | s in r :: s.locale == locale
    ensures !policy.allowMultiple ==> |r| <= 1
    ensures !policy.allowMultiple && policy.expectedLayoutSet.Some? ==>
      forall s | s in r :: s.layoutSet == policy.expectedLayoutSet.value
  {
    var primary := if ShouldSkipLayout(policy, 0, LayoutQwerty) then [] else [PrimarySubtype(res, locale, LayoutQwerty)];
    primary + GenericAdded(res, locale, policy, primary, |res.predefinedLayouts|)
  }

  /** Looking at one more table entry adds at most that entry's generic subtype. */
  lemma GenericAddedStep(res: Resources, locale: string, policy: Policy, existing: seq<Subtype>, i: nat)
    requires res.Aligned() && i < |res.predefinedLayouts|
    requires !policy.allowMultiple ==> existing == []
    ensures var before := GenericAdded(res, locale, policy, existing, i);
      GenericAdded(res, locale, policy, existing, i + 1) ==
        if ShouldSkipLayout(policy, |existing + before|, res.predefinedLayouts[i])
          || res.predefinedLayouts[i] in LayoutsOf(existing)
        then before
        else before + [GenericSubtype(res, locale, i)]
  {
  }

  // ---------------------------------------------------------------------------------------
  // The builder object
  // ---------------------------------------------------------------------------------------

  class SubtypeBuilder {
    const resources: Resources
    const policy: Policy
    const locale: string
    /** None until `GetSubtypes` first runs (the Java field is null until then). */
    var subtypes: Option<seq<Subtype>>

    /** Once built, the list is the one `Build` describes. */
    ghost predicate Valid()
      reads this
    {
      resources.Aligned()
      && (subtypes.Some? ==> subtypes.value == Build(resources, locale, policy))
    }

    /**
     * Builder for the single subtype of `locale` with layout set `layoutSet`; a null layout
     * set leaves no expected layout, so the builder gives the default subtype.
     */
    constructor ForLayout(locale: string, layoutSet: Option<string>, resources: Resources)
      requires resources.Aligned()
      ensures Valid() && subtypes.None?
      ensures this.locale == locale && this.resources == resources
      ensures policy == Policy(false, layoutSet)
    {
      this.locale := locale;
      this.policy := Policy(false, layoutSet);
      this.resources := resources;
      subtypes := None;
    }

    /** Builder for all subtypes of `locale` (`all`) or only its default one. */
    constructor ForLocale(locale: string, all: bool, resources: Resources)
      requires resources.Aligned()
      ensures Valid() && subtypes.None?
      ensures this.locale == locale && this.resources == resources
      ensures policy == Policy(all, None)
    {
      this.locale := locale;
      this.policy := Policy(all, None);
      this.resources := resources;
      subtypes := None;
    }

    /** Builds the list on the first call; later calls return it untouched. */
    method GetSubtypes() returns (r: seq<Subtype>)
      requires Valid()
      modifies this
      ensures Valid() && subtypes == Some(r)
      ensures r == Build(resources, locale, policy)
      ensures old(subtypes).Some? ==> r == old(subtypes).value
    {
      if subtypes.Some? {
        return subtypes.value;
      }
      subtypes := Some([]);
      AddLayout(LayoutQwerty);
      ghost var primary := subtypes.value;
      assert primary == if ShouldSkipLayout(policy, 0, LayoutQwerty) then [] else [PrimarySubtype(resources, locale, LayoutQwerty)];
      AddGenericLayouts();
      r := subtypes.value;
    }

    /** Appends the subtype for `layoutSet` unless the skip rule refuses it. */
    method AddLayout(layoutSet: string)
      requires resources.Aligned() && subtypes.Some?
      modifies this
      ensures subtypes == Some(old(subtypes.value) +
        if ShouldSkipLayout(policy, |old(subtypes.value)|, layoutSet) then []
        else [PrimarySubtype(resources, locale, layoutSet)])
    {
      if ShouldSkipLayout(policy, |subtypes.value|, layoutSet) {
        assert subtypes.value + [] == subtypes.value;
        return;
      }
      var predefinedLayoutIndex := IndexOf(resources.predefinedLayouts, layoutSet);
      var layoutName: Option<string>;
      if predefinedLayoutIndex >= 0 {
        layoutName := Some(resources.displayNames[predefinedLayoutIndex]);
      } else {
        layoutName := None;
      }
      subtypes := Some(subtypes.value + [Subtype(locale, layoutSet, layoutName, false)]);
    }

    /**
     * Appends the predefined layouts in table order, each unless the skip rule refuses it
     * or one of the subtypes present before the loop already has its layout set.
     */
    method AddGenericLayouts()
      requires resources.Aligned() && subtypes.Some?
      modifies this
      ensures subtypes == Some(old(subtypes.value) +
        GenericAdded(resources, locale, policy, old(subtypes.value), |resources.predefinedLayouts|))
    {
      if |subtypes.value| > 0 && !policy.allowMultiple {
        assert GenericAdded(resources, locale, policy, subtypes.value, |resources.predefinedLayouts|) == [];
        assert subtypes.value + [] == subtypes.value;
        return;
      }
      ghost var existing := subtypes.value;
      var initialSize := |subtypes.value|;
      var layouts := resources.predefinedLayouts;
      var displayNames := resources.displayNames;
      for i := 0 to |layouts|
        invariant subtypes.Some?
        invariant subtypes.value == existing + GenericAdded(resources, locale, policy, existing, i)
      {
        var predefinedLayout := layouts[i];
        var current := subtypes.value;
        GenericAddedStep(resources, locale, policy, existing, i);
        if ShouldSkipLayout(policy, |current|, predefinedLayout) {
          continue;
        }
        var alreadyExists := false;
        var subtypeIndex := 0;
        while subtypeIndex < initialSize
          invariant 0 <= subtypeIndex <= initialSize
          invariant !alreadyExists
          invariant forall j :: 0 <= j < subtypeIndex ==> existing[j].layoutSet != predefinedLayout
        {
          assert current[subtypeIndex] == existing[subtypeIndex];
          if current[subtypeIndex].layoutSet == predefinedLayout {
            alreadyExists := true;
            break;
          }
          subtypeIndex := subtypeIndex + 1;
        }
        assert alreadyExists <==> predefinedLayout in LayoutsOf(existing) by {
          if alreadyExists {
            assert LayoutsOf(existing)[subtypeIndex] == predefinedLayout;
          }
        }
        if alreadyExists {
          continue;
        }
        subtypes := Some(current + [Subtype(locale, predefinedLayout, Some(displayNames[i]), true)]);
      }
    }
  }

  // ---------------------------------------------------------------------------------------
  // The public entry points
  // ---------------------------------------------------------------------------------------

  /** The supported locale strings; the fallback locale is always among them. */
  function GetSupportedLocales(): (r: seq<string>)
    ensures LocaleEnglishUnitedStates in r
  {
    SupportedLocales
  }

  /**
   * Every subtype of `locale`. No locale is rejected: the list always starts with the
   * "qwerty" subtype of the caller's locale.
   */
  function GetSubtypes(locale: string, res: Resources): (r: seq<Subtype>)
    requires res.Aligned()
    ensures |r| >= 1 && r[0] == PrimarySubtype(res, locale, LayoutQwerty)
    ensures r[0].layoutSet == LayoutQwerty && r[0].locale == locale && !r[0].flag
    ensures forall s | s in r :: s.locale == locale
  {
    Build(res, locale, Policy(true, None))
  }

  /** The default subtype of `locale`: the first of its subtypes, null if there is none. */
  function GetDefaultSubtype(locale: string, res: Resources): (r: Option<Subtype>)
    requires res.Aligned()
    ensures r.Some? && r.value == GetSubtypes(locale, res)[0]
    ensures r.value.layoutSet == LayoutQwerty && r.value.locale == locale
  {
    var subtypes := Build(res, locale, Policy(true, None));
    if |subtypes| == 0 then None else Some(subtypes[0])
  }

  /**
   * The subtype of `locale` with layout set `layoutSet`, or null. "qwerty" comes from the
   * single-layout path; any other layout set from its first row in the predefined table.
   */
  function GetSubtype(locale: string, layoutSet: string, res: Resources): (r: Option<Subtype>)
    requires res.Aligned()
    ensures r.Some? <==> layoutSet == LayoutQwerty || layoutSet in res.predefinedLayouts
    ensures r.Some? ==> r.value.layoutSet == layoutSet && r.value.locale == locale
    ensures layoutSet == LayoutQwerty ==> r == Some(PrimarySubtype(res, locale, LayoutQwerty))
    ensures layoutSet != LayoutQwerty && r.Some? ==>
      r.value == GenericSubtype(res, locale, IndexOf(res.predefinedLayouts, layoutSet))
  {
    var subtypes := Build(res, locale, Policy(false, Some(layoutSet)));
    if |subtypes| == 0 then None else Some(subtypes[0])
  }

  // ---------------------------------------------------------------------------------------
  // Default subtypes for the system's languages
  // ---------------------------------------------------------------------------------------

  /** The parsed supported locales, in registry order. */
  function ConstructLocales<L>(utils: LocaleUtils<L>, locales: seq<string>): (r: seq<L>)
    ensures |r| == |locales|
    ensures forall i :: 0 <= i < |locales| ==> r[i] == utils.constructLocaleFromString(locales[i])
  {
    seq(|locales|, i requires 0 <= i < |locales| => utils.constructLocaleFromString(locales[i]))
  }

  /** The best supported match of each system locale, in system order. */
  function BestMatches<L>(utils: LocaleUtils<L>, supported: seq<L>, systemLocales: seq<L>): (r: seq<Option<L>>)
    ensures |r| == |systemLocales|
    ensures forall i :: 0 <= i < |systemLocales| ==> r[i] == utils.findBestLocale(systemLocales[i], supported)
  {
    seq(|systemLocales|, i requires 0 <= i < |systemLocales| => utils.findBestLocale(systemLocales[i], supported))
  }

  /**
   * The distinct locales among `hits` (nulls ignored), each where it first occurs: what the
   * `addedLocales` set lets through.
   */
  function DistinctHits<L(==)>(hits: seq<Option<L>>): (r: seq<L>)
    ensures forall j, k :: 0 <= j < k < |r| ==> r[j] != r[k]
    ensures forall k :: 0 <= k < |r| ==> Some(r[k]) in hits
    ensures forall i :: 0 <= i < |hits| && hits[i].Some? ==> hits[i].value in r
    decreases |hits|
  {
    if |hits| == 0 then []
    else
      var before := DistinctHits(hits[..|hits| - 1]);
      var last := hits[|hits| - 1];
      if last.Some? && last.value !in before then before + [last.value] else before
  }

  /** One more hit adds its locale exactly when it is not null and not yet present. */
  lemma DistinctHitsStep<L>(hits: seq<Option<L>>, i: nat)
    requires i < |hits|
    ensures var before := DistinctHits(hits[..i]);
      DistinctHits(hits[..i + 1]) ==
        if hits[i].Some? && hits[i].value !in before then before + [hits[i].value] else before
  {
    assert hits[..i + 1][..i] == hits[..i];
  }

  /** The default subtype of each of `locales`, in order. */
  function DefaultSubtypesOf<L>(utils: LocaleUtils<L>, locales: seq<L>, res: Resources): (r: seq<Subtype>)
    requires res.Aligned()
    ensures |r| == |locales|
    ensures forall k :: 0 <= k < |locales| ==>
      Some(r[k]) == GetDefaultSubtype(utils.getLocaleString(locales[k]), res)
  {
    seq(|locales|, k requires 0 <= k < |locales| => GetDefaultSubtype(utils.getLocaleString(locales[k]), res).value)
  }

  /** One more locale adds its default subtype at the end. */
  lemma DefaultSubtypesOfStep<L>(utils: LocaleUtils<L>, locales: seq<L>, l: L, res: Resources)
    requires res.Aligned()
    ensures DefaultSubtypesOf(utils, locales + [l], res)
      == DefaultSubtypesOf(utils, locales, res) + [GetDefaultSubtype(utils.getLocaleString(l), res).value]
  {
  }

  /**
   * The default subtype of each distinct best-matching supported locale, in the order the
   * system locales first reach it; the first "en_US" subtype when none matches.
   */
  method GetDefaultSubtypes<L(==)>(utils: LocaleUtils<L>, systemLocales: seq<L>, res: Resources)
    returns (subtypes: seq<Subtype>)
    requires res.Aligned()
    ensures |subtypes| >= 1
    ensures
      var matched := DistinctHits(BestMatches(utils, ConstructLocales(utils, SupportedLocales), systemLocales));
      subtypes == if |matched| == 0 then [GetSubtypes(LocaleEnglishUnitedStates, res)[0]]
                  else DefaultSubtypesOf(utils, matched, res)
  {
    var supportedLocales: seq<L> := [];
    for i := 0 to |SupportedLocales|
      invariant |supportedLocales| == i
      invariant forall j :: 0 <= j < i ==> supportedLocales[j] == utils.constructLocaleFromString(SupportedLocales[j])
    {
      supportedLocales := supportedLocales + [utils.constructLocaleFromString(SupportedLocales[i])];
    }
    assert supportedLocales == ConstructLocales(utils, SupportedLocales);

    ghost var hits := BestMatches(utils, supportedLocales, systemLocales);
    ghost var matched: seq<L> := [];
    subtypes := [];
    var addedLocales: set<L> := {};
    for i := 0 to |systemLocales|
      invariant matched == DistinctHits(hits[..i])
      invariant forall l :: l in addedLocales <==> l in matched
      invariant subtypes == DefaultSubtypesOf(utils, matched, res)
    {
      DistinctHitsStep(hits, i);
      var bestLocale := utils.findBestLocale(systemLocales[i], supportedLocales);
      if bestLocale.Some? && bestLocale.value !in addedLocales {
        addedLocales := addedLocales + {bestLocale.value};
        var bestLocaleString := utils.getLocaleString(bestLocale.value);
        var subtype := GetDefaultSubtype(bestLocaleString, res);
        DefaultSubtypesOfStep(utils, matched, bestLocale.value, res);
        subtypes := subtypes + [subtype.value];
        matched := matched + [bestLocale.value];
      }
    }
    assert hits[..|systemLocales|] == hits;
    if |subtypes| == 0 {
      subtypes := subtypes + [GetSubtypes(LocaleEnglishUnitedStates, res)[0]];
    }
  }
}
