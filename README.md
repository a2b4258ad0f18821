# Subtype building for Simple Keyboard

This project models how Simple Keyboard builds its keyboard *subtypes*. A subtype pairs a locale string with a keyboard layout set. The code lives in `SubtypeLocaleUtils`, and the model proves properties of the lists it produces.

Two collaborators stay outside the model:

- **The platform's string tables.** The `predefined_layouts` and `predefined_layout_display_names` arrays are a `Resources` value.
- **The locale helpers.** `LocaleUtils.constructLocaleFromString`, `findBestLocale` and `getLocaleString` are a `LocaleUtils` value of functions. The system's locale list is a parameter.

The private `SubtypeBuilder` is a class:

- Its request (all subtypes, the default only, or one layout set) is held as a `Policy`.
- Its lazily built list is a `var` that is `None` until the first `GetSubtypes` call.
- Its methods (`AddLayout`, `AddGenericLayouts` with its nested loops, and the memoising `GetSubtypes`) are proved against the value-level function `Build`.

The public entry points are functions defined over `Build`. `getDefaultSubtypes` is a method with the source's two loops and its `addedLocales` set.

Four behaviours of the code are kept as written:

- **Every locale is accepted.** The per-locale `switch` in `getSubtypes` is commented out. Any locale string therefore gets the "qwerty" subtype followed by the generic layouts, and `getDefaultSubtype` never returns null.
- **The generic loop deduplicates only against earlier subtypes.** `addGenericLayouts` compares each table row only with the subtypes that existed before the loop started. As a result, a repeated "qwerty" row is absorbed, but any other row is kept once per occurrence. The model proves the exact condition: the full list repeats no layout set if and only if the table repeats no entry other than "qwerty".
- **The boolean flag stays uninterpreted.** The flag passed to the `Subtype` constructor is `false` on the `addLayout(String)` path and `true` on the generic path, which passes a display *string*. The model records the flag without giving it a meaning.
- **The single-layout lookup takes the first match.** For a layout set other than "qwerty", `getSubtype` takes the first table row with that layout set, as `indexOf` does.

## Model

| member | source | states |
|---|---|---|
| SubtypeLocaleUtils.IndexOf | app/src/main/java/rkr/simplekeyboard/inputmethod/latin/utils/SubtypeLocaleUtils.java:222-223 | the first position holding the value, or -1 exactly when the value is absent |
| SubtypeLocaleUtils.LookupDisplayName | app/src/main/java/rkr/simplekeyboard/inputmethod/latin/utils/SubtypeLocaleUtils.java:220-231 | null exactly when the table lacks the layout set; otherwise the display name paired with its first row |
| SubtypeLocaleUtils.PrimarySubtype | app/src/main/java/rkr/simplekeyboard/inputmethod/latin/utils/SubtypeLocaleUtils.java:224-234 | the subtype `addLayout` builds: the builder's locale, the given layout set, flag false, and the display name of the layout set's first table row, or null exactly when the table lacks it |
| SubtypeLocaleUtils.GenericSubtype | app/src/main/java/rkr/simplekeyboard/inputmethod/latin/utils/SubtypeLocaleUtils.java:283-284 | the subtype the generic loop builds for a row: the builder's locale, that row's layout set and display name, flag true |
| SubtypeLocaleUtils.ShouldSkipLayout | app/src/main/java/rkr/simplekeyboard/inputmethod/latin/utils/SubtypeLocaleUtils.java:196-207 | never skips when several results are allowed; always skips once a single-result builder holds a subtype |
| SubtypeLocaleUtils.IndicesNotInSelects | app/src/main/java/rkr/simplekeyboard/inputmethod/latin/utils/SubtypeLocaleUtils.java:265-285 | the rows the generic loop keeps are exactly those outside the excluded layout sets, in increasing table order |
| SubtypeLocaleUtils.Accepts | app/src/main/java/rkr/simplekeyboard/inputmethod/latin/utils/SubtypeLocaleUtils.java:203-204 | a layout set is accepted exactly when a single-result builder with an empty list does not skip it |
| SubtypeLocaleUtils.FirstAccepted | app/src/main/java/rkr/simplekeyboard/inputmethod/latin/utils/SubtypeLocaleUtils.java:265-269 | a single-result builder takes the first row it accepts, with no accepted row before it; none when no row is accepted |
| SubtypeLocaleUtils.GenericAdded | app/src/main/java/rkr/simplekeyboard/inputmethod/latin/utils/SubtypeLocaleUtils.java:256-286 | the generic subtypes all carry the builder's locale; a single-result builder gets at most one |
| SubtypeLocaleUtils.GenericAddedStep | app/src/main/java/rkr/simplekeyboard/inputmethod/latin/utils/SubtypeLocaleUtils.java:265-285 | one loop iteration appends that row's generic subtype exactly when it is neither skipped nor already among the initial subtypes |
| SubtypeLocaleUtils.Build | app/src/main/java/rkr/simplekeyboard/inputmethod/latin/utils/SubtypeLocaleUtils.java:167-189 | every built subtype has the requested locale; a single-result builder yields at most one, with the expected layout set if one was given |
| SubtypeLocaleUtils.SubtypeBuilder.ForLayout | app/src/main/java/rkr/simplekeyboard/inputmethod/latin/utils/SubtypeLocaleUtils.java:142-148 | a single-result builder whose expected layout set is the one given (none for a null one), list not yet built |
| SubtypeLocaleUtils.SubtypeBuilder.ForLocale | app/src/main/java/rkr/simplekeyboard/inputmethod/latin/utils/SubtypeLocaleUtils.java:156-161 | a builder for all subtypes or only the default, no expected layout set, list not yet built |
| SubtypeLocaleUtils.SubtypeBuilder.GetSubtypes | app/src/main/java/rkr/simplekeyboard/inputmethod/latin/utils/SubtypeLocaleUtils.java:167-189 | returns the list `Build` describes, builds it only once, and returns the stored list unchanged on later calls |
| SubtypeLocaleUtils.SubtypeBuilder.AddLayout | app/src/main/java/rkr/simplekeyboard/inputmethod/latin/utils/SubtypeLocaleUtils.java:214-235 | appends the subtype with the looked-up display name and flag false unless the skip rule refuses it; nothing else changes |
| SubtypeLocaleUtils.SubtypeBuilder.AddGenericLayouts | app/src/main/java/rkr/simplekeyboard/inputmethod/latin/utils/SubtypeLocaleUtils.java:256-286 | appends exactly the generic subtypes `GenericAdded` describes for the whole table, after the existing subtypes, which are kept |
| SubtypeLocaleUtils.GetSupportedLocales | app/src/main/java/rkr/simplekeyboard/inputmethod/latin/utils/SubtypeLocaleUtils.java:51-53 | the supported locales include the "en_US" fallback locale |
| SubtypeLocaleUtils.GetSubtypes | app/src/main/java/rkr/simplekeyboard/inputmethod/latin/utils/SubtypeLocaleUtils.java:63-65 | for any locale the list is non-empty, starts with its "qwerty" subtype (flag false), and every entry has that locale |
| SubtypeLocaleUtils.GetDefaultSubtype | app/src/main/java/rkr/simplekeyboard/inputmethod/latin/utils/SubtypeLocaleUtils.java:73-76 | never null: the first subtype of the full list, which is the "qwerty" one of that locale |
| SubtypeLocaleUtils.GetSubtype | app/src/main/java/rkr/simplekeyboard/inputmethod/latin/utils/SubtypeLocaleUtils.java:85-90 | found exactly when the layout set is "qwerty" or a table row; then it has the requested locale and layout set, taken from the first matching row |
| SubtypeLocaleUtils.ConstructLocales | app/src/main/java/rkr/simplekeyboard/inputmethod/latin/utils/SubtypeLocaleUtils.java:98-101 | each supported locale string parsed, in order |
| SubtypeLocaleUtils.BestMatches | app/src/main/java/rkr/simplekeyboard/inputmethod/latin/utils/SubtypeLocaleUtils.java:107-108 | the best supported match of each system locale, in system order |
| SubtypeLocaleUtils.DistinctHits | app/src/main/java/rkr/simplekeyboard/inputmethod/latin/utils/SubtypeLocaleUtils.java:106-114 | the locales let through by the `addedLocales` set: no repeats, each a non-null match, and every non-null match present |
| SubtypeLocaleUtils.DistinctHitsStep | app/src/main/java/rkr/simplekeyboard/inputmethod/latin/utils/SubtypeLocaleUtils.java:108-113 | one more system locale adds its match exactly when the match is non-null and not yet added |
| SubtypeLocaleUtils.DefaultSubtypesOf | app/src/main/java/rkr/simplekeyboard/inputmethod/latin/utils/SubtypeLocaleUtils.java:111-112 | one default subtype per matched locale, computed from its locale string |
| SubtypeLocaleUtils.DefaultSubtypesOfStep | app/src/main/java/rkr/simplekeyboard/inputmethod/latin/utils/SubtypeLocaleUtils.java:110-112 | adding one matched locale appends its default subtype |
| SubtypeLocaleUtils.GetDefaultSubtypes | app/src/main/java/rkr/simplekeyboard/inputmethod/latin/utils/SubtypeLocaleUtils.java:97-120 | never empty: the default subtype of each distinct matched locale in first-match order, or the first "en_US" subtype when nothing matches |
| SubtypeProperties.FirstWithLayout | app/src/main/java/rkr/simplekeyboard/inputmethod/latin/utils/SubtypeLocaleUtils.java:87-89 | the first subtype with the given layout set, or none exactly when no subtype has it |
| SubtypeProperties.SubtypesShape | app/src/main/java/rkr/simplekeyboard/inputmethod/latin/utils/SubtypeLocaleUtils.java:186-187 | the full list is the "qwerty" subtype followed by the generic subtypes of the non-"qwerty" rows |
| SubtypeProperties.SubtypesAfterDefault | app/src/main/java/rkr/simplekeyboard/inputmethod/latin/utils/SubtypeLocaleUtils.java:265-285 | after the first entry, the list holds exactly one generic subtype per non-"qwerty" row, in table order |
| SubtypeProperties.SubtypesAfterDefaultAreGeneric | app/src/main/java/rkr/simplekeyboard/inputmethod/latin/utils/SubtypeLocaleUtils.java:283-284 | no entry after the first is "qwerty"; each carries a display name and the flag |
| SubtypeProperties.SubtypesRepeatNoLayout | app/src/main/java/rkr/simplekeyboard/inputmethod/latin/utils/SubtypeLocaleUtils.java:271-281 | the full list repeats no layout set exactly when the table repeats no entry other than "qwerty" |
| SubtypeProperties.SelectionRepeatsNothing | app/src/main/java/rkr/simplekeyboard/inputmethod/latin/utils/SubtypeLocaleUtils.java:271-281 | supports SubtypesRepeatNoLayout: the leading entry followed by the rows other than it repeats nothing exactly when those rows repeat nothing |
| SubtypeProperties.DistinctTableGivesDistinctLayouts | app/src/main/java/rkr/simplekeyboard/inputmethod/latin/utils/SubtypeLocaleUtils.java:271-281 | a table without repeats gives a list without repeated layout sets |
| SubtypeProperties.RepeatedQwertyIsAbsorbed | app/src/main/java/rkr/simplekeyboard/inputmethod/latin/utils/SubtypeLocaleUtils.java:271-281 | with the table ["qwerty", "qwerty"], the list has the single layout set "qwerty" |
| SubtypeProperties.RepeatedLayoutIsKept | app/src/main/java/rkr/simplekeyboard/inputmethod/latin/utils/SubtypeLocaleUtils.java:271-284 | with the table ["qwerty", "azerty", "azerty"], "azerty" appears twice in the list |
| SubtypeProperties.TwoLayoutTable | app/src/main/java/rkr/simplekeyboard/inputmethod/latin/utils/SubtypeLocaleUtils.java:63-90 | for a two-row table: the full list element by element, its default, an azerty lookup, and null for a layout set the table lacks |
| SubtypeProperties.DefaultOnlyBuildIsFirstOfAll | app/src/main/java/rkr/simplekeyboard/inputmethod/latin/utils/SubtypeLocaleUtils.java:196-207 | a builder with no expected layout set asked for one result (the default-only builder, and `getSubtype` with a null layout set) yields exactly the first entry of the full list |
| SubtypeProperties.SubtypeIsFirstMatchOfAll | app/src/main/java/rkr/simplekeyboard/inputmethod/latin/utils/SubtypeLocaleUtils.java:85-90 | looking up one layout set gives the first entry of the full list with that layout set, or null when there is none |
| SubtypeProperties.SelectionIndexOf | app/src/main/java/rkr/simplekeyboard/inputmethod/latin/utils/SubtypeLocaleUtils.java:222-223 | supports SubtypeIsFirstMatchOfAll: in the leading-entry-then-other-rows list, the first match of a layout set is the leading entry or stands for its first table row |
| SubtypeProperties.IndexOfIs | app/src/main/java/rkr/simplekeyboard/inputmethod/latin/utils/SubtypeLocaleUtils.java:222-223 | supports SelectionIndexOf: a position holding the value with no earlier occurrence is the one `indexOf` returns |
| SubtypeProperties.IndexOfInPrefix | app/src/main/java/rkr/simplekeyboard/inputmethod/latin/utils/SubtypeLocaleUtils.java:107-113 | supports DistinctHitsInFirstHitOrder: a value already present in a prefix has the same first position in the whole sequence |
| SubtypeProperties.DistinctHitsInFirstHitOrder | app/src/main/java/rkr/simplekeyboard/inputmethod/latin/utils/SubtypeLocaleUtils.java:107-114 | the matched locales appear in the order in which the system locales first reach them |

## Left out

- `addLayout(String, int)` (lines 244-250) is not modelled because nothing in the class calls it. It is the resource-id overload.
- The per-locale `switch` in `getSubtypes` (lines 178-185) is commented out in the code, so it is not modelled.
- Android `Resources`, `R.array` and `getStringArray` are not modelled. The two string arrays are given as a `Resources` value.
- The model requires every call to have a display-name array at least as long as the layout table (`Aligned`). Java fails only when a build actually reads a display name past the end of that array (lines 228 and 284). Such a failing call is not modelled.
- `LocaleUtils` is not part of this model. Its parsing, best-match, formatting and system-locale functions are parameters.
- `Locale` equality and hashing in the `addedLocales` `HashSet` are not modelled. They are Dafny equality on the parameter type.
- The `Subtype` class is not part of this model. A subtype is the record of the values handed to its constructor. The shared `Resources` reference it receives is not recorded.
- List identity is not modelled. `GetSubtypes` returns the stored list's value, so aliasing between the returned `List` and the builder's field is not captured.
- The null-element case in `getDefaultSubtypes` (`getDefaultSubtype` returning null at line 112) cannot arise, because every locale builds a "qwerty" subtype. The model proves that and does not represent a null entry.
- GetSubtype (SubtypeLocaleUtils.GetSubtype): takes a non-null layout set. In Java a null one leaves the builder without an expected layout (lines 145 and 203), so it returns the default "qwerty" subtype. The model covers that builder through `ForLayout` with no layout set and `DefaultOnlyBuildIsFirstOfAll`.
- A null locale string is not modelled. Every member takes a string locale, and Java only stores it (lines 144 and 157) and hands it to each subtype.
- ShouldSkipLayout (SubtypeLocaleUtils.ShouldSkipLayout): the contract states only the two policy facts the builder relies on. The expected-layout comparison on an empty list is stated by `Accepts` and proved through `Build` and `GetSubtype`.
- GetSupportedLocales (SubtypeLocaleUtils.GetSupportedLocales): the contract states only that "en_US" is supported, not that it is the only supported locale, because the exact list is the constant itself and stating it would only restate the body.
