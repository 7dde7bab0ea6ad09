# NiceToast: a Dafny model of its toast logic

NiceToast is an Android toast library that ships in two variants. The legacy,
view-based `NiceToast` inflates a view and attaches it to the activity's
window as an overlay. The Compose variant is driven by a `CNiceToastState` and
displayed by a `CNiceToastHost`. This project models the logic both variants
hold apart from rendering:

- `common.dfy` (`Common`): resource ids are symbolic constants that are
  pairwise distinct by construction. `Other(v)` stands for any other integer.
  The module also holds Kotlin's `T?` and `isBlank`, the title fallback and
  `coerceAtLeast`.
- `nice_toast_type.dfy` (`NiceToastTypes`): the six `NiceToastType` constants
  in declaration order, `getName()` with its first-underscore replacement, and
  `valueOf`.
- `nice_toast_configuration.dfy` (`NiceToastConfiguration`): the eleven
  configurable resource ids, their setters and `resetAll`. A `configure { }`
  block is modelled as the run of calls it makes.
- `nice_toast.dfy` (`NiceToast`): `getStyleSpec` and the `magicCreate`
  dispatch onto the four `create*` variants. It also covers what each variant
  renders, the title fallback, the gravity and margin mapping, and the
  auto-dismiss delay floor. The window root collects overlays: every call
  appends its own overlay with its own timers.
- `cnice_toast_configuration.dfy` (`CNiceToastConfiguration`): the immutable
  Compose configuration, its `copy`, and its `getStyleSpec` over four types.
- `cnice_toast_data.dfy` (`CNiceToastData`): the descriptor and the
  single-slot state with `show` and `dismiss`.
- `cnice_toast_host.dfy` (`CNiceToastHost`): the host holds a clock and an
  effect keyed on the identity of the descriptor on show. A countdown of that
  descriptor's duration ends in `dismiss()`. The module also has the
  position-to-alignment mapping and runs of events.
- `variant_agreement.dfy` (`VariantAgreement`): on the four types the
  variants share, both style resolutions give the same result.

The legacy path keeps no handle to earlier overlays. Each
`showTransientOverlay` call adds its own view and schedules that view's
removal (`nicetoast/src/main/java/com/dononcharles/nicetoast/NiceToast.kt:239-284`).
So the model has no "replace the previous overlay" rule and no "is this still
the current overlay?" check.

Whether the inflated content carries margin layout parameters is an input of
the model. In the code, only the light side-bar variant inflates against the
window root. The other three inflate without a parent. What that means for
their layout parameters is decided by the toolkit, which is not modelled.

## Model

| member | source | states |
|---|---|---|
| `Common.TitleOrDefault` | nicetoast/src/main/java/com/dononcharles/nicetoast/NiceToast.kt:117 | the caller's title when present and not blank, the fallback otherwise; the result is non-blank when the fallback is |
| `Common.CoerceAtLeast` | nicetoast/src/main/java/com/dononcharles/nicetoast/NiceToast.kt:283 | the result is at least the value and the floor, and is one of them |
| `NiceToastTypes.Ordinal` | nicetoast/src/main/java/com/dononcharles/nicetoast/NiceToastType.kt:3-9 | each constant sits at its own index of the entries |
| `NiceToastTypes.EntriesAreTheSixConstants` | nicetoast/src/test/java/com/dononcharles/nicetoast/NiceToastTypeTest.kt:52-68 | exactly six entries, pairwise distinct, each constant at its declared position |
| `NiceToastTypes.ConstantName` | nicetoast/src/main/java/com/dononcharles/nicetoast/NiceToastType.kt:3-9 | names are non-empty and start with a capital letter |
| `NiceToastTypes.UnderscoreOnlyInNoInternet` | nicetoast/src/main/java/com/dononcharles/nicetoast/NiceToastType.kt:3-9 | only NO_INTERNET has an underscore in its name, and never in front |
| `NiceToastTypes.IndexOf` | nicetoast/src/main/java/com/dononcharles/nicetoast/NiceToastType.kt:11 | the index found lies in the string and holds the character, or is -1 |
| `NiceToastTypes.IndexOfFrom` | nicetoast/src/main/java/com/dononcharles/nicetoast/NiceToastType.kt:11 | the scan from `k` returns -1 or an index at or after `k` holding the character |
| `NiceToastTypes.IndexOfFromIsFirst` | nicetoast/src/main/java/com/dononcharles/nicetoast/NiceToastType.kt:11 | the scan from `k` returns -1 exactly when the character is absent from position `k` on, and otherwise no earlier position from `k` holds it |
| `NiceToastTypes.IndexOfIsFirst` | nicetoast/src/main/java/com/dononcharles/nicetoast/NiceToastType.kt:11 | `indexOf` is -1 exactly when the character is absent, and otherwise no earlier index holds it |
| `NiceToastTypes.ReplaceFirst` | nicetoast/src/main/java/com/dononcharles/nicetoast/NiceToastType.kt:11 | replace-first keeps the length |
| `NiceToastTypes.ReplaceFirstWithoutOccurrence` | nicetoast/src/main/java/com/dononcharles/nicetoast/NiceToastType.kt:11 | a string without the character is returned unchanged |
| `NiceToastTypes.ReplaceFirstRewritesFirstOnly` | nicetoast/src/main/java/com/dononcharles/nicetoast/NiceToastType.kt:11 | when `k` is the first index holding the character, the result is `s[..k] + [to] + s[k+1..]`: later occurrences are kept |
| `NiceToastTypes.ReplaceFirstSplit` | nicetoast/src/main/java/com/dononcharles/nicetoast/NiceToastType.kt:11 | in `prefix + [c] + rest` with no `c` in the prefix, exactly that `c` is replaced |
| `NiceToastTypes.GetName` | nicetoast/src/main/java/com/dononcharles/nicetoast/NiceToastType.kt:11 | `getName()` keeps the length of the constant name |
| `NiceToastTypes.GetNameTable` | nicetoast/src/main/java/com/dononcharles/nicetoast/NiceToastType.kt:11 | `getName()` is "NO INTERNET" for NO_INTERNET and the unchanged constant name for every other constant |
| `NiceToastTypes.GetNameKeepsPlainNames` | nicetoast/src/main/java/com/dononcharles/nicetoast/NiceToastType.kt:11 | every constant other than NO_INTERNET keeps its name under `getName()` |
| `NiceToastTypes.GetNameOfNoInternet` | nicetoast/src/test/java/com/dononcharles/nicetoast/NiceToastTypeTest.kt:15-18 | `getName()` of NO_INTERNET is "NO INTERNET" |
| `NiceToastTypes.GetNameValues` | nicetoast/src/test/java/com/dononcharles/nicetoast/NiceToastTypeTest.kt:23-33 | the six human-readable names |
| `NiceToastTypes.GetNameIsNotBlank` | nicetoast/src/main/java/com/dononcharles/nicetoast/NiceToastType.kt:11 | `getName()` keeps the name's length and is never blank |
| `NiceToastTypes.FindByName` | nicetoast/src/test/java/com/dononcharles/nicetoast/NiceToastTypeTest.kt:86-113 | the scan finds a candidate named exactly `s`, or none has that name |
| `NiceToastTypes.ValueOf` | nicetoast/src/test/java/com/dononcharles/nicetoast/NiceToastTypeTest.kt:86-113 | a parsed constant is named exactly `s` (case-sensitive), and parsing fails only when no constant has that name |
| `NiceToastTypes.ValueOfConstantName` | nicetoast/src/test/java/com/dononcharles/nicetoast/NiceToastTypeTest.kt:86-89 | parsing a constant's name gives the constant back |
| `NiceToastTypes.ValueOfRejects` | nicetoast/src/test/java/com/dononcharles/nicetoast/NiceToastTypeTest.kt:91-113 | "INVALID", "error", "" and "NO INTERNET" do not parse, so `getName()` of NO_INTERNET does not parse back |
| `NiceToastConfiguration.Extensionality` | nicetoast/src/main/java/com/dononcharles/nicetoast/NiceToastConfiguration.kt:11-33 | a configuration is determined by its eleven fields |
| `NiceToastConfiguration.Get` | nicetoast/src/main/java/com/dononcharles/nicetoast/NiceToastConfiguration.kt:11-33 | the eleven getters, one per field; `Extensionality` shows they determine the record |
| `NiceToastConfiguration.Apply` | nicetoast/src/main/java/com/dononcharles/nicetoast/NiceToastConfiguration.kt:36-97 | a setter stores its argument in its own field and leaves the other ten unchanged; `resetAll` restores every default |
| `NiceToastConfiguration.Configure` | nicetoast/src/main/java/com/dononcharles/nicetoast/NiceToast.kt:43-45 | a `configure` block without `resetAll` leaves every field that none of its setters targets unchanged |
| `NiceToastConfiguration.ConfigureSnoc` | nicetoast/src/main/java/com/dononcharles/nicetoast/NiceToast.kt:43-45 | a `configure` block with one more call is the block followed by that call |
| `NiceToastConfiguration.ConfigureReadsLastWrite` | nicetoast/src/main/java/com/dononcharles/nicetoast/NiceToastConfiguration.kt:36-97 | after any run of calls, each field holds its last setter's argument, the default if a later `resetAll` ran, or its initial value |
| `NiceToastConfiguration.ResetAllRestoresDefaults` | nicetoast/src/main/java/com/dononcharles/nicetoast/NiceToastConfiguration.kt:83-97 | `resetAll` after any run of calls gives a freshly constructed configuration and is idempotent |
| `NiceToastConfiguration.DefaultsAreDistinctLibraryResources` | nicetoast/src/main/java/com/dononcharles/nicetoast/NiceToastConfiguration.kt:11-33 | the eleven defaults are ten distinct library colours and `anim.pulse` |
| `NiceToastConfiguration.SetterThenGetter` | nicetoast/src/test/java/com/dononcharles/nicetoast/NiceToastConfigurationTest.kt:41-86 | a getter returns what its setter stored, including an arbitrary integer such as -1 |
| `NiceToast.BackgroundField` | nicetoast/src/main/java/com/dononcharles/nicetoast/NiceToast.kt:303-309 | a type's background field is a colour field other than its primary one |
| `NiceToast.GetStyleSpec` | nicetoast/src/main/java/com/dononcharles/nicetoast/NiceToast.kt:291-322 | primary is the type's configured colour; background is primary if solid, else `dark_color` if dark, else the type's configured background; the icon is a type icon; the title is `getName()` |
| `NiceToast.IconsAreDistinct` | nicetoast/src/main/java/com/dononcharles/nicetoast/NiceToast.kt:312-319 | two specs have the same icon exactly when their types agree, whatever the configuration and flags |
| `NiceToast.WarningAndNoInternetShareColors` | nicetoast/src/main/java/com/dononcharles/nicetoast/NiceToast.kt:292-319 | WARNING and NO_INTERNET share primary and background colours but differ in icon and title |
| `NiceToast.DarkIgnoresConfiguredBackgrounds` | nicetoast/src/main/java/com/dononcharles/nicetoast/NiceToast.kt:300-310 | the dark side-bar spec depends on no configured background |
| `NiceToast.ConfiguredSuccessScenario` | nicetoast/src/main/java/com/dononcharles/nicetoast/NiceToast.kt:291-322 | after `setSuccessColor(x)`, a light side-bar SUCCESS spec has primary `x`, background `success_bg_color` and title "SUCCESS" |
| `NiceToast.SelectVariant` | nicetoast/src/main/java/com/dononcharles/nicetoast/NiceToast.kt:72-84 | the side-bar variants are chosen exactly when not full-background, the dark variants exactly when dark |
| `NiceToast.DarkThemeFlag` | nicetoast/src/main/java/com/dononcharles/nicetoast/NiceToast.kt:174 | the dark variants pass `darkTheme = true` (lines 174 and 209), the light ones `false` (lines 106 and 141) |
| `NiceToast.SolidBackgroundFlag` | nicetoast/src/main/java/com/dononcharles/nicetoast/NiceToast.kt:141 | only the light full-background variant passes `solidBackground = true`; the dark full-background one passes `false` (line 209) |
| `NiceToast.FlagsFollowDispatch` | nicetoast/src/main/java/com/dononcharles/nicetoast/NiceToast.kt:72-84 | through the dispatch, `darkTheme` equals `isDarkMode`, and `solidBackground` holds exactly for a light full-background toast |
| `NiceToast.Create` | nicetoast/src/main/java/com/dononcharles/nicetoast/NiceToast.kt:91-223 | only the side-bar layouts tint a side bar (with the primary colour); the title is white only for the light solid variant; the message is black only for the light side-bar variant; the icon plays the configured animation |
| `NiceToast.MagicCreate` | nicetoast/src/main/java/com/dononcharles/nicetoast/NiceToast.kt:61-85 | the side-bar layout is used exactly when not full-background; the message is black only for a light side-bar toast; the title is white only for a light full-background toast and otherwise takes the primary colour |
| `NiceToast.MagicCreateBackground` | nicetoast/src/main/java/com/dononcharles/nicetoast/NiceToast.kt:72-209 | through `magicCreate`, a light full-background toast has background equal to primary, every dark toast has `dark_color`, a light side-bar toast has its configured background |
| `NiceToast.MagicCreateSolidExactly` | nicetoast/src/main/java/com/dononcharles/nicetoast/NiceToast.kt:72-209 | when the configured colours differ, background equals primary exactly when not dark and full-background |
| `NiceToast.MagicCreateTitle` | nicetoast/src/main/java/com/dononcharles/nicetoast/NiceToast.kt:117-218 | the shown title is the caller's non-blank title, otherwise the type's `getName()`, and is never blank |
| `NiceToast.DismissDelay` | nicetoast/src/main/java/com/dononcharles/nicetoast/NiceToast.kt:279-283 | the delay is the duration when at least 500ms, and 500ms otherwise |
| `NiceToast.GravityFor` | nicetoast/src/main/java/com/dononcharles/nicetoast/NiceToast.kt:259-264 | TOP exactly for the top code; CENTER only for the center code; everything else is BOTTOM |
| `NiceToast.GravityTable` | nicetoast/src/main/java/com/dononcharles/nicetoast/NiceToast.kt:259-264 | with distinct codes: top gives TOP, center gives CENTER, bottom and every other integer give BOTTOM |
| `NiceToast.Place` | nicetoast/src/main/java/com/dononcharles/nicetoast/NiceToast.kt:250-271 | size and left, top and right margins are copied; only a BOTTOM toast has its bottom margin raised by the offset |
| `NiceToast.ShowTransientOverlay` | nicetoast/src/main/java/com/dononcharles/nicetoast/NiceToast.kt:239-284 | without margin layout parameters no overlay is attached and nothing is scheduled; otherwise one overlay with a fresh handle and a delay of at least 500ms is appended and every earlier overlay stays |
| `NiceToast.DelayElapsed` | nicetoast/src/main/java/com/dononcharles/nicetoast/NiceToast.kt:279-283 | the delayed callback starts the fade of its own overlay only |
| `NiceToast.Without` | nicetoast/src/main/java/com/dononcharles/nicetoast/NiceToast.kt:281 | removal keeps exactly the overlays with another handle |
| `NiceToast.FadeEnded` | nicetoast/src/main/java/com/dononcharles/nicetoast/NiceToast.kt:280-282 | the end of the fade removes that overlay's view and nothing else; a view already gone is ignored |
| `NiceToast.WithoutKeepsDistinctHandles` | nicetoast/src/main/java/com/dononcharles/nicetoast/NiceToast.kt:281 | removing an overlay keeps the remaining handles distinct and below the bound |
| `NiceToast.ShowKeepsRootValid` | nicetoast/src/main/java/com/dononcharles/nicetoast/NiceToast.kt:239-284 | showing keeps overlay handles distinct |
| `NiceToast.DelayElapsedKeepsRootValid` | nicetoast/src/main/java/com/dononcharles/nicetoast/NiceToast.kt:279-283 | the delayed callback keeps overlay handles distinct |
| `NiceToast.FadeEndedKeepsRootValid` | nicetoast/src/main/java/com/dononcharles/nicetoast/NiceToast.kt:279-283 | removal keeps overlay handles distinct |
| `NiceToast.OverlaysCoexist` | nicetoast/src/main/java/com/dononcharles/nicetoast/NiceToast.kt:273 | two toasts shown in a row are both attached, with different handles; the second never removes the first |
| `NiceToast.TimersTouchOnlyTheirOverlay` | nicetoast/src/main/java/com/dononcharles/nicetoast/NiceToast.kt:279-283 | the timers of one overlay leave every other overlay in place |
| `NiceToast.MagicCreateAndShow` | nicetoast/src/main/java/com/dononcharles/nicetoast/NiceToast.kt:61-85 | the whole legacy call appends the toast `magicCreate` renders, with a delay of at least 500ms, or changes nothing |
| `NiceToast.RootStep` | nicetoast/src/main/java/com/dononcharles/nicetoast/NiceToast.kt:239-284 | a show or a timer event keeps the overlay handles distinct and never reuses a handle |
| `NiceToast.RootRun` | nicetoast/src/main/java/com/dononcharles/nicetoast/NiceToast.kt:239-284 | any run of shows and timer events keeps the handles distinct and never moves the handle counter back |
| `NiceToast.ReachableRootsAreValid` | nicetoast/src/main/java/com/dononcharles/nicetoast/NiceToast.kt:239-284 | every root reachable from an empty window has pairwise distinct overlay handles |
| `CNiceToastConfiguration.TypeName` | cnicetoast/src/main/java/com/dononcharles/cnicetoast/CNiceToastConfiguration.kt:77 | Compose type names are non-empty and contain no underscore |
| `CNiceToastConfiguration.GetStyleSpec` | cnicetoast/src/main/java/com/dononcharles/cnicetoast/CNiceToastConfiguration.kt:31-63 | solid gives background equal to primary whatever the dark flag; dark side bar gives `dark_color`; the default title is the type name verbatim |
| `CNiceToastConfiguration.WithPrimary` | cnicetoast/src/main/java/com/dononcharles/cnicetoast/CNiceToastConfiguration.kt:17-20 | `copy` of one type's primary colour: that type resolves to the new colour, whatever the flags |
| `CNiceToastConfiguration.WithBackground` | cnicetoast/src/main/java/com/dononcharles/cnicetoast/CNiceToastConfiguration.kt:22-25 | `copy` of one type's background colour: that type's light side-bar toast resolves to the new colour |
| `CNiceToastConfiguration.PrimaryIsOneToOne` | cnicetoast/src/main/java/com/dononcharles/cnicetoast/CNiceToastConfiguration.kt:32-37 | copying a new primary colour for one type changes that type's primary and no other's |
| `CNiceToastConfiguration.BackgroundFieldIsOwnAndOnlyLight` | cnicetoast/src/main/java/com/dononcharles/cnicetoast/CNiceToastConfiguration.kt:39-48 | a type's background field is read only by that type's light side-bar toast, and never affects the primary |
| `CNiceToastConfiguration.IconsAreDistinct` | cnicetoast/src/main/java/com/dononcharles/cnicetoast/CNiceToastConfiguration.kt:50-55 | four distinct icons, chosen by type alone |
| `CNiceToastConfiguration.DefaultColors` | cnicetoast/src/main/java/com/dononcharles/cnicetoast/CNiceToastConfiguration.kt:16-25 | the default record holds eight distinct library colours |
| `CNiceToastData.DefaultArgs` | cnicetoast/src/main/java/com/dononcharles/cnicetoast/CNiceToastData.kt:82-90 | omitted arguments leave the message and no title |
| `CNiceToastData.Show` | cnicetoast/src/main/java/com/dononcharles/cnicetoast/CNiceToastData.kt:82-106 | the slot holds a descriptor with exactly the arguments and an identity never issued before, whatever it held |
| `CNiceToastData.Dismiss` | cnicetoast/src/main/java/com/dononcharles/cnicetoast/CNiceToastData.kt:112-114 | the slot is empty afterwards |
| `CNiceToastData.DismissIdempotent` | cnicetoast/src/main/java/com/dononcharles/cnicetoast/CNiceToastData.kt:112-114 | dismissing twice is dismissing once; on an empty slot it changes nothing |
| `CNiceToastData.ShowDefaults` | cnicetoast/src/main/java/com/dononcharles/cnicetoast/CNiceToastData.kt:84-104 | defaults are SUCCESS, 4000ms, light, side bar, BOTTOM, no title |
| `CNiceToastData.ShowReplaces` | cnicetoast/src/main/java/com/dononcharles/cnicetoast/CNiceToastData.kt:93-105 | after `show(a)` then `show(b)` the slot holds `b`'s descriptor with a new identity; there is no queue |
| `CNiceToastData.IdenticalContentFreshIdentity` | cnicetoast/src/main/java/com/dononcharles/cnicetoast/CNiceToastData.kt:16-19 | the same arguments shown twice give descriptors that differ in identity only |
| `CNiceToastData.Slot.Key` | cnicetoast/src/main/java/com/dononcharles/cnicetoast/CNiceToastHost.kt:55 | the effect key `currentData?.id` is present exactly when a descriptor is shown, and is then its identity |
| `CNiceToastHost.AlignmentFor` | cnicetoast/src/main/java/com/dononcharles/cnicetoast/CNiceToastHost.kt:62-66 | TOP gives TopCenter and CENTER gives Center; BOTTOM and an empty slot give BottomCenter |
| `CNiceToastHost.Recompose` | cnicetoast/src/main/java/com/dononcharles/cnicetoast/CNiceToastHost.kt:55-60 | a changed key cancels the countdown and starts one now exactly when a descriptor is shown |
| `CNiceToastHost.OnShow` | cnicetoast/src/main/java/com/dononcharles/cnicetoast/CNiceToastHost.kt:51-57 | every `show` restarts the countdown now, even for identical content |
| `CNiceToastHost.OnDismiss` | cnicetoast/src/main/java/com/dononcharles/cnicetoast/CNiceToastHost.kt:55-56 | after `dismiss` the slot is empty and no countdown runs |
| `CNiceToastHost.Advance` | cnicetoast/src/main/java/com/dononcharles/cnicetoast/CNiceToastHost.kt:56-58 | time passing keeps the host invariant and issues no identity |
| `CNiceToastHost.AdvanceClearsAtOwnDeadline` | cnicetoast/src/main/java/com/dononcharles/cnicetoast/CNiceToastHost.kt:55-59 | the slot is cleared exactly once the shown descriptor's own duration has passed since it was shown |
| `CNiceToastHost.ShowThenTimeout` | cnicetoast/src/main/java/com/dononcharles/cnicetoast/CNiceToastHost.kt:55-59 | an ERROR toast of 3000ms is still shown after 2999ms and gone after 3000ms |
| `CNiceToastHost.SupersededCountdownDoesNotClear` | cnicetoast/src/main/java/com/dononcharles/cnicetoast/CNiceToastHost.kt:51-59 | the countdown of a replaced descriptor never clears its successor |
| `CNiceToastHost.DismissThenTimeoutIsNoOp` | cnicetoast/src/main/java/com/dononcharles/cnicetoast/CNiceToastHost.kt:55-56 | after a manual `dismiss`, later time leaves the slot empty and starts nothing |
| `CNiceToastHost.Step` | cnicetoast/src/main/java/com/dononcharles/cnicetoast/CNiceToastHost.kt:49-60 | each event keeps the invariant; only `show` consumes an identity |
| `CNiceToastHost.Run` | cnicetoast/src/main/java/com/dononcharles/cnicetoast/CNiceToastHost.kt:49-60 | any run keeps the host invariant and never moves the generator back |
| `CNiceToastHost.IssuedAreConsecutive` | cnicetoast/src/main/java/com/dononcharles/cnicetoast/CNiceToastData.kt:32 | the identities a run hands out are consecutive from the generator's position |
| `CNiceToastHost.RunAdvancesGenerator` | cnicetoast/src/main/java/com/dononcharles/cnicetoast/CNiceToastData.kt:32 | after a run the generator stands past every identity it handed out |
| `CNiceToastHost.IssuedIdsAreUnique` | cnicetoast/src/main/java/com/dononcharles/cnicetoast/CNiceToastData.kt:16-32 | no identity is issued twice in a run, and the next `show` gets an identity different from all of them |
| `CNiceToastHost.ReachableHostsAreValid` | cnicetoast/src/main/java/com/dononcharles/cnicetoast/CNiceToastHost.kt:49-60 | from a fresh host, every run of events keeps the invariant |
| `VariantAgreement.Legacy` | cnicetoast/src/main/java/com/dononcharles/cnicetoast/CNiceToastConfiguration.kt:77 | each Compose type corresponds to the legacy constant with the same name |
| `VariantAgreement.StyleResolutionsAgree` | cnicetoast/src/main/java/com/dononcharles/cnicetoast/CNiceToastConfiguration.kt:31-63 | on the shared types, the Compose resolution agrees with the legacy one in icon, both colours and title |
| `VariantAgreement.DefaultsCorrespond` | cnicetoast/src/main/java/com/dononcharles/cnicetoast/CNiceToastConfiguration.kt:16-25 | the Compose defaults are the legacy defaults restricted to the shared types |

## Left out

- Android view work is not modelled. This covers inflation, drawables, tinting,
  PorterDuff filters, text colours applied to views, and starting animations.
  `Rendered` records only the resource ids and texts these calls receive.
- The custom `Typeface` of the message is not modelled. It is an opaque toolkit
  object, and it affects no decision.
- `dpToPx` uses the display density, which is floating point. The pixel value
  of the 96dp offset is a parameter, `bottomOffsetPx`.
- `NiceToast.ShowTransientOverlay`: the `clipToPadding` and `clipChildren`
  flags it turns off on the window root, on every call and before the early
  return, are not modelled. They affect only drawing.
- `CNiceToastHost.OnShow` and `CNiceToastHost.OnDismiss` run the state write
  and the recomposition that re-keys the `LaunchedEffect` as one atomic step.
  In the library the old effect is cancelled only at the next recomposition,
  so a countdown ending in that gap could still call `dismiss()` and clear the
  new descriptor. `SupersededCountdownDoesNotClear` holds under this
  assumption only.
- `Place`: ints are unbounded, so a 32-bit overflow of the bottom margin plus
  the offset is not modelled.
- Durations are unbounded integers rather than `Long`. A countdown with zero or
  negative duration clears the slot at the next time step.
- Whether the content has `MarginLayoutParams` is an input, not derived from
  inflation.
- Legacy timers (`postDelayed` and the 200ms fade) are abstract events. They
  carry an overlay handle, and the legacy path has no clock.
- The Compose host's `delay` is measured against an explicit clock.
- The `Mutex` in `CNiceToastState.show` is not modelled. `show` is a single
  atomic step, and concurrent callers are not modelled.
- `UUID.randomUUID()` is replaced by a counter that the state carries. The
  model proves the counter never repeats, but not the probabilistic uniqueness
  of UUIDs.
- Compose rendering is not modelled. This covers `AnimatedContent`, the
  enter and exit transitions, the `Box` padding and the toast view composable.
  The configuration comes from `LocalCNiceToastConfig`; in the model it is an
  explicit argument.
- A `configure { }` block is modelled as the calls it makes, in order. Values
  the block computes from the getters appear as those calls' arguments.
- The tests of fresh arrays from `values()` and of the identical `entries`
  instance are about object identity. Object identity is not modelled.
- The Kotlin whitespace test is a fixed list of characters: the ASCII controls
  and the Unicode space, line and paragraph separators.
- The demo application, its theme and the build scripts are not modelled.
