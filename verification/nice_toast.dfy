/**
 The decision logic of the legacy `NiceToast` class: style resolution, the
 `magicCreate` dispatch onto the four `create*` variants, the title fallback,
 the gravity and margin mapping of the overlay, the auto-dismiss delay floor,
 and the window root that collects overlays. Every call adds its own overlay
 and schedules its own removal; nothing replaces an earlier overlay.
 */
module NiceToast {
  import opened Common
  import opened NiceToastTypes
  import opened NiceToastConfiguration

  /** The resolved style of one toast. */
  datatype StyleSpec = StyleSpec(iconRes: ResId, primaryColor: ResId, backgroundColor: ResId, defaultTitle: string)

  /** The configuration field holding the primary colour of a type; WARNING and NO_INTERNET share one. */
  function PrimaryField(t: NiceToastType): (f: Field)
    ensures f != CustomAnimRes
  {
    match t
    case Success => SuccessToastColor
    case Error => ErrorToastColor
    case Warning | NoInternet => WarningToastColor
    case Info => InfoToastColor
    case Delete => DeleteToastColor
  }

  /** The configuration field holding the background colour of a type; WARNING and NO_INTERNET share one. */
  function BackgroundField(t: NiceToastType): (f: Field)
    ensures f != CustomAnimRes && f != PrimaryField(t)
  {
    match t
    case Success => SuccessBackgroundToastColor
    case Error => ErrorBackgroundToastColor
    case Warning | NoInternet => WarningBackgroundToastColor
    case Info => InfoBackgroundToastColor
    case Delete => DeleteBackgroundToastColor
  }

  /** The first `when` of `getStyleSpec`: the configured primary colour. */
  function PrimaryColor(config: Configuration, t: NiceToastType): ResId {
    match t
    case Success => config.successToastColor
    case Error => config.errorToastColor
    case Warning | NoInternet => config.warningToastColor
    case Info => config.infoToastColor
    case Delete => config.deleteToastColor
  }

  /** The innermost `when` of `getStyleSpec`: the configured background colour. */
  function ConfiguredBackground(config: Configuration, t: NiceToastType): ResId {
    match t
    case Success => config.successBackgroundToastColor
    case Error => config.errorBackgroundToastColor
    case Warning | NoInternet => config.warningBackgroundToastColor
    case Info => config.infoBackgroundToastColor
    case Delete => config.deleteBackgroundToastColor
  }

  /** The last `when` of `getStyleSpec`: one icon per type. */
  function Icon(t: NiceToastType): DrawableName {
    match t
    case Success => BaselineCheckCircle24
    case Error => OutlineError24
    case Warning => OutlineWarning24
    case Info => OutlineInfo24
    case Delete => OutlineDelete24
    case NoInternet => OutlineSignalCellularConnectedNoInternet4Bar24
  }

  /** `NiceToast.getStyleSpec`, reading the toast's own configuration. */
  function GetStyleSpec(config: Configuration, t: NiceToastType, darkTheme: bool, solidBackground: bool): (r: StyleSpec)
    ensures r.primaryColor == Get(config, PrimaryField(t))
    ensures solidBackground ==> r.backgroundColor == r.primaryColor
    ensures !solidBackground && darkTheme ==> r.backgroundColor == Color(DarkColor)
    ensures !solidBackground && !darkTheme ==> r.backgroundColor == Get(config, BackgroundField(t))
    ensures r.iconRes.Drawable? && r.iconRes.drawable != RoundBg
    ensures r.defaultTitle == GetName(t)
  {
    var primaryColor := PrimaryColor(config, t);
    var backgroundColor :=
      if solidBackground then primaryColor
      else if darkTheme then Color(DarkColor)
      else ConfiguredBackground(config, t);
    StyleSpec(Drawable(Icon(t)), primaryColor, backgroundColor, GetName(t))
  }

  /** Six types, six different icons; the icon depends on the type alone. */
  lemma IconsAreDistinct(c1: Configuration, c2: Configuration, t1: NiceToastType, t2: NiceToastType,
                         d1: bool, d2: bool, s1: bool, s2: bool)
    ensures GetStyleSpec(c1, t1, d1, s1).iconRes == GetStyleSpec(c2, t2, d2, s2).iconRes <==> t1 == t2
  {
  }

  /** WARNING and NO_INTERNET share their colours and differ only in icon and title. */
  lemma WarningAndNoInternetShareColors(c: Configuration, dark: bool, solid: bool)
    ensures GetStyleSpec(c, Warning, dark, solid).primaryColor == GetStyleSpec(c, NoInternet, dark, solid).primaryColor
    ensures GetStyleSpec(c, Warning, dark, solid).backgroundColor == GetStyleSpec(c, NoInternet, dark, solid).backgroundColor
    ensures GetStyleSpec(c, Warning, dark, solid).iconRes != GetStyleSpec(c, NoInternet, dark, solid).iconRes
    ensures GetStyleSpec(c, Warning, dark, solid).defaultTitle != GetStyleSpec(c, NoInternet, dark, solid).defaultTitle
  {
    GetNameIsNotBlank(Warning);
    GetNameIsNotBlank(NoInternet);
  }

  /** The dark side-bar background ignores every configured background colour. */
  lemma DarkIgnoresConfiguredBackgrounds(c1: Configuration, c2: Configuration, t: NiceToastType)
    requires Get(c1, PrimaryField(t)) == Get(c2, PrimaryField(t))
    ensures GetStyleSpec(c1, t, true, false) == GetStyleSpec(c2, t, true, false)
  {
  }

  /** With `successColor = x` configured, a light side-bar SUCCESS toast has primary `x`, the success background and title "SUCCESS". */
  lemma ConfiguredSuccessScenario(x: ResId)
    ensures var spec := GetStyleSpec(Apply(Default, SetSuccessColor(x)), Success, false, false);
      && spec.primaryColor == x
      && spec.backgroundColor == Color(SuccessBgColor)
      && spec.defaultTitle == "SUCCESS"
  {
    GetNameValues();
  }

  /** The four `create*` functions. */
  datatype Variant =
    | SideBar               // createNiceToast
    | SolidBackground       // createNiceToastWithBackground
    | DarkSideBar           // createDarkNiceToast
    | DarkWithBackground    // createDarkNiceToastWithBackground

  /** The `magicCreate` dispatch on the dark-mode and full-background flags. */
  function SelectVariant(isDarkMode: bool, isFullBackground: bool): (v: Variant)
    ensures v == SideBar || v == DarkSideBar <==> !isFullBackground
    ensures v == DarkSideBar || v == DarkWithBackground <==> isDarkMode
  {
    if isDarkMode then (if isFullBackground then DarkWithBackground else DarkSideBar)
    else (if isFullBackground then SolidBackground else SideBar)
  }

  /** The `darkTheme` flag each variant passes to `getStyleSpec`. */
  function DarkThemeFlag(v: Variant): bool {
    v == DarkSideBar || v == DarkWithBackground
  }

  /** The `solidBackground` flag each variant passes; the dark full-background variant passes `false`. */
  function SolidBackgroundFlag(v: Variant): bool {
    v == SolidBackground
  }

  /**
   The flags the dispatch ends up passing to `getStyleSpec`: `darkTheme` is
   `isDarkMode`, but `solidBackground` holds only for a light full-background
   toast, since the dark full-background variant passes `false`.
   */
  lemma FlagsFollowDispatch(isDarkMode: bool, isFullBackground: bool)
    ensures DarkThemeFlag(SelectVariant(isDarkMode, isFullBackground)) == isDarkMode
    ensures SolidBackgroundFlag(SelectVariant(isDarkMode, isFullBackground)) == (!isDarkMode && isFullBackground)
  {
  }

  /** The two inflated layouts: with a coloured side bar, or without one. */
  datatype ToastLayout = SideBarLayout | BackgroundLayout

  /** What a `create*` function puts on screen, before the overlay is attached. */
  datatype Rendered = Rendered(
    layout: ToastLayout,
    iconRes: ResId,
    iconTint: ResId,
    iconAnim: ResId,
    sideBarTint: Option<ResId>,
    backgroundDrawable: ResId,
    backgroundFilter: ResId,
    titleText: string,
    titleColor: ResId,
    message: string,
    messageColor: ResId)

  /** One of the four `create*` functions, up to the call that shows the overlay. */
  function Create(config: Configuration, v: Variant, title: Option<string>, message: string, t: NiceToastType): (r: Rendered)
    ensures r.layout == SideBarLayout <==> r.sideBarTint.Some?
    ensures r.sideBarTint.Some? ==> r.sideBarTint.value == r.iconTint
    ensures r.titleColor == (if v == SolidBackground then Color(White) else r.iconTint)
    ensures r.messageColor == (if v == SideBar then Color(Black) else Color(White))
    ensures r.iconAnim == config.customAnimRes
    ensures r.message == message
  {
    var spec := GetStyleSpec(config, t, DarkThemeFlag(v), SolidBackgroundFlag(v));
    var sideBar := v == SideBar || v == DarkSideBar;
    Rendered(
      layout := if sideBar then SideBarLayout else BackgroundLayout,
      iconRes := spec.iconRes,
      iconTint := spec.primaryColor,
      iconAnim := config.customAnimRes,
      sideBarTint := if sideBar then Some(spec.primaryColor) else None,
      backgroundDrawable := Drawable(RoundBg),
      backgroundFilter := spec.backgroundColor,
      titleText := TitleOrDefault(title, spec.defaultTitle),
      titleColor := if v == SolidBackground then Color(White) else spec.primaryColor,
      message := message,
      messageColor := if v == SideBar then Color(Black) else Color(White))
  }

  /** `magicCreate`, up to the call that shows the overlay. */
  function MagicCreate(config: Configuration, title: Option<string>, message: string, t: NiceToastType,
                       isDarkMode: bool, isFullBackground: bool): (r: Rendered)
    ensures r.layout == SideBarLayout <==> !isFullBackground
    ensures r.messageColor == (if !isDarkMode && !isFullBackground then Color(Black) else Color(White))
    ensures r.titleColor == (if !isDarkMode && isFullBackground then Color(White) else r.iconTint)
  {
    Create(config, SelectVariant(isDarkMode, isFullBackground), title, message, t)
  }

  /**
   Through `magicCreate` the background is the primary colour for a light
   full-background toast, `dark_color` for every dark toast (including the
   full-background one), and the configured background otherwise.
   */
  lemma MagicCreateBackground(config: Configuration, title: Option<string>, message: string, t: NiceToastType,
                              isDarkMode: bool, isFullBackground: bool)
    ensures var r := MagicCreate(config, title, message, t, isDarkMode, isFullBackground);
      && r.iconTint == Get(config, PrimaryField(t))
      && (!isDarkMode && isFullBackground ==> r.backgroundFilter == r.iconTint)
      && (isDarkMode ==> r.backgroundFilter == Color(DarkColor))
      && (!isDarkMode && !isFullBackground ==> r.backgroundFilter == Get(config, BackgroundField(t)))
  {
  }

  /**
   When the configured primary colour of the type differs from both its
   background and `dark_color`, the background equals the primary colour
   exactly for light full-background toasts.
   */
  lemma MagicCreateSolidExactly(config: Configuration, title: Option<string>, message: string, t: NiceToastType,
                                isDarkMode: bool, isFullBackground: bool)
    requires Get(config, PrimaryField(t)) != Color(DarkColor)
    requires Get(config, PrimaryField(t)) != Get(config, BackgroundField(t))
    ensures var r := MagicCreate(config, title, message, t, isDarkMode, isFullBackground);
      r.backgroundFilter == r.iconTint <==> !isDarkMode && isFullBackground
  {
    MagicCreateBackground(config, title, message, t, isDarkMode, isFullBackground);
  }

  /** The shown title is the caller's one when present and not blank, the type's `getName()` otherwise, and never blank. */
  lemma MagicCreateTitle(config: Configuration, title: Option<string>, message: string, t: NiceToastType,
                         isDarkMode: bool, isFullBackground: bool)
    ensures var r := MagicCreate(config, title, message, t, isDarkMode, isFullBackground);
      && (title.Some? && !IsBlank(title.value) ==> r.titleText == title.value)
      && (title.None? || IsBlank(title.value) ==> r.titleText == GetName(t))
      && !IsBlank(r.titleText)
  {
    GetNameIsNotBlank(t);
  }

  // ---------------------------------------------------------------------
  // Attaching the overlay (`showTransientOverlay`)
  // ---------------------------------------------------------------------

  /** The floor of the auto-dismiss delay, in milliseconds. */
  const MinDismissDelayMs := 500

  /** The auto-dismiss delay, `duration.coerceAtLeast(500)`. */
  function DismissDelay(duration: int): (d: int)
    ensures d >= MinDismissDelayMs && d >= duration
    ensures duration >= MinDismissDelayMs ==> d == duration
    ensures duration < MinDismissDelayMs ==> d == MinDismissDelayMs
  {
    CoerceAtLeast(duration, MinDismissDelayMs)
  }

  /** `Gravity.TOP`, `Gravity.CENTER`, `Gravity.BOTTOM`. */
  datatype Gravity = Top | Center | Bottom

  /** The values of `TOAST_GRAVITY_TOP`, `TOAST_GRAVITY_CENTER` and `TOAST_GRAVITY_BOTTOM`. */
  datatype GravityCodes = GravityCodes(top: int, center: int, bottom: int) {
    predicate Distinct() {
      top != center && top != bottom && center != bottom
    }
  }

  /** The `when (position)` of the overlay: TOP, CENTER, and BOTTOM for the bottom code and for every other integer. */
  function GravityFor(position: int, codes: GravityCodes): (g: Gravity)
    ensures g == Top <==> position == codes.top
    ensures g == Center ==> position == codes.center
  {
    if position == codes.top then Top
    else if position == codes.center then Center
    else if position == codes.bottom then Bottom
    else Bottom
  }

  /** With distinct codes, each code maps to its own gravity and every other integer to BOTTOM. */
  lemma GravityTable(position: int, codes: GravityCodes)
    requires codes.Distinct()
    ensures GravityFor(codes.top, codes) == Top
    ensures GravityFor(codes.center, codes) == Center
    ensures GravityFor(codes.bottom, codes) == Bottom
    ensures position !in {codes.top, codes.center, codes.bottom} ==> GravityFor(position, codes) == Bottom
  {
  }

  /** `ViewGroup.MarginLayoutParams` of the inflated content. */
  datatype MarginParams = MarginParams(width: int, height: int, leftMargin: int, topMargin: int, rightMargin: int, bottomMargin: int)

  /** `FrameLayout.LayoutParams` the overlay is attached with. */
  datatype FrameParams = FrameParams(margins: MarginParams, gravity: Gravity)

  /**
   The overlay's layout parameters: size and margins copied from the content,
   gravity from the position, and only a bottom toast lifted by
   `bottomOffsetPx` (the pixel value of 96dp).
   */
  function Place(content: MarginParams, position: int, codes: GravityCodes, bottomOffsetPx: int): (r: FrameParams)
    ensures r.gravity == GravityFor(position, codes)
    ensures r.margins.(bottomMargin := content.bottomMargin) == content
    ensures r.gravity == Bottom ==> r.margins.bottomMargin == content.bottomMargin + bottomOffsetPx
    ensures r.gravity != Bottom ==> r.margins == content
  {
    var gravity := GravityFor(position, codes);
    var bottom := if gravity == Bottom then content.bottomMargin + bottomOffsetPx else content.bottomMargin;
    FrameParams(content.(bottomMargin := bottom), gravity)
  }

  /** One overlay attached to the window's root view. */
  datatype Overlay = Overlay(handle: nat, content: Rendered, params: FrameParams, dismissDelayMs: int, fading: bool)

  /** The window's root view: the overlays currently attached, and the next fresh handle. */
  datatype Root = Root(overlays: seq<Overlay>, nextHandle: nat)

  /** Handles are below `nextHandle` and pairwise distinct. */
  predicate ValidRoot(root: Root) {
    && (forall i :: 0 <= i < |root.overlays| ==> root.overlays[i].handle < root.nextHandle)
    && (forall i, j :: 0 <= i < j < |root.overlays| ==> root.overlays[i].handle != root.overlays[j].handle)
  }

  /** A window root with no toast attached yet. */
  const EmptyRoot := Root([], 0)

  /**
   `showTransientOverlay`: without margin layout parameters on the content
   nothing is attached and nothing is scheduled; otherwise one new overlay,
   with a fresh handle and a delay of at least 500ms, is appended and every
   overlay already attached stays.
   */
  function ShowTransientOverlay(root: Root, content: Rendered, contentParams: Option<MarginParams>,
                                duration: int, position: int, codes: GravityCodes, bottomOffsetPx: int): (r: Root)
    ensures contentParams.None? ==> r == root
    ensures contentParams.Some? ==>
      && |r.overlays| == |root.overlays| + 1
      && r.overlays[..|root.overlays|] == root.overlays
      && r.nextHandle > root.nextHandle
    ensures contentParams.Some? ==>
      var o := r.overlays[|root.overlays|];
      && o.handle == root.nextHandle
      && o.content == content
      && o.params == Place(contentParams.value, position, codes, bottomOffsetPx)
      && o.dismissDelayMs == DismissDelay(duration)
      && !o.fading
  {
    match contentParams
    case None => root
    case Some(p) =>
      var o := Overlay(root.nextHandle, content, Place(p, position, codes, bottomOffsetPx), DismissDelay(duration), false);
      Root(root.overlays + [o], root.nextHandle + 1)
  }

  /** The delayed callback of overlay `h`: its 200ms fade-out starts. */
  function DelayElapsed(root: Root, h: nat): (r: Root)
    ensures |r.overlays| == |root.overlays| && r.nextHandle == root.nextHandle
    ensures forall i :: 0 <= i < |r.overlays| ==>
      r.overlays[i] == (if root.overlays[i].handle == h then root.overlays[i].(fading := true) else root.overlays[i])
  {
    Root(seq(|root.overlays|, i requires 0 <= i < |root.overlays| =>
      if root.overlays[i].handle == h then root.overlays[i].(fading := true) else root.overlays[i]),
      root.nextHandle)
  }

  /** `overlays` without the ones carrying handle `h`, in order. */
  function Without(overlays: seq<Overlay>, h: nat): (r: seq<Overlay>)
    ensures forall o :: o in r <==> o in overlays && o.handle != h
    ensures |r| <= |overlays|
    ensures (forall o :: o in overlays ==> o.handle != h) ==> r == overlays
  {
    if |overlays| == 0 then []
    else if overlays[0].handle == h then Without(overlays[1..], h)
    else [overlays[0]] + Without(overlays[1..], h)
  }

  /** The end of the fade of overlay `h`: `root.removeView(content)`, which ignores a view no longer attached. */
  function FadeEnded(root: Root, h: nat): (r: Root)
    ensures forall o :: o in r.overlays <==> o in root.overlays && o.handle != h
    ensures r.nextHandle == root.nextHandle
  {
    Root(Without(root.overlays, h), root.nextHandle)
  }

  /** Removing keeps the handles of the survivors distinct and below `nextHandle`. */
  lemma {:induction false} WithoutKeepsDistinctHandles(overlays: seq<Overlay>, h: nat, bound: nat)
    requires forall i :: 0 <= i < |overlays| ==> overlays[i].handle < bound
    requires forall i, j :: 0 <= i < j < |overlays| ==> overlays[i].handle != overlays[j].handle
    ensures var r := Without(overlays, h);
      && (forall i :: 0 <= i < |r| ==> r[i].handle < bound)
      && (forall i, j :: 0 <= i < j < |r| ==> r[i].handle != r[j].handle)
    decreases |overlays|
  {
    if |overlays| > 0 {
      var rest := overlays[1..];
      WithoutKeepsDistinctHandles(rest, h, bound);
      var r := Without(overlays, h);
      if overlays[0].handle != h {
        assert r == [overlays[0]] + Without(rest, h);
        forall j | 1 <= j < |r| ensures r[0].handle != r[j].handle {
          assert r[j] in Without(rest, h);
          assert r[j] in rest;
        }
      }
    }
  }

  /** Showing a toast keeps the handles valid. */
  lemma ShowKeepsRootValid(root: Root, content: Rendered, contentParams: Option<MarginParams>,
                           duration: int, position: int, codes: GravityCodes, bottomOffsetPx: int)
    requires ValidRoot(root)
    ensures ValidRoot(ShowTransientOverlay(root, content, contentParams, duration, position, codes, bottomOffsetPx))
  {
    var shown := ShowTransientOverlay(root, content, contentParams, duration, position, codes, bottomOffsetPx);
    if contentParams.Some? {
      assert forall i :: 0 <= i < |root.overlays| ==> shown.overlays[i] == root.overlays[i];
    }
  }

  /** The delayed callback keeps the handles valid. */
  lemma DelayElapsedKeepsRootValid(root: Root, h: nat)
    requires ValidRoot(root)
    ensures ValidRoot(DelayElapsed(root, h))
  {
    var delayed := DelayElapsed(root, h);
    assert forall i :: 0 <= i < |root.overlays| ==> delayed.overlays[i].handle == root.overlays[i].handle;
  }

  /** The end of the fade keeps the handles valid. */
  lemma FadeEndedKeepsRootValid(root: Root, h: nat)
    requires ValidRoot(root)
    ensures ValidRoot(FadeEnded(root, h))
  {
    WithoutKeepsDistinctHandles(root.overlays, h, root.nextHandle);
    var r := FadeEnded(root, h);
    assert r.overlays == Without(root.overlays, h);
    assert forall i, j :: 0 <= i < j < |r.overlays| ==> r.overlays[i].handle != r.overlays[j].handle;
  }

  /** Two toasts shown one after the other coexist: the second never removes the first. */
  lemma OverlaysCoexist(root: Root, a: Rendered, b: Rendered, p: MarginParams, q: MarginParams,
                        da: int, db: int, pa: int, pb: int, codes: GravityCodes, offset: int)
    ensures var r1 := ShowTransientOverlay(root, a, Some(p), da, pa, codes, offset);
      var r2 := ShowTransientOverlay(r1, b, Some(q), db, pb, codes, offset);
      && |r2.overlays| == |root.overlays| + 2
      && r2.overlays[|root.overlays|].content == a
      && r2.overlays[|root.overlays| + 1].content == b
      && r2.overlays[|root.overlays|].handle != r2.overlays[|root.overlays| + 1].handle
  {
  }

  /** The timers of overlay `h` touch no other overlay. */
  lemma TimersTouchOnlyTheirOverlay(root: Root, h: nat, o: Overlay)
    requires o in root.overlays && o.handle != h
    ensures o in DelayElapsed(root, h).overlays
    ensures o in FadeEnded(root, h).overlays
  {
    var i :| 0 <= i < |root.overlays| && root.overlays[i] == o;
    assert DelayElapsed(root, h).overlays[i] == o;
  }

  /** `magicCreate` followed by `showTransientOverlay`: the whole legacy call. */
  function MagicCreateAndShow(root: Root, config: Configuration, title: Option<string>, message: string,
                              t: NiceToastType, position: int, duration: int, isDarkMode: bool, isFullBackground: bool,
                              contentParams: Option<MarginParams>, codes: GravityCodes, bottomOffsetPx: int): (r: Root)
    ensures contentParams.None? ==> r == root
    ensures contentParams.Some? ==>
      && |r.overlays| == |root.overlays| + 1
      && r.overlays[..|root.overlays|] == root.overlays
      && r.overlays[|root.overlays|].content == MagicCreate(config, title, message, t, isDarkMode, isFullBackground)
      && r.overlays[|root.overlays|].dismissDelayMs >= MinDismissDelayMs
  {
    ShowTransientOverlay(root, MagicCreate(config, title, message, t, isDarkMode, isFullBackground),
                         contentParams, duration, position, codes, bottomOffsetPx)
  }

  /** What can happen to the window root: a toast is shown, or one of overlay `h`'s two timers fires. */
  datatype RootEvent =
    | ShowToast(content: Rendered, contentParams: Option<MarginParams>, duration: int, position: int)
    | DelayOf(h: nat)
    | FadeOf(h: nat)

  /** One event on the root. */
  function RootStep(root: Root, e: RootEvent, codes: GravityCodes, bottomOffsetPx: int): (r: Root)
    requires ValidRoot(root)
    ensures ValidRoot(r)
    ensures r.nextHandle >= root.nextHandle
  {
    match e
    case ShowToast(content, params, duration, position) =>
      ShowKeepsRootValid(root, content, params, duration, position, codes, bottomOffsetPx);
      ShowTransientOverlay(root, content, params, duration, position, codes, bottomOffsetPx)
    case DelayOf(h) =>
      DelayElapsedKeepsRootValid(root, h);
      DelayElapsed(root, h)
    case FadeOf(h) =>
      FadeEndedKeepsRootValid(root, h);
      FadeEnded(root, h)
  }

  /** A run of events on the root, in order. */
  function RootRun(root: Root, events: seq<RootEvent>, codes: GravityCodes, bottomOffsetPx: int): (r: Root)
    requires ValidRoot(root)
    ensures ValidRoot(r)
    ensures r.nextHandle >= root.nextHandle
    decreases |events|
  {
    if |events| == 0 then root
    else RootRun(RootStep(root, events[0], codes, bottomOffsetPx), events[1..], codes, bottomOffsetPx)
  }

  /**
   Every root reachable from an empty window holds overlays with pairwise
   distinct handles, whatever toasts were shown and timers fired.
   */
  lemma ReachableRootsAreValid(events: seq<RootEvent>, codes: GravityCodes, bottomOffsetPx: int)
    ensures ValidRoot(RootRun(EmptyRoot, events, codes, bottomOffsetPx))
  {
  }
}
