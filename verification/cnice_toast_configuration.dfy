/**
 The Compose library's immutable configuration: four primary and four
 background colours with built-in defaults, `copy` through record update,
 and the style resolution that lives on the record. There are four toast
 types here and the default title is the type's name verbatim.
 */
module CNiceToastConfiguration {
  import opened Common

  datatype CNiceToastType = Success | Error | Warning | Info

  /** Declared in the order TOP, BOTTOM, CENTER. */
  datatype CNiceToastPosition = Top | Bottom | Center

  /** The Kotlin `name` of a type. */
  function TypeName(t: CNiceToastType): (s: string)
    ensures |s| > 0 && '_' !in s
  {
    match t
    case Success => "SUCCESS"
    case Error => "ERROR"
    case Warning => "WARNING"
    case Info => "INFO"
  }

  datatype Configuration = Configuration(
    successToastColor: ResId,
    errorToastColor: ResId,
    warningToastColor: ResId,
    infoToastColor: ResId,
    successBackgroundToastColor: ResId,
    errorBackgroundToastColor: ResId,
    warningBackgroundToastColor: ResId,
    infoBackgroundToastColor: ResId)

  /** `CNiceToastConfiguration()` with every parameter left at its default. */
  const Default := Configuration(
    Color(SuccessColor), Color(ErrorColor), Color(WarningColor), Color(InfoColor),
    Color(SuccessBgColor), Color(ErrorBgColor), Color(WarningBgColor), Color(InfoBgColor))

  /** The resolved style of one toast. */
  datatype StyleSpec = StyleSpec(iconRes: ResId, primaryColor: ResId, backgroundColor: ResId, defaultTitle: string)

  /** `CNiceToastConfiguration.getStyleSpec`. */
  function GetStyleSpec(c: Configuration, t: CNiceToastType, darkTheme: bool, solidBackground: bool): (r: StyleSpec)
    ensures solidBackground ==> r.backgroundColor == r.primaryColor
    ensures !solidBackground && darkTheme ==> r.backgroundColor == Color(DarkColor)
    ensures r.iconRes.Drawable?
    ensures r.defaultTitle == TypeName(t)
  {
    var primaryColor :=
      match t
      case Success => c.successToastColor
      case Error => c.errorToastColor
      case Warning => c.warningToastColor
      case Info => c.infoToastColor;
    var backgroundColor :=
      if solidBackground then primaryColor
      else if darkTheme then Color(DarkColor)
      else
        match t
        case Success => c.successBackgroundToastColor
        case Error => c.errorBackgroundToastColor
        case Warning => c.warningBackgroundToastColor
        case Info => c.infoBackgroundToastColor;
    var iconRes :=
      match t
      case Success => Drawable(BaselineCheckCircle24)
      case Error => Drawable(OutlineError24)
      case Warning => Drawable(OutlineWarning24)
      case Info => Drawable(OutlineInfo24);
    StyleSpec(iconRes, primaryColor, backgroundColor, TypeName(t))
  }

  /** `copy(...)` of the primary colour belonging to type `t`. */
  function WithPrimary(c: Configuration, t: CNiceToastType, color: ResId): (r: Configuration)
    ensures forall dark, solid :: GetStyleSpec(r, t, dark, solid).primaryColor == color
  {
    match t
    case Success => c.(successToastColor := color)
    case Error => c.(errorToastColor := color)
    case Warning => c.(warningToastColor := color)
    case Info => c.(infoToastColor := color)
  }

  /** `copy(...)` of the background colour belonging to type `t`. */
  function WithBackground(c: Configuration, t: CNiceToastType, color: ResId): (r: Configuration)
    ensures GetStyleSpec(r, t, false, false).backgroundColor == color
  {
    match t
    case Success => c.(successBackgroundToastColor := color)
    case Error => c.(errorBackgroundToastColor := color)
    case Warning => c.(warningBackgroundToastColor := color)
    case Info => c.(infoBackgroundToastColor := color)
  }

  /**
   Each type reads its own primary field and no other: copying a new primary
   colour for `t` changes the primary colour of `t`, and of no other type.
   */
  lemma PrimaryIsOneToOne(c: Configuration, t: CNiceToastType, u: CNiceToastType, color: ResId, dark: bool, solid: bool)
    ensures GetStyleSpec(WithPrimary(c, t, color), u, dark, solid).primaryColor
         == (if u == t then color else GetStyleSpec(c, u, dark, solid).primaryColor)
  {
  }

  /**
   A light side-bar toast reads its own background field; a solid or dark
   toast reads no background field at all.
   */
  lemma BackgroundFieldIsOwnAndOnlyLight(c: Configuration, t: CNiceToastType, u: CNiceToastType, color: ResId, dark: bool, solid: bool)
    ensures GetStyleSpec(WithBackground(c, t, color), u, dark, solid).backgroundColor
         == (if u == t && !solid && !dark then color else GetStyleSpec(c, u, dark, solid).backgroundColor)
    ensures GetStyleSpec(WithBackground(c, t, color), u, dark, solid).primaryColor
         == GetStyleSpec(c, u, dark, solid).primaryColor
  {
  }

  /** Four types, four different icons, whatever the configuration and flags. */
  lemma IconsAreDistinct(c1: Configuration, c2: Configuration, t1: CNiceToastType, t2: CNiceToastType,
                         d1: bool, d2: bool, s1: bool, s2: bool)
    ensures GetStyleSpec(c1, t1, d1, s1).iconRes == GetStyleSpec(c2, t2, d2, s2).iconRes <==> t1 == t2
  {
  }

  /** The default record holds the library's four primary and four background colours, all distinct. */
  lemma DefaultColors(t: CNiceToastType, u: CNiceToastType)
    ensures GetStyleSpec(Default, t, false, false).primaryColor.Color?
    ensures GetStyleSpec(Default, t, false, false).backgroundColor.Color?
    ensures GetStyleSpec(Default, t, false, false).primaryColor != GetStyleSpec(Default, u, false, false).backgroundColor
    ensures t != u ==> GetStyleSpec(Default, t, false, false).primaryColor != GetStyleSpec(Default, u, false, false).primaryColor
    ensures t != u ==> GetStyleSpec(Default, t, false, false).backgroundColor != GetStyleSpec(Default, u, false, false).backgroundColor
  {
  }
}
