/**
 The two libraries resolve styles the same way. On the four types they share,
 the Compose configuration that carries the legacy configuration's colours
 yields the same icon, primary colour, background colour and default title
 as the legacy `getStyleSpec`, for every theme and background mode.
 */
module VariantAgreement {
  import NiceToastTypes
  import NiceToastConfiguration
  import NiceToast
  import CNiceToastConfiguration

  /** The legacy constant with the same name as a Compose type. */
  function Legacy(t: CNiceToastConfiguration.CNiceToastType): (u: NiceToastTypes.NiceToastType)
    ensures NiceToastTypes.ConstantName(u) == CNiceToastConfiguration.TypeName(t)
  {
    match t
    case Success => NiceToastTypes.Success
    case Error => NiceToastTypes.Error
    case Warning => NiceToastTypes.Warning
    case Info => NiceToastTypes.Info
  }

  /** The Compose configuration holding the legacy configuration's colours for the four shared types. */
  function Project(c: NiceToastConfiguration.Configuration): CNiceToastConfiguration.Configuration {
    CNiceToastConfiguration.Configuration(
      c.successToastColor, c.errorToastColor, c.warningToastColor, c.infoToastColor,
      c.successBackgroundToastColor, c.errorBackgroundToastColor, c.warningBackgroundToastColor, c.infoBackgroundToastColor)
  }

  /** Both style resolutions agree on every shared type, theme and background mode. */
  lemma StyleResolutionsAgree(c: NiceToastConfiguration.Configuration, t: CNiceToastConfiguration.CNiceToastType,
                              dark: bool, solid: bool)
    ensures var legacy := NiceToast.GetStyleSpec(c, Legacy(t), dark, solid);
      var compose := CNiceToastConfiguration.GetStyleSpec(Project(c), t, dark, solid);
      && legacy.iconRes == compose.iconRes
      && legacy.primaryColor == compose.primaryColor
      && legacy.backgroundColor == compose.backgroundColor
      && legacy.defaultTitle == compose.defaultTitle
  {
    NiceToastTypes.GetNameKeepsPlainNames(Legacy(t));
  }

  /** The default configurations correspond. */
  lemma DefaultsCorrespond()
    ensures Project(NiceToastConfiguration.Default) == CNiceToastConfiguration.Default
  {
  }
}
