/**
 Shared vocabulary of both toast libraries: Android resource ids, Kotlin's
 nullable values, and Kotlin's notion of a blank string.
 */
module Common {

  /** A Kotlin `T?`: either `null` or a value. */
  datatype Option<+T> = None | Some(value: T)

  /** Colour resources the libraries declare under `R.color`. */
  datatype ColorName =
    | SuccessColor | ErrorColor | WarningColor | InfoColor | DeleteColor
    | SuccessBgColor | ErrorBgColor | WarningBgColor | InfoBgColor | DeleteBgColor
    | DarkColor | Black | White

  /** Drawable resources the libraries declare under `R.drawable`. */
  datatype DrawableName =
    | BaselineCheckCircle24
    | OutlineError24
    | OutlineWarning24
    | OutlineInfo24
    | OutlineDelete24
    | OutlineSignalCellularConnectedNoInternet4Bar24
    | RoundBg

  /** Animation resources the libraries declare under `R.anim`. */
  datatype AnimName = Pulse | FadeIn | SlideInAndFade

  /**
   An `Int` resource id. The library's own resources are symbolic and pairwise
   distinct by construction; `Other(v)` is any other integer a caller passes
   (an application resource, or a value such as -1).
   */
  datatype ResId =
    | Color(color: ColorName)
    | Drawable(drawable: DrawableName)
    | Anim(anim: AnimName)
    | Other(value: int)

  /**
   Kotlin's `Char.isWhitespace()`: Java's `Character.isWhitespace` or
   `Character.isSpaceChar`, i.e. the ASCII controls TAB..CR and FS..US, and
   every space, line and paragraph separator of Unicode.
   */
  predicate IsWhitespace(c: char) {
    || c in {'\t', '\n', '\U{000B}', '\U{000C}', '\r'}
    || c in {'\U{001C}', '\U{001D}', '\U{001E}', '\U{001F}'}
    || c in {' ', '\U{00A0}', '\U{1680}', '\U{2028}', '\U{2029}', '\U{202F}', '\U{205F}', '\U{3000}'}
    || '\U{2000}' <= c <= '\U{200A}'
  }

  /** Kotlin's `CharSequence.isBlank()`: empty, or whitespace only. */
  predicate IsBlank(s: string) {
    forall i :: 0 <= i < |s| ==> IsWhitespace(s[i])
  }

  /**
   Kotlin's `title?.takeIf { it.isNotBlank() } ?: fallback`: the caller's
   title when it is present and not blank, the fallback otherwise.
   */
  function TitleOrDefault(title: Option<string>, fallback: string): (r: string)
    ensures title.Some? && !IsBlank(title.value) ==> r == title.value
    ensures title.None? || IsBlank(title.value) ==> r == fallback
    ensures !IsBlank(fallback) ==> !IsBlank(r)
  {
    match title
    case Some(t) => if IsBlank(t) then fallback else t
    case None => fallback
  }

  /** Kotlin's `Long.coerceAtLeast(floor)`. */
  function CoerceAtLeast(x: int, floor: int): (r: int)
    ensures r >= x && r >= floor
    ensures r == x || r == floor
  {
    if x < floor then floor else x
  }
}
