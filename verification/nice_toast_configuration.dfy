/**
 The legacy library's colour configuration: eleven resource ids (five primary
 colours, five background colours and one animation), one setter per field,
 and `resetAll`, which restores the built-in defaults. A configuration is an
 immutable value here; each setter call returns the updated value.
 */
module NiceToastConfiguration {
  import opened Common

  datatype Configuration = Configuration(
    successToastColor: ResId,
    errorToastColor: ResId,
    warningToastColor: ResId,
    infoToastColor: ResId,
    deleteToastColor: ResId,
    successBackgroundToastColor: ResId,
    errorBackgroundToastColor: ResId,
    warningBackgroundToastColor: ResId,
    infoBackgroundToastColor: ResId,
    deleteBackgroundToastColor: ResId,
    customAnimRes: ResId)

  /** The built-in values a fresh `NiceToastConfiguration()` holds. */
  const Default := Configuration(
    Color(SuccessColor), Color(ErrorColor), Color(WarningColor), Color(InfoColor), Color(DeleteColor),
    Color(SuccessBgColor), Color(ErrorBgColor), Color(WarningBgColor), Color(InfoBgColor), Color(DeleteBgColor),
    Anim(Pulse))

  /** Names of the eleven fields. */
  datatype Field =
    | SuccessToastColor | ErrorToastColor | WarningToastColor | InfoToastColor | DeleteToastColor
    | SuccessBackgroundToastColor | ErrorBackgroundToastColor | WarningBackgroundToastColor
    | InfoBackgroundToastColor | DeleteBackgroundToastColor
    | CustomAnimRes

  /** Reads one field (the public getters). */
  function Get(c: Configuration, f: Field): ResId {
    match f
    case SuccessToastColor => c.successToastColor
    case ErrorToastColor => c.errorToastColor
    case WarningToastColor => c.warningToastColor
    case InfoToastColor => c.infoToastColor
    case DeleteToastColor => c.deleteToastColor
    case SuccessBackgroundToastColor => c.successBackgroundToastColor
    case ErrorBackgroundToastColor => c.errorBackgroundToastColor
    case WarningBackgroundToastColor => c.warningBackgroundToastColor
    case InfoBackgroundToastColor => c.infoBackgroundToastColor
    case DeleteBackgroundToastColor => c.deleteBackgroundToastColor
    case CustomAnimRes => c.customAnimRes
  }

  /** Two configurations are equal exactly when every field agrees. */
  lemma Extensionality(a: Configuration, b: Configuration)
    requires forall f :: Get(a, f) == Get(b, f)
    ensures a == b
  {
    assert Get(a, SuccessToastColor) == Get(b, SuccessToastColor);
    assert Get(a, ErrorToastColor) == Get(b, ErrorToastColor);
    assert Get(a, WarningToastColor) == Get(b, WarningToastColor);
    assert Get(a, InfoToastColor) == Get(b, InfoToastColor);
    assert Get(a, DeleteToastColor) == Get(b, DeleteToastColor);
    assert Get(a, SuccessBackgroundToastColor) == Get(b, SuccessBackgroundToastColor);
    assert Get(a, ErrorBackgroundToastColor) == Get(b, ErrorBackgroundToastColor);
    assert Get(a, WarningBackgroundToastColor) == Get(b, WarningBackgroundToastColor);
    assert Get(a, InfoBackgroundToastColor) == Get(b, InfoBackgroundToastColor);
    assert Get(a, DeleteBackgroundToastColor) == Get(b, DeleteBackgroundToastColor);
    assert Get(a, CustomAnimRes) == Get(b, CustomAnimRes);
  }

  /** The calls a `configure { ... }` block can make on the configuration. */
  datatype Call =
    | SetSuccessColor(color: ResId)
    | SetSuccessBackgroundColor(color: ResId)
    | SetErrorColor(color: ResId)
    | SetErrorBackgroundColor(color: ResId)
    | SetWarningColor(color: ResId)
    | SetWarningBackgroundColor(color: ResId)
    | SetInfoColor(color: ResId)
    | SetInfoBackgroundColor(color: ResId)
    | SetDeleteColor(color: ResId)
    | SetDeleteBackgroundColor(color: ResId)
    | SetCustomAnimation(animRes: ResId)
    | ResetAll
  {
    /** The argument a setter stores. */
    function Argument(): ResId
      requires !ResetAll?
    {
      if SetCustomAnimation? then animRes else color
    }
  }

  /** The field a setter writes. */
  function Target(call: Call): Field
    requires !call.ResetAll?
  {
    match call
    case SetSuccessColor(_) => SuccessToastColor
    case SetSuccessBackgroundColor(_) => SuccessBackgroundToastColor
    case SetErrorColor(_) => ErrorToastColor
    case SetErrorBackgroundColor(_) => ErrorBackgroundToastColor
    case SetWarningColor(_) => WarningToastColor
    case SetWarningBackgroundColor(_) => WarningBackgroundToastColor
    case SetInfoColor(_) => InfoToastColor
    case SetInfoBackgroundColor(_) => InfoBackgroundToastColor
    case SetDeleteColor(_) => DeleteToastColor
    case SetDeleteBackgroundColor(_) => DeleteBackgroundToastColor
    case SetCustomAnimation(_) => CustomAnimRes
  }

  /**
   One call on the configuration. A setter stores its argument, whatever
   integer it is, in its own field and leaves the other ten alone;
   `resetAll` restores every field to its default.
   */
  function Apply(c: Configuration, call: Call): (r: Configuration)
    ensures call.ResetAll? ==> forall f :: Get(r, f) == Get(Default, f)
    ensures !call.ResetAll? ==> Get(r, Target(call)) == call.Argument()
    ensures !call.ResetAll? ==> forall f :: f != Target(call) ==> Get(r, f) == Get(c, f)
  {
    match call
    case SetSuccessColor(v) => c.(successToastColor := v)
    case SetSuccessBackgroundColor(v) => c.(successBackgroundToastColor := v)
    case SetErrorColor(v) => c.(errorToastColor := v)
    case SetErrorBackgroundColor(v) => c.(errorBackgroundToastColor := v)
    case SetWarningColor(v) => c.(warningToastColor := v)
    case SetWarningBackgroundColor(v) => c.(warningBackgroundToastColor := v)
    case SetInfoColor(v) => c.(infoToastColor := v)
    case SetInfoBackgroundColor(v) => c.(infoBackgroundToastColor := v)
    case SetDeleteColor(v) => c.(deleteToastColor := v)
    case SetDeleteBackgroundColor(v) => c.(deleteBackgroundToastColor := v)
    case SetCustomAnimation(v) => c.(customAnimRes := v)
    case ResetAll => Default
  }

  /**
   `NiceToast.configure { ... }`: the block's calls, applied in order. A field
   that no setter of the block targets, in a block without `resetAll`, keeps
   its value.
   */
  function Configure(c: Configuration, calls: seq<Call>): (r: Configuration)
    ensures forall f :: (forall i :: 0 <= i < |calls| ==> !calls[i].ResetAll? && Target(calls[i]) != f)
                      ==> Get(r, f) == Get(c, f)
    decreases |calls|
  {
    if |calls| == 0 then c else Configure(Apply(c, calls[0]), calls[1..])
  }

  /**
   Reference reading of a field after a run of calls, scanning backwards: the
   argument of the last setter of that field, the default if a `resetAll`
   came later, or the initial value if neither happened.
   */
  function LastWritten(calls: seq<Call>, f: Field, initial: ResId): ResId
    decreases |calls|
  {
    if |calls| == 0 then initial
    else
      var last := calls[|calls| - 1];
      if last.ResetAll? then Get(Default, f)
      else if Target(last) == f then last.Argument()
      else LastWritten(calls[..|calls| - 1], f, initial)
  }

  /** Running one more call after a block is the block with that call appended. */
  lemma {:induction false} ConfigureSnoc(c: Configuration, calls: seq<Call>, call: Call)
    ensures Configure(c, calls + [call]) == Apply(Configure(c, calls), call)
    decreases |calls|
  {
    if |calls| > 0 {
      assert (calls + [call])[1..] == calls[1..] + [call];
      ConfigureSnoc(Apply(c, calls[0]), calls[1..], call);
    }
  }

  /** After any run of calls, each field holds the value its last write left there. */
  lemma {:induction false} ConfigureReadsLastWrite(c: Configuration, calls: seq<Call>, f: Field)
    ensures Get(Configure(c, calls), f) == LastWritten(calls, f, Get(c, f))
    decreases |calls|
  {
    if |calls| > 0 {
      var init, last := calls[..|calls| - 1], calls[|calls| - 1];
      assert calls == init + [last];
      ConfigureSnoc(c, init, last);
      ConfigureReadsLastWrite(c, init, f);
    }
  }

  /** `resetAll` after any run of calls gives back a fresh configuration; a second `resetAll` changes nothing. */
  lemma ResetAllRestoresDefaults(c: Configuration, calls: seq<Call>)
    ensures Configure(c, calls + [ResetAll]) == Default
    ensures Apply(Apply(Configure(c, calls), ResetAll), ResetAll) == Apply(Configure(c, calls), ResetAll)
  {
    ConfigureSnoc(c, calls, ResetAll);
    Extensionality(Apply(Configure(c, calls), ResetAll), Default);
  }

  /** The eleven defaults are library resources, pairwise distinct: ten colours and the pulse animation. */
  lemma DefaultsAreDistinctLibraryResources()
    ensures forall f, g :: f != g ==> Get(Default, f) != Get(Default, g)
    ensures forall f :: f != CustomAnimRes ==> Get(Default, f).Color?
    ensures Get(Default, CustomAnimRes) == Anim(Pulse)
  {
  }

  /** A setter followed by its getter returns the value set, even one such as -1. */
  lemma SetterThenGetter(c: Configuration, v: int)
    ensures Apply(c, SetWarningBackgroundColor(Other(v))).warningBackgroundToastColor == Other(v)
    ensures Apply(c, SetSuccessColor(Color(Black))).successToastColor == Color(Black)
    ensures Apply(c, SetErrorBackgroundColor(Color(Black))).errorBackgroundToastColor == Color(Black)
    ensures Apply(c, SetCustomAnimation(Anim(FadeIn))).customAnimRes == Anim(FadeIn)
  {
  }
}
