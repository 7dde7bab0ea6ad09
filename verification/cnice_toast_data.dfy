/**
 The Compose library's toast descriptor and its single-slot state holder.
 `show` builds a descriptor with a fresh identity and installs it, whatever
 the slot held; `dismiss` empties the slot. The random UUID of a descriptor
 is drawn here from a counter the state carries, which yields the property
 the library relies on: no identity is ever issued twice.
 */
module CNiceToastData {
  import opened Common
  import opened CNiceToastConfiguration

  /** The identity of a descriptor (`UUID.randomUUID().toString()` in the library). */
  type Id = nat

  /** `CNiceToastData`: one toast's content, timing and placement. */
  datatype ToastData = ToastData(
    id: Id,
    message: string,
    title: Option<string>,
    toastType: CNiceToastType,
    duration: int,
    isDarkMode: bool,
    isFullBackground: bool,
    position: CNiceToastPosition)

  /** The arguments of one `show` call. */
  datatype ShowArgs = ShowArgs(
    message: string,
    title: Option<string>,
    toastType: CNiceToastType,
    duration: int,
    isDarkMode: bool,
    isFullBackground: bool,
    position: CNiceToastPosition)

  /** `currentToastData`: empty (`null`) or one visible descriptor. */
  datatype Slot = Empty | Visible(data: ToastData) {
    /** The identity the host keys its countdown on, `currentToastData?.id`. */
    function Key(): (k: Option<Id>)
      ensures k.Some? <==> Visible?
      ensures k.Some? ==> k.value == data.id
    {
      match this
      case Empty => None
      case Visible(d) => Some(d.id)
    }
  }

  /** The state holder: the slot, and the next identity the generator hands out. */
  datatype ToastState = ToastState(slot: Slot, nextId: Id)

  /** A freshly created `CNiceToastState`: nothing shown, no identity issued yet. */
  const Initial := ToastState(Empty, 0)

  /** Every identity in use was issued, so it lies below `nextId`. */
  predicate Valid(s: ToastState) {
    s.slot.Visible? ==> s.slot.data.id < s.nextId
  }

  /** `show(message)` with every optional argument left at its default. */
  function DefaultArgs(message: string): (a: ShowArgs)
    ensures a.message == message && a.title.None?
  {
    ShowArgs(message, None, Success, 4000, false, false, Bottom)
  }

  /**
   `show(...)`: the slot holds a descriptor carrying exactly the arguments and
   an identity never issued before, whatever was shown until now.
   */
  function Show(s: ToastState, a: ShowArgs): (r: ToastState)
    ensures Valid(r)
    ensures r.slot.Visible?
    ensures var d := r.slot.data;
      && d.message == a.message && d.title == a.title && d.toastType == a.toastType
      && d.duration == a.duration && d.isDarkMode == a.isDarkMode
      && d.isFullBackground == a.isFullBackground && d.position == a.position
    ensures s.nextId <= r.slot.data.id < r.nextId
    ensures Valid(s) && s.slot.Visible? ==> r.slot.data.id != s.slot.data.id
  {
    var d := ToastData(s.nextId, a.message, a.title, a.toastType, a.duration, a.isDarkMode, a.isFullBackground, a.position);
    ToastState(Visible(d), s.nextId + 1)
  }

  /** `dismiss()`: the slot is empty afterwards, whatever it held; no identity is consumed. */
  function Dismiss(s: ToastState): (r: ToastState)
    ensures r.slot == Empty && r.nextId == s.nextId
    ensures Valid(r)
  {
    s.(slot := Empty)
  }

  /** `dismiss()` is idempotent, also on an empty slot. */
  lemma DismissIdempotent(s: ToastState)
    ensures Dismiss(Dismiss(s)) == Dismiss(s)
    ensures s.slot.Empty? ==> Dismiss(s) == s
  {
  }

  /** The defaults of `show`: SUCCESS, 4000ms, light, side bar, at the bottom, no title. */
  lemma ShowDefaults(s: ToastState, message: string)
    ensures var d := Show(s, DefaultArgs(message)).slot.data;
      && d.message == message && d.title == None && d.toastType == Success && d.duration == 4000
      && !d.isDarkMode && !d.isFullBackground && d.position == Bottom
  {
  }

  /** There is no queue: after `show(a)` and `show(b)` the slot holds `b`'s descriptor, whatever `a` and `b` are. */
  lemma ShowReplaces(s: ToastState, a: ShowArgs, b: ShowArgs)
    ensures var s1 := Show(s, a);
      var s2 := Show(s1, b);
      && s2.slot.data.message == b.message && s2.slot.data.toastType == b.toastType
      && s2.slot.data.duration == b.duration && s2.slot.data.position == b.position
      && s2.slot.data.id != s1.slot.data.id
  {
  }

  /** Showing the same arguments twice gives two descriptors that differ in identity only. */
  lemma IdenticalContentFreshIdentity(s: ToastState, a: ShowArgs)
    ensures var d1 := Show(s, a).slot.data;
      var d2 := Show(Show(s, a), a).slot.data;
      d1 != d2 && d1.(id := d2.id) == d2
  {
  }
}
