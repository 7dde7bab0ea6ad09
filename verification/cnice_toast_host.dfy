/**
 The Compose host's behaviour apart from rendering: the auto-dismiss
 countdown, keyed on the identity of the descriptor in the slot, and the
 mapping from position to alignment. Time is a clock the host carries; the
 countdown of a `LaunchedEffect` is cancelled whenever its key changes, and a
 new one is started for the new key when the slot holds a descriptor.
 */
module CNiceToastHost {
  import opened Common
  import opened CNiceToastConfiguration
  import opened CNiceToastData

  /** `Alignment.TopCenter`, `Alignment.Center`, `Alignment.BottomCenter`. */
  datatype Alignment = TopCenter | CenterAlignment | BottomCenter

  /** The box alignment for the current slot: bottom also when nothing is shown. */
  function AlignmentFor(slot: Slot): (a: Alignment)
    ensures a == TopCenter <==> slot.Visible? && slot.data.position == Top
    ensures a == CenterAlignment <==> slot.Visible? && slot.data.position == Center
  {
    match slot
    case Visible(d) =>
      (match d.position
       case Top => TopCenter
       case Center => CenterAlignment
       case Bottom => BottomCenter)
    case Empty => BottomCenter
  }

  /** A running `delay(duration)` of the effect keyed on `key`. */
  datatype Countdown = Countdown(key: Id, startedAt: int, length: int) {
    function Deadline(): int {
      startedAt + length
    }
  }

  /**
   The host: the state it observes, the key of its running effect, that
   effect's countdown if it has one, and the current time in milliseconds.
   */
  datatype Host = Host(state: ToastState, effectKey: Option<Id>, countdown: Option<Countdown>, now: int)

  /** A host composed over a fresh state at time zero: the effect keyed on `null` started nothing. */
  const InitialHost := Host(Initial, None, None, 0)

  /**
   The effect is keyed on the slot's identity, and a countdown runs exactly
   while a descriptor is shown: it belongs to that descriptor, lasts its
   duration, and started no later than now.
   */
  predicate HostValid(h: Host) {
    && Valid(h.state)
    && h.effectKey == h.state.slot.Key()
    && (h.countdown.Some? <==> h.state.slot.Visible?)
    && (h.countdown.Some? ==>
          && h.countdown.value.key == h.state.slot.data.id
          && h.countdown.value.length == h.state.slot.data.duration
          && h.countdown.value.startedAt <= h.now)
  }

  /**
   Recomposition: when `currentToastData?.id` differs from the effect's key,
   the old effect is cancelled and a new one starts, which counts down the
   descriptor's duration if there is one and does nothing otherwise.
   */
  function Recompose(h: Host): (r: Host)
    requires Valid(h.state)
    requires h.effectKey == h.state.slot.Key() ==> HostValid(h)
    ensures HostValid(r)
    ensures r.state == h.state && r.now == h.now
    ensures h.effectKey != h.state.slot.Key() && r.countdown.Some? ==> r.countdown.value.startedAt == h.now
  {
    var key := h.state.slot.Key();
    if h.effectKey == key then h
    else
      var countdown :=
        match h.state.slot
        case Visible(d) => Some(Countdown(d.id, h.now, d.duration))
        case Empty => None;
      h.(effectKey := key, countdown := countdown)
  }

  /** `hostState.show(...)` followed by recomposition: a new identity always restarts the countdown. */
  function OnShow(h: Host, a: ShowArgs): (r: Host)
    requires HostValid(h)
    ensures HostValid(r)
    ensures r.now == h.now && r.state == Show(h.state, a)
    ensures r.countdown.Some? && r.countdown.value.startedAt == h.now
  {
    Recompose(h.(state := Show(h.state, a)))
  }

  /** `hostState.dismiss()` followed by recomposition: empty slot, no countdown left. */
  function OnDismiss(h: Host): (r: Host)
    requires HostValid(h)
    ensures HostValid(r)
    ensures r.state.slot == Empty && r.countdown == None
    ensures r.now == h.now && r.state.nextId == h.state.nextId
  {
    Recompose(h.(state := Dismiss(h.state)))
  }

  /**
   Time passes by `dt` milliseconds; when the running countdown has reached
   its deadline, the effect calls `dismiss()`.
   */
  function Advance(h: Host, dt: nat): (r: Host)
    requires HostValid(h)
    ensures HostValid(r)
    ensures r.now == h.now + dt && r.state.nextId == h.state.nextId
  {
    var later := h.(now := h.now + dt);
    if later.countdown.Some? && later.countdown.value.Deadline() <= later.now then OnDismiss(later)
    else later
  }

  /**
   Only the countdown of the descriptor on show can clear the slot, and only
   once that descriptor's own duration has passed since it was shown; before
   that the slot is left as it is.
   */
  lemma AdvanceClearsAtOwnDeadline(h: Host, dt: nat)
    requires HostValid(h)
    ensures h.state.slot.Visible? ==>
      Advance(h, dt).state.slot
        == (if h.now + dt >= h.countdown.value.startedAt + h.state.slot.data.duration then Empty else h.state.slot)
    ensures h.state.slot.Empty? ==> Advance(h, dt).state.slot == Empty && Advance(h, dt).countdown == None
  {
  }

  /** `show(message = "m", type = ERROR, duration = 3000)` then 3000ms with no other call: the slot is empty. */
  lemma ShowThenTimeout(h: Host)
    requires HostValid(h)
    ensures var a := DefaultArgs("m").(toastType := Error, duration := 3000);
      && Advance(OnShow(h, a), 2999).state.slot.Visible?
      && Advance(OnShow(h, a), 3000).state.slot == Empty
  {
  }

  /**
   A superseded countdown never clears the slot: `show(a)`, then `show(b)`
   after `x` ms, then `y` more ms; once `a`'s duration has passed but `b`'s has
   not, `b`'s descriptor is still on show.
   */
  lemma SupersededCountdownDoesNotClear(h: Host, a: ShowArgs, b: ShowArgs, x: nat, y: nat)
    requires HostValid(h)
    requires x < a.duration <= x + y
    requires y < b.duration
    ensures var h1 := Advance(OnShow(h, a), x);
      var h2 := OnShow(h1, b);
      var h3 := Advance(h2, y);
      h3.state.slot == h2.state.slot && h3.state.slot.data.message == b.message
  {
  }

  /** After a manual `dismiss`, later time leaves the slot empty and starts nothing. */
  lemma DismissThenTimeoutIsNoOp(h: Host, dt: nat)
    requires HostValid(h)
    ensures var d := OnDismiss(h);
      Advance(d, dt).state.slot == Empty && Advance(d, dt).countdown == None
  {
  }

  /** What can happen to a host: a `show` call, a `dismiss` call, or time passing. */
  datatype Event = ShowEvent(args: ShowArgs) | DismissEvent | AdvanceEvent(dt: nat)

  function Step(h: Host, e: Event): (r: Host)
    requires HostValid(h)
    ensures HostValid(r)
    ensures r.state.nextId == (if e.ShowEvent? then h.state.nextId + 1 else h.state.nextId)
  {
    match e
    case ShowEvent(a) => OnShow(h, a)
    case DismissEvent => OnDismiss(h)
    case AdvanceEvent(dt) => Advance(h, dt)
  }

  /** The host after a run of events. */
  function Run(h: Host, events: seq<Event>): (r: Host)
    requires HostValid(h)
    ensures HostValid(r)
    ensures r.state.nextId >= h.state.nextId
    decreases |events|
  {
    if |events| == 0 then h else Run(Step(h, events[0]), events[1..])
  }

  /** The identities the `show` events of a run hand out, in order, when the generator stands at `start`. */
  function Issued(start: Id, events: seq<Event>): seq<Id>
    decreases |events|
  {
    if |events| == 0 then []
    else if events[0].ShowEvent? then [start] + Issued(start + 1, events[1..])
    else Issued(start, events[1..])
  }

  /** The identities a run hands out are consecutive, from where the generator stood. */
  lemma {:induction false} IssuedAreConsecutive(start: Id, events: seq<Event>)
    ensures forall i :: 0 <= i < |Issued(start, events)| ==> Issued(start, events)[i] == start + i
    decreases |events|
  {
    if |events| > 0 {
      if events[0].ShowEvent? {
        IssuedAreConsecutive(start + 1, events[1..]);
      } else {
        IssuedAreConsecutive(start, events[1..]);
      }
    }
  }

  /** After a run, the generator stands just past the last identity the run handed out. */
  lemma {:induction false} RunAdvancesGenerator(h: Host, events: seq<Event>)
    requires HostValid(h)
    ensures Run(h, events).state.nextId == h.state.nextId + |Issued(h.state.nextId, events)|
    decreases |events|
  {
    if |events| > 0 {
      RunAdvancesGenerator(Step(h, events[0]), events[1..]);
    }
  }

  /**
   Every identity a run hands out is new: no two are equal, all of them lie
   below the generator's position after the run, and so the next `show`
   hands out one different from all of them.
   */
  lemma IssuedIdsAreUnique(h: Host, events: seq<Event>, a: ShowArgs)
    requires HostValid(h)
    ensures var ids := Issued(h.state.nextId, events);
      && (forall i, j :: 0 <= i < j < |ids| ==> ids[i] != ids[j])
      && (forall i :: 0 <= i < |ids| ==> h.state.nextId <= ids[i] < Run(h, events).state.nextId)
      && OnShow(Run(h, events), a).state.slot.data.id !in ids
  {
    IssuedAreConsecutive(h.state.nextId, events);
    RunAdvancesGenerator(h, events);
  }

  /** Invariant of every reachable host: started from a fresh host, any run of events keeps it valid. */
  lemma ReachableHostsAreValid(events: seq<Event>)
    ensures HostValid(InitialHost)
    ensures HostValid(Run(InitialHost, events))
  {
  }
}
