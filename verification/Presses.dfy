/** How the daemon turns the remote's input events into key presses: a scan code, a time stamp, and a
    dispatch with its mode. Times are in microseconds in a signed integer of some width, which wraps. */
module Presses {

  const EV_KEY := 1
  const EV_MSC := 4
  const KEY_HOLD_THRESHOLD_US := 500_000

  datatype Event = Event(typ: nat, value: int, sec: int, usec: int)

  datatype Dispatch = Dispatch(keycode: int, long: bool)

  /** The scan code and the time of the press in hand; zero means none. */
  datatype Press = Press(keycode: int, usec: int)

  const IDLE := Press(0, 0)

  /** The widths at hand: a signed integer takes `size` values, half of them negative, and a second fits. */
  predicate IsRange(size: int) {
    size % 2 == 0 && size > 4 * KEY_HOLD_THRESHOLD_US
  }

  /** `n` in a signed integer that takes `size` values. */
  function Wrap(n: int, size: int): (w: int)
    requires IsRange(size)
  {
    (n + size / 2) % size - size / 2
  }

  function Micros(e: Event, size: int): (t: int)
    requires IsRange(size)
  {
    Wrap(e.sec * 1_000_000 + e.usec, size)
  }

  datatype Outcome = Outcome(press: Press, log: seq<Dispatch>)

  /** The effect of one event on the press in hand, and what it dispatches. */
  function Step(p: Press, e: Event, size: int): (o: Outcome)
    requires IsRange(size)
  {
    if e.typ == EV_MSC then
      if p.keycode == 0 then Outcome(p.(keycode := e.value), [])
      else if e.value != p.keycode then Outcome(IDLE, [])
      else Outcome(p, [])
    else if e.typ != EV_KEY || p.keycode == 0 then Outcome(p, [])
    else if p.usec == 0 && e.value == 1 then Outcome(p.(usec := Micros(e, size)), [])
    else if p.usec == 0 && e.value != 0 then Outcome(p, [])
    else Outcome(IDLE, [Dispatch(p.keycode, Wrap(Micros(e, size) - p.usec, size) >= KEY_HOLD_THRESHOLD_US)])
  }

  /** What reaches the machine: an event, or a round of the loop without a device. */
  datatype Input = Read(event: Event) | Detached

  function StepInput(p: Press, i: Input, size: int): (o: Outcome)
    requires IsRange(size)
  {
    match i
    case Read(e) => Step(p, e, size)
    case Detached => Outcome(IDLE, [])
  }

  function Run(p: Press, inputs: seq<Input>, size: int): (o: Outcome)
    requires IsRange(size)
  {
    if inputs == [] then Outcome(p, [])
    else
      var before := Run(p, inputs[..|inputs| - 1], size);
      var last := StepInput(before.press, inputs[|inputs| - 1], size);
      Outcome(last.press, before.log + last.log)
  }

  /** The variables of the main loop, and the dispatches so far. */
  class Tracker {
    var pressKeycode: int
    var pressUsec: int
    var log: seq<Dispatch>
    const size: int

    ghost predicate Valid()
      reads this
    {
      IsRange(size) && (pressUsec != 0 ==> pressKeycode != 0)
    }

    ghost function InHand(): (p: Press)
      reads this
    {
      Press(pressKeycode, pressUsec)
    }

    constructor (size: int)
      requires IsRange(size)
      ensures Valid() && InHand() == IDLE && log == [] && this.size == size
    {
      pressKeycode, pressUsec, log, this.size := 0, 0, [], size;
    }

    method Reset()
      modifies this`pressKeycode, this`pressUsec
      ensures InHand() == IDLE
    {
      if pressKeycode != 0 {
        pressKeycode := 0;
      }
      if pressUsec != 0 {
        pressUsec := 0;
      }
    }

    method Handle(event: Event)
      requires Valid()
      modifies this
      ensures Valid()
      ensures InHand() == Step(old(InHand()), event, size).press
      ensures log == old(log) + Step(old(InHand()), event, size).log
    {
      if event.typ == EV_MSC {
        if pressKeycode == 0 {
          pressKeycode := event.value;
        } else if event.value != pressKeycode {
          pressKeycode := 0;
          pressUsec := 0;
          return;
        }
      }
      if pressKeycode == 0 {
        return;
      }
      if event.typ != EV_KEY {
        return;
      }
      if pressUsec == 0 {
        if event.value == 1 {
          pressUsec := Wrap(event.sec * 1_000_000 + event.usec, size);
          return;
        }
        if event.value != 0 {
          return;
        }
      }
      var duration := Wrap(Wrap(event.sec * 1_000_000 + event.usec, size) - pressUsec, size);
      var long := !(duration < KEY_HOLD_THRESHOLD_US);
      log := log + [Dispatch(pressKeycode, long)];
      pressKeycode := 0;
      pressUsec := 0;
    }
  }

  // ----- every stream of events

  /** A stamp is only ever set on a scan code. */
  lemma {:induction false} StampHasKeycode(inputs: seq<Input>, size: int)
    requires IsRange(size)
    ensures var p := Run(IDLE, inputs, size).press; p.usec != 0 ==> p.keycode != 0
  {
    if inputs != [] {
      StampHasKeycode(inputs[..|inputs| - 1], size);
    }
  }

  function Scans(inputs: seq<Input>): (n: nat) {
    if inputs == [] then 0
    else Scans(inputs[..|inputs| - 1]) + if IsScan(inputs[|inputs| - 1]) then 1 else 0
  }

  predicate IsScan(i: Input) {
    i.Read? && i.event.typ == EV_MSC
  }

  /** Each dispatch uses up a scan event of its own. */
  lemma {:induction false} NoMoreDispatchesThanScans(inputs: seq<Input>, size: int)
    requires IsRange(size)
    ensures var o := Run(IDLE, inputs, size);
      |o.log| + (if o.press.keycode != 0 then 1 else 0) <= Scans(inputs)
  {
    if inputs != [] {
      NoMoreDispatchesThanScans(inputs[..|inputs| - 1], size);
    }
  }

  /** Whether input `k` dispatches. */
  predicate DispatchesAt(inputs: seq<Input>, k: nat, size: int)
    requires IsRange(size) && k < |inputs|
  {
    StepInput(Run(IDLE, inputs[..k], size).press, inputs[k], size).log != []
  }

  /** Input `j` is a scan of `code`, and since then, before input `n`, nothing has reset it: no other scan
      code, no detachment, no dispatch. */
  ghost predicate ScannedAt(inputs: seq<Input>, j: nat, n: nat, code: int, size: int)
    requires IsRange(size) && n <= |inputs|
  {
    && j < n && IsScan(inputs[j]) && inputs[j].event.value == code
    && forall k | j < k < n ::
      inputs[k].Read? && (IsScan(inputs[k]) ==> inputs[k].event.value == code) && !DispatchesAt(inputs, k, size)
  }

  lemma {:induction false} KeycodeWasScanned(inputs: seq<Input>, n: nat, size: int) returns (j: nat)
    requires IsRange(size) && n <= |inputs| && Run(IDLE, inputs[..n], size).press.keycode != 0
    ensures ScannedAt(inputs, j, n, Run(IDLE, inputs[..n], size).press.keycode, size)
  {
    assert n > 0;
    assert inputs[..n][..n - 1] == inputs[..n - 1];
    if Run(IDLE, inputs[..n - 1], size).press.keycode == 0 {
      j := n - 1;
    } else {
      j := KeycodeWasScanned(inputs, n - 1, size);
    }
  }

  /** Whatever the stream, a dispatched scan code was scanned after the last reset, and nothing else since. */
  lemma DispatchWasScanned(inputs: seq<Input>, n: nat, size: int) returns (j: nat)
    requires IsRange(size) && n < |inputs| && DispatchesAt(inputs, n, size)
    ensures ScannedAt(inputs, j, n, StepInput(Run(IDLE, inputs[..n], size).press, inputs[n], size).log[0].keycode, size)
  {
    j := KeycodeWasScanned(inputs, n, size);
  }

  // ----- presses one after the other

  /** One press: its scan code reported, once or more, the key down, perhaps the scan code again, the key up. */
  datatype Stroke = Stroke(code: int, scans: seq<Event>, down: Event, more: seq<Event>, up: Event)

  predicate AllScans(es: seq<Event>, code: int) {
    forall e | e in es :: e.typ == EV_MSC && e.value == code
  }

  predicate IsStroke(s: Stroke) {
    && s.code != 0
    && s.scans != [] && AllScans(s.scans, s.code) && AllScans(s.more, s.code)
    && s.down.typ == EV_KEY && s.down.value == 1
    && s.up.typ == EV_KEY && s.up.value == 0
  }

  function EventsOf(s: Stroke): (es: seq<Event>) {
    s.scans + ([s.down] + (s.more + [s.up]))
  }

  function AllEvents(strokes: seq<Stroke>): (es: seq<Event>) {
    if strokes == [] then [] else AllEvents(strokes[..|strokes| - 1]) + EventsOf(strokes[|strokes| - 1])
  }

  /** What a press should dispatch. */
  function Meant(s: Stroke, size: int): (d: Dispatch)
    requires IsRange(size)
  {
    Dispatch(s.code, Wrap(TimeOf(s.up) - TimeOf(s.down), size) >= KEY_HOLD_THRESHOLD_US)
  }

  function TimeOf(e: Event): (n: int) {
    e.sec * 1_000_000 + e.usec
  }

  function AllMeant(strokes: seq<Stroke>, size: int): (ds: seq<Dispatch>)
    requires IsRange(size)
    ensures |ds| == |strokes| && forall i | 0 <= i < |strokes| :: ds[i] == Meant(strokes[i], size)
  {
    seq(|strokes|, i requires 0 <= i < |strokes| => Meant(strokes[i], size))
  }

  /** The events that are neither scans nor keys say nothing. */
  function Signals(es: seq<Event>): (r: seq<Event>) {
    if es == [] then []
    else
      var last := es[|es| - 1];
      Signals(es[..|es| - 1]) + if last.typ == EV_MSC || last.typ == EV_KEY then [last] else []
  }

  function Reads(es: seq<Event>): (inputs: seq<Input>) {
    seq(|es|, i requires 0 <= i < |es| => Read(es[i]))
  }

  lemma {:induction false} RunAppend(p: Press, a: seq<Input>, b: seq<Input>, size: int)
    requires IsRange(size)
    ensures var x := Run(p, a, size);
      var y := Run(x.press, b, size);
      Run(p, a + b, size) == Outcome(y.press, x.log + y.log)
  {
    if b == [] {
      assert a + b == a;
    } else {
      hide StepInput;
      RunAppend(p, a, b[..|b| - 1], size);
      assert (a + b)[..|a + b| - 1] == a + b[..|b| - 1];
    }
  }

  /** A run that goes on with one more input, or none. */
  lemma RunMore(p: Press, inputs: seq<Input>, more: seq<Input>, size: int)
    requires IsRange(size) && |more| <= 1
    ensures var o := Run(p, inputs, size);
      Run(p, inputs + more, size) ==
        if more == [] then o
        else Outcome(StepInput(o.press, more[0], size).press, o.log + StepInput(o.press, more[0], size).log)
  {
    if more == [] {
      assert inputs + more == inputs;
    } else {
      assert (inputs + more)[..|inputs|] == inputs;
    }
  }

  lemma RunOne(p: Press, e: Event, size: int)
    requires IsRange(size)
    ensures Run(p, Reads([e]), size) == Step(p, e, size)
  {
    assert Reads([e]) == [Read(e)];
    assert [Read(e)][..0] == [];
  }

  lemma RunTwoParts(p: Press, a: seq<Event>, b: seq<Event>, size: int)
    requires IsRange(size)
    ensures var x := Run(p, Reads(a), size);
      var y := Run(x.press, Reads(b), size);
      Run(p, Reads(a + b), size) == Outcome(y.press, x.log + y.log)
  {
    RunAppend(p, Reads(a), Reads(b), size);
    assert Reads(a + b) == Reads(a) + Reads(b);
  }

  lemma {:induction false} NoiseIsIgnored(p: Press, es: seq<Event>, size: int)
    requires IsRange(size)
    ensures Run(p, Reads(es), size) == Run(p, Reads(Signals(es)), size)
  {
    if es != [] {
      var before, last := es[..|es| - 1], es[|es| - 1];
      assert es == before + [last];
      NoiseIsIgnored(p, before, size);
      RunTwoParts(p, before, [last], size);
      RunOne(Run(p, Reads(before), size).press, last, size);
      if last.typ == EV_MSC || last.typ == EV_KEY {
        RunTwoParts(p, Signals(before), [last], size);
      } else {
        assert Signals(es) == Signals(before);
      }
    }
  }

  lemma {:induction false} RunScans(p: Press, es: seq<Event>, code: int, size: int)
    requires IsRange(size) && AllScans(es, code) && code != 0 && (p.keycode == code || p.keycode == 0)
    ensures Run(p, Reads(es), size) == Outcome(if es == [] then p else p.(keycode := code), [])
  {
    if es != [] {
      var before, last := es[..|es| - 1], es[|es| - 1];
      assert es == before + [last];
      RunScans(p, before, code, size);
      RunTwoParts(p, before, [last], size);
      RunOne(Run(p, Reads(before), size).press, last, size);
    }
  }

  lemma RunStroke(s: Stroke, size: int)
    requires IsRange(size) && IsStroke(s)
    ensures Run(IDLE, Reads(EventsOf(s)), size) == Outcome(IDLE, [Meant(s, size)])
  {
    hide Run, Wrap, Reads;
    var c := s.more + [s.up];
    var b := [s.down] + c;
    RunTwoParts(IDLE, s.scans, b, size);
    RunScans(IDLE, s.scans, s.code, size);
    var held := Press(s.code, 0);
    RunTwoParts(held, [s.down], c, size);
    RunOne(held, s.down, size);
    var down := Press(s.code, Micros(s.down, size));
    RunTwoParts(down, s.more, [s.up], size);
    RunScans(down, s.more, s.code, size);
    RunOne(down, s.up, size);
    WrapDifference(TimeOf(s.up), TimeOf(s.down), size);
  }

  lemma WrapIsCongruent(n: int, size: int) returns (k: int)
    requires IsRange(size)
    ensures Wrap(n, size) == n + k * size
  {
    k := -((n + size / 2) / size);
  }

  lemma SameWrap(a: int, b: int, k: int, size: int)
    requires IsRange(size) && a == b + k * size
    ensures Wrap(a, size) == Wrap(b, size)
  {
    var x, y := a + size / 2, b + size / 2;
    ModShift(x, y, k, size);
  }

  lemma ModShift(x: int, y: int, k: int, size: int)
    requires size > 0 && x == y + k * size
    ensures x % size == y % size
  {
    var q := y / size + k;
    assert x == (y / size) * size + y % size + k * size == q * size + y % size;
    ModUnique(x, q, y % size, size);
  }

  lemma ModUnique(x: int, q: int, r: int, size: int)
    requires size > 0 && 0 <= r < size && x == q * size + r
    ensures x % size == r
  {
    var d := x / size - q;
    assert x % size == r - d * size;
    Multiple(d, size);
  }

  lemma Multiple(d: int, size: int)
    requires size > 0
    ensures d >= 1 ==> d * size >= size
    ensures d <= -1 ==> d * size <= -size
  {
  }

  /** The difference of two wrapped times is the wrapped difference of the times. */
  lemma WrapDifference(a: int, b: int, size: int)
    requires IsRange(size)
    ensures Wrap(Wrap(a, size) - Wrap(b, size), size) == Wrap(a - b, size)
  {
    var k := WrapIsCongruent(a, size);
    var j := WrapIsCongruent(b, size);
    assert Wrap(a, size) - Wrap(b, size) == a - b + (k - j) * size;
    SameWrap(Wrap(a, size) - Wrap(b, size), a - b, k - j, size);
  }

  lemma AllMeantMore(strokes: seq<Stroke>, size: int)
    requires IsRange(size) && strokes != []
    ensures var last := |strokes| - 1;
      AllMeant(strokes, size) == AllMeant(strokes[..last], size) + [Meant(strokes[last], size)]
  {
  }

  lemma {:induction false} RunStrokes(strokes: seq<Stroke>, size: int)
    requires IsRange(size) && forall s | s in strokes :: IsStroke(s)
    ensures Run(IDLE, Reads(AllEvents(strokes)), size) == Outcome(IDLE, AllMeant(strokes, size))
  {
    if strokes != [] {
      var before, last := strokes[..|strokes| - 1], strokes[|strokes| - 1];
      AllMeantMore(strokes, size);
      assert AllEvents(strokes) == AllEvents(before) + EventsOf(last);
      hide Run, Reads, IsStroke, EventsOf, Meant, AllEvents, AllMeant, IsRange;
      RunStrokes(before, size);
      RunTwoParts(IDLE, AllEvents(before), EventsOf(last), size);
      RunStroke(last, size);
    }
  }

  /** Presses that do not overlap, with events of other types anywhere in between, are dispatched exactly, in
      order, each with the mode of its own duration. */
  lemma PressesAreDispatched(es: seq<Event>, strokes: seq<Stroke>, size: int)
    requires IsRange(size) && (forall s | s in strokes :: IsStroke(s)) && Signals(es) == AllEvents(strokes)
    ensures Run(IDLE, Reads(es), size) == Outcome(IDLE, AllMeant(strokes, size))
  {
    NoiseIsIgnored(IDLE, es, size);
    RunStrokes(strokes, size);
  }

  /** The mode is long exactly when the key was held for the threshold or more, if the width can say it. */
  lemma LongMeansHeld(s: Stroke, size: int)
    requires IsRange(size) && -(size / 2) <= TimeOf(s.up) - TimeOf(s.down) < size / 2
    ensures Meant(s, size).long <==> TimeOf(s.up) - TimeOf(s.down) >= 500_000
  {
    var d := TimeOf(s.up) - TimeOf(s.down);
    ModUnique(d + size / 2, 0, d + size / 2, size);
  }

  /** With the numbers of the event types written out: a scan, a key down and a key up dispatch one press. */
  lemma OnePress(scan: Event, down: Event, up: Event, size: int)
    requires IsRange(size) && scan.typ == 4 && scan.value != 0
    requires down.typ == 1 && down.value == 1 && up.typ == 1 && up.value == 0
    ensures Run(IDLE, [Read(scan), Read(down), Read(up)], size)
         == Outcome(IDLE, [Dispatch(scan.value, Wrap(TimeOf(up) - TimeOf(down), size) >= 500_000)])
  {
    var s := Stroke(scan.value, [scan], down, [], up);
    assert Reads(EventsOf(s)) == [Read(scan), Read(down), Read(up)];
    hide Run, Wrap, Reads;
    RunStroke(s, size);
  }

  // ----- what ends a press without a dispatch

  /** Without a scan code in hand, events that are no scans do nothing. */
  lemma {:induction false} NothingInHand(es: seq<Event>, size: int)
    requires IsRange(size) && forall e | e in es :: e.typ != 4
    ensures Run(IDLE, Reads(es), size) == Outcome(IDLE, [])
  {
    if es != [] {
      var before, last := es[..|es| - 1], es[|es| - 1];
      assert es == before + [last];
      NothingInHand(before, size);
      RunTwoParts(IDLE, before, [last], size);
      RunOne(IDLE, last, size);
    }
  }

  /** On every stream with a scan code in hand, stamped or not, a scan of another code drops the press, and until
      the next scan no event dispatches anything. */
  lemma OtherScanDrops(inputs: seq<Input>, scan: Event, quiet: seq<Event>, size: int)
    requires IsRange(size) && Run(IDLE, inputs, size).press.keycode != 0
    requires scan.typ == 4 && scan.value != Run(IDLE, inputs, size).press.keycode
    requires forall e | e in quiet :: e.typ != 4
    ensures Run(IDLE, inputs + Reads([scan] + quiet), size) == Outcome(IDLE, Run(IDLE, inputs, size).log)
  {
    var o := Run(IDLE, inputs, size);
    RunAppend(IDLE, inputs, Reads([scan] + quiet), size);
    RunTwoParts(o.press, [scan], quiet, size);
    RunOne(o.press, scan, size);
    NothingInHand(quiet, size);
    assert Step(o.press, scan, size) == Outcome(IDLE, []);
    hide Run, Reads, Step;
  }

  /** So does a round without a device. */
  lemma DetachmentDrops(inputs: seq<Input>, quiet: seq<Event>, size: int)
    requires IsRange(size) && forall e | e in quiet :: e.typ != 4
    ensures Run(IDLE, inputs + ([Detached] + Reads(quiet)), size) == Outcome(IDLE, Run(IDLE, inputs, size).log)
  {
    var o := Run(IDLE, inputs, size);
    RunAppend(IDLE, inputs, [Detached] + Reads(quiet), size);
    RunAppend(o.press, [Detached], Reads(quiet), size);
    assert Run(o.press, [Detached], size) == Outcome(IDLE, []) by {
      RunMore(o.press, [], [Detached], size);
      assert [] + [Detached] == [Detached];
    }
    NothingInHand(quiet, size);
    hide Run, Reads;
  }

  /** Key events other than down and up, and events of other types, do nothing to a scan code without a stamp. */
  lemma {:induction false} WaitsForKey(es: seq<Event>, code: int, size: int)
    requires IsRange(size) && code != 0
    requires forall e | e in es :: e.typ != 4 && (e.typ == 1 ==> e.value != 0 && e.value != 1)
    ensures Run(Press(code, 0), Reads(es), size) == Outcome(Press(code, 0), [])
  {
    if es != [] {
      var before, last := es[..|es| - 1], es[|es| - 1];
      assert es == before + [last];
      WaitsForKey(before, code, size);
      RunTwoParts(Press(code, 0), before, [last], size);
      RunOne(Press(code, 0), last, size);
    }
  }

  /** A key up that no key down came before dispatches the scanned code all the same, with the time of day, wrapped,
      for its duration. */
  lemma KeyUpAlone(scans: seq<Event>, code: int, others: seq<Event>, up: Event, size: int)
    requires IsRange(size) && code != 0 && scans != [] && AllScans(scans, code)
    requires forall e | e in others :: e.typ != 4 && (e.typ == 1 ==> e.value != 0 && e.value != 1)
    requires up.typ == 1 && up.value == 0
    ensures Run(IDLE, Reads(scans + (others + [up])), size)
         == Outcome(IDLE, [Dispatch(code, Wrap(TimeOf(up), size) >= 500_000)])
  {
    hide Run, Reads, Wrap, Step;
    RunTwoParts(IDLE, scans, others + [up], size);
    RunScans(IDLE, scans, code, size);
    RunTwoParts(Press(code, 0), others, [up], size);
    WaitsForKey(others, code, size);
    RunOne(Press(code, 0), up, size);
    UpWithoutStamp(up, code, size);
  }

  lemma UpWithoutStamp(up: Event, code: int, size: int)
    requires IsRange(size) && code != 0 && up.typ == 1 && up.value == 0
    ensures Step(Press(code, 0), up, size) == Outcome(IDLE, [Dispatch(code, Wrap(TimeOf(up), size) >= 500_000)])
  {
    WrapDifference(TimeOf(up), 0, size);
    WrapOfZero(size);
    hide Wrap;
  }

  lemma WrapOfZero(size: int)
    requires IsRange(size)
    ensures Wrap(0, size) == 0
  {
    ModUnique(size / 2, 0, size / 2, size);
  }

  // ----- presses with more key events in between

  /** Events that can come while a key is down: its own scan code, and key events of any value. */
  predicate AllHeld(es: seq<Event>, code: int) {
    forall e | e in es :: (e.typ == EV_MSC && e.value == code) || e.typ == EV_KEY
  }

  /** A press like a stroke, except that other key events, such as automatic repeats, may come before its key up. */
  predicate IsHeld(s: Stroke) {
    && s.code != 0
    && s.scans != [] && AllScans(s.scans, s.code) && AllHeld(s.more, s.code)
    && s.down.typ == EV_KEY && s.down.value == 1
    && s.up.typ == EV_KEY && s.up.value == 0
  }

  /** Where the first key event is; the length if there is none. */
  function FirstKey(es: seq<Event>): (i: nat)
    ensures i <= |es| && (forall j | 0 <= j < i :: es[j].typ != EV_KEY) && (i < |es| ==> es[i].typ == EV_KEY)
  {
    if es == [] || es[0].typ == EV_KEY then 0 else 1 + FirstKey(es[1..])
  }

  predicate HasScan(es: seq<Event>) {
    exists e :: e in es && e.typ == EV_MSC
  }

  /** The mode of a key event at `e` in a press stamped by its key down. */
  predicate LongAt(s: Stroke, e: Event, size: int)
    requires IsRange(size)
  {
    Wrap(TimeOf(e) - TimeOf(s.down), size) >= KEY_HOLD_THRESHOLD_US
  }

  /** The key down stamps the scan code, and more scans of it change nothing. */
  lemma RunDown(s: Stroke, more: seq<Event>, size: int)
    requires IsRange(size) && IsHeld(s) && AllScans(more, s.code)
    ensures Run(IDLE, Reads(s.scans + ([s.down] + more)), size) == Outcome(Press(s.code, Micros(s.down, size)), [])
  {
    hide Run, Wrap, Reads;
    RunTwoParts(IDLE, s.scans, [s.down] + more, size);
    RunScans(IDLE, s.scans, s.code, size);
    var held := Press(s.code, 0);
    RunTwoParts(held, [s.down], more, size);
    RunOne(held, s.down, size);
    RunScans(Press(s.code, Micros(s.down, size)), more, s.code, size);
  }

  /** Any key event ends a stamped press. */
  lemma KeyEnds(s: Stroke, e: Event, size: int)
    requires IsRange(size) && s.code != 0 && Micros(s.down, size) != 0 && e.typ == EV_KEY
    ensures Step(Press(s.code, Micros(s.down, size)), e, size) == Outcome(IDLE, [Dispatch(s.code, LongAt(s, e, size))])
  {
    WrapDifference(TimeOf(e), TimeOf(s.down), size);
    hide Wrap;
  }

  /** Once the code is scanned, it stays in hand until something is dispatched. */
  lemma {:induction false} ScanArms(es: seq<Event>, code: int, size: int)
    requires IsRange(size) && code != 0 && AllHeld(es, code)
    ensures var o := Run(IDLE, Reads(es), size);
      && (o.press.keycode == 0 || o.press.keycode == code)
      && (HasScan(es) ==> o.press.keycode == code || o.log != [])
  {
    if es != [] {
      var before, last := es[..|es| - 1], es[|es| - 1];
      assert es == before + [last];
      ScanArms(before, code, size);
      RunTwoParts(IDLE, before, [last], size);
      RunOne(Run(IDLE, Reads(before), size).press, last, size);
      assert HasScan(es) ==> last.typ == EV_MSC || HasScan(before);
    }
  }

  /** After the code is scanned, the key up dispatches if nothing has. */
  lemma ReleaseAfterScan(es: seq<Event>, up: Event, code: int, size: int)
    requires IsRange(size) && code != 0 && AllHeld(es, code) && HasScan(es) && up.typ == EV_KEY && up.value == 0
    ensures Run(IDLE, Reads(es + [up]), size).log != []
  {
    ScanArms(es, code, size);
    RunTwoParts(IDLE, es, [up], size);
    RunOne(Run(IDLE, Reads(es), size).press, up, size);
  }

  /** A press cut at its first key event `e`: that event dispatches, and the rest runs from scratch. */
  lemma RunCut(s: Stroke, a: seq<Event>, e: Event, b: seq<Event>, size: int)
    requires IsRange(size) && IsHeld(s) && Micros(s.down, size) != 0
    requires AllScans(a, s.code) && e.typ == EV_KEY && s.more == a + ([e] + b)
    ensures var rest := Run(IDLE, Reads(b + [s.up]), size);
      Run(IDLE, Reads(EventsOf(s)), size) == Outcome(rest.press, [Dispatch(s.code, LongAt(s, e, size))] + rest.log)
  {
    var head, rest := s.scans + ([s.down] + a), b + [s.up];
    assert EventsOf(s) == head + ([e] + rest);
    hide Run, Wrap, Reads, Step, EventsOf, IsRange, LongAt, Micros, AllHeld, AllScans;
    RunDown(s, a, size);
    RunTwoParts(IDLE, head, [e] + rest, size);
    var down := Press(s.code, Micros(s.down, size));
    RunTwoParts(down, [e], rest, size);
    RunOne(down, e, size);
    KeyEnds(s, e, size);
  }

  /** The parts of what comes while the key is down, around its first key event. */
  lemma CutAtKey(s: Stroke) returns (a: seq<Event>, b: seq<Event>)
    requires IsHeld(s) && FirstKey(s.more) < |s.more|
    ensures var i := FirstKey(s.more);
      a == s.more[..i] && b == s.more[i + 1..] && s.more == a + ([s.more[i]] + b)
    ensures AllScans(a, s.code) && AllHeld(b, s.code)
  {
    var i := FirstKey(s.more);
    a, b := s.more[..i], s.more[i + 1..];
    forall e | e in a
      ensures e.typ == EV_MSC && e.value == s.code
    {
      assert e in s.more;
    }
    forall e | e in b
      ensures (e.typ == EV_MSC && e.value == s.code) || e.typ == EV_KEY
    {
      assert e in s.more;
    }
  }

  lemma KeysOnly(b: seq<Event>, s: Stroke, size: int)
    requires IsHeld(s) && AllHeld(b, s.code) && !HasScan(b)
    ensures forall e | e in b + [s.up] :: e.typ == EV_KEY
  {
  }

  /** A second key event, such as an automatic repeat, ends a stamped press there and then, with the mode of
      the time so far; if no scan of the code follows, the other key events and the key up dispatch nothing. */
  lemma RepeatEndsThePress(s: Stroke, size: int)
    requires IsRange(size) && IsHeld(s) && Micros(s.down, size) != 0
    requires var i := FirstKey(s.more); i < |s.more| && !HasScan(s.more[i + 1..])
    ensures Run(IDLE, Reads(EventsOf(s)), size)
         == Outcome(IDLE, [Dispatch(s.code, LongAt(s, s.more[FirstKey(s.more)], size))])
  {
    var e := s.more[FirstKey(s.more)];
    var a, b := CutAtKey(s);
    hide Run, Reads, Step, EventsOf, LongAt, Micros, FirstKey;
    RunCut(s, a, e, b, size);
    KeysOnly(b, s, size);
    NothingInHand(b + [s.up], size);
  }

  /** If the code is scanned again after that, the press dispatches at least twice. */
  lemma ScanAfterRepeatDispatchesAgain(s: Stroke, size: int)
    requires IsRange(size) && IsHeld(s) && Micros(s.down, size) != 0
    requires var i := FirstKey(s.more); i < |s.more| && HasScan(s.more[i + 1..])
    ensures var log := Run(IDLE, Reads(EventsOf(s)), size).log;
      |log| >= 2 && log[0] == Dispatch(s.code, LongAt(s, s.more[FirstKey(s.more)], size))
  {
    var e := s.more[FirstKey(s.more)];
    var a, b := CutAtKey(s);
    RunCut(s, a, e, b, size);
    hide Run, Wrap, Reads;
    ReleaseAfterScan(b, s.up, s.code, size);
  }

  lemma WithoutKeyIsStroke(s: Stroke)
    requires IsHeld(s) && FirstKey(s.more) == |s.more|
    ensures IsStroke(s)
  {
    forall e | e in s.more
      ensures e.typ == EV_MSC && e.value == s.code
    {
    }
  }

  lemma MeantAtUp(s: Stroke, size: int)
    requires IsRange(size)
    ensures Meant(s, size) == Dispatch(s.code, LongAt(s, s.up, size))
  {
  }

  /** Whatever comes while the key is down, scans of its code, key events of any value, and events of other
      types anywhere, the press is dispatched as meant exactly when there is no other key event, or the first
      one gives the same mode as the key up and the code is not scanned after it. */
  lemma WhenDispatchedAsMeant(s: Stroke, es: seq<Event>, size: int)
    requires IsRange(size) && IsHeld(s) && Micros(s.down, size) != 0 && Signals(es) == EventsOf(s)
    ensures Run(IDLE, Reads(es), size) == Outcome(IDLE, [Meant(s, size)]) <==>
      var i := FirstKey(s.more);
      i == |s.more| || (LongAt(s, s.more[i], size) == LongAt(s, s.up, size) && !HasScan(s.more[i + 1..]))
  {
    NoiseIsIgnored(IDLE, es, size);
    MeantAtUp(s, size);
    hide Run, Wrap, Reads, Signals, EventsOf, TimeOf, Micros, Meant, LongAt, FirstKey, HasScan, IsHeld, IsRange;
    var i := FirstKey(s.more);
    if i == |s.more| {
      WithoutKeyIsStroke(s);
      RunStroke(s, size);
    } else if HasScan(s.more[i + 1..]) {
      ScanAfterRepeatDispatchesAgain(s, size);
    } else {
      RepeatEndsThePress(s, size);
    }
  }

  /** The smallest press that dispatches twice: after a repeat the code is scanned again before the key up. */
  lemma RepeatAndScanDispatchTwice(s: Stroke, rep: Event, scan: Event, size: int)
    requires IsRange(size) && IsStroke(s) && Micros(s.down, size) != 0 && s.more == []
    requires rep.typ == EV_KEY && scan.typ == EV_MSC && scan.value == s.code
    ensures |Run(IDLE, Reads(EventsOf(s.(more := [rep, scan]))), size).log| >= 2
  {
    hide Run, Wrap, Reads;
    var t := s.(more := [rep, scan]);
    assert t.more[1..] == [scan] && scan in t.more[1..];
    ScanAfterRepeatDispatchesAgain(t, size);
  }
}
