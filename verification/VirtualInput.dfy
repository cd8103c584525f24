/**
  Held keys and buttons of the virtual devices in src/uinput.rs: what the devices have
  been told, against the sets the backend keeps.
*/
module VirtualInput {
  import opened Common

  const KEY_LEFTSHIFT: nat := 42

  datatype Event = Key(code: nat, down: bool) | Sync

  /** What a keysym or a character maps to. */
  datatype KeyMapping = KeyMapping(code: nat, shift: bool)

  /** The keys a device holds down after the events written to it. */
  function Held(log: seq<Event>): set<nat> {
    if log == [] then {}
    else
      var before, e := Held(log[..|log| - 1]), log[|log| - 1];
      if e.Sync? then before else if e.down then before + {e.code} else before - {e.code}
  }

  lemma HeldSnoc(log: seq<Event>, e: Event)
    ensures Held(log + [e]) == if e.Sync? then Held(log) else if e.down then Held(log) + {e.code} else Held(log) - {e.code}
  {
    assert (log + [e])[..|log|] == log;
  }

  /** One report of a key, with the shift a shifted symbol brings along. */
  function KeyEvents(m: KeyMapping, down: bool): seq<Event> {
    (if m.shift && down then [Key(KEY_LEFTSHIFT, true)] else []) + [Key(m.code, down)] +
    (if m.shift && !down then [Key(KEY_LEFTSHIFT, false)] else []) + [Sync]
  }

  lemma KeyEventsHeld(log: seq<Event>, m: KeyMapping, down: bool)
    ensures Held(log + KeyEvents(m, down)) ==
            var keys := if m.shift then {m.code, KEY_LEFTSHIFT} else {m.code};
            if down then Held(log) + keys else Held(log) - keys
  {
    hide Held;
    var shift := Key(KEY_LEFTSHIFT, down);
    if m.shift && down {
      HeldSnoc(log, shift);
      HeldSnoc(log + [shift], Key(m.code, down));
      HeldSnoc(log + [shift] + [Key(m.code, down)], Sync);
      assert log + KeyEvents(m, down) == log + [shift] + [Key(m.code, down)] + [Sync];
    } else if m.shift {
      HeldSnoc(log, Key(m.code, down));
      HeldSnoc(log + [Key(m.code, down)], shift);
      HeldSnoc(log + [Key(m.code, down)] + [shift], Sync);
      assert log + KeyEvents(m, down) == log + [Key(m.code, down)] + [shift] + [Sync];
    } else {
      HeldSnoc(log, Key(m.code, down));
      HeldSnoc(log + [Key(m.code, down)], Sync);
      assert log + KeyEvents(m, down) == log + [Key(m.code, down)] + [Sync];
    }
  }

  /** One typed character: pressed and released within one report. */
  function CharEvents(m: KeyMapping): seq<Event> {
    (if m.shift then [Key(KEY_LEFTSHIFT, true)] else []) + [Key(m.code, true), Key(m.code, false)] +
    (if m.shift then [Key(KEY_LEFTSHIFT, false)] else []) + [Sync]
  }

  function TextEvents(ms: seq<KeyMapping>): seq<Event> {
    if ms == [] then [] else TextEvents(ms[..|ms| - 1]) + CharEvents(ms[|ms| - 1])
  }

  function Touched(ms: seq<KeyMapping>): set<nat> {
    if ms == [] then {}
    else
      var m := ms[|ms| - 1];
      Touched(ms[..|ms| - 1]) + if m.shift then {m.code, KEY_LEFTSHIFT} else {m.code}
  }

  lemma CharEventsHeld(log: seq<Event>, m: KeyMapping)
    ensures Held(log + CharEvents(m)) == Held(log) - if m.shift then {m.code, KEY_LEFTSHIFT} else {m.code}
  {
    hide Held;
    var shift := Key(KEY_LEFTSHIFT, true);
    var start := if m.shift then log + [shift] else log;
    var struck := start + [Key(m.code, true)] + [Key(m.code, false)];
    HeldSnoc(log, shift);
    HeldSnoc(start, Key(m.code, true));
    HeldSnoc(start + [Key(m.code, true)], Key(m.code, false));
    HeldSnoc(struck, Key(KEY_LEFTSHIFT, false));
    var end := if m.shift then struck + [Key(KEY_LEFTSHIFT, false)] else struck;
    HeldSnoc(end, Sync);
    assert log + CharEvents(m) == end + [Sync];
  }

  /** Typed text leaves nothing down, and lifts what was held of the keys it used. */
  lemma {:induction false} TextEventsHeld(log: seq<Event>, ms: seq<KeyMapping>)
    ensures Held(log + TextEvents(ms)) == Held(log) - Touched(ms)
  {
    hide Held, CharEvents;
    if ms == [] {
      assert log + TextEvents(ms) == log;
    } else {
      var front, m := ms[..|ms| - 1], ms[|ms| - 1];
      TextEventsHeld(log, front);
      CharEventsHeld(log + TextEvents(front), m);
      assert log + TextEvents(ms) == log + TextEvents(front) + CharEvents(m);
    }
  }

  // ---------------------------------------------------------------------
  // What a reader of the device sees
  // ---------------------------------------------------------------------

  /** A key going down or up, whether left shift (42) is down at that moment, and in which report it comes. */
  datatype Stroke = Stroke(code: nat, down: bool, shifted: bool, report: nat)

  function Reports(log: seq<Event>): nat {
    if log == [] then 0 else Reports(log[..|log| - 1]) + if log[|log| - 1].Sync? then 1 else 0
  }

  /** The keys other than left shift, one after the other. */
  function Strokes(log: seq<Event>): seq<Stroke> {
    if log == [] then []
    else
      var before, e := log[..|log| - 1], log[|log| - 1];
      Strokes(before) + if e.Key? && e.code != 42 then [Stroke(e.code, e.down, 42 in Held(before), Reports(before))] else []
  }

  lemma StrokesSnoc(log: seq<Event>, e: Event)
    ensures Reports(log + [e]) == Reports(log) + if e.Sync? then 1 else 0
    ensures Strokes(log + [e]) == Strokes(log) +
            if e.Key? && e.code != 42 then [Stroke(e.code, e.down, 42 in Held(log), Reports(log))] else []
  {
    assert (log + [e])[..|log|] == log;
  }

  /** Nothing is written that has not been reported. */
  predicate Complete(log: seq<Event>) {
    log == [] || log[|log| - 1].Sync?
  }

  /** The strokes of typed text: every character in a report of its own, with shift exactly where it has to be. */
  function Typing(ms: seq<KeyMapping>, report: nat, held: bool): seq<Stroke> {
    if ms == [] then []
    else
      var front, m := ms[..|ms| - 1], ms[|ms| - 1];
      var shifted := m.shift || (held && forall k :: k in front ==> !k.shift);
      Typing(front, report, held) +
      [Stroke(m.code, true, shifted, report + |front|), Stroke(m.code, false, shifted, report + |front|)]
  }

  predicate NoShiftKey(ms: seq<KeyMapping>) {
    forall m :: m in ms ==> m.code != 42
  }

  lemma ShiftOn(log: seq<Event>)
    ensures Strokes(log + [Key(KEY_LEFTSHIFT, true)]) == Strokes(log)
    ensures Reports(log + [Key(KEY_LEFTSHIFT, true)]) == Reports(log) && 42 in Held(log + [Key(KEY_LEFTSHIFT, true)])
  {
    hide Held;
    StrokesSnoc(log, Key(KEY_LEFTSHIFT, true));
    HeldSnoc(log, Key(KEY_LEFTSHIFT, true));
    assert Strokes(log) + [] == Strokes(log);
  }

  /** Left shift let go, or nothing, and the end of the report. */
  lemma ShiftOff(log: seq<Event>, shift: bool)
    ensures var log' := log + (if shift then [Key(KEY_LEFTSHIFT, false)] else []) + [Sync];
            Strokes(log') == Strokes(log) && Reports(log') == Reports(log) + 1
  {
    hide Held;
    StrokesSnoc(log, Key(KEY_LEFTSHIFT, false));
    var freed := log + if shift then [Key(KEY_LEFTSHIFT, false)] else [];
    StrokesSnoc(freed, Sync);
    assert log + [] == log && Strokes(log) + [] == Strokes(log);
  }

  lemma CharStrokes(log: seq<Event>, m: KeyMapping)
    requires m.code != 42
    ensures var shifted, n := m.shift || 42 in Held(log), Reports(log);
            && Strokes(log + CharEvents(m)) ==
               Strokes(log) + [Stroke(m.code, true, shifted, n), Stroke(m.code, false, shifted, n)]
            && Reports(log + CharEvents(m)) == n + 1
  {
    hide Held, Strokes, Reports;
    var start := if m.shift then log + [Key(KEY_LEFTSHIFT, true)] else log;
    var struck := start + [Key(m.code, true)];
    var freed := struck + [Key(m.code, false)];
    ShiftOn(log);
    StrokesSnoc(start, Key(m.code, true));
    HeldSnoc(start, Key(m.code, true));
    StrokesSnoc(struck, Key(m.code, false));
    ShiftOff(freed, m.shift);
    assert log + CharEvents(m) == freed + (if m.shift then [Key(KEY_LEFTSHIFT, false)] else []) + [Sync];
    var shifted, n := m.shift || 42 in Held(log), Reports(log);
    var down, up := Stroke(m.code, true, shifted, n), Stroke(m.code, false, shifted, n);
    assert Strokes(log) + [down] + [up] == Strokes(log) + [down, up];
  }

  lemma ShiftUsed(log: seq<Event>, ms: seq<KeyMapping>)
    requires NoShiftKey(ms)
    ensures 42 in Held(log + TextEvents(ms)) <==> 42 in Held(log) && forall k :: k in ms ==> !k.shift
  {
    hide Held, TextEvents;
    TextEventsHeld(log, ms);
    TouchedShift(ms);
  }

  lemma {:induction false} TouchedShift(ms: seq<KeyMapping>)
    requires NoShiftKey(ms)
    ensures 42 in Touched(ms) <==> exists k :: k in ms && k.shift
  {
    if ms != [] {
      var front, m := ms[..|ms| - 1], ms[|ms| - 1];
      assert m in ms && forall k :: k in ms <==> k in front || k == m;
      TouchedShift(front);
    }
  }

  /**
    Typed text is what a reader of the device sees: its characters in order, each pressed and released in a
    report of its own, shifted exactly if it has to be. If left shift is held before, it shifts the
    characters up to the first one that brings its own shift, and lets go of it.
  */
  lemma {:induction false} TextStrokes(log: seq<Event>, ms: seq<KeyMapping>)
    requires NoShiftKey(ms)
    ensures Strokes(log + TextEvents(ms)) == Strokes(log) + Typing(ms, Reports(log), 42 in Held(log))
    ensures Reports(log + TextEvents(ms)) == Reports(log) + |ms|
  {
    hide *;
    if ms == [] {
      TextNothing();
      TypingNothing(Reports(log), 42 in Held(log));
      assert log + [] == log && Strokes(log) + [] == Strokes(log);
    } else {
      var front, m := ms[..|ms| - 1], ms[|ms| - 1];
      FrontHasNoShiftKey(ms);
      TextStrokes(log, front);
      ShiftUsed(log, front);
      CharStrokes(log + TextEvents(front), m);
      TypingSnoc(ms, Reports(log), 42 in Held(log));
      TextSnoc(ms, |front|);
      assert ms[..|front| + 1] == ms;
      Regroup(log, TextEvents(front), CharEvents(m));
      var shifted, n := m.shift || 42 in Held(log + TextEvents(front)), Reports(log + TextEvents(front));
      Regroup(Strokes(log), Typing(front, Reports(log), 42 in Held(log)),
              [Stroke(m.code, true, shifted, n), Stroke(m.code, false, shifted, n)]);
    }
  }

  lemma FrontHasNoShiftKey(ms: seq<KeyMapping>)
    requires ms != [] && NoShiftKey(ms)
    ensures NoShiftKey(ms[..|ms| - 1]) && ms[|ms| - 1].code != 42
  {
    assert ms[|ms| - 1] in ms && forall k :: k in ms[..|ms| - 1] ==> k in ms;
  }

  lemma Regroup<T>(a: seq<T>, b: seq<T>, c: seq<T>)
    ensures a + b + c == a + (b + c)
  {
  }

  lemma TypingNothing(report: nat, held: bool)
    ensures Typing([], report, held) == []
  {
  }

  lemma TypingSnoc(ms: seq<KeyMapping>, report: nat, held: bool)
    requires ms != []
    ensures var front, m := ms[..|ms| - 1], ms[|ms| - 1];
            var shifted, n := m.shift || (held && forall k :: k in front ==> !k.shift), report + |front|;
            Typing(ms, report, held) ==
            Typing(front, report, held) + [Stroke(m.code, true, shifted, n), Stroke(m.code, false, shifted, n)]
  {
  }

  /** With left shift up, text comes out exactly as mapped: character `i` down and up in report `i`. */
  lemma {:induction false} TypedAsMapped(ms: seq<KeyMapping>, report: nat)
    ensures |Typing(ms, report, false)| == 2 * |ms|
    ensures forall i :: 0 <= i < |ms| ==>
              && Typing(ms, report, false)[2 * i] == Stroke(ms[i].code, true, ms[i].shift, report + i)
              && Typing(ms, report, false)[2 * i + 1] == Stroke(ms[i].code, false, ms[i].shift, report + i)
  {
    if ms != [] {
      TypedAsMapped(ms[..|ms| - 1], report);
    }
  }

  /** A key event is seen once, in a report of its own; a shifted press comes after the shift it brings along. */
  lemma KeyStrokes(log: seq<Event>, m: KeyMapping, down: bool)
    requires m.code != 42
    ensures var shifted := (m.shift && down) || 42 in Held(log);
            && Strokes(log + KeyEvents(m, down)) == Strokes(log) + [Stroke(m.code, down, shifted, Reports(log))]
            && Reports(log + KeyEvents(m, down)) == Reports(log) + 1
  {
    hide Held, Strokes, Reports;
    var start := if m.shift && down then log + [Key(KEY_LEFTSHIFT, true)] else log;
    ShiftOn(log);
    StrokesSnoc(start, Key(m.code, down));
    ShiftOff(start + [Key(m.code, down)], m.shift && !down);
    assert log + KeyEvents(m, down) ==
           start + [Key(m.code, down)] + (if m.shift && !down then [Key(KEY_LEFTSHIFT, false)] else []) + [Sync];
  }

  function Codes(codes: seq<nat>): set<nat> {
    set c | c in codes
  }

  /** Release reports for the listed keys, in that order. */
  function Releases(codes: seq<nat>): seq<Event> {
    if codes == [] then [] else Releases(codes[..|codes| - 1]) + [Key(codes[|codes| - 1], false)]
  }

  lemma {:induction false} ReleasesHeld(log: seq<Event>, codes: seq<nat>)
    ensures Held(log + Releases(codes)) == Held(log) - Codes(codes)
  {
    hide Held;
    if codes == [] {
      assert log + Releases(codes) == log;
    } else {
      var front, c := codes[..|codes| - 1], codes[|codes| - 1];
      ReleasesHeld(log, front);
      HeldSnoc(log + Releases(front), Key(c, false));
      assert log + Releases(codes) == log + Releases(front) + [Key(c, false)];
      assert Codes(codes) == Codes(front) + {c};
    }
  }

  // ---------------------------------------------------------------------
  // All runs
  // ---------------------------------------------------------------------

  datatype Devices = Devices(pointer: seq<Event>, keyboard: seq<Event>, pressedKeys: set<nat>, pressedButtons: set<nat>)

  const FRESH: Devices := Devices([], [], {}, {})

  /** `ReleaseAll` names the order in which the two sets happen to be walked. */
  datatype Action =
    | Button(code: nat, down: bool)
    | KeyChange(m: KeyMapping, down: bool)
    | Type(ms: seq<KeyMapping>)
    | ReleaseAll(buttons: seq<nat>, keys: seq<nat>)

  predicate CanStep(s: Devices, a: Action) {
    a.ReleaseAll? ==> Codes(a.buttons) == s.pressedButtons && Codes(a.keys) == s.pressedKeys
  }

  function Step(s: Devices, a: Action): Devices {
    match a
    case Button(code, down) =>
      if down == (code in s.pressedButtons) then s
      else s.(pointer := s.pointer + [Key(code, down), Sync],
              pressedButtons := if down then s.pressedButtons + {code} else s.pressedButtons - {code})
    case KeyChange(m, down) =>
      s.(keyboard := s.keyboard + KeyEvents(m, down),
         pressedKeys := if down then s.pressedKeys + {m.code} else s.pressedKeys - {m.code})
    case Type(ms) => s.(keyboard := s.keyboard + TextEvents(ms))
    case ReleaseAll(buttons, keys) =>
      Devices(s.pointer + Releases(buttons) + [Sync],
              s.keyboard + Releases(keys) + [Key(KEY_LEFTSHIFT, false), Sync], {}, {})
  }

  ghost predicate Inv(s: Devices) {
    Held(s.keyboard) <= s.pressedKeys + {KEY_LEFTSHIFT} && Held(s.pointer) == s.pressedButtons
  }

  lemma StepInv(s: Devices, a: Action)
    requires Inv(s) && CanStep(s, a)
    ensures Inv(Step(s, a))
    ensures a.ReleaseAll? ==> Held(Step(s, a).keyboard) == {} && Held(Step(s, a).pointer) == {}
  {
    hide Held, KeyEvents, TextEvents, Releases;
    match a {
      case Button(code, down) =>
        HeldSnoc(s.pointer, Key(code, down));
        HeldSnoc(s.pointer + [Key(code, down)], Sync);
        assert s.pointer + [Key(code, down)] + [Sync] == s.pointer + [Key(code, down), Sync];
      case KeyChange(m, down) => KeyEventsHeld(s.keyboard, m, down);
      case Type(ms) => TextEventsHeld(s.keyboard, ms);
      case ReleaseAll(buttons, keys) =>
        ReleasesHeld(s.pointer, buttons);
        HeldSnoc(s.pointer + Releases(buttons), Sync);
        var released, shift := s.keyboard + Releases(keys), Key(KEY_LEFTSHIFT, false);
        ReleasesHeld(s.keyboard, keys);
        HeldSnoc(released, shift);
        HeldSnoc(released + [shift], Sync);
        assert released + [shift] + [Sync] == released + [shift, Sync];
    }
  }

  /** A button ends up as asked, and no other button changes. */
  lemma ButtonEndsAsAsked(s: Devices, code: nat, down: bool)
    requires Inv(s)
    ensures Held(Step(s, Button(code, down)).pointer) ==
            if down then Held(s.pointer) + {code} else Held(s.pointer) - {code}
  {
    hide Held;
    HeldSnoc(s.pointer, Key(code, down));
    HeldSnoc(s.pointer + [Key(code, down)], Sync);
    assert s.pointer + [Key(code, down)] + [Sync] == s.pointer + [Key(code, down), Sync];
  }

  /** A repeated button state is not written; a new one is, in one report. */
  lemma ButtonOnce(s: Devices, code: nat, down: bool)
    requires Inv(s)
    ensures var s' := Step(s, Button(code, down));
            if down == (code in Held(s.pointer)) then s' == s
            else |s'.pointer| == |s.pointer| + 2 && Reports(s'.pointer) == Reports(s.pointer) + 1 && s'.keyboard == s.keyboard
  {
    hide Held;
    StrokesSnoc(s.pointer, Key(code, down));
    StrokesSnoc(s.pointer + [Key(code, down)], Sync);
    assert s.pointer + [Key(code, down)] + [Sync] == s.pointer + [Key(code, down), Sync];
  }

  /** After every action all that was written has been reported. */
  lemma StepComplete(s: Devices, a: Action)
    requires Complete(s.keyboard) && Complete(s.pointer)
    ensures Complete(Step(s, a).keyboard) && Complete(Step(s, a).pointer)
  {
    if a.Type? && a.ms != [] {
      assert TextEvents(a.ms) == TextEvents(a.ms[..|a.ms| - 1]) + CharEvents(a.ms[|a.ms| - 1]);
    }
  }

  lemma {:induction false} AlwaysReported(s: Devices, run: seq<Action>)
    requires Complete(s.keyboard) && Complete(s.pointer)
    ensures Complete(End(s, run).keyboard) && Complete(End(s, run).pointer)
    decreases |run|
  {
    hide Step, Complete;
    if run != [] {
      StepComplete(s, run[0]);
      AlwaysReported(Step(s, run[0]), run[1..]);
    }
  }

  ghost predicate Legal(s: Devices, run: seq<Action>)
    decreases |run|
  {
    run == [] || (CanStep(s, run[0]) && Legal(Step(s, run[0]), run[1..]))
  }

  function End(s: Devices, run: seq<Action>): Devices
    decreases |run|
  {
    if run == [] then s else End(Step(s, run[0]), run[1..])
  }

  /** Whatever is pressed, released and typed, the devices hold no key but the recorded ones and left shift. */
  lemma {:induction false} NothingElseHeld(s: Devices, run: seq<Action>)
    requires Inv(s) && Legal(s, run)
    ensures Held(End(s, run).keyboard) <= End(s, run).pressedKeys + {KEY_LEFTSHIFT}
    ensures Held(End(s, run).pointer) == End(s, run).pressedButtons
    decreases |run|
  {
    hide Held, Step, CanStep;
    if run != [] {
      StepInv(s, run[0]);
      NothingElseHeld(Step(s, run[0]), run[1..]);
    }
  }

  /** After any run from fresh devices, `release_all` leaves no key and no button down. */
  lemma ReleaseAllReleases(run: seq<Action>, buttons: seq<nat>, keys: seq<nat>)
    requires Legal(FRESH, run) && CanStep(End(FRESH, run), ReleaseAll(buttons, keys))
    ensures var s := Step(End(FRESH, run), ReleaseAll(buttons, keys));
            Held(s.keyboard) == {} && Held(s.pointer) == {} && s.pressedKeys == {} && s.pressedButtons == {}
  {
    hide Legal, CanStep;
    assert Inv(FRESH);
    NothingElseHeld(FRESH, run);
    StepInv(End(FRESH, run), ReleaseAll(buttons, keys));
  }

  /** Two sets that agree but for left shift keep agreeing when both gain or lose a key, or lose all. */
  lemma SameButShift(held: set<nat>, pressed: set<nat>, code: nat)
    requires held - {KEY_LEFTSHIFT} == pressed - {KEY_LEFTSHIFT}
    ensures forall keys :: keys == {code} || keys == {code, KEY_LEFTSHIFT} ==>
              && (held + keys) - {KEY_LEFTSHIFT} == (pressed + {code}) - {KEY_LEFTSHIFT}
              && (held - keys) - {KEY_LEFTSHIFT} == (pressed - {code}) - {KEY_LEFTSHIFT}
    ensures held - pressed - {KEY_LEFTSHIFT} == {}
  {
    assert forall k :: k != KEY_LEFTSHIFT ==>
        (k in held - {KEY_LEFTSHIFT} <==> k in held) && (k in pressed - {KEY_LEFTSHIFT} <==> k in pressed);
  }

  /** Without typed text the recorded keys are exactly the ones held, shift aside. */
  lemma {:induction false} RecordedKeysAreHeld(s: Devices, run: seq<Action>)
    requires Legal(s, run) && (forall a :: a in run ==> !a.Type?)
    requires Held(s.keyboard) - {KEY_LEFTSHIFT} == s.pressedKeys - {KEY_LEFTSHIFT}
    ensures var s' := End(s, run); Held(s'.keyboard) - {KEY_LEFTSHIFT} == s'.pressedKeys - {KEY_LEFTSHIFT}
    decreases |run|
  {
    hide Held, KeyEvents, Releases;
    if run != [] {
      var a := run[0];
      assert a in run && forall x :: x in run[1..] ==> x in run;
      if a.KeyChange? {
        KeyEventsHeld(s.keyboard, a.m, a.down);
      } else if a.ReleaseAll? {
        var released, shift := s.keyboard + Releases(a.keys), Key(KEY_LEFTSHIFT, false);
        ReleasesHeld(s.keyboard, a.keys);
        HeldSnoc(released, shift);
        HeldSnoc(released + [shift], Sync);
        assert released + [shift] + [Sync] == released + [shift, Sync];
      }
      SameButShift(Held(s.keyboard), s.pressedKeys, if a.KeyChange? then a.m.code else KEY_LEFTSHIFT);
      RecordedKeysAreHeld(Step(s, a), run[1..]);
    }
  }

  /** The action writes an event of left shift. */
  predicate TouchesShift(a: Action) {
    match a
    case Button(_, _) => false
    case KeyChange(m, _) => m.shift || m.code == KEY_LEFTSHIFT
    case Type(ms) => KEY_LEFTSHIFT in Touched(ms)
    case ReleaseAll(_, _) => true
  }

  predicate PressesShift(a: Action) {
    a.KeyChange? && a.down && TouchesShift(a)
  }

  /** The last action that touched left shift pressed it. */
  ghost predicate ShiftLeftDown(run: seq<Action>) {
    exists i :: 0 <= i < |run| && LastTouch(run, i) && PressesShift(run[i])
  }

  ghost predicate LastTouch(run: seq<Action>, i: nat)
    requires i < |run|
  {
    TouchesShift(run[i]) && forall j :: i < j < |run| ==> !TouchesShift(run[j])
  }

  ghost predicate NeverTouched(run: seq<Action>) {
    forall i :: 0 <= i < |run| ==> !TouchesShift(run[i])
  }

  lemma ShiftStep(s: Devices, a: Action)
    requires CanStep(s, a)
    ensures KEY_LEFTSHIFT in Held(Step(s, a).keyboard) <==>
            if TouchesShift(a) then PressesShift(a) else KEY_LEFTSHIFT in Held(s.keyboard)
  {
    hide Held, KeyEvents, TextEvents, Releases, Touched;
    match a {
      case Button(_, _) =>
      case KeyChange(m, down) => KeyEventsHeld(s.keyboard, m, down);
      case Type(ms) => TextEventsHeld(s.keyboard, ms);
      case ReleaseAll(_, keys) =>
        var released, shift := s.keyboard + Releases(keys), Key(KEY_LEFTSHIFT, false);
        HeldSnoc(released, shift);
        HeldSnoc(released + [shift], Sync);
        assert released + [shift] + [Sync] == released + [shift, Sync];
    }
  }

  lemma ShiftCons(run: seq<Action>)
    requires run != []
    ensures NeverTouched(run) <==> !TouchesShift(run[0]) && NeverTouched(run[1..])
    ensures ShiftLeftDown(run) <==> ShiftLeftDown(run[1..]) || (PressesShift(run[0]) && NeverTouched(run[1..]))
  {
    hide TouchesShift, PressesShift;
    var tail := run[1..];
    assert forall i :: 0 <= i < |tail| ==> tail[i] == run[i + 1];
    assert NeverTouched(tail) ==> forall i :: 0 < i < |run| ==> !TouchesShift(run[i]) by {
      assert forall i :: 0 < i < |run| ==> run[i] == tail[i - 1];
    }
    if ShiftLeftDown(run) {
      var i :| 0 <= i < |run| && LastTouch(run, i) && PressesShift(run[i]);
      if i > 0 {
        assert LastTouch(tail, i - 1) && PressesShift(tail[i - 1]);
      }
    }
    if ShiftLeftDown(tail) {
      var i :| 0 <= i < |tail| && LastTouch(tail, i) && PressesShift(tail[i]);
      assert forall j :: i + 1 < j < |run| ==> run[j] == tail[j - 1];
      assert LastTouch(run, i + 1) && PressesShift(run[i + 1]);
    }
    if PressesShift(run[0]) && NeverTouched(tail) {
      TouchedIfPressed(run[0]);
      assert LastTouch(run, 0);
    }
  }

  lemma TouchedIfPressed(a: Action)
    ensures PressesShift(a) ==> TouchesShift(a)
  {
  }

  /** In every run left shift is down exactly if the last action that touched it was a press. */
  lemma {:induction false} ShiftExactly(s: Devices, run: seq<Action>)
    requires Legal(s, run)
    ensures KEY_LEFTSHIFT in Held(End(s, run).keyboard) <==>
            ShiftLeftDown(run) || (NeverTouched(run) && KEY_LEFTSHIFT in Held(s.keyboard))
    decreases |run|
  {
    hide Held, Step, CanStep, TouchesShift, PressesShift, ShiftLeftDown, NeverTouched;
    if run == [] {
      NothingTouched();
    } else {
      ShiftStep(s, run[0]);
      ShiftCons(run);
      TouchedIfPressed(run[0]);
      ShiftExactly(Step(s, run[0]), run[1..]);
      NotBoth(run[1..]);
    }
  }

  lemma NothingTouched()
    ensures NeverTouched([]) && !ShiftLeftDown([])
  {
  }

  lemma NotBoth(run: seq<Action>)
    ensures !(NeverTouched(run) && ShiftLeftDown(run))
  {
  }

  /**
    Pressing one symbol and releasing another of the same key leaves nothing down exactly when
    a shifted press is not paired with an unshifted release; otherwise left shift stays held.
  */
  lemma PressThenRelease(s: Devices, press: KeyMapping, release: KeyMapping)
    requires Held(s.keyboard) == {} && press.code == release.code != KEY_LEFTSHIFT
    ensures var s' := Step(Step(s, KeyChange(press, true)), KeyChange(release, false));
            && (Held(s'.keyboard) == {} <==> (press.shift ==> release.shift))
            && (Held(s'.keyboard) != {} ==> Held(s'.keyboard) == {KEY_LEFTSHIFT})
            && s'.pressedKeys == s.pressedKeys - {press.code}
  {
    hide Held, KeyEvents;
    KeyEventsHeld(s.keyboard, press, true);
    KeyEventsHeld(s.keyboard + KeyEvents(press, true), release, false);
    if press.shift && !release.shift {
      assert KEY_LEFTSHIFT in Held(Step(Step(s, KeyChange(press, true)), KeyChange(release, false)).keyboard);
    }
  }

  // ---------------------------------------------------------------------
  // The backend
  // ---------------------------------------------------------------------

  class VirtualDevices {
    var pointer: seq<Event>
    var keyboard: seq<Event>
    var pressedKeys: set<nat>
    var pressedButtons: set<nat>

    function View(): Devices
      reads this
    {
      Devices(pointer, keyboard, pressedKeys, pressedButtons)
    }

    constructor ()
      ensures View() == FRESH
    {
      pointer, keyboard, pressedKeys, pressedButtons := [], [], {}, {};
    }

    method PointerButton(code: nat, down: bool)
      modifies this
      ensures View() == Step(old(View()), Button(code, down))
    {
      var alreadyPressed := code in pressedButtons;
      if down == alreadyPressed {
        return;
      }
      pressedButtons := if down then pressedButtons + {code} else pressedButtons - {code};
      pointer := pointer + [Key(code, down)];
      pointer := pointer + [Sync];
      assert pointer == old(pointer) + [Key(code, down), Sync];
    }

    /** `None`: the keysym has no key, which is an error. */
    method KeyChange(mapping: Option<KeyMapping>, down: bool) returns (ok: bool)
      modifies this
      ensures ok == mapping.Some?
      ensures View() == if mapping.Some? then Step(old(View()), Action.KeyChange(mapping.value, down)) else old(View())
    {
      if mapping.None? {
        return false;
      }
      var m := mapping.value;
      pressedKeys := if down then pressedKeys + {m.code} else pressedKeys - {m.code};
      if m.shift && down {
        keyboard := keyboard + [Key(KEY_LEFTSHIFT, true)];
      }
      keyboard := keyboard + [Key(m.code, down)];
      if m.shift && !down {
        keyboard := keyboard + [Key(KEY_LEFTSHIFT, false)];
      }
      keyboard := keyboard + [Sync];
      assert keyboard == old(keyboard) + KeyEvents(m, down);
      return true;
    }

    /** One unmapped character makes the whole text fall back to the clipboard. */
    method Text(mappings: seq<Option<KeyMapping>>) returns (typed: bool)
      modifies this
      ensures typed <==> forall i :: 0 <= i < |mappings| ==> mappings[i].Some?
      ensures typed ==> View() == Step(old(View()), Type(Values(mappings)))
      ensures !typed ==> View() == old(View())
    {
      for index := 0 to |mappings|
        invariant forall i :: 0 <= i < index ==> mappings[i].Some?
        invariant View() == old(View())
      {
        if mappings[index].None? {
          return false;
        }
      }
      TypeAll(Values(mappings));
      return true;
    }

    method TypeAll(ms: seq<KeyMapping>)
      modifies this`keyboard
      ensures keyboard == old(keyboard) + TextEvents(ms)
    {
      TextNothing();
      hide TextEvents, Held;
      assert ms[..0] == [] && keyboard + [] == keyboard;
      for index := 0 to |ms|
        invariant keyboard == old(keyboard) + TextEvents(ms[..index])
      {
        var m := ms[index];
        ghost var before := keyboard;
        if m.shift {
          keyboard := keyboard + [Key(KEY_LEFTSHIFT, true)];
        }
        keyboard := keyboard + [Key(m.code, true)];
        keyboard := keyboard + [Key(m.code, false)];
        if m.shift {
          keyboard := keyboard + [Key(KEY_LEFTSHIFT, false)];
        }
        keyboard := keyboard + [Sync];
        assert keyboard == before + CharEvents(m);
        TextSnoc(ms, index);
      }
      assert ms[..|ms|] == ms;
    }

    method ReleaseButtons() returns (ghost order: seq<nat>)
      modifies this`pointer, this`pressedButtons
      ensures pointer == old(pointer) + Releases(order) && pressedButtons == {}
      ensures Codes(order) == old(pressedButtons)
    {
      hide Releases;
      order := [];
      ReleasesNothing();
      var left := pressedButtons;
      while left != {}
        invariant left <= pressedButtons == old(pressedButtons)
        invariant Codes(order) == pressedButtons - left && pointer == old(pointer) + Releases(order)
        decreases left
      {
        var code :| code in left;
        pointer := pointer + [Key(code, false)];
        left := left - {code};
        ReleasesSnoc(order, code);
        order := order + [code];
      }
      pressedButtons := {};
    }

    method ReleaseKeys() returns (ghost order: seq<nat>)
      modifies this`keyboard, this`pressedKeys
      ensures keyboard == old(keyboard) + Releases(order) && pressedKeys == {}
      ensures Codes(order) == old(pressedKeys)
    {
      hide Releases;
      order := [];
      ReleasesNothing();
      var left := pressedKeys;
      while left != {}
        invariant left <= pressedKeys == old(pressedKeys)
        invariant Codes(order) == pressedKeys - left && keyboard == old(keyboard) + Releases(order)
        decreases left
      {
        var code :| code in left;
        keyboard := keyboard + [Key(code, false)];
        left := left - {code};
        ReleasesSnoc(order, code);
        order := order + [code];
      }
      pressedKeys := {};
    }

    method ReleaseAll() returns (ghost a: Action)
      modifies this
      ensures a.ReleaseAll? && CanStep(old(View()), a) && View() == Step(old(View()), a)
    {
      hide Releases;
      ghost var buttons := ReleaseButtons();
      ghost var keys := ReleaseKeys();
      keyboard := keyboard + [Key(KEY_LEFTSHIFT, false)];
      pointer := pointer + [Sync];
      keyboard := keyboard + [Sync];
      a := Action.ReleaseAll(buttons, keys);
      var released := old(keyboard) + Releases(keys);
      assert released + [Key(KEY_LEFTSHIFT, false)] + [Sync] == released + [Key(KEY_LEFTSHIFT, false), Sync];
    }
  }

  function Values(mappings: seq<Option<KeyMapping>>): (ms: seq<KeyMapping>)
    requires forall i :: 0 <= i < |mappings| ==> mappings[i].Some?
    ensures |ms| == |mappings| && forall i :: 0 <= i < |ms| ==> ms[i] == mappings[i].value
  {
    seq(|mappings|, i requires 0 <= i < |mappings| => mappings[i].value)
  }

  lemma TextNothing()
    ensures TextEvents([]) == []
  {
  }

  lemma TextSnoc(ms: seq<KeyMapping>, k: nat)
    requires k < |ms|
    ensures TextEvents(ms[..k + 1]) == TextEvents(ms[..k]) + CharEvents(ms[k])
  {
    hide CharEvents;
    assert ms[..k + 1][..k] == ms[..k];
  }

  lemma ReleasesNothing()
    ensures Releases([]) == []
  {
  }

  lemma ReleasesSnoc(codes: seq<nat>, c: nat)
    ensures Releases(codes + [c]) == Releases(codes) + [Key(c, false)]
    ensures Codes(codes + [c]) == Codes(codes) + {c}
  {
    assert (codes + [c])[..|codes|] == codes;
  }
}
