/** The deduplicating virtual gamepad of src/gamepad.rs, against one that writes every event. */
module Gamepad {
  import opened Common
  import opened PointerStates

  const STICK_MAX: int := 32767

  const BUTTONS: seq<(string, nat)> := [
    ("a", 0x130), ("b", 0x131), ("x", 0x134), ("y", 0x133), ("c", 0x132), ("z", 0x135),
    ("left_shoulder", 0x136), ("right_shoulder", 0x137), ("left_trigger_button", 0x138),
    ("right_trigger_button", 0x139), ("select", 0x13a), ("start", 0x13b), ("mode", 0x13c),
    ("left_stick", 0x13d), ("right_stick", 0x13e), ("dpad_up", 0x220), ("dpad_down", 0x221),
    ("dpad_left", 0x222), ("dpad_right", 0x223)]

  const AXES: seq<(string, nat)> := [
    ("left_x", 0), ("left_y", 1), ("right_x", 3), ("right_y", 4),
    ("left_trigger", 2), ("right_trigger", 5), ("hat_x", 0x10), ("hat_y", 0x11)]

  /** `write_struct` of one event; `abs` tells axes from buttons. */
  datatype Event = Emit(abs: bool, code: nat, value: int) | Syn

  function CodeOf(table: seq<(string, nat)>, name: string): Option<nat> {
    if table == [] then None
    else if table[0].0 == name then Some(table[0].1)
    else CodeOf(table[1..], name)
  }

  predicate IsTrigger(axis: string) {
    axis == "left_trigger" || axis == "right_trigger"
  }

  predicate IsHat(axis: string) {
    axis == "hat_x" || axis == "hat_y"
  }

  function Unit(value: real): real {
    if value < -1.0 then -1.0 else if value > 1.0 then 1.0 else value
  }

  function ScaleAxis(axis: string, value: real): int {
    var clamped := Unit(value);
    if IsTrigger(axis) then Round((if clamped > 0.0 then clamped else 0.0) * 32767.0)
    else if IsHat(axis) then Round(clamped)
    else Round(clamped * 32767.0)
  }

  /** The smallest and the largest value an axis may take. */
  function RangeOf(axis: string): (int, int) {
    if IsTrigger(axis) then (0, STICK_MAX) else if IsHat(axis) then (-1, 1) else (-STICK_MAX, STICK_MAX)
  }

  lemma RoundMonotone(a: real, b: real)
    requires a <= b
    ensures Round(a) <= Round(b)
  {
  }

  /** Scaling keeps the order, meets the ends of the range and rests at zero. */
  lemma ScaleIsMonotone(axis: string, v: real, w: real)
    requires v <= w
    ensures ScaleAxis(axis, v) <= ScaleAxis(axis, w)
    ensures RangeOf(axis).0 <= ScaleAxis(axis, v) <= RangeOf(axis).1
    ensures v <= -1.0 ==> ScaleAxis(axis, v) == RangeOf(axis).0
    ensures w >= 1.0 ==> ScaleAxis(axis, w) == RangeOf(axis).1
    ensures v == 0.0 ==> ScaleAxis(axis, v) == 0
  {
    hide Round;
    Ends();
    var a, b := Unit(v), Unit(w);
    RoundMonotone(a, b);
    RoundMonotone(-1.0, a);
    RoundMonotone(a, 1.0);
    RoundMonotone(a * 32767.0, b * 32767.0);
    RoundMonotone(-32767.0, a * 32767.0);
    RoundMonotone(a * 32767.0, 32767.0);
    var c, d := if a > 0.0 then a else 0.0, if b > 0.0 then b else 0.0;
    RoundMonotone(c * 32767.0, d * 32767.0);
    RoundMonotone(0.0, c * 32767.0);
    RoundMonotone(c * 32767.0, 32767.0);
  }

  /** At most half a unit away. */
  predicate Nearest(n: int, v: real) {
    -0.5 <= n as real - v <= 0.5
  }

  /** A stick shows its value in units of 1/32767, a trigger its pressure, a hat one of three positions. */
  lemma ScaleIsNearest(axis: string, v: real)
    requires -1.0 <= v <= 1.0
    ensures var n := ScaleAxis(axis, v);
            if axis in {"left_trigger", "right_trigger"} then Nearest(n, 32767.0 * (if v > 0.0 then v else 0.0))
            else if axis in {"hat_x", "hat_y"} then Nearest(n, v) && -1 <= n <= 1
            else Nearest(n, 32767.0 * v)
  {
    RoundIsNearest((if v > 0.0 then v else 0.0) * 32767.0);
    RoundIsNearest(v);
    RoundIsNearest(v * 32767.0);
    hide Round;
  }

  lemma Ends()
    ensures Round(-1.0) == -1 && Round(0.0) == 0 && Round(1.0) == 1
    ensures Round(32767.0) == 32767 && Round(-32767.0) == -32767
  {
  }

  // ---------------------------------------------------------------------
  // The device
  // ---------------------------------------------------------------------

  /** The last value written for every button, or for every axis. */
  function LastOf(log: seq<Event>, abs: bool): map<nat, int> {
    if log == [] then map[]
    else
      var before, e := LastOf(log[..|log| - 1], abs), log[|log| - 1];
      if e.Syn? || e.abs != abs then before else before[e.code := e.value]
  }

  lemma LastSnoc(log: seq<Event>, e: Event, abs: bool)
    ensures LastOf(log + [e], abs) ==
            if e.Syn? || e.abs != abs then LastOf(log, abs) else LastOf(log, abs)[e.code := e.value]
  {
    assert (log + [e])[..|log|] == log;
  }

  lemma {:induction false} LastAppend(a: seq<Event>, b: seq<Event>, more: seq<Event>, abs: bool)
    requires LastOf(a, abs) == LastOf(b, abs)
    ensures LastOf(a + more, abs) == LastOf(b + more, abs)
  {
    hide LastOf;
    if more == [] {
      assert a + more == a && b + more == b;
    } else {
      var front, e := more[..|more| - 1], more[|more| - 1];
      LastAppend(a, b, front, abs);
      LastSnoc(a + front, e, abs);
      LastSnoc(b + front, e, abs);
      assert a + more == a + front + [e] && b + more == b + front + [e];
    }
  }

  /** Every listed code is written with the value zero. */
  function Zeros(table: seq<(string, nat)>, abs: bool): seq<Event> {
    if table == [] then [] else Zeros(table[..|table| - 1], abs) + [Emit(abs, table[|table| - 1].1, 0)]
  }

  function Cleared(m: map<nat, int>, table: seq<(string, nat)>): map<nat, int> {
    if table == [] then m else Cleared(m, table[..|table| - 1])[table[|table| - 1].1 := 0]
  }

  lemma {:induction false} ZerosClear(log: seq<Event>, table: seq<(string, nat)>, abs: bool)
    ensures LastOf(log + Zeros(table, abs), abs) == Cleared(LastOf(log, abs), table)
    ensures LastOf(log + Zeros(table, abs), !abs) == LastOf(log, !abs)
  {
    hide LastOf;
    if table == [] {
      assert log + Zeros(table, abs) == log;
    } else {
      var front, e := table[..|table| - 1], Emit(abs, table[|table| - 1].1, 0);
      ZerosClear(log, front, abs);
      LastSnoc(log + Zeros(front, abs), e, abs);
      LastSnoc(log + Zeros(front, abs), e, !abs);
      assert log + Zeros(table, abs) == log + Zeros(front, abs) + [e];
    }
  }

  const RESET: seq<Event> := Zeros(BUTTONS, false) + Zeros(AXES, true) + [Syn]

  datatype Action = Button(name: string, down: bool) | Axis(name: string, value: real) | Reset | FlushPending

  /** The event an action asks for, if its name and value are acceptable. */
  function Wanted(a: Action): (e: Option<Event>)
    ensures e.Some? ==> e.value.Emit?
  {
    match a
    case Button(name, down) =>
      var code := CodeOf(BUTTONS, name);
      if code.None? then None else Some(Emit(false, code.value, if down then 1 else 0))
    case Axis(name, value) =>
      var code := CodeOf(AXES, name);
      if code.None? || value < -1.0 || value > 1.0 then None else Some(Emit(true, code.value, ScaleAxis(name, value)))
    case _ => None
  }

  /** `flushed` is how much of the log has left the daemon's buffer. */
  datatype Pad = Pad(log: seq<Event>, buttons: map<nat, int>, axes: map<nat, int>, dirty: bool, flushed: nat)

  const NEW_PAD: Pad := Pad([], map[], map[], false, 0)

  predicate Stored(s: Pad, e: Event)
    requires e.Emit?
  {
    var m := if e.abs then s.axes else s.buttons;
    e.code in m && m[e.code] == e.value
  }

  /** A new value is stored and written; only button events are flushed at once. */
  function Write(s: Pad, e: Event): Pad
    requires e.Emit?
  {
    if Stored(s, e) then s
    else if e.abs then Pad(s.log + [e, Syn], s.buttons, s.axes[e.code := e.value], true, s.flushed)
    else Pad(s.log + [e, Syn], s.buttons[e.code := e.value], s.axes, true, |s.log| + 2)
  }

  function Step(s: Pad, a: Action): Pad {
    match a
    case Reset =>
      Pad(s.log + RESET, Cleared(s.buttons, BUTTONS), Cleared(s.axes, AXES), true, s.flushed)
    case FlushPending => if s.dirty then s.(dirty := false, flushed := |s.log|) else s
    case _ => if Wanted(a).Some? then Write(s, Wanted(a).value) else s
  }

  function End(s: Pad, run: seq<Action>): Pad
    decreases |run|
  {
    if run == [] then s else End(Step(s, run[0]), run[1..])
  }

  /** What a gamepad without the two maps would write. */
  function Unfiltered(log: seq<Event>, run: seq<Action>): seq<Event>
    decreases |run|
  {
    if run == [] then log
    else
      var e := Wanted(run[0]);
      Unfiltered(log + if run[0].Reset? then RESET else if e.Some? then [e.value, Syn] else [], run[1..])
  }

  /** Stored values are the last ones written, axes stay in range, and a clean pad has nothing left to flush. */
  ghost predicate Inv(s: Pad) {
    && s.buttons == LastOf(s.log, false) && s.axes == LastOf(s.log, true)
    && (forall i :: 0 <= i < |AXES| && AXES[i].1 in s.axes ==>
          RangeOf(AXES[i].0).0 <= s.axes[AXES[i].1] <= RangeOf(AXES[i].0).1)
    && s.flushed <= |s.log| && (!s.dirty ==> s.flushed == |s.log|)
  }

  lemma PairWritten(log: seq<Event>, e: Event, abs: bool)
    requires e.Emit?
    ensures LastOf(log + [e, Syn], abs) == if e.abs == abs then LastOf(log, abs)[e.code := e.value] else LastOf(log, abs)
  {
    hide LastOf;
    LastSnoc(log, e, abs);
    LastSnoc(log + [e], Syn, abs);
    assert log + [e] + [Syn] == log + [e, Syn];
  }

  lemma ResetWritten(log: seq<Event>)
    ensures LastOf(log + RESET, false) == Cleared(LastOf(log, false), BUTTONS)
    ensures LastOf(log + RESET, true) == Cleared(LastOf(log, true), AXES)
  {
    hide LastOf, Zeros, Cleared, BUTTONS, AXES;
    var b, x := Zeros(BUTTONS, false), Zeros(AXES, true);
    ZerosClear(log, BUTTONS, false);
    ZerosClear(log + b, AXES, true);
    LastSnoc(log + b + x, Syn, false);
    LastSnoc(log + b + x, Syn, true);
    assert log + RESET == log + b + x + [Syn];
  }

  /** A code belongs to one axis only. */
  lemma AxisCodes(i: nat, j: nat)
    requires i < |AXES| && j < |AXES| && AXES[i].1 == AXES[j].1
    ensures i == j
  {
  }

  lemma {:induction false} CodeFound(table: seq<(string, nat)>, name: string) returns (i: nat)
    requires CodeOf(table, name).Some?
    ensures i < |table| && table[i] == (name, CodeOf(table, name).value)
  {
    if table[0].0 == name {
      i := 0;
    } else {
      i := CodeFound(table[1..], name);
      i := i + 1;
    }
  }

  lemma {:induction false} ClearedValues(m: map<nat, int>, table: seq<(string, nat)>, code: nat)
    requires code in Cleared(m, table)
    ensures Cleared(m, table)[code] == 0 || (code in m && Cleared(m, table)[code] == m[code])
  {
    if table != [] && code != table[|table| - 1].1 {
      ClearedValues(m, table[..|table| - 1], code);
    }
  }

  ghost predicate InRange(axes: map<nat, int>) {
    forall i :: 0 <= i < |AXES| && AXES[i].1 in axes ==>
      RangeOf(AXES[i].0).0 <= axes[AXES[i].1] <= RangeOf(AXES[i].0).1
  }

  lemma RangeStep(s: Pad, a: Action)
    requires InRange(s.axes)
    ensures InRange(Step(s, a).axes)
  {
    hide ScaleAxis, Cleared, CodeOf;
    var axes := Step(s, a).axes;
    forall i | 0 <= i < |AXES| && AXES[i].1 in axes
      ensures RangeOf(AXES[i].0).0 <= axes[AXES[i].1] <= RangeOf(AXES[i].0).1
    {
      if a.Reset? {
        ClearedValues(s.axes, AXES, AXES[i].1);
      } else if a.Axis? && Wanted(a).Some? {
        var j := CodeFound(AXES, a.name);
        ScaleIsMonotone(a.name, a.value, a.value);
        if AXES[i].1 == AXES[j].1 {
          AxisCodes(i, j);
        }
      }
    }
  }

  lemma LogStep(s: Pad, a: Action)
    requires s.buttons == LastOf(s.log, false) && s.axes == LastOf(s.log, true)
    ensures Step(s, a).buttons == LastOf(Step(s, a).log, false) && Step(s, a).axes == LastOf(Step(s, a).log, true)
  {
    hide LastOf, RESET, Cleared, Wanted, BUTTONS, AXES;
    ResetWritten(s.log);
    if Wanted(a).Some? {
      PairWritten(s.log, Wanted(a).value, false);
      PairWritten(s.log, Wanted(a).value, true);
    }
  }

  lemma FlushStep(s: Pad, a: Action)
    requires s.flushed <= |s.log| && (!s.dirty ==> s.flushed == |s.log|)
    ensures var s' := Step(s, a); s'.flushed <= |s'.log| && (!s'.dirty ==> s'.flushed == |s'.log|)
  {
    hide RESET, Cleared, Wanted, BUTTONS, AXES;
  }

  /** In every run: stored values agree with the device, axes stay in range, nothing is left unflushed. */
  lemma {:induction false} RunInv(s: Pad, run: seq<Action>)
    requires Inv(s)
    ensures Inv(End(s, run))
    ensures var s' := Step(End(s, run), FlushPending); s'.flushed == |s'.log|
    decreases |run|
  {
    hide Step, LastOf, RangeOf;
    InvParts(s);
    if run == [] {
      AfterFlush(s);
    } else {
      RangeStep(s, run[0]);
      LogStep(s, run[0]);
      FlushStep(s, run[0]);
      InvParts(Step(s, run[0]));
      RunInv(Step(s, run[0]), run[1..]);
    }
  }

  lemma AfterFlush(s: Pad)
    requires !s.dirty ==> s.flushed == |s.log|
    ensures var s' := Step(s, FlushPending); s'.flushed == |s'.log|
  {
  }

  lemma InvParts(s: Pad)
    ensures Inv(s) <==>
      && s.buttons == LastOf(s.log, false) && s.axes == LastOf(s.log, true) && InRange(s.axes)
      && s.flushed <= |s.log| && (!s.dirty ==> s.flushed == |s.log|)
  {
    hide LastOf, RangeOf;
  }

  /** Leaving out an event whose value is already stored does not change what the device shows. */
  lemma FilterStep(s: Pad, a: Action, log: seq<Event>, abs: bool)
    requires s.buttons == LastOf(s.log, false) && s.axes == LastOf(s.log, true)
    requires LastOf(s.log, abs) == LastOf(log, abs)
    ensures var e := Wanted(a);
            LastOf(Step(s, a).log, abs) == LastOf(log + if a.Reset? then RESET else if e.Some? then [e.value, Syn] else [], abs)
  {
    hide LastOf, RESET, Cleared, BUTTONS, AXES, CodeOf, ScaleAxis;
    var e := Wanted(a);
    if a.Reset? {
      LastAppend(s.log, log, RESET, abs);
    } else if e.Some? {
      PairWritten(log, e.value, abs);
      PairWritten(s.log, e.value, abs);
      if Stored(s, e.value) && e.value.abs == abs {
        var m := LastOf(log, abs);
        assert m[e.value.code := e.value.value] == m;
      }
    } else {
      assert log + [] == log;
    }
  }

  /** The deduplicated stream leaves every button and axis as the full stream would. */
  lemma {:induction false} DeduplicationIsInvisible(s: Pad, run: seq<Action>, log: seq<Event>, abs: bool)
    requires s.buttons == LastOf(s.log, false) && s.axes == LastOf(s.log, true)
    requires LastOf(s.log, abs) == LastOf(log, abs)
    ensures LastOf(End(s, run).log, abs) == LastOf(Unfiltered(log, run), abs)
    decreases |run|
  {
    hide LastOf, Step, Wanted, RESET;
    if run != [] {
      var e := Wanted(run[0]);
      FilterStep(s, run[0], log, abs);
      LogStep(s, run[0]);
      DeduplicationIsInvisible(Step(s, run[0]), run[1..],
        log + if run[0].Reset? then RESET else if e.Some? then [e.value, Syn] else [], abs);
    }
  }

  lemma SameDevice(run: seq<Action>, abs: bool)
    ensures LastOf(End(NEW_PAD, run).log, abs) == LastOf(Unfiltered([], run), abs)
  {
    hide Step, Wanted, RESET;
    DeduplicationIsInvisible(NEW_PAD, run, [], abs);
  }

  /** No two names share a code, so every control is one of its own. */
  lemma NamesHaveOwnCodes(a: string, b: string)
    ensures CodeOf(BUTTONS, a).Some? && CodeOf(BUTTONS, a) == CodeOf(BUTTONS, b) ==> a == b
    ensures CodeOf(AXES, a).Some? && CodeOf(AXES, a) == CodeOf(AXES, b) ==> a == b
  {
    if CodeOf(BUTTONS, a).Some? && CodeOf(BUTTONS, a) == CodeOf(BUTTONS, b) {
      var i := CodeFound(BUTTONS, a);
      var j := CodeFound(BUTTONS, b);
      ButtonCodes(i, j);
    }
    if CodeOf(AXES, a).Some? && CodeOf(AXES, a) == CodeOf(AXES, b) {
      var i := CodeFound(AXES, a);
      var j := CodeFound(AXES, b);
      AxisCodes(i, j);
    }
  }

  /** A code belongs to one button only. */
  lemma ButtonCodes(i: nat, j: nat)
    requires i < |BUTTONS| && j < |BUTTONS| && BUTTONS[i].1 == BUTTONS[j].1
    ensures i == j
  {
  }

  /** The controls in the order of Linux's input event codes. */
  const PAD_ORDER: seq<string> := [
    "a", "b", "c", "y", "x", "z", "left_shoulder", "right_shoulder", "left_trigger_button",
    "right_trigger_button", "select", "start", "mode", "left_stick", "right_stick"]
  const DPAD_ORDER: seq<string> := ["dpad_up", "dpad_down", "dpad_left", "dpad_right"]
  const AXIS_ORDER: seq<string> := ["left_x", "left_y", "left_trigger", "right_x", "right_y", "right_trigger"]
  const HAT_ORDER: seq<string> := ["hat_x", "hat_y"]

  /** `names[i]` has code `first + i`. */
  ghost predicate Numbers(table: seq<(string, nat)>, names: seq<string>, first: nat) {
    forall i :: 0 <= i < |names| ==> CodeOf(table, names[i]) == Some(first + i)
  }

  ghost predicate Lists(table: seq<(string, nat)>, names: seq<string>, first: nat) {
    forall i :: 0 <= i < |names| ==> (names[i], first + i) in table
  }

  ghost predicate NamesDiffer(table: seq<(string, nat)>) {
    forall i, j :: 0 <= i < j < |table| ==> table[i].0 != table[j].0
  }

  lemma ListedNumbers(table: seq<(string, nat)>, names: seq<string>, first: nat)
    requires Lists(table, names, first) && NamesDiffer(table)
    ensures Numbers(table, names, first)
  {
    hide CodeOf;
    forall i | 0 <= i < |names| ensures CodeOf(table, names[i]) == Some(first + i) {
      assert (names[i], first + i) in table;
      var k :| 0 <= k < |table| && table[k] == (names[i], first + i);
      CodeIs(table, k);
    }
  }

  /** Length, first and last character tell the names apart. */
  function Fingerprint(name: string): (int, char, char) {
    if name == "" then (0, ' ', ' ') else (|name|, name[0], name[|name| - 1])
  }

  lemma Fingerprints()
    ensures forall i, j :: 0 <= i < j < |BUTTONS| ==> Fingerprint(BUTTONS[i].0) != Fingerprint(BUTTONS[j].0)
  {
  }

  lemma ButtonNamesDiffer()
    ensures NamesDiffer(BUTTONS)
  {
    hide BUTTONS, Fingerprint;
    Fingerprints();
  }

  lemma AxisNamesDiffer()
    ensures NamesDiffer(AXES)
  {
  }

  lemma {:induction false} CodeIs(table: seq<(string, nat)>, i: nat)
    requires i < |table| && forall j :: 0 <= j < i ==> table[j].0 != table[i].0
    ensures CodeOf(table, table[i].0) == Some(table[i].1)
  {
    if i > 0 {
      CodeIs(table[1..], i - 1);
    }
  }

  /** Each control has the code that Linux gives it: the gamepad buttons from 0x130, the pad from 0x220, the axes from 0. */
  lemma LinuxCodes()
    ensures Numbers(BUTTONS, PAD_ORDER, 0x130) && Numbers(BUTTONS, DPAD_ORDER, 0x220)
    ensures Numbers(AXES, AXIS_ORDER, 0) && Numbers(AXES, HAT_ORDER, 0x10)
  {
    hide *;
    LinuxList();
    ButtonNamesDiffer();
    AxisNamesDiffer();
    ListedNumbers(BUTTONS, PAD_ORDER, 0x130);
    ListedNumbers(BUTTONS, DPAD_ORDER, 0x220);
    ListedNumbers(AXES, AXIS_ORDER, 0);
    ListedNumbers(AXES, HAT_ORDER, 0x10);
  }

  lemma LinuxList()
    ensures Lists(BUTTONS, PAD_ORDER, 0x130) && Lists(BUTTONS, DPAD_ORDER, 0x220)
    ensures Lists(AXES, AXIS_ORDER, 0) && Lists(AXES, HAT_ORDER, 0x10)
  {
    var b, x := BUTTONS, AXES;
    assert b[0] == ("a", 0x130) && b[1] == ("b", 0x131) && b[4] == ("c", 0x132) && b[3] == ("y", 0x133) && b[2] == ("x", 0x134);
    assert b[5] == ("z", 0x135) && b[6] == ("left_shoulder", 0x136) && b[7] == ("right_shoulder", 0x137);
    assert b[8] == ("left_trigger_button", 0x138) && b[9] == ("right_trigger_button", 0x139) && b[10] == ("select", 0x13a);
    assert b[11] == ("start", 0x13b) && b[12] == ("mode", 0x13c) && b[13] == ("left_stick", 0x13d);
    assert b[14] == ("right_stick", 0x13e) && b[15] == ("dpad_up", 0x220) && b[16] == ("dpad_down", 0x221);
    assert b[17] == ("dpad_left", 0x222) && b[18] == ("dpad_right", 0x223);
    assert x[0] == ("left_x", 0) && x[1] == ("left_y", 1) && x[4] == ("left_trigger", 2) && x[2] == ("right_x", 3);
    assert x[3] == ("right_y", 4) && x[5] == ("right_trigger", 5) && x[6] == ("hat_x", 0x10) && x[7] == ("hat_y", 0x11);
  }

  /**
    What the device shows after an accepted action, in any run: a button its state, an axis the value
    nearest to what was asked. Nothing is written for a value that is already there, and everything
    else is shown as before.
  */
  lemma DeviceFollows(s: Pad, a: Action)
    requires Inv(s)
    ensures var s' := Step(s, a);
            match a
            case Button(name, down) =>
              var code := CodeOf(BUTTONS, name);
              if code.None? then s' == s
              else
                && LastOf(s'.log, false) == LastOf(s.log, false)[code.value := if down then 1 else 0]
                && LastOf(s'.log, true) == LastOf(s.log, true)
                && (s'.log == s.log || (s'.flushed == |s'.log| == |s.log| + 2 && s'.log[|s.log| + 1] == Syn))
                && (s'.log == s.log <==> code.value in s.buttons && s.buttons[code.value] == if down then 1 else 0)
            case Axis(name, value) =>
              var code := CodeOf(AXES, name);
              if code.None? || value < -1.0 || value > 1.0 then s' == s
              else
                && LastOf(s'.log, true) == LastOf(s.log, true)[code.value := ScaleAxis(name, value)]
                && LastOf(s'.log, false) == LastOf(s.log, false)
                && (s'.log == s.log || (s'.dirty && |s'.log| == |s.log| + 2 && s'.log[|s.log| + 1] == Syn))
                && (s'.log == s.log <==> code.value in s.axes && s.axes[code.value] == ScaleAxis(name, value))
            case _ => true
  {
    hide LastOf, RESET, Cleared, BUTTONS, AXES, CodeOf, ScaleAxis, RangeOf;
    if Wanted(a).Some? {
      var e := Wanted(a).value;
      PairWritten(s.log, e, false);
      PairWritten(s.log, e, true);
      if Stored(s, e) {
        var m := LastOf(s.log, e.abs);
        assert m[e.code := e.value] == m;
      }
    }
  }

  /** A reset puts every button up and every axis at rest, whatever came before. */
  lemma ResetRests(s: Pad, i: nat)
    requires Inv(s)
    ensures var s' := Step(s, Reset);
            && (i < |BUTTONS| ==> BUTTONS[i].1 in LastOf(s'.log, false) && LastOf(s'.log, false)[BUTTONS[i].1] == 0)
            && (i < |AXES| ==> AXES[i].1 in LastOf(s'.log, true) && LastOf(s'.log, true)[AXES[i].1] == 0)
            && s.log < s'.log && s'.log[|s'.log| - 1] == Syn && s'.dirty
  {
    ResetReports();
    hide LastOf, RESET, BUTTONS, AXES, Cleared;
    ResetWritten(s.log);
    if i < |BUTTONS| { ClearedAll(LastOf(s.log, false), BUTTONS, i); }
    if i < |AXES| { ClearedAll(LastOf(s.log, true), AXES, i); }
  }

  lemma ResetReports()
    ensures RESET != [] && RESET[|RESET| - 1] == Syn
  {
    hide Zeros;
  }

  lemma {:induction false} ClearedAll(m: map<nat, int>, table: seq<(string, nat)>, i: nat)
    requires i < |table|
    ensures table[i].1 in Cleared(m, table) && Cleared(m, table)[table[i].1] == 0
  {
    if i < |table| - 1 {
      ClearedAll(m, table[..|table| - 1], i);
    }
  }

  // ---------------------------------------------------------------------
  // The backend
  // ---------------------------------------------------------------------

  class VirtualGamepadBackend {
    var log: seq<Event>
    var buttonState: map<nat, int>
    var axisState: map<nat, int>
    var dirty: bool
    var flushed: nat

    function View(): Pad
      reads this
    {
      Pad(log, buttonState, axisState, dirty, flushed)
    }

    constructor ()
      ensures View() == NEW_PAD
    {
      log, buttonState, axisState, dirty, flushed := [], map[], map[], false, 0;
    }

    method Sync()
      modifies this`log, this`dirty
      ensures log == old(log) + [Syn] && dirty
    {
      log := log + [Syn];
      dirty := true;
    }

    method Button(name: string, down: bool) returns (ok: bool)
      modifies this
      ensures View() == Step(old(View()), Action.Button(name, down)) && ok == CodeOf(BUTTONS, name).Some?
    {
      hide BUTTONS, AXES, CodeOf;
      var code := CodeOf(BUTTONS, name);
      if code.None? {
        return false;
      }
      var value := if down then 1 else 0;
      if code.value in buttonState && buttonState[code.value] == value {
        return true;
      }
      buttonState := buttonState[code.value := value];
      log := log + [Emit(false, code.value, value)];
      Sync();
      flushed := |log|;
      assert log == old(log) + [Emit(false, code.value, value), Syn];
      return true;
    }

    method Axis(name: string, value: real) returns (ok: bool)
      modifies this
      ensures View() == Step(old(View()), Action.Axis(name, value))
      ensures ok == (-1.0 <= value <= 1.0 && CodeOf(AXES, name).Some?)
    {
      hide BUTTONS, AXES, CodeOf, ScaleAxis;
      var code := CodeOf(AXES, name);
      if value < -1.0 || value > 1.0 || code.None? {
        return false;
      }
      var scaled := ScaleAxis(name, value);
      if code.value in axisState && axisState[code.value] == scaled {
        return true;
      }
      axisState := axisState[code.value := scaled];
      log := log + [Emit(true, code.value, scaled)];
      Sync();
      assert log == old(log) + [Emit(true, code.value, scaled), Syn];
      return true;
    }

    method FlushPending()
      modifies this
      ensures View() == Step(old(View()), Action.FlushPending)
    {
      if dirty {
        dirty, flushed := false, |log|;
      }
    }

    method ClearButtons()
      modifies this`log, this`buttonState
      ensures log == old(log) + Zeros(BUTTONS, false) && buttonState == Cleared(old(buttonState), BUTTONS)
    {
      hide BUTTONS;
      assert BUTTONS[..0] == [];
      for index := 0 to |BUTTONS|
        invariant log == old(log) + Zeros(BUTTONS[..index], false)
        invariant buttonState == Cleared(old(buttonState), BUTTONS[..index])
      {
        assert BUTTONS[..index + 1][..index] == BUTTONS[..index];
        log := log + [Emit(false, BUTTONS[index].1, 0)];
        buttonState := buttonState[BUTTONS[index].1 := 0];
      }
      assert BUTTONS[..|BUTTONS|] == BUTTONS;
    }

    method ClearAxes()
      modifies this`log, this`axisState
      ensures log == old(log) + Zeros(AXES, true) && axisState == Cleared(old(axisState), AXES)
    {
      hide AXES;
      assert AXES[..0] == [];
      for index := 0 to |AXES|
        invariant log == old(log) + Zeros(AXES[..index], true)
        invariant axisState == Cleared(old(axisState), AXES[..index])
      {
        assert AXES[..index + 1][..index] == AXES[..index];
        ScaleIsMonotone(AXES[index].0, 0.0, 0.0);
        var value := ScaleAxis(AXES[index].0, 0.0);
        log := log + [Emit(true, AXES[index].1, value)];
        axisState := axisState[AXES[index].1 := value];
      }
      assert AXES[..|AXES|] == AXES;
    }

    method Reset()
      modifies this
      ensures View() == Step(old(View()), Action.Reset)
    {
      hide BUTTONS, AXES, Zeros, Cleared;
      ClearButtons();
      ClearAxes();
      Sync();
      assert log == old(log) + RESET;
    }
  }
}
