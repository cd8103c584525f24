/** The scroll accumulators of src/input.rs and src/uinput.rs, over exact reals. */
module Scroll {
  import opened Common

  const DETENT: real := 24.0

  /** `f64::trunc`. */
  function Trunc(v: real): int {
    if v >= 0.0 then v.Floor else -((-v).Floor)
  }

  function Abs(v: real): real {
    if v < 0.0 then -v else v
  }

  datatype Taken = Taken(steps: int, remainder: real)

  /** `scroll_steps` of the Hyprland backend. */
  function ScrollSteps(remainder: real, finish: bool): Taken {
    if finish && Abs(remainder) > 3.0 then Taken(if remainder > 0.0 then 1 else -1, 0.0)
    else
      var steps := Trunc(remainder / 24.0);
      Taken(steps, remainder - steps as real * 24.0)
  }

  /** `take_scroll_detents` of the uinput backend. */
  function TakeScrollDetents(remainder: real, finish: bool): Taken {
    if finish && Abs(remainder) > DETENT / 8.0 then Taken(if remainder > 0.0 then 1 else -1, 0.0)
    else
      var detents := Trunc(remainder / DETENT);
      if detents == 0 then Taken(0, remainder) else Taken(detents, remainder - detents as real * DETENT)
  }

  /** The two backends scroll alike on every input. */
  lemma BackendsAgree(remainder: real, finish: bool)
    ensures ScrollSteps(remainder, finish) == TakeScrollDetents(remainder, finish)
  {
  }

  /** Whole steps are taken toward zero; less than one step remains, on the same side of zero. */
  lemma TakenExactly(remainder: real)
    ensures var t := ScrollSteps(remainder, false);
            && remainder == 24.0 * t.steps as real + t.remainder && Abs(t.remainder) < 24.0
            && (remainder >= 0.0 ==> t.steps >= 0 && t.remainder >= 0.0)
            && (remainder <= 0.0 ==> t.steps <= 0 && t.remainder <= 0.0)
  {
    var q := remainder / 24.0;
    assert q * 24.0 == remainder;
  }

  /** A quotient in steps is determined by a remainder under one step on the same side of zero. */
  lemma TruncIs(total: real, steps: int, remainder: real)
    requires total == 24.0 * steps as real + remainder && Abs(remainder) < 24.0
    ensures Trunc(total / 24.0) == steps <==>
            remainder == 0.0 || steps == 0 || (steps > 0 && remainder > 0.0) || (steps < 0 && remainder < 0.0)
  {
    var q := total / 24.0;
    assert q * 24.0 == total;
    var f := remainder / 24.0;
    assert f * 24.0 == remainder;
    assert q == steps as real + f;
  }

  // ---------------------------------------------------------------------
  // Whole gestures
  // ---------------------------------------------------------------------

  datatype Delta = Delta(amount: real, finish: bool)

  function Sum(deltas: seq<Delta>): real {
    if deltas == [] then 0.0 else deltas[0].amount + Sum(deltas[1..])
  }

  /** The steps returned over a gesture, and the remainder it ends with. */
  function Gesture(remainder: real, deltas: seq<Delta>): Taken
    decreases |deltas|
  {
    if deltas == [] then Taken(0, remainder)
    else
      var t := ScrollSteps(remainder + deltas[0].amount, deltas[0].finish);
      var later := Gesture(t.remainder, deltas[1..]);
      Taken(t.steps + later.steps, later.remainder)
  }

  /** What a finishing call rounds away: it returns one step for anything over three pixels. */
  function Rounded(remainder: real, finish: bool): real {
    if finish && Abs(remainder) > 3.0 then remainder - (if remainder > 0.0 then 24.0 else -24.0) else 0.0
  }

  function RoundedAll(remainder: real, deltas: seq<Delta>): real
    decreases |deltas|
  {
    if deltas == [] then 0.0
    else
      var r := remainder + deltas[0].amount;
      Rounded(r, deltas[0].finish) + RoundedAll(ScrollSteps(r, deltas[0].finish).remainder, deltas[1..])
  }

  lemma StepConserves(remainder: real, finish: bool)
    ensures var t := ScrollSteps(remainder, finish);
            remainder == 24.0 * t.steps as real + t.remainder + Rounded(remainder, finish) && Abs(t.remainder) < 24.0
  {
    TakenExactly(remainder);
  }

  /** Over any gesture, the pixels are 24 times the steps, the remainder and what finishing calls rounded away. */
  lemma {:induction false} GestureConserves(remainder: real, deltas: seq<Delta>)
    ensures var t := Gesture(remainder, deltas);
            && remainder + Sum(deltas) == 24.0 * t.steps as real + t.remainder + RoundedAll(remainder, deltas)
            && (deltas != [] || Abs(remainder) < 24.0 ==> Abs(t.remainder) < 24.0)
    decreases |deltas|
  {
    hide ScrollSteps, Rounded;
    if deltas != [] {
      var r := remainder + deltas[0].amount;
      StepConserves(r, deltas[0].finish);
      GestureConserves(ScrollSteps(r, deltas[0].finish).remainder, deltas[1..]);
    }
  }

  predicate NoFinish(deltas: seq<Delta>) {
    forall i :: 0 <= i < |deltas| ==> !deltas[i].finish
  }

  lemma {:induction false} NothingRounded(remainder: real, deltas: seq<Delta>)
    requires NoFinish(deltas)
    ensures RoundedAll(remainder, deltas) == 0.0
    decreases |deltas|
  {
    if deltas != [] {
      NothingRounded(ScrollSteps(remainder + deltas[0].amount, false).remainder, deltas[1..]);
    }
  }

  /** Without a finishing call nothing is lost, and less than one step is ever held back. */
  lemma GestureKeepsAll(deltas: seq<Delta>)
    requires NoFinish(deltas)
    ensures var t := Gesture(0.0, deltas);
            Sum(deltas) == 24.0 * t.steps as real + t.remainder && Abs(t.remainder) < 24.0
  {
    hide Gesture;
    GestureConserves(0.0, deltas);
    NothingRounded(0.0, deltas);
  }

  /** The steps are the truncated total exactly when the remainder is not on the other side of zero. */
  lemma RemainderSide(deltas: seq<Delta>)
    requires NoFinish(deltas)
    ensures var t := Gesture(0.0, deltas);
            t.steps == Trunc(Sum(deltas) / 24.0) <==>
            !(t.steps > 0 && t.remainder < 0.0) && !(t.steps < 0 && t.remainder > 0.0)
  {
    hide Gesture, Sum, Trunc;
    GestureKeepsAll(deltas);
    TruncIs(Sum(deltas), Gesture(0.0, deltas).steps, Gesture(0.0, deltas).remainder);
  }

  lemma {:induction false} SameSide(remainder: real, deltas: seq<Delta>)
    requires NoFinish(deltas) && remainder >= 0.0 && forall i :: 0 <= i < |deltas| ==> deltas[i].amount >= 0.0
    ensures Gesture(remainder, deltas).steps >= 0 && Gesture(remainder, deltas).remainder >= 0.0
    decreases |deltas|
  {
    hide ScrollSteps;
    if deltas != [] {
      var r := remainder + deltas[0].amount;
      TakenExactly(r);
      SameSide(ScrollSteps(r, false).remainder, deltas[1..]);
    }
  }

  function Mirrored(deltas: seq<Delta>): (m: seq<Delta>)
    ensures |m| == |deltas| && forall i :: 0 <= i < |m| ==> m[i] == Delta(-deltas[i].amount, deltas[i].finish)
  {
    seq(|deltas|, i requires 0 <= i < |deltas| => Delta(-deltas[i].amount, deltas[i].finish))
  }

  lemma MirrorStep(remainder: real, finish: bool)
    ensures ScrollSteps(-remainder, finish) ==
            Taken(-ScrollSteps(remainder, finish).steps, -ScrollSteps(remainder, finish).remainder)
  {
    assert -remainder / 24.0 == -(remainder / 24.0);
  }

  /** Scrolling the other way does the same the other way. */
  lemma {:induction false} Mirror(remainder: real, deltas: seq<Delta>)
    ensures var t, m := Gesture(remainder, deltas), Gesture(-remainder, Mirrored(deltas));
            m == Taken(-t.steps, -t.remainder)
    decreases |deltas|
  {
    hide ScrollSteps;
    if deltas != [] {
      var r := remainder + deltas[0].amount;
      MirrorStep(r, deltas[0].finish);
      assert Mirrored(deltas)[1..] == Mirrored(deltas[1..]);
      Mirror(ScrollSteps(r, deltas[0].finish).remainder, deltas[1..]);
    }
  }

  /** A gesture in one direction scrolls by the truncated total, however it is chopped. */
  lemma OneDirection(deltas: seq<Delta>)
    requires NoFinish(deltas)
    requires || (forall i :: 0 <= i < |deltas| ==> deltas[i].amount >= 0.0)
             || (forall i :: 0 <= i < |deltas| ==> deltas[i].amount <= 0.0)
    ensures Gesture(0.0, deltas).steps == Trunc(Sum(deltas) / 24.0)
  {
    hide Gesture, Sum, Trunc;
    if forall i :: 0 <= i < |deltas| ==> deltas[i].amount >= 0.0 {
      SameSide(0.0, deltas);
    } else {
      SameSide(0.0, Mirrored(deltas));
      Mirror(0.0, deltas);
    }
    RemainderSide(deltas);
  }

  // ---------------------------------------------------------------------
  // When chopping shows
  // ---------------------------------------------------------------------

  /** The pixels of the first `i` deltas. */
  function Total(deltas: seq<Delta>, i: nat): real
    requires i <= |deltas|
  {
    if i == 0 then 0.0 else Total(deltas, i - 1) + deltas[i - 1].amount
  }

  lemma {:induction false} TotalOfFront(deltas: seq<Delta>, more: seq<Delta>, i: nat)
    requires i <= |deltas|
    ensures Total(deltas + more, i) == Total(deltas, i)
  {
    if i > 0 {
      TotalOfFront(deltas, more, i - 1);
    }
  }

  lemma {:induction false} TotalIsSum(deltas: seq<Delta>, i: nat)
    requires i <= |deltas|
    ensures Total(deltas, i) + Sum(deltas[i..]) == Sum(deltas)
  {
    if i == 0 {
      assert deltas[0..] == deltas;
    } else {
      TotalIsSum(deltas, i - 1);
      assert deltas[i - 1..][0] == deltas[i - 1] && deltas[i - 1..][1..] == deltas[i..];
    }
  }

  /** Some running total reached step `m + 1`, and none since fell back to step `m`. */
  ghost predicate Climbs(deltas: seq<Delta>, m: nat) {
    exists i :: 0 <= i <= |deltas| && StaysFrom(deltas, m, i)
  }

  ghost predicate StaysFrom(deltas: seq<Delta>, m: nat, i: nat)
    requires i <= |deltas|
  {
    Total(deltas, i) >= 24.0 * (m + 1) as real && forall j :: i <= j <= |deltas| ==> Total(deltas, j) > 24.0 * m as real
  }

  lemma ClimbsMore(front: seq<Delta>, d: Delta, m: nat)
    ensures var deltas := front + [d]; var total := Total(deltas, |deltas|);
            Climbs(deltas, m) <==> total > 24.0 * m as real && (total >= 24.0 * (m + 1) as real || Climbs(front, m))
  {
    hide Total;
    var deltas := front + [d];
    var n := |deltas|;
    forall j | 0 <= j <= |front| ensures Total(deltas, j) == Total(front, j) {
      TotalOfFront(front, [d], j);
    }
    if Climbs(deltas, m) {
      var i :| 0 <= i <= n && StaysFrom(deltas, m, i);
      if i <= |front| {
        assert StaysFrom(front, m, i);
      }
    }
    if Total(deltas, n) > 24.0 * m as real && Climbs(front, m) {
      var i :| 0 <= i <= |front| && StaysFrom(front, m, i);
      assert StaysFrom(deltas, m, i);
    }
    if Total(deltas, n) >= 24.0 * (m + 1) as real {
      assert StaysFrom(deltas, m, n);
    }
  }

  lemma {:induction false} GestureSnoc(remainder: real, deltas: seq<Delta>, d: Delta)
    ensures var t := Gesture(remainder, deltas); var u := ScrollSteps(t.remainder + d.amount, d.finish);
            Gesture(remainder, deltas + [d]) == Taken(t.steps + u.steps, u.remainder)
    decreases |deltas|
  {
    hide ScrollSteps;
    var longer := deltas + [d];
    if deltas == [] {
      assert longer[1..] == [];
    } else {
      assert longer[1..] == deltas[1..] + [d];
      GestureSnoc(ScrollSteps(remainder + deltas[0].amount, deltas[0].finish).remainder, deltas[1..], d);
    }
  }

  /** One delta takes the steps past `m` or back only when the total reaches step `m + 1` or `m`. */
  lemma StepsFollowTotal(total: real, steps: int, remainder: real, d: real, m: nat)
    requires total == 24.0 * steps as real + remainder && Abs(remainder) < 24.0
    ensures var now, after := total + d, steps + ScrollSteps(remainder + d, false).steps;
            after > m <==> now > 24.0 * m as real && (now >= 24.0 * (m + 1) as real || steps > m)
  {
    hide ScrollSteps;
    var t := ScrollSteps(remainder + d, false);
    TakenExactly(remainder + d);
    assert total + d == 24.0 * (steps + t.steps) as real + t.remainder;
  }

  lemma {:induction false} StepsClimb(deltas: seq<Delta>, m: nat)
    requires NoFinish(deltas)
    ensures Gesture(0.0, deltas).steps > m <==> Climbs(deltas, m)
    decreases |deltas|
  {
    hide ScrollSteps, Gesture, Climbs;
    if deltas == [] {
      NothingClimbs(m);
    } else {
      var n := |deltas| - 1;
      var front, d := deltas[..n], deltas[n];
      assert deltas == front + [d];
      StepsClimb(front, m);
      GestureSnoc(0.0, front, d);
      GestureKeepsAll(front);
      TotalIsSum(front, n);
      assert front[n..] == [];
      TotalOfFront(front, [d], n);
      ClimbsMore(front, d, m);
      var t := Gesture(0.0, front);
      StepsFollowTotal(Total(front, n), t.steps, t.remainder, d.amount, m);
    }
  }

  lemma NothingClimbs(m: nat)
    ensures Gesture(0.0, []).steps <= m && !Climbs([], m)
  {
  }

  /** The steps of the truncated total, of a gesture that ends up at or above zero. */
  function Whole(total: real): nat
    requires total >= 0.0
  {
    (total / 24.0).Floor
  }

  /** The gesture went a step further than its total, and has not come back. */
  ghost predicate Overshoots(deltas: seq<Delta>) {
    if Sum(deltas) >= 0.0 then Climbs(deltas, Whole(Sum(deltas))) else Climbs(Mirrored(deltas), Whole(-Sum(deltas)))
  }

  lemma UpwardGesture(deltas: seq<Delta>)
    requires NoFinish(deltas) && Sum(deltas) >= 0.0
    ensures Gesture(0.0, deltas).steps == Whole(Sum(deltas)) <==> !Climbs(deltas, Whole(Sum(deltas)))
  {
    hide Gesture, Climbs, Sum;
    var total, t := Sum(deltas), Gesture(0.0, deltas);
    GestureKeepsAll(deltas);
    StepsClimb(deltas, Whole(total));
    var q := total / 24.0;
    assert q * 24.0 == total;
  }

  lemma {:induction false} MirroredSum(deltas: seq<Delta>)
    ensures Sum(Mirrored(deltas)) == -Sum(deltas)
  {
    if deltas != [] {
      assert Mirrored(deltas)[1..] == Mirrored(deltas[1..]);
      MirroredSum(deltas[1..]);
    }
  }

  /**
    A gesture scrolls by its truncated total, however it is chopped, if and only if it does not
    overshoot: no running total reached the next step without a later one falling back to this one.
  */
  lemma ChoppingInvisible(deltas: seq<Delta>)
    requires NoFinish(deltas)
    ensures Gesture(0.0, deltas).steps == Trunc(Sum(deltas) / 24.0) <==> !Overshoots(deltas)
  {
    hide Gesture, Climbs, Sum;
    if Sum(deltas) >= 0.0 {
      UpwardGesture(deltas);
    } else {
      MirroredSum(deltas);
      UpwardGesture(Mirrored(deltas));
      Mirror(0.0, deltas);
      assert -Sum(deltas) / 24.0 == -(Sum(deltas) / 24.0);
    }
  }

  /** A change of direction shows: 30 pixels down and 10 back scroll one step, 20 at once none. */
  lemma DirectionMatters()
    ensures Gesture(0.0, [Delta(30.0, false), Delta(-10.0, false)]).steps == 1
    ensures Gesture(0.0, [Delta(20.0, false)]).steps == 0
  {
    var two, one := [Delta(30.0, false), Delta(-10.0, false)], [Delta(20.0, false)];
    assert two[1..] == [Delta(-10.0, false)] && two[1..][1..] == [] && one[1..] == [];
    assert ScrollSteps(30.0, false) == Taken(1, 6.0);
    assert ScrollSteps(-4.0, false) == Taken(0, -4.0);
    assert Gesture(6.0, two[1..]).steps == 0;
  }

  /** A finishing call keeps every pixel exactly when it has at most three, or just one step, to deal with. */
  lemma FinishKeepsAll(remainder: real)
    ensures var t := ScrollSteps(remainder, true);
            remainder == 24.0 * t.steps as real + t.remainder <==> Abs(remainder) <= 3.0 || Abs(remainder) == 24.0
  {
    if Abs(remainder) <= 3.0 {
      StepConserves(remainder, true);
    }
  }

  /** Finishing with more than three pixels left scrolls one step that way and forgets the rest; with less it changes nothing. */
  lemma FinishIsOneStep(remainder: real)
    ensures remainder > 3.0 ==> ScrollSteps(remainder, true) == Taken(1, 0.0)
    ensures remainder < -3.0 ==> ScrollSteps(remainder, true) == Taken(-1, 0.0)
    ensures -3.0 <= remainder <= 3.0 ==> ScrollSteps(remainder, true) == Taken(0, remainder)
  {
    var q := remainder / 24.0;
    assert q * 24.0 == remainder;
  }

  // ---------------------------------------------------------------------
  // The backends
  // ---------------------------------------------------------------------

  datatype Wheel = Vertical | Horizontal

  /** A wheel event with its high-resolution twin. */
  datatype Event = Rel(wheel: Wheel, detents: int) | HiRes(wheel: Wheel, units: int) | Syn

  function WheelEvents(wheel: Wheel, detents: int): seq<Event> {
    if detents == 0 then [] else [Rel(wheel, detents), HiRes(wheel, 120 * detents)]
  }

  function Detents(log: seq<Event>, wheel: Wheel): int {
    if log == [] then 0
    else
      var e := log[|log| - 1];
      Detents(log[..|log| - 1], wheel) + if e.Rel? && e.wheel == wheel then e.detents else 0
  }

  /** The same scroll in the finer unit of 1/120 detent. */
  function FineUnits(log: seq<Event>, wheel: Wheel): int {
    if log == [] then 0
    else
      var e := log[|log| - 1];
      FineUnits(log[..|log| - 1], wheel) + if e.HiRes? && e.wheel == wheel then e.units else 0
  }

  lemma FineSnoc(log: seq<Event>, e: Event, wheel: Wheel)
    ensures FineUnits(log + [e], wheel) == FineUnits(log, wheel) + if e.HiRes? && e.wheel == wheel then e.units else 0
  {
    assert (log + [e])[..|log|] == log;
  }

  lemma FineWheel(log: seq<Event>, wheel: Wheel, detents: int, w: Wheel)
    ensures FineUnits(log + WheelEvents(wheel, detents), w) == FineUnits(log, w) + if w == wheel then 120 * detents else 0
  {
    hide FineUnits;
    var rel, hi := Rel(wheel, detents), HiRes(wheel, 120 * detents);
    FineSnoc(log, rel, w);
    FineSnoc(log + [rel], hi, w);
    assert log + [] == log;
    assert log + [rel] + [hi] == log + [rel, hi];
  }

  /** Both units tell the same story on each wheel. */
  ghost predicate UnitsAgree(log: seq<Event>) {
    forall w: Wheel :: FineUnits(log, w) == 120 * Detents(log, w)
  }

  lemma WheelKeepsAgreement(log: seq<Event>, wheel: Wheel, detents: int)
    requires UnitsAgree(log)
    ensures UnitsAgree(log + WheelEvents(wheel, detents))
  {
    hide FineUnits, Detents, WheelEvents;
    WheelDetents(log, wheel, detents);
    forall w: Wheel ensures FineUnits(log + WheelEvents(wheel, detents), w) == 120 * Detents(log + WheelEvents(wheel, detents), w) {
      FineWheel(log, wheel, detents, w);
    }
  }

  lemma SynKeepsAgreement(log: seq<Event>)
    requires UnitsAgree(log)
    ensures UnitsAgree(log + [Syn])
  {
    hide FineUnits, Detents;
    forall w: Wheel ensures FineUnits(log + [Syn], w) == 120 * Detents(log + [Syn], w) {
      FineSnoc(log, Syn, w);
      DetentsSnoc(log, Syn, w);
    }
  }

  class ScrollBackend {
    var scrollX: real
    var scrollY: real
    var log: seq<Event>

    constructor ()
      ensures scrollX == scrollY == 0.0 && log == []
    {
      scrollX, scrollY, log := 0.0, 0.0, [];
    }

    /** The uinput backend writes every detent, in one report. */
    method ScrollUinput(dx: real, dy: real, finish: bool)
      modifies this
      ensures var (h, v) := (TakeScrollDetents(old(scrollX) + dx, finish), TakeScrollDetents(old(scrollY) + dy, finish));
              && scrollX == h.remainder && scrollY == v.remainder
              && log == old(log) + WheelEvents(Vertical, v.steps) + WheelEvents(Horizontal, h.steps) +
                        if h.steps == 0 && v.steps == 0 then [] else [Syn]
      ensures UnitsAgree(old(log)) ==> UnitsAgree(log)
      ensures Detents(log, Vertical) == Detents(old(log), Vertical) + TakeScrollDetents(old(scrollY) + dy, finish).steps
      ensures Detents(log, Horizontal) == Detents(old(log), Horizontal) + TakeScrollDetents(old(scrollX) + dx, finish).steps
    {
      hide TakeScrollDetents, Detents, UnitsAgree, WheelEvents;
      NoDetents();
      var h := TakeScrollDetents(scrollX + dx, finish);
      var v := TakeScrollDetents(scrollY + dy, finish);
      scrollX, scrollY := h.remainder, v.remainder;
      if h.steps == 0 && v.steps == 0 {
        return;
      }
      WheelDetents(log, Vertical, v.steps);
      if UnitsAgree(old(log)) {
        WheelKeepsAgreement(log, Vertical, v.steps);
        WheelKeepsAgreement(log + WheelEvents(Vertical, v.steps), Horizontal, h.steps);
        SynKeepsAgreement(log + WheelEvents(Vertical, v.steps) + WheelEvents(Horizontal, h.steps));
      }
      if v.steps != 0 {
        log := log + WheelEvents(Vertical, v.steps);
      }
      WheelDetents(log, Horizontal, h.steps);
      if h.steps != 0 {
        log := log + WheelEvents(Horizontal, h.steps);
      }
      DetentsSnoc(log, Syn, Vertical);
      DetentsSnoc(log, Syn, Horizontal);
      log := log + [Syn];
    }

    /**
      The Hyprland backend sends at most twelve steps per call and forgets the rest. `flushed` is the
      outcome of the pointer flush in front, `accepts` how many shortcuts are sent before one fails.
    */
    method ScrollHyprland(dx: real, dy: real, finish: bool, flushed: bool, accepts: nat)
      returns (vertical: int, horizontal: int, ok: bool)
      modifies this`scrollX, this`scrollY
      ensures !flushed ==> scrollX == old(scrollX) && scrollY == old(scrollY) && vertical == horizontal == 0 && !ok
      ensures flushed ==>
                var (h, v) := (ScrollSteps(old(scrollX) + dx, finish), ScrollSteps(old(scrollY) + dy, finish));
                && scrollX == h.remainder && scrollY == v.remainder
                && vertical == Towards(v.steps, Least(12, accepts))
                && Size(vertical) <= accepts && horizontal == Towards(h.steps, Least(12, accepts - Size(vertical)))
                && ok == (Size(Towards(v.steps, 12)) + Size(Towards(h.steps, 12)) <= accepts)
                && (ok ==> vertical == Towards(v.steps, 12) && horizontal == Towards(h.steps, 12))
    {
      vertical, horizontal, ok := 0, 0, false;
      if !flushed {
        return;
      }
      hide ScrollSteps;
      var h := ScrollSteps(scrollX + dx, finish);
      var v := ScrollSteps(scrollY + dy, finish);
      scrollX, scrollY := h.remainder, v.remainder;
      vertical, ok := SendShortcuts(v.steps, accepts);
      if ok {
        horizontal, ok := SendShortcuts(h.steps, accepts - Size(vertical));
      }
    }

    /** Up to twelve shortcuts in the direction of `steps`; the first failure ends the loop. */
    static method SendShortcuts(steps: int, accepts: nat) returns (sent: int, ok: bool)
      ensures sent == Towards(steps, Least(12, accepts)) && Size(sent) <= accepts
      ensures ok == (Size(Towards(steps, 12)) <= accepts)
    {
      sent, ok := 0, true;
      var times := Least(Size(steps), 12);
      for i := 0 to times
        invariant sent == if steps > 0 then i else -i
        invariant i <= accepts && ok
      {
        if i == accepts {
          ok := false;
          return;
        }
        sent := if steps > 0 then sent + 1 else sent - 1;
      }
    }
  }

  function Least(a: nat, b: nat): nat {
    if a < b then a else b
  }

  function Size(n: int): nat {
    if n < 0 then -n else n
  }

  /** `steps`, or `most` of them in the same direction. */
  function Towards(steps: int, most: nat): int {
    if steps > 0 then Least(steps, most) else -(Least(-steps, most) as int)
  }

  /** All steps if there are no more than `most`, that many in the same direction otherwise. */
  lemma TowardsExactly(steps: int, most: nat)
    ensures -(most as int) <= steps <= most ==> Towards(steps, most) == steps
    ensures steps > most ==> Towards(steps, most) == most
    ensures steps < -(most as int) ==> Towards(steps, most) == -(most as int)
    ensures 0 <= steps ==> Size(steps) == steps && Least(steps, most) <= most && (Least(steps, most) == steps || Least(steps, most) == most)
  {
  }

  lemma NoDetents()
    ensures forall w :: WheelEvents(w, 0) == []
  {
  }

  lemma DetentsSnoc(log: seq<Event>, e: Event, wheel: Wheel)
    ensures Detents(log + [e], wheel) == Detents(log, wheel) + if e.Rel? && e.wheel == wheel then e.detents else 0
  {
    assert (log + [e])[..|log|] == log;
  }

  lemma WheelDetents(log: seq<Event>, wheel: Wheel, detents: int)
    ensures forall w :: Detents(log + WheelEvents(wheel, detents), w) == Detents(log, w) + if w == wheel then detents else 0
  {
    hide Detents;
    var rel, hi := Rel(wheel, detents), HiRes(wheel, 120 * detents);
    assert log + [] == log;
    assert log + [rel] + [hi] == log + [rel, hi];
    forall w ensures Detents(log + [rel, hi], w) == Detents(log, w) + if w == wheel then detents else 0 {
      DetentsSnoc(log, rel, w);
      DetentsSnoc(log + [rel], hi, w);
    }
  }
}
