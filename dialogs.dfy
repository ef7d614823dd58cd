/** The paired sliders of `SlidersGroup`: a "nocheck" slider that must never pass the
    "fixed" slider. Setters take a value in user units and store it scaled by 1000. */
module Dialogs {

  /** Slider positions are user values times this. */
  const Scale := 1000

  /** The positions of the two sliders. */
  datatype SliderPair = SliderPair(nocheck: int, fixed: int)

  predicate Ordered(p: SliderPair)
  {
    p.nocheck <= p.fixed
  }

  /** The positions after `set_fixed_value(value)`. */
  function WithFixed(p: SliderPair, value: int): (r: SliderPair)
    ensures r.fixed == Scale * value
    ensures Ordered(r)
    ensures r.nocheck == p.nocheck || r.nocheck == r.fixed
    ensures p.nocheck <= r.fixed ==> r.nocheck == p.nocheck
  {
    var v := value * Scale;
    SliderPair(if p.nocheck > v then v else p.nocheck, v)
  }

  /** The positions after `set_nocheck_value(value)`. */
  function WithNocheck(p: SliderPair, value: int): (r: SliderPair)
    ensures r.nocheck == Scale * value
    ensures Ordered(r)
    ensures r.fixed == p.fixed || r.fixed == r.nocheck
    ensures r.nocheck <= p.fixed ==> r.fixed == p.fixed
  {
    var v := value * Scale;
    SliderPair(v, if p.fixed < v then v else p.fixed)
  }

  function Distance(a: int, b: int): nat
  {
    if a <= b then b - a else a - b
  }

  /** `set_fixed_value` moves the other slider no further than ordering demands: any
      ordered pair with the same fixed position moves nocheck at least as far. */
  lemma WithFixedMovesLeast(p: SliderPair, value: int, q: SliderPair)
    requires q.fixed == Scale * value && Ordered(q)
    ensures Distance(WithFixed(p, value).nocheck, p.nocheck) <= Distance(q.nocheck, p.nocheck)
  {
  }

  /** `set_nocheck_value` moves the other slider no further than ordering demands. */
  lemma WithNocheckMovesLeast(p: SliderPair, value: int, q: SliderPair)
    requires q.nocheck == Scale * value && Ordered(q)
    ensures Distance(WithNocheck(p, value).fixed, p.fixed) <= Distance(q.fixed, p.fixed)
  {
  }

  /** A setter call on the pair. */
  datatype SliderCall = SetFixed(value: int) | SetNocheck(value: int)

  function Apply(p: SliderPair, calls: seq<SliderCall>): SliderPair
    decreases |calls|
  {
    if |calls| == 0 then p
    else
      var next := match calls[0]
        case SetFixed(v) => WithFixed(p, v)
        case SetNocheck(v) => WithNocheck(p, v);
      Apply(next, calls[1..])
  }

  /** After any non-empty run of setter calls, from any starting positions, the sliders
      are ordered and the last call's slider holds that call's value. */
  lemma {:induction false} ApplyOrdered(p: SliderPair, calls: seq<SliderCall>)
    requires |calls| > 0
    ensures Ordered(Apply(p, calls))
    ensures match calls[|calls| - 1]
      case SetFixed(v) => Apply(p, calls).fixed == Scale * v
      case SetNocheck(v) => Apply(p, calls).nocheck == Scale * v
    decreases |calls|
  {
    var next := match calls[0]
      case SetFixed(v) => WithFixed(p, v)
      case SetNocheck(v) => WithNocheck(p, v);
    if |calls| > 1 {
      ApplyOrdered(next, calls[1..]);
      assert calls[1..][|calls[1..]| - 1] == calls[|calls| - 1];
    }
  }

  /** Two QSliders, each reduced to its position, range and enabled flag. */
  class SlidersGroup {
    var nocheck: int
    var fixed: int
    var nocheckMinimum: int
    var nocheckMaximum: int
    var fixedMinimum: int
    var fixedMaximum: int
    var nocheckEnabled: bool
    var fixedEnabled: bool

    function Values(): SliderPair
      reads this
    {
      SliderPair(nocheck, fixed)
    }

    /** Both sliders start as a fresh QSlider does: at 0, with range 0 to 99, enabled. */
    constructor ()
      ensures Values() == SliderPair(0, 0) && Ordered(Values())
      ensures nocheckMinimum == 0 && fixedMinimum == 0 && nocheckMaximum == 99 && fixedMaximum == 99
      ensures nocheckEnabled && fixedEnabled
    {
      nocheck, fixed := 0, 0;
      nocheckMinimum, fixedMinimum := 0, 0;
      nocheckMaximum, fixedMaximum := 99, 99;
      nocheckEnabled, fixedEnabled := true, true;
    }

    method SetEnabled(value: bool)
      modifies this
      ensures fixedEnabled == value && nocheckEnabled == value
      ensures Values() == old(Values())
      ensures nocheckMinimum == old(nocheckMinimum) && fixedMinimum == old(fixedMinimum)
      ensures nocheckMaximum == old(nocheckMaximum) && fixedMaximum == old(fixedMaximum)
    {
      fixedEnabled := value;
      nocheckEnabled := value;
    }

    method SetFixedValue(value: int)
      modifies this
      ensures Values() == WithFixed(old(Values()), value)
      ensures Ordered(Values())
      ensures fixedEnabled == old(fixedEnabled) && nocheckEnabled == old(nocheckEnabled)
      ensures nocheckMinimum == old(nocheckMinimum) && fixedMinimum == old(fixedMinimum)
      ensures nocheckMaximum == old(nocheckMaximum) && fixedMaximum == old(fixedMaximum)
    {
      var v := value * Scale;
      fixed := v;
      if nocheck > v {
        nocheck := v;
      }
    }

    method SetNocheckValue(value: int)
      modifies this
      ensures Values() == WithNocheck(old(Values()), value)
      ensures Ordered(Values())
      ensures fixedEnabled == old(fixedEnabled) && nocheckEnabled == old(nocheckEnabled)
      ensures nocheckMinimum == old(nocheckMinimum) && fixedMinimum == old(fixedMinimum)
      ensures nocheckMaximum == old(nocheckMaximum) && fixedMaximum == old(fixedMaximum)
    {
      var v := value * Scale;
      nocheck := v;
      if fixed < v {
        fixed := v;
      }
    }

    method SetMinimum(value: int)
      modifies this
      ensures fixedMinimum == Scale * value && nocheckMinimum == Scale * value
      ensures Values() == old(Values())
      ensures fixedEnabled == old(fixedEnabled) && nocheckEnabled == old(nocheckEnabled)
      ensures nocheckMaximum == old(nocheckMaximum) && fixedMaximum == old(fixedMaximum)
    {
      fixedMinimum := value * Scale;
      nocheckMinimum := value * Scale;
    }

    method SetMaximum(value: int)
      modifies this
      ensures fixedMaximum == Scale * value && nocheckMaximum == Scale * value
      ensures Values() == old(Values())
      ensures fixedEnabled == old(fixedEnabled) && nocheckEnabled == old(nocheckEnabled)
      ensures nocheckMinimum == old(nocheckMinimum) && fixedMinimum == old(fixedMinimum)
    {
      fixedMaximum := value * Scale;
      nocheckMaximum := value * Scale;
    }
  }
}
