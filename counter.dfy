/** The animated statistics counters (`animateCounter`). A counter element shows
    an integer; animating it to a target starts an interval whose every tick
    either moves the shown value by one toward the target or, once the target
    is reached, writes the target and stops. */
module Counter {

  function Distance(a: int, b: int): nat {
    if a <= b then b - a else a - b
  }

  /** The values shown after each moving tick, from `v` to `target`. */
  function StepsToward(v: int, target: int): (r: seq<int>)
    ensures |r| == Distance(v, target)
    decreases Distance(v, target)
  {
    if v == target then []
    else
      var next := if target > v then v + 1 else v - 1;
      [next] + StepsToward(next, target)
  }

  /** The walk takes one step per unit of distance, each step moves by exactly one
      toward the target, no value passes the target, and the walk ends on it. */
  lemma {:induction false} StepsTowardShape(v: int, target: int)
    ensures |StepsToward(v, target)| == Distance(v, target)
    ensures forall i :: 0 <= i < |StepsToward(v, target)| ==>
              StepsToward(v, target)[i] == if target > v then v + i + 1 else v - i - 1
    decreases Distance(v, target)
  {
    if v != target {
      var next := if target > v then v + 1 else v - 1;
      StepsTowardShape(next, target);
    }
  }

  lemma StepsTowardNeverOvershoots(v: int, target: int)
    ensures forall x :: x in StepsToward(v, target) ==>
              (v < x <= target) || (target <= x < v)
    ensures v != target ==> StepsToward(v, target)[|StepsToward(v, target)| - 1] == target
  {
    StepsTowardShape(v, target);
  }

  /** One counter element and the integer it shows. */
  class StatCounter {
    var value: int

    constructor (initial: int)
      ensures value == initial
    {
      value := initial;
    }

    /** Runs the interval of `animateCounter` to completion. `trace` is the
        value written by each tick: nothing when the counter already shows the
        target, otherwise one step per unit of distance and a last tick that
        writes the target again and stops. */
    method AnimateTo(target: int) returns (trace: seq<int>)
      modifies this
      ensures value == target
      ensures old(value) == target ==> trace == []
      ensures old(value) != target ==> trace == StepsToward(old(value), target) + [target]
    {
      trace := [];
      var start := value;
      var increment := if target > value then 1 else -1;
      if value == target {
        return;
      }
      var done := false;
      while !done
        invariant increment == 1 ==> value <= target
        invariant increment == -1 ==> target <= value
        invariant !done ==> trace + StepsToward(value, target) == StepsToward(start, target)
        invariant done ==> value == target && trace == StepsToward(start, target) + [target]
        decreases Distance(value, target) + (if done then 0 else 1)
      {
        var current := value;
        if (increment > 0 && current >= target) || (increment < 0 && current <= target) {
          value := target;
          trace := trace + [target];
          done := true;
        } else {
          value := current + increment;
          trace := trace + [value];
        }
      }
    }
  }
}
