/** The time-slot barrier as its users see it: every attached device works in the current slot,
    then arrives, and the slot changes only when nobody is working any more. `Timer` shows that the
    locks and condition variables of src/timer.c implement exactly this machine. */
module Barrier {

  datatype Dev = Working | Arrived | Detached

  datatype State = State(time: nat, devs: seq<Dev>)

  datatype Event = Arrive(k: nat) | Detach(k: nat) | Tick

  predicate Enabled(s: State, e: Event) {
    match e
    case Arrive(k) => k < |s.devs| && s.devs[k] == Working
    case Detach(k) => k < |s.devs| && s.devs[k] == Working
    case Tick => forall k :: 0 <= k < |s.devs| ==> s.devs[k] != Working
  }

  function Next(s: State, e: Event): State
    requires Enabled(s, e)
  {
    match e
    case Arrive(k) => s.(devs := s.devs[k := Arrived])
    case Detach(k) => s.(devs := s.devs[k := Detached])
    case Tick =>
      State(s.time + 1,
            seq(|s.devs|, k requires 0 <= k < |s.devs| => if s.devs[k] == Arrived then Working else s.devs[k]))
  }

  ghost predicate IsStep(s: State, s': State) {
    exists e :: Enabled(s, e) && s' == Next(s, e)
  }
}
