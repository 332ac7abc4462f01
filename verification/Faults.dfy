/**
 What the operating system answers when the program asks for memory, writes to its
 file or closes it. The answers are an input: a schedule that is used up one
 request at a time, after which everything is granted. A method that reports a
 failure must therefore have met a fault that was on the schedule.
 */
module Faults {

  // A request is granted in full, or only as far as stated.
  datatype Outcome = Granted | Limited(most: nat)

  function Within(outcome: Outcome, wanted: nat): (r: nat)
    ensures r <= wanted
  {
    if outcome.Limited? && outcome.most < wanted then outcome.most else wanted
  }

  function First(schedule: seq<Outcome>): Outcome {
    if schedule == [] then Granted else schedule[0]
  }

  function Later(schedule: seq<Outcome>): seq<Outcome> {
    if schedule == [] then [] else schedule[1..]
  }

  /** How many faults are still to come. */
  ghost function FaultsIn(schedule: seq<Outcome>): nat {
    if schedule == [] then 0 else (if schedule[0].Granted? then 0 else 1) + FaultsIn(schedule[1..])
  }

  lemma {:induction false} OneOutcome(schedule: seq<Outcome>)
    ensures FaultsIn(schedule) == (if First(schedule).Granted? then 0 else 1) + FaultsIn(Later(schedule))
  {
  }

  class OperatingSystem {
    var schedule: seq<Outcome>

    ghost function Faults(): nat
      reads this
    {
      FaultsIn(schedule)
    }

    constructor (schedule: seq<Outcome>)
      ensures this.schedule == schedule
    {
      this.schedule := schedule;
    }

    /** The answer to the next request. */
    method Ask() returns (outcome: Outcome)
      modifies this
      ensures outcome == First(old(schedule)) && schedule == Later(old(schedule))
      ensures Faults() == old(Faults()) - if outcome.Granted? then 0 else 1
    {
      OneOutcome(schedule);
      outcome := First(schedule);
      schedule := Later(schedule);
    }
  }
}
