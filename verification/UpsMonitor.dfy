/** One poll through all three monitors (scripts/x1202-monitor.py, lines 332 to 348). */
module UpsMonitor {
  import opened Options
  import opened UpsTypes
  import FullLearning
  import Shutdown
  import Charging

  datatype StepResult = StepResult(
    decision: Option<Shutdown.Decision>,    // None is the boot grace
    full: Option<real>,
    charging: Option<bool>,
    insufficient: bool,
    events: nat)                            // how many changes of that flag to log

  class Monitor {
    const learner: FullLearning.FullLearner
    const decider: Shutdown.ShutdownDecider
    const charge: Charging.ChargeWatch

    ghost predicate Valid()
      reads this, learner, charge
    {
      learner.Valid() && Charging.Sound(charge.View())
    }

    constructor (learner: FullLearning.FullLearner)
      requires learner.Valid()
      ensures Valid() && this.learner == learner && fresh(decider) && fresh(charge)
      ensures decider.View() == Shutdown.After([]) && charge.View() == Charging.After([])
    {
      this.learner := learner;
      decider := new Shutdown.ShutdownDecider();
      charge := new Charging.ChargeWatch();
    }

    /** The learner sees every poll, then the charge watch with the learner's new
        full point; the decider sees the poll only after the boot grace. */
    method Step(x: Sample, inGrace: bool) returns (r: StepResult)
      requires Valid()
      modifies learner, decider, charge
      ensures Valid()
      ensures learner.View() == FullLearning.Next(old(learner.View()), x)
      ensures charge.View() == Charging.Next(old(charge.View()), x, learner.View().full)
      ensures decider.View() == if inGrace then old(decider.View())
                                else Shutdown.Next(old(decider.View()), Shutdown.Reading(x.voltage, x.soc))
      ensures r == StepResult(
                     if inGrace then None else Some(Shutdown.Decide(old(decider.View()), Shutdown.Reading(x.voltage, x.soc))),
                     learner.View().full, charge.View().charging, charge.View().insufficient,
                     if charge.View().insufficient != old(charge.View()).insufficient then 1 else 0)
    {
      hide FullLearning.Next, Charging.Next, Shutdown.Next, Shutdown.Decide;
      var full := learner.Update(x);
      var events := charge.Update(x, full);
      var decision := None;
      if !inGrace {
        var d := decider.Update(Shutdown.Reading(x.voltage, x.soc));
        decision := Some(d);
      }
      r := StepResult(decision, full, charge.charging, charge.insufficient, events);
    }
  }
}
