/** The objects of include/sched.h that the run queue links together. */
module Entities {
  import opened Fixed

  datatype Side = Left | Right {
    function Flip(): Side { if Left? then Right else Left }
  }

  /** `struct sched_entity` with its embedded `struct rb_node` written inline, so that `rb_entry`, which steps from
      the node to the enclosing entity, is the identity, and with the flag and the counter of the enclosing task, so
      that `task_of` is one too. `parent` and `black` are the two halves of the tagged word `__rb_parent_color`. */
  class SchedEntity {
    var parent: SchedEntity?
    var black: bool
    var left: SchedEntity?
    var right: SchedEntity?

    var load: LoadWeight
    var onRq: bool
    var execStart: u64
    var sumExec: u64
    var vruntime: u64
    var prevSum: u64

    var needResched: bool
    var preemptCount: int

    /** A task structure in a zeroed page. */
    constructor ()
      ensures load == LoadWeight(0, 0) && !onRq && execStart == sumExec == vruntime == prevSum == 0 && !needResched
              && preemptCount == 0
    {
      parent, black, left, right := null, false, null, null;
      load, onRq, execStart, sumExec, vruntime, prevSum := LoadWeight(0, 0), false, 0, 0, 0, 0;
      needResched, preemptCount := false, 0;
    }

    function Kid(d: Side): SchedEntity?
      reads this
    {
      if d.Left? then left else right
    }

    method SetKid(d: Side, x: SchedEntity?)
      modifies this`left, this`right
      ensures Kid(d) == x && Kid(d.Flip()) == old(Kid(d.Flip()))
    {
      if d.Left? { left := x; } else { right := x; }
    }
  }
}
