/**
 * The sequential core of the ECAM driver front end: classifying a monitor
 * state into a coarse status, the reference count of parties waiting for
 * status updates, and the one-way `alive` flag.
 */
module Ecam {
  import opened Base

  /**
   * The machine state as the status logic sees it. Only stand-by and
   * ready-or-dispensing are told apart; every other state is `Other`,
   * identified by its code.
   */
  datatype EcamMachineState = StandBy | ReadyOrDispensing | Other(code: byte)

  /** The part of a monitor state the status logic reads. */
  datatype MonitorState = MonitorState(state: EcamMachineState, progress: byte)

  datatype EcamError = Unknown

  datatype EcamStatus = Unknown | StandBy | Ready | Busy
  {
    /**
     * Stand-by whenever the machine is in stand-by, whatever the progress;
     * ready when it is ready-or-dispensing with no progress; busy otherwise.
     * `Unknown` is never the result.
     */
    static function Extract(state: MonitorState): (s: EcamStatus)
      ensures s != EcamStatus.Unknown
      ensures s == EcamStatus.StandBy <==> state.state == EcamMachineState.StandBy
      ensures s == Ready <==> state.state == ReadyOrDispensing && state.progress == 0
      ensures s == Busy <==> state.state != EcamMachineState.StandBy
                             && !(state.state == ReadyOrDispensing && state.progress == 0)
    {
      if state.state == EcamMachineState.StandBy then EcamStatus.StandBy
      else if state.state == ReadyOrDispensing && state.progress == 0 then Ready
      else Busy
    }

    /** Whether this status is the one the monitor state classifies as. */
    function Matches(state: MonitorState): (b: bool)
      ensures b ==> this != EcamStatus.Unknown
      ensures b <==> this == Extract(state)
    {
      this == Extract(state)
    }
  }

  /** Whether an observed status value is present and matches `status`. */
  predicate Seen(observed: Option<MonitorState>, status: EcamStatus)
  {
    observed.Some? && status.Matches(observed.value)
  }

  /** At most one status matches any monitor state. */
  lemma AtMostOneMatches(state: MonitorState, s: EcamStatus, t: EcamStatus)
    requires s.Matches(state) && t.Matches(state)
    ensures s == t
  {
  }

  /** Some status always matches: the classification is total. */
  lemma SomeStatusMatches(state: MonitorState)
    ensures EcamStatus.StandBy.Matches(state) || Ready.Matches(state) || Busy.Matches(state)
  {
  }

  /**
   * The shared counter of status interest (an `Arc<Mutex<usize>>` in the
   * driver): its value and, as ghost state, the live handles it counts.
   */
  class InterestCount {
    var value: nat
    ghost var holders: set<object>

    /** The count is the number of live handles. */
    ghost predicate Valid()
      reads this
    {
      value == |holders|
    }

    constructor ()
      ensures Valid() && value == 0 && holders == {}
    {
      value := 0;
      holders := {};
    }
  }

  /** A claim on the status updates; dropping it releases the claim. */
  class StatusInterestHandle {
    const count: InterestCount

    constructor (count: InterestCount)
      ensures this.count == count
    {
      this.count := count;
    }

    /** Dropping the handle takes exactly one off the shared count. */
    method Drop()
      requires count.Valid() && this in count.holders
      modifies count
      ensures count.Valid()
      ensures count.holders == old(count.holders) - {this}
      ensures count.value == old(count.value) - 1
    {
      count.holders := count.holders - {this};
      count.value := count.value - 1;
    }
  }

  /** The number of parties currently interested in status updates. */
  class StatusInterest {
    const count: InterestCount

    /** No interest at first. */
    constructor ()
      ensures fresh(count) && count.Valid() && count.value == 0 && count.holders == {}
    {
      count := new InterestCount();
    }

    /** Registers one more interest and hands out a handle on the same counter. */
    method Lock() returns (h: StatusInterestHandle)
      requires count.Valid()
      modifies count
      ensures fresh(h) && h.count == count
      ensures count.Valid()
      ensures count.holders == old(count.holders) + {h}
      ensures count.value == old(count.value) + 1
    {
      h := new StatusInterestHandle(count);
      count.value := count.value + 1;
      count.holders := count.holders + {h};
    }

    /** The current count: the number of live handles. */
    function Count(): (n: nat)
      reads this, count
      requires count.Valid()
      ensures n == |count.holders|
    {
      count.value
    }
  }

  /**
   * The driver's front end: its liveness flag and its status interest. The
   * flag only ever goes from alive to dead: `Deaden` and `Drop` clear it,
   * every other method keeps it.
   */
  class Ecam {
    var alive: bool
    const interest: StatusInterest

    /** The interest count is the number of live handles on it. */
    ghost predicate Valid()
      reads interest.count
    {
      interest.count.Valid()
    }

    /** A new driver is alive and nobody is interested in its status yet. */
    constructor ()
      ensures Valid() && alive
      ensures fresh(interest) && fresh(interest.count)
      ensures interest.count.value == 0
    {
      alive := true;
      interest := new StatusInterest();
    }

    method IsAlive() returns (b: bool)
      ensures b == alive
    {
      b := alive;
    }

    /** Marks the driver dead; nothing sets it alive again. */
    method Deaden()
      modifies this
      ensures !alive && unchanged(interest.count)
    {
      alive := false;
    }

    /** Dropping the driver deadens it. */
    method Drop()
      modifies this
      ensures !alive && unchanged(interest.count)
    {
      Deaden();
    }

    /**
     * Waits for the machine to reach `status`, holding a status interest
     * meanwhile. `observed` is the sequence of last-status values seen, the
     * current one first; it ends when the status channel closes, which is
     * an error. The interest is released on both paths.
     */
    method WaitForState(status: EcamStatus, observed: seq<Option<MonitorState>>)
      returns (r: Result<(), EcamError>)
      requires Valid()
      modifies interest.count
      ensures r.Ok? <==> exists i :: 0 <= i < |observed| && Seen(observed[i], status)
      ensures Valid() && alive == old(alive)
      ensures interest.count.holders == old(interest.count.holders)
      ensures interest.count.value == old(interest.count.value)
    {
      var h := interest.Lock();
      var k := 0;
      while k < |observed|
        invariant k <= |observed|
        invariant forall i :: 0 <= i < k ==> !Seen(observed[i], status)
        invariant interest.count.Valid()
        invariant interest.count.holders == old(interest.count.holders) + {h}
        invariant h !in old(interest.count.holders)
        invariant interest.count.value == old(interest.count.value) + 1
      {
        if observed[k].Some? && status.Matches(observed[k].value) {
          h.Drop();
          return Ok(());
        }
        k := k + 1;
      }
      h.Drop();
      return Err(EcamError.Unknown);
    }

    /**
     * The current status, holding a status interest meanwhile: the
     * classification of the last status, or an error when none has been
     * received.
     */
    method CurrentState(last: Option<MonitorState>) returns (r: Result<EcamStatus, EcamError>)
      requires Valid()
      modifies interest.count
      ensures last.Some? ==> r == Ok(EcamStatus.Extract(last.value))
      ensures last.None? ==> r == Err(EcamError.Unknown)
      ensures Valid() && alive == old(alive)
      ensures interest.count.holders == old(interest.count.holders)
      ensures interest.count.value == old(interest.count.value)
    {
      var h := interest.Lock();
      if last.Some? {
        r := Ok(EcamStatus.Extract(last.value));
      } else {
        r := Err(EcamError.Unknown);
      }
      h.Drop();
    }
  }
}
