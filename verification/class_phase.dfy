/** `getClassStatus`: the temporal phase of a class, derived from its start
    and end instants and the current instant (all in milliseconds). */
module ClassPhase {

  datatype Phase = NotStarted | InProgress | Finished {
    /** Position of the phase in a class's life. */
    function Rank(): nat {
      match this
      case NotStarted => 0
      case InProgress => 1
      case Finished => 2
    }
  }

  function GetClassStatus(start: int, end: int, now: int): (p: Phase)
    ensures p == NotStarted <==> now < start
    ensures p == InProgress <==> start <= now < end
    ensures p == Finished <==> start <= now && end <= now
  {
    if now < start then NotStarted
    else if now >= start && now < end then InProgress
    else Finished
  }

  /** The start instant itself already belongs to the running class. */
  lemma StartInstantIsInProgress(start: int, end: int)
    requires start < end
    ensures GetClassStatus(start, end, start) == InProgress
  {
  }

  /** A class whose window is empty or inverted is never reported running. */
  lemma EmptyWindowNeverInProgress(start: int, end: int, now: int)
    requires end <= start
    ensures GetClassStatus(start, end, now) != InProgress
  {
  }

  /** For a proper window the phase only moves forward as time passes:
      not-started, then in-progress, then finished. */
  lemma PhaseMonotone(start: int, end: int, t1: int, t2: int)
    requires t1 <= t2
    ensures GetClassStatus(start, end, t1).Rank() <= GetClassStatus(start, end, t2).Rank()
  {
  }
}
