/**
 * The common interface of the rep counters: handle a pose, reset, read the
 * count. A counter is one of the two concrete machines together with its
 * configuration; the interface operations dispatch on it.
 */
module MotionCounter {
  import opened Landmarks
  import HeelRaise
  import Squat

  datatype Counter =
    | HeelRaiseCounter(cfg: HeelRaise.Config, heel: HeelRaise.State)
    | SquatCounter(maxCount: int, squat: Squat.State)

  /** A freshly constructed heel-raise counter. */
  function NewHeelRaiseCounter(cfg: HeelRaise.Config): Counter
  {
    HeelRaiseCounter(cfg, HeelRaise.Initial)
  }

  /** A freshly constructed squat counter. */
  function NewSquatCounter(maxCount: int): Counter
  {
    SquatCounter(maxCount, Squat.Initial)
  }

  /** The cap the counter was constructed with. */
  function MaxCount(c: Counter): int
  {
    match c
    case HeelRaiseCounter(cfg, _) => cfg.maxCount
    case SquatCounter(maxCount, _) => maxCount
  }

  /** The current count; a freshly constructed counter reads 0. */
  function GetCount(c: Counter): (count: int)
    ensures c.SquatCounter? && c == NewSquatCounter(c.maxCount) ==> count == 0
    ensures c.HeelRaiseCounter? && c == NewHeelRaiseCounter(c.cfg) ==> count == 0
  {
    match c
    case HeelRaiseCounter(_, s) => s.count
    case SquatCounter(_, s) => s.count
  }

  /** Handle one frame. */
  function OnPoseDetected(c: Counter, f: Frame): (r: Counter)
    ensures r.HeelRaiseCounter? == c.HeelRaiseCounter? && MaxCount(r) == MaxCount(c)
    ensures GetCount(c) >= MaxCount(c) ==> r == c
    ensures GetCount(r) == GetCount(c) || GetCount(r) == GetCount(c) + 1
  {
    match c
    case HeelRaiseCounter(cfg, s) => HeelRaiseCounter(cfg, HeelRaise.Step(cfg, s, f))
    case SquatCounter(maxCount, s) => SquatCounter(maxCount, Squat.Step(maxCount, s, f))
  }

  /** Reset the counter; its configuration is kept. */
  function Reset(c: Counter): (r: Counter)
    ensures r.HeelRaiseCounter? == c.HeelRaiseCounter? && MaxCount(r) == MaxCount(c)
    ensures GetCount(r) == 0
    ensures c.SquatCounter? ==> r == NewSquatCounter(c.maxCount)
    ensures c.HeelRaiseCounter? ==> HeelRaise.Equivalent(r.heel, NewHeelRaiseCounter(c.cfg).heel)
  {
    match c
    case HeelRaiseCounter(cfg, s) => HeelRaiseCounter(cfg, HeelRaise.Reset(s))
    case SquatCounter(maxCount, s) => SquatCounter(maxCount, Squat.Reset(s))
  }

  /** The counter after handling `frames` in order. */
  function Run(c: Counter, frames: seq<Frame>): Counter
    decreases |frames|
  {
    if |frames| == 0 then c else Run(OnPoseDetected(c, frames[0]), frames[1..])
  }

  function Max0(n: int): nat
  {
    if n < 0 then 0 else n
  }

  /**
   * From any count between 0 and the cap (a fresh or reset counter has 0), the
   * count never decreases, never passes max(0, maxCount), and grows by at most
   * one per frame.
   */
  lemma {:induction false} RunCountMonotoneAndCapped(c: Counter, frames: seq<Frame>)
    requires 0 <= GetCount(c) <= Max0(MaxCount(c))
    ensures GetCount(c) <= GetCount(Run(c, frames)) <= Max0(MaxCount(c))
    ensures GetCount(Run(c, frames)) <= GetCount(c) + |frames|
    ensures MaxCount(Run(c, frames)) == MaxCount(c)
    decreases |frames|
  {
    if |frames| > 0 {
      RunCountMonotoneAndCapped(OnPoseDetected(c, frames[0]), frames[1..]);
    }
  }
}
