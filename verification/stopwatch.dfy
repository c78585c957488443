/**
 * dido's Stopwatch (dido/utils/stopwatch.py): a start time, and the time and
 * elapsed time of the last record. The clock is a parameter: every operation
 * that reads `datetime.now()` takes the reading as `now`, in whole ticks.
 * Errors are the RuntimeErrors the class raises.
 */
module Stopwatch {
  import opened Wrappers
  import opened Errors

  /** `_start_dt`, and `_record_dt` with `_record_delta`, which are always set together. */
  datatype Stopwatch = Stopwatch(start: Option<int>, record: Option<(int, int)>)

  const AlreadyStarted := RuntimeError("Stopwatch already started")
  const NotStarted := RuntimeError("Stopwatch NOT started")
  const NoRecord := RuntimeError("No record created")

  /** What every reachable stopwatch satisfies: a record only after a start, with its delta from that start. */
  predicate Valid(w: Stopwatch) {
    (w.start.None? ==> w.record.None?)
    && (w.record.Some? ==> w.record.value.1 == w.record.value.0 - w.start.value)
  }

  /** start_timer: fails on a started stopwatch, otherwise stores the start. */
  function StartTimer(w: Stopwatch, now: int): (r: Result<Stopwatch, Exc>) {
    if w.start.Some? then Err(AlreadyStarted)
    else Ok(w.(start := Some(now)))
  }

  /** __init__: nothing set; with start_now, started at `now`. */
  function New(startNow: bool, now: int): (r: Stopwatch) {
    var w := Stopwatch(None, None);
    if startNow then StartTimer(w, now).value else w
  }

  /** record_time: fails before a start; otherwise stores the record and returns last_record. */
  function RecordTime(w: Stopwatch, now: int): (r: Result<(Stopwatch, (int, int)), Exc>) {
    if w.start.None? then Err(NotStarted)
    else
      var w' := w.(record := Some((now, now - w.start.value)));
      match LastRecord(w')
      case Ok(pair) => Ok((w', pair))
      case Err(e) => Err(e)
  }

  /** The start property. */
  function Start(w: Stopwatch): (r: Option<int>) {
    w.start
  }

  /** last_record: the record and its delta; fails before a start, then before a record. */
  function LastRecord(w: Stopwatch): (r: Result<(int, int), Exc>) {
    if w.start.None? then Err(NotStarted)
    else if w.record.None? then Err(NoRecord)
    else Ok(w.record.value)
  }

  /** from_start: the reading and the time since the start. */
  function FromStart(w: Stopwatch, now: int): (r: Result<(int, int), Exc>) {
    if w.start.None? then Err(NotStarted)
    else Ok((now, now - w.start.value))
  }

  /** from_record: as written, also the time since the start, not since the record. */
  function FromRecord(w: Stopwatch, now: int): (r: Result<(int, int), Exc>) {
    if w.start.None? then Err(NotStarted)
    else Ok((now, now - w.start.value))
  }

  // ------------------------------------------------------------ properties

  /** A new stopwatch is valid; started exactly when asked, at `now`, with no record. */
  lemma NewSpec(startNow: bool, now: int)
    ensures Valid(New(startNow, now))
    ensures Start(New(startNow, now)) == if startNow then Some(now) else None
    ensures LastRecord(New(startNow, now)).Err?
  {
  }

  /**
   * start_timer succeeds exactly on a stopwatch not started yet, sets the
   * start to `now` and touches nothing else; a second start always fails.
   */
  lemma StartTimerSpec(w: Stopwatch, now: int, later: int)
    requires Valid(w)
    ensures StartTimer(w, now).Ok? <==> w.start.None?
    ensures StartTimer(w, now).Err? ==> StartTimer(w, now).error == AlreadyStarted
    ensures StartTimer(w, now).Ok? ==>
      var w' := StartTimer(w, now).value;
      Valid(w') && w'.start == Some(now) && w'.record == w.record
      && StartTimer(w', later) == Err(AlreadyStarted)
  {
  }

  /**
   * record_time fails exactly before a start; otherwise it returns the
   * reading and the time since the start, keeps the start, and last_record
   * then returns the same pair.
   */
  lemma RecordTimeSpec(w: Stopwatch, now: int)
    requires Valid(w)
    ensures RecordTime(w, now).Err? <==> w.start.None?
    ensures RecordTime(w, now).Err? ==> RecordTime(w, now).error == NotStarted
    ensures RecordTime(w, now).Ok? ==>
      var (w', pair) := RecordTime(w, now).value;
      Valid(w') && w'.start == w.start && pair == (now, now - w.start.value)
      && LastRecord(w') == Ok(pair)
  {
  }

  /** A new record replaces the previous one. */
  lemma RecordOverrides(w: Stopwatch, t1: int, t2: int)
    requires Valid(w) && w.start.Some?
    ensures RecordTime(w, t1).Ok?
    ensures RecordTime(RecordTime(w, t1).value.0, t2).Ok?
    ensures LastRecord(RecordTime(RecordTime(w, t1).value.0, t2).value.0) == Ok((t2, t2 - w.start.value))
  {
  }

  /** last_record succeeds exactly after a start and a record, with the delta from that start. */
  lemma LastRecordSpec(w: Stopwatch)
    requires Valid(w)
    ensures LastRecord(w).Ok? <==> w.start.Some? && w.record.Some?
    ensures w.start.None? ==> LastRecord(w) == Err(NotStarted)
    ensures w.start.Some? && w.record.None? ==> LastRecord(w) == Err(NoRecord)
    ensures LastRecord(w).Ok? ==> LastRecord(w).value.1 == LastRecord(w).value.0 - w.start.value
  {
  }

  /** from_start fails exactly before a start, and otherwise measures from it. */
  lemma FromStartSpec(w: Stopwatch, now: int)
    ensures FromStart(w, now).Err? <==> Start(w).None?
    ensures FromStart(w, now).Ok? ==> FromStart(w, now).value.0 - FromStart(w, now).value.1 == Start(w).value
  {
  }

  /**
   * from_record gives what from_start gives, whatever the last record: two
   * stopwatches with the same start agree on it.
   */
  lemma FromRecordIsFromStart(w: Stopwatch, v: Stopwatch, now: int)
    requires w.start == v.start
    ensures FromRecord(w, now) == FromStart(w, now)
    ensures FromRecord(w, now) == FromRecord(v, now)
  {
  }

  /** The calls a client makes, each with the clock reading it sees. */
  datatype Call = Begin(now: int) | Mark(now: int)

  /** Run calls in order, stopping at the first RuntimeError. */
  function Run(w: Stopwatch, calls: seq<Call>): (r: Result<Stopwatch, Exc>)
    decreases |calls|
  {
    if calls == [] then Ok(w)
    else
      var step := match calls[0]
        case Begin(t) => StartTimer(w, t)
        case Mark(t) => match RecordTime(w, t) case Ok((w', _)) => Ok(w') case Err(e) => Err(e);
      match step
      case Ok(w') => Run(w', calls[1..])
      case Err(e) => Err(e)
  }

  /**
   * Every run keeps the stopwatch valid and never moves its start once
   * set, so every delta is measured from the first start.
   */
  lemma {:induction false} RunKeepsStart(w: Stopwatch, calls: seq<Call>)
    requires Valid(w)
    ensures Run(w, calls).Ok? ==> Valid(Run(w, calls).value)
    ensures Run(w, calls).Ok? && w.start.Some? ==> Run(w, calls).value.start == w.start
    decreases |calls|
  {
    if calls != [] {
      match calls[0]
      case Begin(t) =>
        if StartTimer(w, t).Ok? {
          RunKeepsStart(StartTimer(w, t).value, calls[1..]);
        }
      case Mark(t) =>
        if RecordTime(w, t).Ok? {
          RecordTimeSpec(w, t);
          RunKeepsStart(RecordTime(w, t).value.0, calls[1..]);
        }
    }
  }
}
