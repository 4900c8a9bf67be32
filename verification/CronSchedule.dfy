// The schedule projection of `serv cron` (cmd_cron.go). Times are nanoseconds; the
// civil calendar, two years' addition and interval parsing are parameters.
module CronSchedule {
  import opened GoInt
  import opened Options
  import opened GoStrings
  import opened CronFields
  import opened CronWritten

  const MINUTE := 60_000_000_000

  /** What a time reads in the local calendar; Sunday is weekday 0. */
  datatype Civil = Civil(minute: int64, hour: int64, day: int64, month: int64, weekday: int64)

  // ----- An expression -----

  ghost predicate CronMatches(fields: seq<string>, c: Civil) {
    && |fields| == 5
    && FieldMatches(fields[0], c.minute, 0, 59)
    && FieldMatches(fields[1], c.hour, 0, 23)
    && FieldMatches(fields[2], c.day, 1, 31)
    && FieldMatches(fields[3], c.month, 1, 12)
    && (FieldMatches(fields[4], c.weekday, 0, 6) || (c.weekday == 0 && FieldMatches(fields[4], 7, 0, 7)))
  }

  /** Matching an expression ends: every field does that is looked at. */
  ghost predicate CronEnds(fields: seq<string>, c: Civil) {
    |fields| == 5 ==>
      && FieldEnds(fields[0], c.minute, 0, 59)
      && (FieldMatches(fields[0], c.minute, 0, 59) ==>
      && FieldEnds(fields[1], c.hour, 0, 23)
      && (FieldMatches(fields[1], c.hour, 0, 23) ==>
      && FieldEnds(fields[2], c.day, 1, 31)
      && (FieldMatches(fields[2], c.day, 1, 31) ==>
      && FieldEnds(fields[3], c.month, 1, 12)
      && (FieldMatches(fields[3], c.month, 1, 12) ==>
      && FieldEnds(fields[4], c.weekday, 0, 6)
      && (!FieldMatches(fields[4], c.weekday, 0, 6) && c.weekday == 0 ==> FieldEnds(fields[4], 7, 0, 7))))))
  }

  /** A written expression is due when it says so. */
  lemma WrittenMatches(w: Written, c: Civil)
    requires SoundText(w)
    ensures CronMatches(Fields(CronText(w)), c) <==> Says(w, c.minute, c.hour, c.day, c.month, c.weekday)
    ensures CronEnds(Fields(CronText(w)), c)
  {
    CronSplits(w);
    FieldSays(w.minute, c.minute, 0, 59);
    FieldSays(w.hour, c.hour, 0, 23);
    FieldSays(w.day, c.day, 1, 31);
    FieldSays(w.month, c.month, 1, 12);
    FieldSays(w.weekday, c.weekday, 0, 6);
    FieldSays(w.weekday, 7, 0, 7);
  }

  method MatchCron(fields: seq<string>, c: Civil) returns (matches: bool)
    requires CronEnds(fields, c)
    ensures matches <==> CronMatches(fields, c)
  {
    if |fields| != 5 {
      return false;
    }
    matches := MatchField(fields[0], c.minute, 0, 59);
    if matches {
      matches := MatchField(fields[1], c.hour, 0, 23);
    }
    if matches {
      matches := MatchField(fields[2], c.day, 1, 31);
    }
    if matches {
      matches := MatchField(fields[3], c.month, 1, 12);
    }
    if matches {
      matches := MatchField(fields[4], c.weekday, 0, 6);
      if !matches && c.weekday == 0 {
        matches := MatchField(fields[4], 7, 0, 7);
      }
    }
  }

  // ----- The search -----

  predicate IsMinute(t: int) {
    t % MINUTE == 0
  }

  /** from.Truncate(time.Minute).Add(time.Minute). */
  function NextMinute(from: int): (t: int)
    ensures IsMinute(t) && from < t
    ensures forall u :: from < u < t ==> !IsMinute(u)
  {
    var t := from / MINUTE * MINUTE + MINUTE;
    assert forall u :: t - MINUTE < u < t ==> !IsMinute(u) by { BetweenMinutes(t - MINUTE); }
    t
  }

  lemma BetweenMinutes(t: int)
    requires IsMinute(t)
    ensures IsMinute(t + MINUTE) && forall u :: t < u < t + MINUTE ==> !IsMinute(u)
  {
  }

  /** Whether a cron job runs at a time. */
  ghost function Due(fields: seq<string>, calendar: int -> Civil): int -> bool {
    t => IsMinute(t) && CronMatches(fields, calendar(t))
  }

  /** No run falls strictly between `from` and `until`. */
  ghost predicate NoneDue(due: int -> bool, from: int, until: int) {
    forall t :: from < t < until ==> !due(t)
  }

  /** `t` is the first run after `from`. */
  ghost predicate FirstDue(due: int -> bool, from: int, t: int) {
    from < t && due(t) && NoneDue(due, from, t)
  }

  /** The search ends: matching does at every minute looked at. */
  ghost predicate SearchEnds(fields: seq<string>, from: int, limit: int, calendar: int -> Civil) {
    forall t :: from < t < limit && IsMinute(t) && NoneDue(Due(fields, calendar), from, t) ==> CronEnds(fields, calendar(t))
  }

  /** With steps forward it always does. */
  lemma ForwardSearchEnds(fields: seq<string>, from: int, limit: int, calendar: int -> Civil)
    requires forall i :: 0 <= i < |fields| ==> AllForward(fields[i])
    ensures SearchEnds(fields, from, limit, calendar)
  {
    forall t ensures CronEnds(fields, calendar(t)) {
      if |fields| == 5 {
        var c := calendar(t);
        ForwardEnds(fields[0], c.minute, 0, 59);
        ForwardEnds(fields[1], c.hour, 0, 23);
        ForwardEnds(fields[2], c.day, 1, 31);
        ForwardEnds(fields[3], c.month, 1, 12);
        ForwardEnds(fields[4], c.weekday, 0, 6);
        ForwardEnds(fields[4], 7, 0, 7);
      }
    }
  }

  datatype Next = Run(t: int) | BadFields | NoRun | NoSchedule

  /** A written expression says of the minute `t` that it is one of its own. */
  predicate SaysAt(w: Written, calendar: int -> Civil, t: int) {
    var c := calendar(t);
    t % 60_000_000_000 == 0 && Says(w, c.minute, c.hour, c.day, c.month, c.weekday)
  }

  /** `r` is the first such minute after `from` and before `limit`, if there is one. */
  predicate IsFirst(w: Written, from: int, limit: int, calendar: int -> Civil, r: Next) {
    match r
    case Run(t) => from < t < limit && SaysAt(w, calendar, t) && forall u :: from < u < t ==> !SaysAt(w, calendar, u)
    case NoRun => forall u :: from < u < limit ==> !SaysAt(w, calendar, u)
    case _ => false
  }

  lemma WrittenIsDue(w: Written, calendar: int -> Civil)
    requires SoundText(w)
    ensures |Fields(CronText(w))| == 5
    ensures forall t :: Due(Fields(CronText(w)), calendar)(t) <==> SaysAt(w, calendar, t)
    ensures forall from, limit :: SearchEnds(Fields(CronText(w)), from, limit, calendar)
  {
    CronSplits(w);
    forall t ensures Due(Fields(CronText(w)), calendar)(t) <==> SaysAt(w, calendar, t) { WrittenMatches(w, calendar(t)); }
    forall t ensures CronEnds(Fields(CronText(w)), calendar(t)) { WrittenMatches(w, calendar(t)); }
  }

  /** The first due minute after `from` and before `limit`; fails only if there is none.
      Of a written expression it is the first that the expression says. */
  method CalculateNextCron(expr: string, from: int, limit: int, calendar: int -> Civil) returns (r: Next)
    requires |Fields(expr)| == 5 ==> SearchEnds(Fields(expr), from, limit, calendar)
    ensures !r.NoSchedule? && (r.BadFields? <==> |Fields(expr)| != 5)
    ensures r.Run? ==> r.t < limit && FirstDue(Due(Fields(expr), calendar), from, r.t)
    ensures r.NoRun? ==> NoneDue(Due(Fields(expr), calendar), from, limit)
    ensures forall w :: SoundText(w) && expr == CronText(w) ==> IsFirst(w, from, limit, calendar, r)
  {
    var fields := Fields(expr);
    forall w | SoundText(w) && expr == CronText(w)
      ensures |fields| == 5 && forall t :: Due(fields, calendar)(t) <==> SaysAt(w, calendar, t)
    {
      WrittenIsDue(w, calendar);
    }
    if |fields| != 5 {
      return BadFields;
    }
    r := FindDue(fields, from, limit, calendar);
  }

  /** The search minute by minute. */
  method FindDue(fields: seq<string>, from: int, limit: int, calendar: int -> Civil) returns (r: Next)
    requires SearchEnds(fields, from, limit, calendar)
    ensures r.Run? || r.NoRun?
    ensures r.Run? ==> r.t < limit && FirstDue(Due(fields, calendar), from, r.t)
    ensures r.NoRun? ==> NoneDue(Due(fields, calendar), from, limit)
  {
    var t := NextMinute(from);
    NoneDueBetweenMinutes(fields, calendar, from, t);
    while t < limit
      invariant IsMinute(t) && t > from && NoneDue(Due(fields, calendar), from, t)
      decreases limit - t
    {
      var matches := IsDue(fields, calendar, t);
      if matches {
        return Run(t);
      }
      BetweenMinutes(t);
      NoneDueBetweenMinutes(fields, calendar, t, t + MINUTE);
      t := t + MINUTE;
    }
    return NoRun;
  }

  method IsDue(fields: seq<string>, calendar: int -> Civil, t: int) returns (due: bool)
    requires IsMinute(t) && CronEnds(fields, calendar(t))
    ensures due <==> Due(fields, calendar)(t)
  {
    due := MatchCron(fields, calendar(t));
  }

  lemma NoneDueBetweenMinutes(fields: seq<string>, calendar: int -> Civil, from: int, until: int)
    requires forall u :: from < u < until ==> !IsMinute(u)
    ensures NoneDue(Due(fields, calendar), from, until)
  {
  }

  // ----- The projection -----

  /** A job has a cron expression, or else an interval; `duration` is what the interval
      parses to, if it does. */
  datatype Job = CronJob(expr: string) | IntervalJob(duration: Option<int>) | Unscheduled

  ghost predicate NextEnds(job: Job, from: int, limit: int, calendar: int -> Civil) {
    job.CronJob? && |Fields(job.expr)| == 5 ==> SearchEnds(Fields(job.expr), from, limit, calendar)
  }

  method CalculateNextRun(job: Job, from: int, limit: int, calendar: int -> Civil) returns (r: Next)
    requires NextEnds(job, from, limit, calendar)
    ensures IsNext(job, from, limit, calendar, r)
  {
    match job {
      case CronJob(expr) => r := CalculateNextCron(expr, from, limit, calendar);
      case IntervalJob(duration) => r := if duration.Some? then Run(from + duration.value) else NoSchedule;
      case Unscheduled => r := NoSchedule;
    }
  }

  ghost predicate IsNext(job: Job, from: int, limit: int, calendar: int -> Civil, r: Next) {
    match job
    case CronJob(expr) =>
      if |Fields(expr)| != 5 then r.BadFields?
      else if r.Run? then r.t < limit && FirstDue(Due(Fields(expr), calendar), from, r.t)
      else r.NoRun? && NoneDue(Due(Fields(expr), calendar), from, limit)
    case IntervalJob(duration) => r == if duration.Some? then Run(from + duration.value) else NoSchedule
    case Unscheduled => r.NoSchedule?
  }

  /** Where the search for the next run starts. */
  function LastOr(runs: seq<int>, start: int): int {
    if runs == [] then start else runs[|runs| - 1]
  }

  /** Each run is the next one after the run before. */
  ghost predicate Runs(job: Job, start: int, limit: int -> int, calendar: int -> Civil, runs: seq<int>) {
    runs != [] ==>
      var before := runs[..|runs| - 1];
      var from := LastOr(before, start);
      Runs(job, start, limit, calendar, before) && IsNext(job, from, limit(from), calendar, Run(runs[|runs| - 1]))
  }

  /** Up to five runs; fewer only if the last has no next. `limit` adds two years. */
  method ProjectNext5Runs(job: Job, start: int, limit: int -> int, calendar: int -> Civil) returns (runs: seq<int>)
    requires forall before :: |before| < 5 && Runs(job, start, limit, calendar, before) ==>
      NextEnds(job, LastOr(before, start), limit(LastOr(before, start)), calendar)
    ensures |runs| <= 5 && Runs(job, start, limit, calendar, runs)
    ensures |runs| < 5 ==>
      exists r: Next :: !r.Run? && IsNext(job, LastOr(runs, start), limit(LastOr(runs, start)), calendar, r)
  {
    runs := [];
    var curr := start;
    while |runs| < 5
      invariant |runs| <= 5 && curr == LastOr(runs, start) && Runs(job, start, limit, calendar, runs)
    {
      var next := CalculateNextRun(job, curr, limit(curr), calendar);
      if !next.Run? {
        break;
      }
      assert (runs + [next.t])[..|runs|] == runs;
      runs := runs + [next.t];
      curr := next.t;
    }
  }

  /** Each run is the first due time after the one before. */
  ghost predicate Chain(due: int -> bool, start: int, runs: seq<int>) {
    runs != [] ==>
      var before := runs[..|runs| - 1];
      Chain(due, start, before) && FirstDue(due, LastOr(before, start), runs[|runs| - 1])
  }

  lemma {:induction false} ChainSkipsNothing(due: int -> bool, start: int, runs: seq<int>, t: int)
    requires runs != [] && Chain(due, start, runs)
    ensures LastOr(runs[..|runs| - 1], start) < LastOr(runs, start) && start < LastOr(runs, start)
    ensures t in runs <==> start < t <= LastOr(runs, start) && due(t)
  {
    var before := runs[..|runs| - 1];
    assert runs == before + [runs[|runs| - 1]];
    if before != [] {
      ChainSkipsNothing(due, start, before, t);
    }
  }

  lemma {:induction false} CronRunsAreChain(expr: string, start: int, limit: int -> int, calendar: int -> Civil, runs: seq<int>)
    requires Runs(CronJob(expr), start, limit, calendar, runs)
    ensures Chain(Due(Fields(expr), calendar), start, runs)
  {
    if runs != [] {
      CronRunsAreChain(expr, start, limit, calendar, runs[..|runs| - 1]);
    }
  }

  /** The runs of a cron job increase, and are exactly the minutes due between the start
      and the last of them. */
  lemma CronRunsSkipNothing(expr: string, start: int, limit: int -> int, calendar: int -> Civil, runs: seq<int>, t: int)
    requires runs != [] && Runs(CronJob(expr), start, limit, calendar, runs)
    ensures start < LastOr(runs, start) && LastOr(runs[..|runs| - 1], start) < LastOr(runs, start)
    ensures t in runs <==> start < t <= LastOr(runs, start) && Due(Fields(expr), calendar)(t)
  {
    CronRunsAreChain(expr, start, limit, calendar, runs);
    ChainSkipsNothing(Due(Fields(expr), calendar), start, runs, t);
  }

  /** Of a written expression they are exactly the minutes that it says. */
  lemma WrittenRunsSkipNothing(w: Written, start: int, limit: int -> int, calendar: int -> Civil, runs: seq<int>, t: int)
    requires SoundText(w) && runs != [] && Runs(CronJob(CronText(w)), start, limit, calendar, runs)
    ensures t in runs <==> start < t <= LastOr(runs, start) && SaysAt(w, calendar, t)
  {
    CronRunsSkipNothing(CronText(w), start, limit, calendar, runs, t);
    WrittenIsDue(w, calendar);
  }
}
