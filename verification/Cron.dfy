/** The cron scheduler: the fields of an expression, the next matching minute, and
    the firing of due jobs. Times are seconds; the calendar is a parameter. */
module Cron {
  import opened Wrappers

  // ------------------------------------------------------------------- fields

  /** What fmt.Sscanf finds in a piece of text: a number at its start, and a
      second one after a dash. */
  datatype Scan = Scan(first: Option<int>, second: Option<int>)

  /** One part of a field, split at its slash and recognised by its dash or star. */
  datatype Part =
    | Star
    | Single(scan: Scan)
    | Range(scan: Scan)
    | Stepped(base: Part, step: Option<int>)   // base is never Stepped

  /** The bounds and the step a part stands for; None when it is rejected. */
  function Bounds(p: Part, min: int, max: int): Option<(int, int, int)> {
    match p
    case Star => Some((min, max, 1))
    case Single(scan) => if scan.first.Some? then Some((scan.first.value, scan.first.value, 1)) else None
    case Range(scan) =>
      if scan.first.Some? && scan.second.Some? then Some((scan.first.value, scan.second.value, 1)) else None
    case Stepped(base, step) =>
      if step.None? || step.value < 1 then None
      else
        match base
        case Range(scan) =>
          Some((if scan.first.Some? then scan.first.value else min,
                if scan.first.Some? && scan.second.Some? then scan.second.value else max, step.value))
        case Single(scan) => Some((if scan.first.Some? then scan.first.value else min, max, step.value))
        case _ => Some((min, max, step.value))
  }

  predicate OnStep(lo: int, step: int, v: int)
    requires step > 0
  {
    (v - lo) % step == 0
  }

  predicate Covers(p: Part, min: int, max: int, v: int) {
    && min <= v <= max
    && Bounds(p, min, max).Some?
    && var (lo, hi, step) := Bounds(p, min, max).value;
       lo <= v <= hi && step > 0 && OnStep(lo, step, v)
  }

  predicate Rejected(parts: seq<Part>, min: int, max: int) {
    exists i :: 0 <= i < |parts| && Bounds(parts[i], min, max).None?
  }

  /** addRange: every step-th value from lo to hi that lies in the field's range. */
  method AddRange(lo: int, hi: int, step: int, min: int, max: int, seen: set<int>) returns (r: set<int>)
    requires step >= 1
    ensures forall v :: v in r <==> v in seen || (min <= v <= max && lo <= v <= hi && OnStep(lo, step, v))
  {
    hide OnStep;
    r := seen;
    var v := lo;
    FirstOnStep(lo, step);
    while v <= hi
      invariant lo <= v && OnStep(lo, step, v)
      invariant forall u :: u in r <==> u in seen || (min <= u <= max && lo <= u <= hi && u < v && OnStep(lo, step, u))
      decreases hi - v
    {
      NextOnStep(lo, step, v);
      if min <= v <= max {
        r := r + {v};
      }
      v := v + step;
    }
  }

  lemma FirstOnStep(lo: int, step: int)
    requires step >= 1
    ensures OnStep(lo, step, lo)
  {
    Remainder(0, 0, 0, step);
  }

  lemma NextOnStep(lo: int, step: int, v: int)
    requires step >= 1 && OnStep(lo, step, v)
    ensures OnStep(lo, step, v + step)
    ensures forall u :: v < u < v + step ==> !OnStep(lo, step, u)
  {
    var k := (v - lo) / step;
    assert v - lo == k * step;
    assert v + step - lo == (k + 1) * step + 0;
    Remainder(v + step - lo, k + 1, 0, step);
    forall u | v < u < v + step ensures !OnStep(lo, step, u) {
      Remainder(u - lo, k, u - v, step);
    }
  }

  lemma Remainder(x: int, q: int, r: int, n: int)
    requires n > 0 && x == q * n + r && 0 <= r < n
    ensures x % n == r
  {
    var d := x / n - q;
    assert d * n == r - x % n;
    assert d >= 1 ==> d * n >= n;
    assert d <= -1 ==> d * n <= -n;
  }

  /** A field is accepted exactly when every part is, and then holds exactly the
      values that some part covers. */
  method ParseCronField(parts: seq<Part>, min: int, max: int) returns (values: Option<set<int>>)
    ensures values.None? <==> Rejected(parts, min, max)
    ensures values.Some? ==>
              forall v :: v in values.value <==> exists i :: 0 <= i < |parts| && Covers(parts[i], min, max, v)
  {
    hide Bounds;
    var seen: set<int> := {};
    for k := 0 to |parts|
      invariant forall i :: 0 <= i < k ==> Bounds(parts[i], min, max).Some?
      invariant forall v :: v in seen <==> exists i :: 0 <= i < k && Covers(parts[i], min, max, v)
    {
      var b := Bounds(parts[k], min, max);
      if b.None? {
        return None;
      }
      var (lo, hi, step) := b.value;
      StepIsPositive(parts[k], min, max);
      ghost var before := seen;
      seen := AddRange(lo, hi, step, min, max, seen);
      forall v ensures v in seen <==> exists i :: 0 <= i < k + 1 && Covers(parts[i], min, max, v) {
        assert v in seen <==> v in before || Covers(parts[k], min, max, v);
      }
    }
    values := Some(seen);
  }

  /** Counting up from lo in steps of n. */
  ghost predicate Reaches(lo: int, n: int, v: int) {
    exists k: nat :: v == lo + k * n
  }

  /** What a part admits, among the values of the field: a star every one; a number
      itself; a range its values; and with a slash every n-th, counted from the start of
      the field, of the number up to the end of the field, or of the range. A bound that
      cannot be read is the field's own. */
  lemma PartAdmits(p: Part, min: int, max: int, v: int)
    ensures p.Star? ==> (Covers(p, min, max, v) <==> min <= v <= max)
    ensures p.Single? && p.scan.first.Some? ==>
              (Covers(p, min, max, v) <==> min <= v <= max && v == p.scan.first.value)
    ensures p.Range? && p.scan.first.Some? && p.scan.second.Some? ==>
              (Covers(p, min, max, v) <==> min <= v <= max && p.scan.first.value <= v <= p.scan.second.value)
    ensures p.Stepped? && p.step.Some? && p.step.value >= 1 ==>
              var n := p.step.value;
              match p.base
              case Single(Scan(Some(a), _)) => Covers(p, min, max, v) <==> min <= v <= max && Reaches(a, n, v)
              case Range(Scan(Some(a), Some(b))) =>
                Covers(p, min, max, v) <==> min <= v <= max && v <= b && Reaches(a, n, v)
              case Range(Scan(Some(a), None)) => Covers(p, min, max, v) <==> min <= v <= max && Reaches(a, n, v)
              case _ => Covers(p, min, max, v) <==> min <= v <= max && Reaches(min, n, v)
  {
    match p
    case Stepped(base, Some(n)) =>
      if n >= 1 {
        OnStepIff(min, n, v);
        match base
        case Single(Scan(Some(a), _)) => OnStepIff(a, n, v);
        case Range(Scan(Some(a), _)) => OnStepIff(a, n, v);
        case _ =>
      }
    case _ =>
  }

  lemma OnStepIff(lo: int, n: int, v: int)
    requires n >= 1
    ensures lo <= v && OnStep(lo, n, v) <==> Reaches(lo, n, v)
  {
    if lo <= v && OnStep(lo, n, v) {
      var k := (v - lo) / n;
      assert v == lo + k * n;
    }
    if k: nat :| v == lo + k * n {
      Remainder(v - lo, k, 0, n);
    }
  }

  /** A part is rejected exactly when its number, a bound of its range or its step cannot
      be read, or its step is not positive. */
  lemma PartRejectedIff(p: Part, min: int, max: int)
    ensures Rejected([p], min, max) <==>
              match p
              case Star => false
              case Single(scan) => scan.first.None?
              case Range(scan) => scan.first.None? || scan.second.None?
              case Stepped(_, step) => step.None? || step.value <= 0
  {
    assert [p][0] == p;
  }

  lemma StepIsPositive(p: Part, min: int, max: int)
    ensures Bounds(p, min, max).Some? ==> Bounds(p, min, max).value.2 >= 1
  {
  }

  // ----------------------------------------------------------------- the search

  const MINUTE := 60
  const SEARCH_MINUTES := 525600

  datatype Calendar = Calendar(
    minute: int -> int, hour: int -> int, day: int -> int, month: int -> int, weekday: int -> int)

  datatype Fields = Fields(minutes: set<int>, hours: set<int>, days: set<int>, months: set<int>, weekdays: set<int>)

  /** All five fields have to match. */
  predicate Matches(cal: Calendar, f: Fields, t: int) {
    && cal.minute(t) in f.minutes
    && cal.hour(t) in f.hours
    && cal.day(t) in f.days
    && cal.month(t) in f.months
    && cal.weekday(t) in f.weekdays
  }

  function NextMinute(since: int): (t: int)
    ensures since < t <= since + MINUTE && t % MINUTE == 0
  {
    since - since % MINUTE + MINUTE
  }

  /** A minute the search looks at. */
  predicate InWindow(since: int, t: int) {
    t % MINUTE == 0 && NextMinute(since) <= t < NextMinute(since) + SEARCH_MINUTES * MINUTE
  }

  ghost predicate IsNextMatch(cal: Calendar, f: Fields, since: int, r: Option<int>) {
    match r
    case None => forall t :: InWindow(since, t) ==> !Matches(cal, f, t)
    case Some(t) =>
      && InWindow(since, t) && Matches(cal, f, t)
      && forall u :: InWindow(since, u) && u < t ==> !Matches(cal, f, u)
  }

  /** The least matching minute strictly after `since`, within a year of minutes. */
  method SearchNextMatch(cal: Calendar, f: Fields, since: int) returns (r: Option<int>)
    ensures IsNextMatch(cal, f, since, r)
  {
    hide Matches;
    var t := NextMinute(since);
    for i := 0 to SEARCH_MINUTES
      invariant t == NextMinute(since) + i * MINUTE && t % MINUTE == 0
      invariant forall u :: InWindow(since, u) && u < t ==> !Matches(cal, f, u)
    {
      if Matches(cal, f, t) {
        return Some(t);
      }
      t := t + MINUTE;
    }
    r := None;
  }

  lemma NextMatchIsUnique(cal: Calendar, f: Fields, since: int, a: Option<int>, b: Option<int>)
    requires IsNextMatch(cal, f, since, a) && IsNextMatch(cal, f, since, b)
    ensures a == b
  {
    hide Matches;
  }

  // ----------------------------------------------------------------- the firing

  datatype Job = Job(task: string, enabled: bool, fields: Option<Fields>, lastRun: int)

  /** Whether a tick at `now` fires the job: its next match after the last run has come. */
  ghost predicate Due(cal: Calendar, job: Job, now: int) {
    && job.enabled && job.fields.Some?
    && exists t :: IsNextMatch(cal, job.fields.value, job.lastRun, Some(t)) && t <= now
  }

  /** The tasks of some jobs, in this order. */
  function Tasks(jobs: map<string, Job>, order: seq<string>): seq<string>
    requires forall id :: id in order ==> id in jobs
  {
    seq(|order|, i requires 0 <= i < |order| => jobs[order[i]].task)
  }

  /** The due jobs, each once, in some order. */
  ghost predicate DueInOrder(cal: Calendar, jobs: map<string, Job>, now: int, order: seq<string>) {
    && (forall id :: id in order <==> id in jobs && Due(cal, jobs[id], now))
    && (forall i, j :: 0 <= i < j < |order| ==> order[i] != order[j])
  }

  /** The jobs once those in `order` have run. */
  function Marked(jobs: map<string, Job>, order: seq<string>, now: int): map<string, Job> {
    map id | id in jobs :: if id in order then jobs[id].(lastRun := now) else jobs[id]
  }

  function Without(jobs: map<string, Job>, todo: set<string>): map<string, Job> {
    map id | id in jobs && id !in todo :: jobs[id]
  }

  /** Taking one more job from those still to do. */
  lemma NextInOrder(cal: Calendar, jobs: map<string, Job>, todo: set<string>, now: int, order: seq<string>, id: string)
    requires id in todo && id in jobs && DueInOrder(cal, Without(jobs, todo), now, order)
    ensures !Due(cal, jobs[id], now) ==> DueInOrder(cal, Without(jobs, todo - {id}), now, order)
    ensures Due(cal, jobs[id], now) ==>
              && DueInOrder(cal, Without(jobs, todo - {id}), now, order + [id])
              && Marked(jobs, order + [id], now) == Marked(jobs, order, now)[id := jobs[id].(lastRun := now)]
              && Tasks(jobs, order + [id]) == Tasks(jobs, order) + [jobs[id].task]
    ensures Marked(jobs, order, now)[id] == jobs[id]
  {
    hide Due;
    assert id !in order;
    assert forall other :: other in order + [id] <==> other in order || other == id;
  }

  class CronManager {
    const cal: Calendar
    var jobs: map<string, Job>
    var fired: seq<string>

    constructor (cal: Calendar, jobs: map<string, Job>)
      ensures this.cal == cal && this.jobs == jobs && fired == []
    {
      this.cal, this.jobs, fired := cal, jobs, [];
    }

    /** One tick: fires every due job once and moves its last run to `now`. */
    method CheckAndFire(now: int)
      modifies this
      ensures jobs.Keys == old(jobs).Keys
      ensures forall id :: id in jobs ==>
                jobs[id] == if Due(cal, old(jobs)[id], now) then old(jobs)[id].(lastRun := now) else old(jobs)[id]
      ensures exists order: seq<string> ::
                && DueInOrder(cal, old(jobs), now, order)
                && fired == old(fired) + Tasks(old(jobs), order)
    {
      hide Due;
      var entries := jobs;
      var todo := entries.Keys;
      ghost var order: seq<string> := [];
      while todo != {}
        invariant todo <= entries.Keys && jobs == Marked(entries, order, now)
        invariant DueInOrder(cal, Without(entries, todo), now, order)
        invariant fired == old(fired) + Tasks(entries, order)
        decreases |todo|
      {
        var id :| id in todo;
        NextInOrder(cal, entries, todo, now, order, id);
        todo := todo - {id};
        var due := IsDue(cal, entries[id], now);
        if due {
          Fire(id, now);
          order := order + [id];
        }
      }
      assert Without(entries, {}) == entries;
    }

    method Fire(id: string, now: int)
      requires id in jobs
      modifies this
      ensures jobs == old(jobs)[id := old(jobs)[id].(lastRun := now)]
      ensures fired == old(fired) + [old(jobs)[id].task]
    {
      fired := fired + [jobs[id].task];
      jobs := jobs[id := jobs[id].(lastRun := now)];
    }
  }

  method IsDue(cal: Calendar, job: Job, now: int) returns (due: bool)
    ensures due <==> Due(cal, job, now)
  {
    if !job.enabled || job.fields.None? {
      return false;
    }
    var next := SearchNextMatch(cal, job.fields.value, job.lastRun);
    forall t | IsNextMatch(cal, job.fields.value, job.lastRun, Some(t)) ensures next == Some(t) {
      NextMatchIsUnique(cal, job.fields.value, job.lastRun, next, Some(t));
    }
    if next.None? || now < next.value {
      return false;
    }
    due := true;
  }

  // ----------------------------------------------------------- whole histories

  function AfterTick(cal: Calendar, job: Job, now: int, due: bool): Job {
    if due then job.(lastRun := now) else job
  }

  /** A history of ticks with their outcome, oldest first. */
  ghost predicate History(cal: Calendar, job: Job, ticks: seq<int>, fires: seq<bool>)
    decreases |ticks|
  {
    && |ticks| == |fires|
    && (ticks != [] ==>
          && fires[0] == Due(cal, job, ticks[0])
          && History(cal, AfterTick(cal, job, ticks[0], fires[0]), ticks[1..], fires[1..]))
  }

  /** The ticks that fired. */
  function Firings(ticks: seq<int>, fires: seq<bool>): seq<int>
    requires |ticks| == |fires|
  {
    if ticks == [] then [] else (if fires[0] then [ticks[0]] else []) + Firings(ticks[1..], fires[1..])
  }

  /** The run before the i-th firing. */
  function Before(lastRun: int, at: seq<int>, i: nat): int
    requires i < |at|
  {
    if i == 0 then lastRun else at[i - 1]
  }

  /** Each firing has a scheduled minute of its own: a match that is later than the
      firing before it and not later than its own tick. */
  ghost predicate OwedTo(cal: Calendar, f: Fields, lastRun: int, at: seq<int>, minutes: seq<int>) {
    && |minutes| == |at|
    && (forall i :: 0 <= i < |at| ==> minutes[i] % MINUTE == 0 && Matches(cal, f, minutes[i]))
    && (forall i :: 0 <= i < |at| ==> Before(lastRun, at, i) < minutes[i] <= at[i])
  }

  lemma OwedCons(cal: Calendar, f: Fields, lastRun: int, t: int, tick: int, later: seq<int>, rest: seq<int>)
    requires OwedTo(cal, f, tick, later, rest)
    requires lastRun < t <= tick && t % MINUTE == 0 && Matches(cal, f, t)
    ensures OwedTo(cal, f, lastRun, [tick] + later, [t] + rest)
  {
    hide Matches;
    var at, minutes := [tick] + later, [t] + rest;
    assert forall i :: 0 < i < |at| ==> minutes[i] == rest[i - 1] && at[i] == later[i - 1];
    forall i | 0 <= i < |at| ensures minutes[i] % MINUTE == 0 && Matches(cal, f, minutes[i]) {
      assert i > 0 ==> minutes[i] == rest[i - 1];
    }
    forall i | 0 <= i < |at| ensures Before(lastRun, at, i) < minutes[i] <= at[i] {
      if i > 0 {
        BeforeCons(lastRun, tick, later, i);
      }
    }
  }

  lemma BeforeCons(lastRun: int, tick: int, later: seq<int>, i: nat)
    requires 0 < i <= |later|
    ensures Before(lastRun, [tick] + later, i) == Before(tick, later, i - 1)
  {
  }

  /** So distinct firings need distinct scheduled minutes, over every history. */
  lemma {:induction false} FiringsAreOwed(cal: Calendar, job: Job, ticks: seq<int>, fires: seq<bool>)
      returns (minutes: seq<int>)
    requires History(cal, job, ticks, fires) && job.fields.Some?
    ensures OwedTo(cal, job.fields.value, job.lastRun, Firings(ticks, fires), minutes)
    decreases |ticks|
  {
    hide Matches, OwedTo;
    if ticks == [] {
      minutes := [];
      NothingOwed(cal, job.fields.value, job.lastRun);
    } else {
      minutes := FiringsAreOwed(cal, AfterTick(cal, job, ticks[0], fires[0]), ticks[1..], fires[1..]);
      var later := Firings(ticks[1..], fires[1..]);
      if fires[0] {
        var t :| IsNextMatch(cal, job.fields.value, job.lastRun, Some(t)) && t <= ticks[0];
        OwedCons(cal, job.fields.value, job.lastRun, t, ticks[0], later, minutes);
        minutes := [t] + minutes;
      } else {
        assert [] + later == later;
      }
    }
  }

  lemma NothingOwed(cal: Calendar, f: Fields, lastRun: int)
    ensures OwedTo(cal, f, lastRun, [], [])
  {
  }

  /** A job whose schedule has no match in the search window after its last run
      never fires again, however long the manager runs: nothing moves its last run. */
  lemma {:induction false} NeverFires(cal: Calendar, job: Job, ticks: seq<int>, fires: seq<bool>)
    requires History(cal, job, ticks, fires) && job.fields.Some?
    requires IsNextMatch(cal, job.fields.value, job.lastRun, None)
    ensures Firings(ticks, fires) == []
    decreases |ticks|
  {
    hide Matches;
    if ticks == [] {
    } else {
      assert !Due(cal, job, ticks[0]);
      NeverFires(cal, job, ticks[1..], fires[1..]);
    }
  }

  /** And exactly then: any other enabled job with a schedule is due at every time
      that is late enough. */
  lemma FiresSometimeIff(cal: Calendar, job: Job)
    requires job.enabled && job.fields.Some?
    ensures (exists now :: Due(cal, job, now)) <==> !IsNextMatch(cal, job.fields.value, job.lastRun, None)
  {
    hide Matches;
    if t :| InWindow(job.lastRun, t) && Matches(cal, job.fields.value, t) {
      var next := LeastMatch(cal, job.fields.value, job.lastRun, t);
      assert Due(cal, job, next);
    }
  }

  lemma {:induction false} LeastMatch(cal: Calendar, f: Fields, since: int, t: int) returns (next: int)
    requires InWindow(since, t) && Matches(cal, f, t)
    ensures IsNextMatch(cal, f, since, Some(next))
    decreases t - since
  {
    hide Matches;
    if u :| InWindow(since, u) && u < t && Matches(cal, f, u) {
      next := LeastMatch(cal, f, since, u);
    } else {
      next := t;
    }
  }

  lemma WholeMinutes(since: int, t: int)
    ensures t % 60 == 0 && since < t <==> t % MINUTE == 0 && NextMinute(since) <= t
  {
  }

  /** When a tick fires a job: exactly when its schedule matched some minute of the
      search window after its last run, up to the tick. The tick itself need not fall
      on a scheduled minute. */
  lemma DueIff(cal: Calendar, job: Job, now: int)
    requires job.enabled && job.fields.Some?
    ensures Due(cal, job, now)
            <==> exists t :: InWindow(job.lastRun, t) && Matches(cal, job.fields.value, t) && t <= now
    ensures forall t :: InWindow(job.lastRun, t) && Matches(cal, job.fields.value, t) <==>
              && t % 60 == 0 && job.lastRun < t < job.lastRun - job.lastRun % 60 + 60 + 365 * 24 * 60 * 60
              && var f := job.fields.value;
                 && cal.minute(t) in f.minutes && cal.hour(t) in f.hours && cal.day(t) in f.days
                 && cal.month(t) in f.months && cal.weekday(t) in f.weekdays
  {
    forall t
      ensures InWindow(job.lastRun, t) <==>
                t % 60 == 0 && job.lastRun < t < job.lastRun - job.lastRun % 60 + 60 + 365 * 24 * 60 * 60
    {
      WholeMinutes(job.lastRun, t);
    }
    hide Matches;
    if t :| InWindow(job.lastRun, t) && Matches(cal, job.fields.value, t) && t <= now {
      var next := LeastMatch(cal, job.fields.value, job.lastRun, t);
    }
  }

  /** A new job carries the zero time as its last run. At any time after the year that
      follows it, the first tick fires the job exactly when its schedule matched some
      minute of that year. */
  lemma NewJobFiresAtFirstTickIff(cal: Calendar, job: Job, now: int)
    requires job.enabled && job.fields.Some? && job.lastRun == 0 && now >= (SEARCH_MINUTES + 1) * MINUTE
    ensures Due(cal, job, now) <==> exists t :: InWindow(0, t) && Matches(cal, job.fields.value, t)
  {
    hide Matches;
    DueIff(cal, job, now);
  }
}
