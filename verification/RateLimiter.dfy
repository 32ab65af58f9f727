/**
 * The sliding-window login limiter.
 *
 * The program keeps, per key, only the admissions it still considers recent and
 * throws the others away, at each attempt and in a periodic cleanup.  The
 * reference keeps every admission for ever.  Both are proved to decide every
 * sequence of calls alike, as long as the clock does not run backwards, and the
 * admissions they let through never crowd a window.
 */
module RateLimiter {
  import opened Lists

  type Log = map<string, seq<int>>

  datatype Limits = Limits(max: int, window: int)

  datatype Call = Allow(key: string, now: int) | Cleanup(now: int)

  function Lookup(log: Log, key: string): seq<int> {
    if key in log then log[key] else []
  }

  /** The entries after the cutoff. */
  function Recent(times: seq<int>, cutoff: int): (r: seq<int>)
    ensures |r| <= |times|
  {
    if times == [] then [] else
    var n := |times| - 1;
    var front := Recent(times[..n], cutoff);
    if times[n] > cutoff then front + [times[n]] else front
  }

  // ---------------------------------------------------------------------
  // The program's state after a call, and the reference's
  // ---------------------------------------------------------------------

  predicate Admits(l: Limits, log: Log, key: string, now: int) {
    |Recent(Lookup(log, key), now - l.window)| < l.max
  }

  /** The trimmed log after an attempt. */
  function AfterAllow(l: Limits, log: Log, key: string, now: int): Log {
    var valid := Recent(Lookup(log, key), now - l.window);
    log[key := if |valid| < l.max then valid + [now] else valid]
  }

  /** The trimmed log after a cleanup: expired entries and empty keys are gone. */
  function AfterCleanup(l: Limits, log: Log, now: int): Log {
    map key | key in log && Recent(log[key], now - l.window) != [] :: Recent(log[key], now - l.window)
  }

  /** The untrimmed history after an attempt: admissions are only ever added. */
  function Recorded(l: Limits, history: Log, key: string, now: int): Log {
    if Admits(l, history, key, now) then history[key := Lookup(history, key) + [now]] else history
  }

  // ---------------------------------------------------------------------
  // The program
  // ---------------------------------------------------------------------

  method Trim(entries: seq<int>, cutoff: int) returns (valid: seq<int>)
    ensures valid == Recent(entries, cutoff)
  {
    valid := [];
    for i := 0 to |entries|
      invariant valid == Recent(entries[..i], cutoff)
    {
      assert entries[..i + 1][..i] == entries[..i];
      if entries[i] > cutoff {
        valid := valid + [entries[i]];
      }
    }
    assert entries[..|entries|] == entries;
  }

  class RateLimiter {
    var attempts: Log
    const limits: Limits

    constructor (limits: Limits)
      ensures this.limits == limits && attempts == map[]
    {
      this.limits := limits;
      attempts := map[];
    }

    method Allow(key: string, now: int) returns (ok: bool)
      modifies this
      ensures ok == Admits(limits, old(attempts), key, now)
      ensures attempts == AfterAllow(limits, old(attempts), key, now)
    {
      var cutoff := now - limits.window;
      var valid := Trim(if key in attempts then attempts[key] else [], cutoff);
      if |valid| >= limits.max {
        attempts := attempts[key := valid];
        return false;
      }
      valid := valid + [now];
      attempts := attempts[key := valid];
      return true;
    }

    method Cleanup(now: int)
      modifies this
      ensures attempts == AfterCleanup(limits, old(attempts), now)
    {
      var cutoff := now - limits.window;
      ghost var before := attempts;
      var keys := attempts.Keys;
      assert attempts == Partly(before, keys, cutoff);
      while keys != {}
        invariant keys <= before.Keys
        invariant attempts == Partly(before, keys, cutoff)
        decreases |keys|
      {
        var key :| key in keys;
        PartlyStep(before, keys, key, cutoff);
        var valid := Trim(attempts[key], cutoff);
        if |valid| == 0 {
          attempts := attempts - {key};
        } else {
          attempts := attempts[key := valid];
        }
        keys := keys - {key};
      }
    }
  }

  /** A cleanup that still has `keys` to visit. */
  ghost function Partly(before: Log, keys: set<string>, cutoff: int): Log {
    map k | k in before && (k in keys || Recent(before[k], cutoff) != []) ::
      if k in keys then before[k] else Recent(before[k], cutoff)
  }

  lemma PartlyStep(before: Log, keys: set<string>, key: string, cutoff: int)
    requires keys <= before.Keys && key in keys
    ensures key in Partly(before, keys, cutoff) && Partly(before, keys, cutoff)[key] == before[key]
    ensures Partly(before, keys - {key}, cutoff) ==
            if Recent(before[key], cutoff) == [] then Partly(before, keys, cutoff) - {key}
            else Partly(before, keys, cutoff)[key := Recent(before[key], cutoff)]
  {
  }

  // ---------------------------------------------------------------------
  // Trimming loses nothing that a later decision looks at
  // ---------------------------------------------------------------------

  /** `kept` is `all` without some of the entries that are no later than `horizon`. */
  ghost predicate Trims(kept: seq<int>, all: seq<int>, horizon: int)
    decreases |all|
  {
    if all == [] then kept == [] else
    var n, k := |all| - 1, |kept| - 1;
    || (k >= 0 && kept[k] == all[n] && Trims(kept[..k], all[..n], horizon))
    || (all[n] <= horizon && Trims(kept, all[..n], horizon))
  }

  lemma {:induction false} TrimsLater(kept: seq<int>, all: seq<int>, horizon: int, later: int)
    requires Trims(kept, all, horizon) && horizon <= later
    ensures Trims(kept, all, later)
    decreases |all|
  {
    if all != [] {
      var n, k := |all| - 1, |kept| - 1;
      if k >= 0 && kept[k] == all[n] && Trims(kept[..k], all[..n], horizon) {
        TrimsLater(kept[..k], all[..n], horizon, later);
      } else {
        TrimsLater(kept, all[..n], horizon, later);
      }
    }
  }

  lemma {:induction false} TrimsAppended(kept: seq<int>, all: seq<int>, horizon: int, t: int)
    requires Trims(kept, all, horizon)
    ensures Trims(kept + [t], all + [t], horizon)
  {
    assert (kept + [t])[..|kept|] == kept;
    assert (all + [t])[..|all|] == all;
  }

  /** Trimming a trimmed list again, later, trims the full one; and the recent entries are the same. */
  lemma {:induction false} TrimsAgain(kept: seq<int>, all: seq<int>, horizon: int, later: int)
    requires Trims(kept, all, horizon) && horizon <= later
    ensures Recent(kept, later) == Recent(all, later)
    ensures Trims(Recent(kept, later), all, later)
    decreases |all|
  {
    if all != [] {
      var n, k := |all| - 1, |kept| - 1;
      if k >= 0 && kept[k] == all[n] && Trims(kept[..k], all[..n], horizon) {
        TrimsAgain(kept[..k], all[..n], horizon, later);
        if kept[k] > later {
          var front := Recent(kept[..k], later);
          assert (front + [kept[k]])[..|front|] == front;
        }
      } else {
        TrimsAgain(kept, all[..n], horizon, later);
      }
    }
  }

  /** The program's log is the full history, trimmed no later than `horizon`. */
  ghost predicate Agree(log: Log, history: Log, horizon: int) {
    forall key :: Trims(Lookup(log, key), Lookup(history, key), horizon)
  }

  lemma AllowKeepsAgreement(l: Limits, log: Log, history: Log, horizon: int, key: string, now: int)
    requires Agree(log, history, horizon) && horizon <= now - l.window
    ensures Admits(l, log, key, now) == Admits(l, history, key, now)
    ensures Agree(AfterAllow(l, log, key, now), Recorded(l, history, key, now), now - l.window)
  {
    SameDecision(l, log, history, horizon, key, now);
    forall k ensures Trims(Lookup(AfterAllow(l, log, key, now), k),
                           Lookup(Recorded(l, history, key, now), k), now - l.window) {
      AllowKeepsAgreementAt(l, log, history, horizon, key, now, k);
    }
  }

  lemma SameDecision(l: Limits, log: Log, history: Log, horizon: int, key: string, now: int)
    requires Agree(log, history, horizon) && horizon <= now - l.window
    ensures Admits(l, log, key, now) == Admits(l, history, key, now)
  {
    TrimsAgain(Lookup(log, key), Lookup(history, key), horizon, now - l.window);
  }

  /** What an attempt leaves under each key, in the trimmed log and in the full one. */
  lemma LookupsAfterAllow(l: Limits, log: Log, history: Log, key: string, now: int, k: string)
    requires Admits(l, log, key, now) == Admits(l, history, key, now)
    ensures var admitted, trimmed := Admits(l, log, key, now), Recent(Lookup(log, key), now - l.window);
            && Lookup(AfterAllow(l, log, key, now), k) ==
               (if k != key then Lookup(log, k) else if admitted then trimmed + [now] else trimmed)
            && Lookup(Recorded(l, history, key, now), k) ==
               (if k == key && admitted then Lookup(history, key) + [now] else Lookup(history, k))
  {
  }

  lemma AllowKeepsAgreementAt(l: Limits, log: Log, history: Log, horizon: int, key: string, now: int, k: string)
    requires Trims(Lookup(log, k), Lookup(history, k), horizon) && horizon <= now - l.window
    requires Admits(l, log, key, now) == Admits(l, history, key, now)
    ensures Trims(Lookup(AfterAllow(l, log, key, now), k), Lookup(Recorded(l, history, key, now), k), now - l.window)
  {
    LookupsAfterAllow(l, log, history, key, now, k);
    TrimsOne(Lookup(log, k), Lookup(history, k), horizon, now - l.window, now, k == key, Admits(l, log, key, now),
             Lookup(AfterAllow(l, log, key, now), k), Lookup(Recorded(l, history, key, now), k));
  }

  /** One key, which is or is not the one of the attempt. */
  lemma TrimsOne(kept: seq<int>, all: seq<int>, horizon: int, trim: int, now: int, same: bool, admitted: bool,
                 kept': seq<int>, all': seq<int>)
    requires Trims(kept, all, horizon) && horizon <= trim
    requires kept' == if !same then kept else if admitted then Recent(kept, trim) + [now] else Recent(kept, trim)
    requires all' == if same && admitted then all + [now] else all
    ensures Trims(kept', all', trim)
  {
    if same {
      TrimsAttempt(kept, all, horizon, trim, now, admitted);
    } else {
      TrimsLater(kept, all, horizon, trim);
    }
  }

  /** One attempt: the trimmed list is trimmed again, and both lists gain the admission. */
  lemma TrimsAttempt(kept: seq<int>, all: seq<int>, horizon: int, trim: int, now: int, admitted: bool)
    requires Trims(kept, all, horizon) && horizon <= trim
    ensures admitted ==> Trims(Recent(kept, trim) + [now], all + [now], trim)
    ensures !admitted ==> Trims(Recent(kept, trim), all, trim)
  {
    TrimsAgain(kept, all, horizon, trim);
    TrimsAppended(Recent(kept, trim), all, trim, now);
  }

  lemma CleanupKeepsAgreement(l: Limits, log: Log, history: Log, horizon: int, now: int)
    requires Agree(log, history, horizon) && horizon <= now - l.window
    ensures Agree(AfterCleanup(l, log, now), history, now - l.window)
  {
    forall k ensures Trims(Lookup(AfterCleanup(l, log, now), k), Lookup(history, k), now - l.window) {
      TrimsAgain(Lookup(log, k), Lookup(history, k), horizon, now - l.window);
    }
  }

  // ---------------------------------------------------------------------
  // Whole runs
  // ---------------------------------------------------------------------

  /** The answers of the program to a sequence of calls. */
  function Decisions(l: Limits, log: Log, calls: seq<Call>): seq<bool>
    decreases |calls|
  {
    if calls == [] then [] else
    match calls[0]
    case Allow(key, now) =>
      [Admits(l, log, key, now)] + Decisions(l, AfterAllow(l, log, key, now), calls[1..])
    case Cleanup(now) =>
      Decisions(l, AfterCleanup(l, log, now), calls[1..])
  }

  /** The answers of a limiter that never forgets. */
  function ReferenceDecisions(l: Limits, history: Log, calls: seq<Call>): seq<bool>
    decreases |calls|
  {
    if calls == [] then [] else
    match calls[0]
    case Allow(key, now) =>
      [Admits(l, history, key, now)] + ReferenceDecisions(l, Recorded(l, history, key, now), calls[1..])
    case Cleanup(now) =>
      ReferenceDecisions(l, history, calls[1..])
  }

  /** Every admission of a run, by key. */
  function History(l: Limits, history: Log, calls: seq<Call>): Log
    decreases |calls|
  {
    if calls == [] then history else
    match calls[0]
    case Allow(key, now) => History(l, Recorded(l, history, key, now), calls[1..])
    case Cleanup(now) => History(l, history, calls[1..])
  }

  /** The clock starts at `clock` or later and never runs backwards. */
  ghost predicate ClockForward(clock: int, calls: seq<Call>)
    decreases |calls|
  {
    calls != [] ==> clock <= calls[0].now && ClockForward(calls[0].now, calls[1..])
  }

  lemma {:induction false} TrimmedRunAgrees(l: Limits, log: Log, history: Log, clock: int, calls: seq<Call>)
    requires Agree(log, history, clock - l.window)
    requires ClockForward(clock, calls)
    ensures Decisions(l, log, calls) == ReferenceDecisions(l, history, calls)
    decreases |calls|
  {
    if calls != [] {
      match calls[0]
      case Allow(key, now) =>
        AllowKeepsAgreement(l, log, history, clock - l.window, key, now);
        TrimmedRunAgrees(l, AfterAllow(l, log, key, now), Recorded(l, history, key, now), now, calls[1..]);
      case Cleanup(now) =>
        CleanupKeepsAgreement(l, log, history, clock - l.window, now);
        TrimmedRunAgrees(l, AfterCleanup(l, log, now), history, now, calls[1..]);
    }
  }

  /** The limiter answers every run exactly as if it had kept every admission. */
  lemma LimiterMatchesFullHistory(l: Limits, calls: seq<Call>)
    requires calls != [] ==> ClockForward(calls[0].now, calls)
    ensures Decisions(l, map[], calls) == ReferenceDecisions(l, map[], calls)
  {
    if calls != [] {
      TrimmedRunAgrees(l, map[], map[], calls[0].now, calls);
    }
  }

  // ---------------------------------------------------------------------
  // No window is ever crowded
  // ---------------------------------------------------------------------

  /** The number of entries in the half-open window `(from, to]`. */
  function CountIn(times: seq<int>, from: int, to: int): nat {
    if times == [] then 0 else
    var n := |times| - 1;
    CountIn(times[..n], from, to) + if from < times[n] <= to then 1 else 0
  }

  /** In order of time, and each entry was admitted given the ones before it. */
  ghost predicate Paced(l: Limits, times: seq<int>) {
    times != [] ==>
      var n := |times| - 1;
      && Paced(l, times[..n])
      && (forall t :: t in times[..n] ==> t <= times[n])
      && |Recent(times[..n], times[n] - l.window)| < l.max
  }

  lemma {:induction false} CountAtMostRecent(times: seq<int>, from: int, to: int, cutoff: int)
    requires cutoff <= from
    ensures CountIn(times, from, to) <= |Recent(times, cutoff)|
  {
    if times != [] {
      CountAtMostRecent(times[..|times| - 1], from, to, cutoff);
    }
  }

  lemma {:induction false} PacedWindow(l: Limits, times: seq<int>, to: int)
    requires Paced(l, times)
    ensures CountIn(times, to - l.window, to) <= if l.max < 0 then 0 else l.max
  {
    if times != [] {
      var n := |times| - 1;
      if to - l.window < times[n] <= to {
        CountAtMostRecent(times[..n], to - l.window, to, times[n] - l.window);
      } else {
        PacedWindow(l, times[..n], to);
      }
    }
  }

  ghost predicate PacedLog(l: Limits, history: Log, clock: int) {
    forall key :: Paced(l, Lookup(history, key)) && forall t :: t in Lookup(history, key) ==> t <= clock
  }

  lemma RecordedIsPaced(l: Limits, history: Log, clock: int, key: string, now: int)
    requires PacedLog(l, history, clock) && clock <= now
    ensures PacedLog(l, Recorded(l, history, key, now), now)
  {
    var times := Lookup(history, key);
    assert Paced(l, times);
    assert (times + [now])[..|times|] == times;
    forall k
      ensures Paced(l, Lookup(Recorded(l, history, key, now), k))
      ensures forall t :: t in Lookup(Recorded(l, history, key, now), k) ==> t <= now
    {
      assert Paced(l, Lookup(history, k));
    }
  }

  lemma {:induction false} HistoryIsPaced(l: Limits, history: Log, clock: int, calls: seq<Call>)
    requires PacedLog(l, history, clock) && ClockForward(clock, calls)
    ensures exists later :: PacedLog(l, History(l, history, calls), later)
    decreases |calls|
  {
    if calls != [] {
      match calls[0]
      case Allow(key, now) =>
        RecordedIsPaced(l, history, clock, key, now);
        HistoryIsPaced(l, Recorded(l, history, key, now), now, calls[1..]);
        assert History(l, history, calls) == History(l, Recorded(l, history, key, now), calls[1..]);
      case Cleanup(now) =>
        assert PacedLog(l, history, now);
        HistoryIsPaced(l, history, now, calls[1..]);
        assert History(l, history, calls) == History(l, history, calls[1..]);
    } else {
      assert PacedLog(l, History(l, history, calls), clock);
    }
  }

  /** The times at which the program itself admitted a key. */
  function Admissions(l: Limits, log: Log, calls: seq<Call>, key: string): seq<int>
    decreases |calls|
  {
    if calls == [] then [] else
    match calls[0]
    case Allow(k, now) =>
      (if k == key && Admits(l, log, k, now) then [now] else [])
      + Admissions(l, AfterAllow(l, log, k, now), calls[1..], key)
    case Cleanup(now) => Admissions(l, AfterCleanup(l, log, now), calls[1..], key)
  }

  lemma RecordedAppends(l: Limits, history: Log, k: string, now: int, key: string)
    ensures Lookup(Recorded(l, history, k, now), key) ==
            Lookup(history, key) + if k == key && Admits(l, history, k, now) then [now] else []
  {
  }

  /** What the program admits in a run is what the full history records. */
  lemma {:induction false} AdmissionsAreHistory(l: Limits, log: Log, history: Log, clock: int, calls: seq<Call>,
                                                key: string)
    requires Agree(log, history, clock - l.window) && ClockForward(clock, calls)
    ensures Lookup(History(l, history, calls), key) == Lookup(history, key) + Admissions(l, log, calls, key)
    decreases |calls|
  {
    if calls != [] {
      match calls[0]
      case Allow(k, now) =>
        var log', history' := AfterAllow(l, log, k, now), Recorded(l, history, k, now);
        AllowKeepsAgreement(l, log, history, clock - l.window, k, now);
        AdmissionsAreHistory(l, log', history', now, calls[1..], key);
        RecordedAppends(l, history, k, now, key);
        ConcatAssoc(Lookup(history, key), if k == key && Admits(l, log, k, now) then [now] else [],
                    Admissions(l, log', calls[1..], key));
      case Cleanup(now) =>
        CleanupKeepsAgreement(l, log, history, clock - l.window, now);
        AdmissionsAreHistory(l, AfterCleanup(l, log, now), history, now, calls[1..], key);
    }
  }

  /** The program's log after a run. */
  function LogAfter(l: Limits, log: Log, calls: seq<Call>): Log
    decreases |calls|
  {
    if calls == [] then log else
    match calls[0]
    case Allow(key, now) => LogAfter(l, AfterAllow(l, log, key, now), calls[1..])
    case Cleanup(now) => LogAfter(l, AfterCleanup(l, log, now), calls[1..])
  }

  /** At the end of a run the trimmed log still agrees with the full history. */
  lemma {:induction false} LogAgrees(l: Limits, log: Log, history: Log, clock: int, calls: seq<Call>, now: int)
    returns (last: int)
    requires Agree(log, history, clock - l.window) && ClockForward(clock, calls + [Cleanup(now)])
    ensures last <= now && Agree(LogAfter(l, log, calls), History(l, history, calls), last - l.window)
    decreases |calls|
  {
    if calls == [] {
      assert calls + [Cleanup(now)] == [Cleanup(now)];
      last := clock;
    } else {
      assert (calls + [Cleanup(now)])[1..] == calls[1..] + [Cleanup(now)];
      match calls[0]
      case Allow(key, at) =>
        AllowKeepsAgreement(l, log, history, clock - l.window, key, at);
        last := LogAgrees(l, AfterAllow(l, log, key, at), Recorded(l, history, key, at), at, calls[1..], now);
      case Cleanup(at) =>
        CleanupKeepsAgreement(l, log, history, clock - l.window, at);
        last := LogAgrees(l, AfterCleanup(l, log, at), history, at, calls[1..], now);
    }
  }

  lemma {:induction false} RecentIsCount(times: seq<int>, cutoff: int, now: int)
    requires forall t :: t in times ==> t <= now
    ensures |Recent(times, cutoff)| == CountIn(times, cutoff, now)
  {
    if times != [] {
      var n := |times| - 1;
      forall t | t in times[..n] ensures t <= now {
        assert t in times;
      }
      RecentIsCount(times[..n], cutoff, now);
      assert times[n] in times;
    }
  }

  lemma {:induction false} HistoryIsPast(l: Limits, history: Log, clock: int, calls: seq<Call>, now: int, key: string)
    requires ClockForward(clock, calls + [Cleanup(now)]) && forall k, t :: t in Lookup(history, k) ==> t <= clock
    ensures forall t :: t in Lookup(History(l, history, calls), key) ==> t <= now
    decreases |calls|
  {
    if calls == [] {
      assert calls + [Cleanup(now)] == [Cleanup(now)];
    } else {
      assert (calls + [Cleanup(now)])[1..] == calls[1..] + [Cleanup(now)];
      match calls[0]
      case Allow(k, at) =>
        forall j, t | t in Lookup(Recorded(l, history, k, at), j) ensures t <= at {
          RecordedAppends(l, history, k, at, j);
        }
        HistoryIsPast(l, Recorded(l, history, k, at), at, calls[1..], now, key);
      case Cleanup(at) => HistoryIsPast(l, history, at, calls[1..], now, key);
    }
  }

  /**
   * After any run, an attempt is admitted exactly when fewer than `max` of the attempts of
   * its key that the program has admitted so far lie in the window that ends now.
   */
  lemma AdmittedIff(l: Limits, clock: int, calls: seq<Call>, key: string, now: int)
    requires ClockForward(clock, calls + [Cleanup(now)])
    ensures Admits(l, LogAfter(l, map[], calls), key, now) <==>
            CountIn(Admissions(l, map[], calls, key), now - l.window, now) < l.max
  {
    AdmittedByLog(l, map[], clock, calls, key, now);
  }

  lemma AdmittedByLog(l: Limits, empty: Log, clock: int, calls: seq<Call>, key: string, now: int)
    requires empty == map[] && ClockForward(clock, calls + [Cleanup(now)])
    ensures Admits(l, LogAfter(l, empty, calls), key, now) <==>
            CountIn(Admissions(l, empty, calls, key), now - l.window, now) < l.max
  {
    var log, history := LogAfter(l, empty, calls), History(l, empty, calls);
    var last := LogAgrees(l, empty, empty, clock, calls, now);
    SameDecision(l, log, history, last - l.window, key, now);
    ForwardPrefix(clock, calls, [Cleanup(now)]);
    AdmissionsAreHistory(l, empty, empty, clock, calls, key);
    HistoryIsPast(l, empty, clock, calls, now, key);
    assert Lookup(empty, key) + Admissions(l, empty, calls, key) == Admissions(l, empty, calls, key);
    RecentIsCount(Lookup(history, key), now - l.window, now);
  }

  lemma {:induction false} ForwardPrefix(clock: int, calls: seq<Call>, more: seq<Call>)
    requires ClockForward(clock, calls + more)
    ensures ClockForward(clock, calls)
    decreases |calls|
  {
    if calls != [] {
      assert (calls + more)[1..] == calls[1..] + more;
      ForwardPrefix(calls[0].now, calls[1..], more);
    }
  }

  /**
   * Whatever is called and when, no window of the configured length holds more than
   * `max` admissions of the program.
   */
  lemma NoWindowIsCrowded(l: Limits, calls: seq<Call>, key: string, to: int)
    requires calls != [] ==> ClockForward(calls[0].now, calls)
    ensures Lookup(History(l, map[], calls), key) == Admissions(l, map[], calls, key)
    ensures CountIn(Admissions(l, map[], calls, key), to - l.window, to) <= if l.max < 0 then 0 else l.max
  {
    var clock := if calls == [] then 0 else calls[0].now;
    AdmissionsAreHistory(l, map[], map[], clock, calls, key);
    assert [] + Admissions(l, map[], calls, key) == Admissions(l, map[], calls, key);
    HistoryIsPaced(l, map[], clock, calls);
    PacedWindow(l, Lookup(History(l, map[], calls), key), to);
  }
}
