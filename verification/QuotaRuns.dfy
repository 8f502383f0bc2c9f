/**
 * What the quota promises over many requests: a run of consecutive quota
 * checks (no daily reset in between), what the daily reset does to it, and the
 * day-by-day scenario of a single client.
 */
module QuotaRuns {
  import opened Wrappers
  import opened Quota
  import Calendar

  /** The answers of consecutive checks and the record after the last one. */
  datatype Trace = Trace(outcomes: seq<bool>, final: QuotaState)

  /** Quota checks for `ids`, in order, each on the record the previous one saved. */
  function Run(s: QuotaState, ids: seq<string>): (t: Trace)
    ensures |t.outcomes| == |ids|
    ensures t.final.lastReset == s.lastReset
    decreases |ids|
  {
    if ids == [] then Trace([], s)
    else
      var d := CheckAndUpdate(s, ids[0]);
      var rest := Run(d.next, ids[1..]);
      Trace([d.admitted] + rest.outcomes, rest.final)
  }

  /** How many of the checks for `ip` were admitted. */
  function AdmittedFor(ids: seq<string>, outcomes: seq<bool>, ip: string): nat
    requires |outcomes| == |ids|
  {
    if ids == [] then 0
    else (if ids[0] == ip && outcomes[0] then 1 else 0) + AdmittedFor(ids[1..], outcomes[1..], ip)
  }

  /** The checks of `ids` made for `ip`. */
  function Only(ids: seq<string>, ip: string): (r: seq<string>)
    ensures forall x :: x in r ==> x == ip
  {
    if ids == [] then []
    else (if ids[0] == ip then [ids[0]] else []) + Only(ids[1..], ip)
  }

  /** The answers given to the checks for `ip`, in order. */
  function OutcomesFor(ids: seq<string>, outcomes: seq<bool>, ip: string): seq<bool>
    requires |outcomes| == |ids|
  {
    if ids == [] then []
    else (if ids[0] == ip then [outcomes[0]] else []) + OutcomesFor(ids[1..], outcomes[1..], ip)
  }

  function Repeat<T>(x: T, n: nat): (r: seq<T>)
    ensures |r| == n
    ensures forall i :: 0 <= i < n ==> r[i] == x
  {
    if n == 0 then [] else [x] + Repeat(x, n - 1)
  }

  /**
   * Every admission is charged to its client: the final count of `ip` is its
   * starting count plus the admissions it received, and a client that starts
   * within its quota never ends above it.
   */
  lemma {:induction false} RunCharges(s: QuotaState, ids: seq<string>, ip: string)
    ensures Count(Run(s, ids).final, ip) == Count(s, ip) + AdmittedFor(ids, Run(s, ids).outcomes, ip)
    ensures Count(s, ip) <= MaxRequestsPerIp ==> Count(Run(s, ids).final, ip) <= MaxRequestsPerIp
    decreases |ids|
  {
    if ids != [] {
      var d := CheckAndUpdate(s, ids[0]);
      RunCharges(d.next, ids[1..], ip);
      assert Run(s, ids).outcomes[1..] == Run(d.next, ids[1..]).outcomes;
    }
  }

  /** A client that makes no request keeps its count, whatever others do. */
  lemma {:induction false} RunLeavesOthers(s: QuotaState, ids: seq<string>, other: string)
    requires other !in ids
    ensures Count(Run(s, ids).final, other) == Count(s, other)
    decreases |ids|
  {
    if ids != [] {
      assert other !in ids[1..];
      RunLeavesOthers(CheckAndUpdate(s, ids[0]).next, ids[1..], other);
    }
  }

  /** A run starts with the answer to its first request. */
  lemma RunStep(s: QuotaState, ip: string, rest: seq<string>)
    ensures var d := CheckAndUpdate(s, ip);
            Run(s, [ip] + rest) == Trace([d.admitted] + Run(d.next, rest).outcomes, Run(d.next, rest).final)
  {
  }

  /** How many of `n` requests a client at count `k` may still make today. */
  function Remaining(k: nat, n: nat): nat {
    if k >= MaxRequestsPerIp then 0
    else if n <= MaxRequestsPerIp - k then n else MaxRequestsPerIp - k
  }

  /**
   * `n` requests in a row from a client whose count is `k`: the first
   * `MaxRequestsPerIp - k` are admitted (none when `k` is already at or above
   * the limit), every later one is denied, and the count stops at the limit.
   */
  lemma {:induction false} RepeatedChecks(s: QuotaState, ip: string, n: nat)
    ensures var t := Run(s, Repeat(ip, n));
            var a := Remaining(Count(s, ip), n);
            (forall i | 0 <= i < n :: t.outcomes[i] == (i < a)) &&
            Count(t.final, ip) == Count(s, ip) + a
    decreases n
  {
    if n > 0 {
      var k := Count(s, ip);
      var d := CheckAndUpdate(s, ip);
      RunStep(s, ip, Repeat(ip, n - 1));
      if k < MaxRequestsPerIp {
        RepeatedChecks(d.next, ip, n - 1);
        assert Remaining(k + 1, n - 1) == Remaining(k, n) - 1;
      } else {
        DeniedThroughout(s, ip, n);
      }
    }
  }

  /** A client at or above its limit is denied every time and its count stays. */
  lemma {:induction false} DeniedThroughout(s: QuotaState, ip: string, n: nat)
    requires Count(s, ip) >= MaxRequestsPerIp
    ensures Run(s, Repeat(ip, n)) == Trace(Repeat(false, n), s)
    decreases n
  {
    if n > 0 {
      RunStep(s, ip, Repeat(ip, n - 1));
      DeniedThroughout(s, ip, n - 1);
    }
  }

  /** Runs from records that agree on the counts of the clients involved agree. */
  lemma {:induction false} RunAgrees(s1: QuotaState, s2: QuotaState, ids: seq<string>)
    requires forall x :: x in ids ==> Count(s1, x) == Count(s2, x)
    ensures Run(s1, ids).outcomes == Run(s2, ids).outcomes
    ensures forall x :: Count(s1, x) == Count(s2, x) ==> Count(Run(s1, ids).final, x) == Count(Run(s2, ids).final, x)
    decreases |ids|
  {
    if ids != [] {
      var d1, d2 := CheckAndUpdate(s1, ids[0]), CheckAndUpdate(s2, ids[0]);
      assert forall x :: Count(s1, x) == Count(s2, x) ==> Count(d1.next, x) == Count(d2.next, x);
      assert forall x :: x in ids[1..] ==> x in ids;
      RunAgrees(d1.next, d2.next, ids[1..]);
    }
  }

  /**
   * Counters are independent: the answers a client receives, and its final
   * count, are the same as if its requests had been the only ones.
   */
  lemma {:induction false} RunIndependent(s: QuotaState, ids: seq<string>, ip: string)
    ensures OutcomesFor(ids, Run(s, ids).outcomes, ip) == Run(s, Only(ids, ip)).outcomes
    ensures Count(Run(s, ids).final, ip) == Count(Run(s, Only(ids, ip)).final, ip)
    decreases |ids|
  {
    if ids != [] {
      var d := CheckAndUpdate(s, ids[0]);
      var rest := ids[1..];
      RunIndependent(d.next, rest, ip);
      assert Run(s, ids).outcomes[1..] == Run(d.next, rest).outcomes;
      if ids[0] == ip {
        assert Only(ids, ip) == [ip] + Only(rest, ip);
        assert Only(ids, ip)[1..] == Only(rest, ip);
      } else {
        assert Only(ids, ip) == Only(rest, ip);
        forall x | x in Only(rest, ip) ensures Count(d.next, x) == Count(s, x) {}
        RunAgrees(d.next, s, Only(rest, ip));
      }
    }
  }

  /** Checks for two different clients can be made in either order. */
  lemma ChecksCommute(s: QuotaState, a: string, b: string)
    requires a != b
    ensures var da := CheckAndUpdate(s, a);
            var db := CheckAndUpdate(s, b);
            CheckAndUpdate(da.next, b).admitted == db.admitted &&
            CheckAndUpdate(db.next, a).admitted == da.admitted &&
            CheckAndUpdate(da.next, b).next == CheckAndUpdate(db.next, a).next
  {
  }

  /** Resetting twice on the same day is the same as resetting once. */
  lemma ResetIdempotent(s: QuotaState, today: string)
    ensures ResetDaily(ResetDaily(s, today), today) == ResetDaily(s, today)
  {
  }

  /**
   * The reset fires exactly when the day changed: a record stamped on `d1`
   * is left as it is by the reset of day `d2` iff `d1` and `d2` are the same
   * day, and on a new day every client is admitted again.
   */
  lemma ResetFiresIffNewDay(s: QuotaState, d1: Calendar.CalendarDate, d2: Calendar.CalendarDate)
    requires s.lastReset == Some(Calendar.DateStamp(d1))
    ensures ResetDaily(s, Calendar.DateStamp(d2)) == s <==> d1 == d2
    ensures d1 != d2 ==> forall ip :: CheckAndUpdate(ResetDaily(s, Calendar.DateStamp(d2)), ip).admitted
  {
  }

  /**
   * A missing or unreadable store fails open: every client starts at 0, the
   * next reset always writes, and an admission saves a record with no
   * `lastReset`, which the next timer tick clears.
   */
  lemma FailedLoadFailsOpen(today: string, ip: string)
    ensures ResetDaily(ReadRateLimit(None), today) == QuotaState(map[], Some(today))
    ensures CheckAndUpdate(ReadRateLimit(None), ip) == Decision(true, QuotaState(map[ip := 1], None))
    ensures ResetDaily(CheckAndUpdate(ReadRateLimit(None), ip).next, today) == QuotaState(map[], Some(today))
  {
  }

  /**
   * The gate never looks at the date: a client at its limit stays denied on a
   * new day until the daily reset has run.
   */
  lemma GateIgnoresDay(s: QuotaState, ip: string, stamp: Option<string>)
    ensures CheckAndUpdate(s.(lastReset := stamp), ip).admitted == CheckAndUpdate(s, ip).admitted
  {
  }

  /**
   * The gate charges requests made after midnight to the old day's record
   * until the timer's reset runs: a client with no requests on the stored day
   * `d1` makes 5 requests on day `d2` before the tick and 5 after it, and all
   * 10 are admitted.
   */
  lemma StaleDayOverAdmits(d1: Calendar.CalendarDate, d2: Calendar.CalendarDate, ip: string)
    requires d1 != d2
    ensures var before := Run(QuotaState(map[], Some(Calendar.DateStamp(d1))), Repeat(ip, 5));
            var after := Run(ResetDaily(before.final, Calendar.DateStamp(d2)), Repeat(ip, 5));
            before.outcomes == Repeat(true, 5) && after.outcomes == Repeat(true, 5) &&
            Count(after.final, ip) == MaxRequestsPerIp
  {
    var s0 := QuotaState(map[], Some(Calendar.DateStamp(d1)));
    RepeatedChecks(s0, ip, 5);
    var before := Run(s0, Repeat(ip, 5));
    Calendar.DateStampInjective(d1, d2);
    var s1 := ResetDaily(before.final, Calendar.DateStamp(d2));
    assert Count(s1, ip) == 0;
    RepeatedChecks(s1, ip, 5);
  }

  /**
   * One client over two days: five admissions, a denial, a timer tick on the
   * same day that changes nothing, and after the tick of the next day an
   * admission that brings the count back to 1.
   */
  lemma TwoDayScenario()
    ensures var ip := "10.0.0.1";
            var day1 := Calendar.DateStamp(Calendar.Date(2024, 1, 1));
            var day2 := Calendar.DateStamp(Calendar.Date(2024, 1, 2));
            var t := Run(ResetDaily(Fresh, day1), Repeat(ip, 6));
            t.outcomes == [true, true, true, true, true, false] &&
            Count(t.final, ip) == MaxRequestsPerIp &&
            ResetDaily(t.final, day1) == t.final &&
            !CheckAndUpdate(t.final, ip).admitted &&
            CheckAndUpdate(ResetDaily(t.final, day2), ip) == Decision(true, QuotaState(map[ip := 1], Some(day2)))
  {
    var ip := "10.0.0.1";
    var day1 := Calendar.DateStamp(Calendar.Date(2024, 1, 1));
    var day2 := Calendar.DateStamp(Calendar.Date(2024, 1, 2));
    var s0 := ResetDaily(Fresh, day1);
    RepeatedChecks(s0, ip, 6);
    Calendar.DateStampInjective(Calendar.Date(2024, 1, 1), Calendar.Date(2024, 1, 2));
  }
}
