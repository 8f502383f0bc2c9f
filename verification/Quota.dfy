/**
 * The per-client daily quota of the prompt-generation relay.
 *
 * The persisted record holds a `usage` dictionary from client id to the number
 * of requests admitted on the current day, and the `lastReset` day stamp.
 * `CheckAndUpdate` and `ResetDaily` are the specifications of the two
 * operations; `RateLimitStore` is the file that holds the record, with the two
 * operations as methods that load the record, change it and save it.
 */
module Quota {
  import opened Wrappers
  import Calendar

  /** Requests admitted per client id per day. */
  const MaxRequestsPerIp: nat := 5

  datatype QuotaState = QuotaState(usage: map<string, nat>, lastReset: Option<string>)

  /** The record used when no usable record is stored: no usage, never reset. */
  const Fresh := QuotaState(map[], None)

  /** A client id absent from `usage` (or stored with count 0) has used nothing. */
  function Count(s: QuotaState, ip: string): nat {
    if ip in s.usage then s.usage[ip] else 0
  }

  /**
   * Loading the store: the stored record, or the fresh record when the file is
   * missing or cannot be parsed (`file` is `None`).
   */
  function ReadRateLimit(file: Option<QuotaState>): (s: QuotaState)
    ensures file.None? ==> forall ip :: Count(s, ip) == 0
    ensures file.None? ==> s.lastReset.None?
    ensures file.None? ==> s == QuotaState(map[], None)
    ensures file.Some? ==> s == file.value
  {
    file.GetOr(Fresh)
  }

  /** The outcome of one quota check: whether it admits, and the record afterwards. */
  datatype Decision = Decision(admitted: bool, next: QuotaState)

  /**
   * One quota check for `ip`: deny and leave the record as it is when `ip` has
   * already used its quota, otherwise admit and charge exactly one request to
   * `ip` alone.
   */
  function CheckAndUpdate(s: QuotaState, ip: string): (d: Decision)
    ensures d.admitted <==> Count(s, ip) < MaxRequestsPerIp
    ensures !d.admitted ==> d.next == s
    ensures d.admitted ==> Count(d.next, ip) == Count(s, ip) + 1 && ip in d.next.usage
    ensures d.admitted ==> d.next.usage.Keys == s.usage.Keys + {ip}
    ensures forall other :: other != ip ==> Count(d.next, other) == Count(s, other)
    ensures forall other :: other != ip && other in s.usage ==> d.next.usage[other] == s.usage[other]
    ensures d.next.lastReset == s.lastReset
  {
    var k := Count(s, ip);
    if k >= MaxRequestsPerIp then Decision(false, s)
    else Decision(true, s.(usage := s.usage[ip := k + 1]))
  }

  /**
   * The daily reset for the day stamp `today`: when the record was last reset
   * on another day (or never), all usage is cleared and the record is stamped
   * `today`; otherwise the record is left as it is.
   */
  function ResetDaily(s: QuotaState, today: string): (r: QuotaState)
    ensures r.lastReset == Some(today)
    ensures s.lastReset != Some(today) ==> r.usage == map[]
    ensures s.lastReset == Some(today) ==> r == s
  {
    if s.lastReset != Some(today) then QuotaState(map[], Some(today)) else s
  }

  /**
   * The persisted rate-limit record (`rateLimitStore.json`). `file` is `None`
   * while the file is missing or does not parse as a record.
   */
  class RateLimitStore {
    var file: Option<QuotaState>

    constructor (initial: Option<QuotaState>)
      ensures file == initial
    {
      file := initial;
    }

    /** What `readRateLimit` returns for the current file. */
    function Load(): (s: QuotaState)
      reads this
      ensures file.Some? ==> s == file.value
      ensures file.None? ==> s == Fresh
    {
      ReadRateLimit(file)
    }

    /**
     * The timer body: write a cleared record stamped with the current UTC day
     * when the stored stamp differs from it; `wrote` tells whether the file
     * was written.
     */
    method ResetDailyQuota(now: Calendar.CalendarDate) returns (wrote: bool)
      modifies this
      ensures wrote <==> old(Load()).lastReset != Some(Calendar.DateStamp(now))
      ensures Load() == ResetDaily(old(Load()), Calendar.DateStamp(now))
      ensures file == if wrote then Some(Load()) else old(file)
    {
      var data := Load();
      var today := Calendar.DateStamp(now);
      wrote := false;
      if data.lastReset != Some(today) {
        data := data.(usage := map[]);
        data := data.(lastReset := Some(today));
        file := Some(data);
        wrote := true;
      }
    }

    /**
     * The quota gate: admit `ip` and save its incremented count, or deny it
     * without writing anything.
     */
    method CheckAndUpdateQuota(ip: string) returns (admitted: bool)
      modifies this
      ensures admitted == CheckAndUpdate(old(Load()), ip).admitted
      ensures admitted ==> file == Some(CheckAndUpdate(old(Load()), ip).next)
      ensures !admitted ==> file == old(file)
    {
      var data := Load();
      ghost var loaded := data;
      if ip !in data.usage || data.usage[ip] == 0 {
        data := data.(usage := data.usage[ip := 0]);
      }
      if data.usage[ip] >= MaxRequestsPerIp {
        return false;
      }
      data := data.(usage := data.usage[ip := data.usage[ip] + 1]);
      assert data.usage == loaded.usage[ip := Count(loaded, ip) + 1];
      file := Some(data);
      admitted := true;
    }
  }
}
