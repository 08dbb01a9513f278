/**
 * The backend's request rate limiter. A process-wide map from `${ip}-${now}` keys to the
 * millisecond timestamp of the request. Each request purges the entries older than the window,
 * counts the entries whose key starts with the caller's ip and whose timestamp lies strictly
 * inside the window, and either rejects (429) or records itself and proceeds.
 */
module RateLimit {
  import opened Wrappers
  import opened Text

  const RateLimitWindow := 60000
  const MaxRequests := 60

  /** Admitted: the request goes on to its route. Rejected: 429 "Too many requests". */
  datatype Decision = Admitted | Rejected

  /** `req.ip || 'unknown'`: a missing or empty address becomes "unknown". */
  function ClientIdentity(reqIp: Option<string>): (ip: string)
    ensures ip != ""
    ensures reqIp.Some? && reqIp.value != "" ==> ip == reqIp.value
    ensures !(reqIp.Some? && reqIp.value != "") ==> ip == "unknown"
  {
    if reqIp.Some? && reqIp.value != "" then reqIp.value else "unknown"
  }

  /** The key a request from ip at time now is recorded under: `${ip}-${now}`. */
  function RequestKey(ip: string, now: nat): (key: string)
    ensures StartsWith(key, ip) && |key| > |ip| + 1 && key[|ip|] == '-'
  {
    ip + "-" + NatToString(now)
  }

  /** The map once the entries with `timestamp < windowStart` are deleted. */
  function Purge(m: map<string, int>, windowStart: int): (r: map<string, int>)
    ensures r.Keys <= m.Keys
    ensures forall k :: k in r ==> r[k] == m[k] && r[k] >= windowStart
    ensures forall k :: k in m && m[k] >= windowStart ==> k in r
  {
    map k | k in m && !(m[k] < windowStart) :: m[k]
  }

  /** The keys the filter counts: `key.startsWith(ip) && timestamp > windowStart`. */
  function RecentKeys(m: map<string, int>, ip: string, windowStart: int): set<string> {
    set k | k in m && StartsWith(k, ip) && m[k] > windowStart
  }

  /** One call of the limiter on map m: its decision and the map it leaves. */
  function Step(m: map<string, int>, ip: string, now: nat): (r: (Decision, map<string, int>))
    ensures r.1.Keys <= m.Keys + {RequestKey(ip, now)}
    ensures forall k :: k in r.1 && k != RequestKey(ip, now) ==> r.1[k] == m[k]
    ensures r.0 == Admitted ==> RequestKey(ip, now) in r.1 && r.1[RequestKey(ip, now)] == now
  {
    var windowStart := now - RateLimitWindow;
    var purged := Purge(m, windowStart);
    if |RecentKeys(purged, ip, windowStart)| >= MaxRequests then (Rejected, purged)
    else (Admitted, purged[RequestKey(ip, now) := now])
  }

  /** `Array.from(requestCounts.entries()).filter(...).length`. */
  method CountRecent(m: map<string, int>, ip: string, windowStart: int) returns (count: nat)
    ensures count == |RecentKeys(m, ip, windowStart)|
  {
    count := 0;
    var pending := m.Keys;
    while pending != {}
      invariant pending <= m.Keys
      invariant count == |RecentKeys(m, ip, windowStart) - pending|
      decreases pending
    {
      var key :| key in pending;
      ghost var before := RecentKeys(m, ip, windowStart) - pending;
      pending := pending - {key};
      if StartsWith(key, ip) && m[key] > windowStart {
        assert RecentKeys(m, ip, windowStart) - pending == before + {key};
        count := count + 1;
      } else {
        assert RecentKeys(m, ip, windowStart) - pending == before;
      }
    }
  }

  class RateLimiter {
    var requestCounts: map<string, int>

    constructor ()
      ensures requestCounts == map[]
    {
      requestCounts := map[];
    }

    /** `rateLimiter(req, res, next)` for a request whose `req.ip` is reqIp, at time now (`Date.now()`). */
    method Admit(reqIp: Option<string>, now: nat) returns (decision: Decision)
      modifies this
      ensures (decision, requestCounts) == Step(old(requestCounts), ClientIdentity(reqIp), now)
    {
      var ip := ClientIdentity(reqIp);
      var windowStart := now - RateLimitWindow;
      // requestCounts.forEach(...): delete each entry older than the window
      var pending := requestCounts.Keys;
      while pending != {}
        invariant pending <= requestCounts.Keys <= old(requestCounts).Keys
        invariant forall k :: k in requestCounts ==> requestCounts[k] == old(requestCounts)[k]
        invariant forall k :: k in old(requestCounts) && k !in pending ==>
                    (k in requestCounts <==> old(requestCounts)[k] >= windowStart)
        invariant forall k :: k in pending ==> k in requestCounts
        decreases pending
      {
        var key :| key in pending;
        if requestCounts[key] < windowStart {
          requestCounts := requestCounts - {key};
        }
        pending := pending - {key};
      }
      assert requestCounts == Purge(old(requestCounts), windowStart);
      var count := CountRecent(requestCounts, ip, windowStart);
      if count >= MaxRequests {
        return Rejected;
      }
      requestCounts := requestCounts[RequestKey(ip, now) := now];
      decision := Admitted;
    }
  }

  /** After any call, no entry is older than the window that call used. */
  lemma StepLeavesNoStaleEntry(m: map<string, int>, ip: string, now: nat)
    ensures forall k :: k in Step(m, ip, now).1 ==> Step(m, ip, now).1[k] >= now - RateLimitWindow
  {
  }

  /** Purging does not change the count: the counted entries are never purged. */
  lemma RecentKeysSurvivePurge(m: map<string, int>, ip: string, windowStart: int)
    ensures RecentKeys(Purge(m, windowStart), ip, windowStart) == RecentKeys(m, ip, windowStart)
  {
  }

  /** The decision depends only on the old map's entries that start with ip and are strictly
      inside the window. */
  lemma {:induction false} StepDecision(m: map<string, int>, ip: string, now: nat)
    ensures Step(m, ip, now).0 == Rejected <==> |RecentKeys(m, ip, now - RateLimitWindow)| >= MaxRequests
  {
    RecentKeysSurvivePurge(m, ip, now - RateLimitWindow);
  }

  /** An entry stamped exactly at the window start is kept by the purge but not counted. */
  lemma WindowStartEntry(m: map<string, int>, ip: string, now: nat, k: string)
    requires k in m && m[k] == now - RateLimitWindow
    ensures k in Purge(m, now - RateLimitWindow)
    ensures k !in RecentKeys(m, ip, now - RateLimitWindow)
  {
  }

  /** A rejection inserts nothing: the map differs from before only by the purge. */
  lemma RejectOnlyPurges(m: map<string, int>, ip: string, now: nat)
    requires Step(m, ip, now).0 == Rejected
    ensures Step(m, ip, now).1 == Purge(m, now - RateLimitWindow)
  {
  }

  /** An admission records exactly one key, `${ip}-${now}` set to now, on top of the purge; so
      the map is at most one entry larger than before. */
  lemma AdmitRecordsOneKey(m: map<string, int>, ip: string, now: nat)
    requires Step(m, ip, now).0 == Admitted
    ensures var m' := Step(m, ip, now).1; var purged := Purge(m, now - RateLimitWindow);
            RequestKey(ip, now) in m' && m'[RequestKey(ip, now)] == now &&
            m'.Keys == purged.Keys + {RequestKey(ip, now)} &&
            (forall k :: k in purged && k != RequestKey(ip, now) ==> m'[k] == purged[k]) &&
            |m'| <= |m| + 1
  {
    var purged := Purge(m, now - RateLimitWindow);
    var m' := Step(m, ip, now).1;
    assert m'.Keys == purged.Keys + {RequestKey(ip, now)};
    assert |purged.Keys| <= |m.Keys| by {
      assert purged.Keys <= m.Keys;
      SubsetCardinality(purged.Keys, m.Keys);
    }
  }

  lemma SubsetCardinality<T>(a: set<T>, b: set<T>)
    requires a <= b
    ensures |a| <= |b|
  {
    if a != {} {
      var x :| x in a;
      SubsetCardinality(a - {x}, b - {x});
    }
  }

  /** A second admitted request from the same ip in the same millisecond overwrites the key of
      the first and leaves the map as it was. */
  lemma SameMillisecondOverwrites(m: map<string, int>, ip: string, now: nat)
    requires Step(m, ip, now).0 == Admitted
    requires Step(Step(m, ip, now).1, ip, now).0 == Admitted
    ensures Step(Step(m, ip, now).1, ip, now).1 == Step(m, ip, now).1
  {
    var m1 := Step(m, ip, now).1;
    assert Purge(m1, now - RateLimitWindow) == m1;
  }

  /** Two requests of one ip in different milliseconds are recorded under different keys. */
  lemma RequestKeysDistinct(ip: string, t1: nat, t2: nat)
    requires t1 != t2
    ensures RequestKey(ip, t1) != RequestKey(ip, t2)
  {
    if RequestKey(ip, t1) == RequestKey(ip, t2) {
      assert NatToString(t1) == RequestKey(ip, t1)[|ip| + 1..];
      assert NatToString(t2) == RequestKey(ip, t2)[|ip| + 1..];
      NatToStringInjective(t1, t2);
    }
  }

  /** Entries whose keys do not start with ip never change ip's decision. */
  lemma OtherKeysDoNotMatter(m1: map<string, int>, m2: map<string, int>, ip: string, now: nat)
    requires forall k :: StartsWith(k, ip) ==> (k in m1 <==> k in m2)
    requires forall k :: StartsWith(k, ip) && k in m1 ==> m1[k] == m2[k]
    ensures Step(m1, ip, now).0 == Step(m2, ip, now).0
  {
    var ws := now - RateLimitWindow;
    assert RecentKeys(m1, ip, ws) == RecentKeys(m2, ip, ws);
    StepDecision(m1, ip, now);
    StepDecision(m2, ip, now);
  }

  /** Matching is by key prefix: a request recorded for an ip that extends ip as a string
      (ip "10.0.0.1" and "10.0.0.12") counts toward ip. */
  lemma LongerIpCounts(m: map<string, int>, ip: string, suffix: string, t: nat, windowStart: int)
    requires RequestKey(ip + suffix, t) in m && m[RequestKey(ip + suffix, t)] > windowStart
    ensures RequestKey(ip + suffix, t) in RecentKeys(m, ip, windowStart)
  {
    assert RequestKey(ip + suffix, t)[..|ip|] == ip;
  }

  /** An ip with no recorded key starting with it is always admitted. */
  lemma FreshIdentityAdmitted(m: map<string, int>, ip: string, now: nat)
    requires forall k :: k in m ==> !StartsWith(k, ip)
    ensures Step(m, ip, now).0 == Admitted
  {
    assert RecentKeys(m, ip, now - RateLimitWindow) == {};
    StepDecision(m, ip, now);
  }
}
