/**
 The sliding-window rate limiter. It forgets timestamps lazily: those of the address it is asked about, and now and
 then everyone's. Instants are numbers on a clock that does not step back.
 */
module RateLimiter {

  type Time = int

  const CLEANUP_EVERY: Time := 300_000_000_000

  /** Those of the timestamps that are after the cutoff, in order. */
  function After(times: seq<Time>, cutoff: Time): seq<Time> {
    if times == [] then []
    else After(times[..|times| - 1], cutoff) + if times[|times| - 1] > cutoff then [times[|times| - 1]] else []
  }

  datatype Store = Store(requests: map<string, seq<Time>>, cleanupAt: Time)

  function Times(requests: map<string, seq<Time>>, ip: string): seq<Time> {
    if ip in requests then requests[ip] else []
  }

  function Cleaned(requests: map<string, seq<Time>>, cutoff: Time): map<string, seq<Time>> {
    map ip | ip in requests && After(requests[ip], cutoff) != [] :: After(requests[ip], cutoff)
  }

  function Swept(s: Store, window: Time, now: Time): Store {
    if now > s.cleanupAt then Store(Cleaned(s.requests, now - window), now + CLEANUP_EVERY) else s
  }

  function Allowed(s: Store, limit: int, window: Time, now: Time, ip: string): (Store, bool) {
    var swept := Swept(s, window, now);
    var recent := After(Times(swept.requests, ip), now - window);
    if |recent| >= limit then (swept, false)
    else (swept.(requests := swept.requests[ip := recent + [now]]), true)
  }

  class Limiter {
    const limit: int
    const window: Time
    var requests: map<string, seq<Time>>
    var cleanupAt: Time

    function View(): Store
      reads this
    {
      Store(requests, cleanupAt)
    }

    constructor (limit: int, window: Time, now: Time)
      ensures this.limit == limit && this.window == window
      ensures View() == Store(map[], now + CLEANUP_EVERY)
    {
      this.limit, this.window := limit, window;
      requests, cleanupAt := map[], now + CLEANUP_EVERY;
    }

    static method Filter(times: seq<Time>, cutoff: Time) returns (filtered: seq<Time>)
      ensures filtered == After(times, cutoff)
    {
      filtered := [];
      for n := 0 to |times|
        invariant filtered == After(times[..n], cutoff)
      {
        assert times[..n + 1][..n] == times[..n];
        if times[n] > cutoff {
          filtered := filtered + [times[n]];
        }
      }
      assert times[..|times|] == times;
    }

    method Cleanup(cutoff: Time)
      modifies this`requests
      ensures requests == Cleaned(old(requests), cutoff)
    {
      ghost var before := requests;
      var left := requests.Keys;
      while left != {}
        invariant left <= before.Keys
        invariant forall ip :: ip in left ==> ip in requests && requests[ip] == before[ip]
        invariant forall ip :: ip !in left ==> (ip in requests <==> ip in Cleaned(before, cutoff))
        invariant forall ip :: ip !in left && ip in requests ==> requests[ip] == Cleaned(before, cutoff)[ip]
        decreases left
      {
        var ip :| ip in left;
        left := left - {ip};
        var filtered := Filter(requests[ip], cutoff);
        if |filtered| == 0 {
          requests := requests - {ip};
        } else {
          requests := requests[ip := filtered];
        }
      }
    }

    method Allow(ip: string, now: Time) returns (ok: bool)
      modifies this
      ensures (View(), ok) == Allowed(old(View()), limit, window, now, ip)
    {
      var cutoff := now - window;
      if now > cleanupAt {
        Cleanup(cutoff);
        cleanupAt := now + CLEANUP_EVERY;
      }
      var timestamps := if ip in requests then requests[ip] else [];
      var filtered := Filter(timestamps, cutoff);
      if |filtered| >= limit {
        return false;
      }
      filtered := filtered + [now];
      requests := requests[ip := filtered];
      return true;
    }
  }

  // ----- the full-history rule -----

  datatype Request = Request(ip: string, at: Time)

  /** When an address was admitted so far, by a rule that forgets nothing. */
  function Admissions(requests: seq<Request>, limit: int, window: Time, ip: string): seq<Time> {
    if requests == [] then []
    else
      var earlier := Admissions(requests[..|requests| - 1], limit, window, ip);
      var last := requests[|requests| - 1];
      if last.ip == ip && |After(earlier, last.at - window)| < limit then earlier + [last.at] else earlier
  }

  /** Admit exactly when fewer than `limit` earlier admissions of the address lie in the last window. */
  predicate Admits(requests: seq<Request>, limit: int, window: Time, request: Request) {
    |After(Admissions(requests, limit, window, request.ip), request.at - window)| < limit
  }

  /** A run: the limiter's states before, between and after the requests, starting with nothing stored. */
  predicate IsRun(states: seq<Store>, limit: int, window: Time, requests: seq<Request>) {
    && |states| == |requests| + 1
    && states[0].requests == map[]
    && forall n {:trigger requests[n]} :: 0 <= n < |requests| ==>
        IsStep(states[n], states[n + 1], limit, window, requests[n])
  }

  predicate IsStep(s: Store, s': Store, limit: int, window: Time, request: Request) {
    s' == Allowed(s, limit, window, request.at, request.ip).0
  }

  predicate InOrder(requests: seq<Request>) {
    forall i, j :: 0 <= i < j < |requests| ==> requests[i].at <= requests[j].at
  }

  lemma {:induction false} AfterAfter(times: seq<Time>, cutoff: Time, later: Time)
    requires cutoff <= later
    ensures After(After(times, cutoff), later) == After(times, later)
  {
    if times == [] {
    } else {
      var n := |times| - 1;
      AfterAfter(times[..n], cutoff, later);
      var kept := After(times[..n], cutoff);
      if times[n] > cutoff {
        assert (kept + [times[n]])[..|kept|] == kept;
      } else {
        assert kept + [] == kept;
      }
    }
  }

  lemma AfterAppend(times: seq<Time>, t: Time, cutoff: Time)
    ensures After(times + [t], cutoff) == After(times, cutoff) + if t > cutoff then [t] else []
  {
    assert (times + [t])[..|times|] == times;
  }

  /** What is stored for an address may lack old admissions, but none that any later answer could count. */
  ghost predicate Remembers(s: Store, history: seq<Time>, ip: string, from: Time) {
    forall cutoff :: from <= cutoff ==> After(Times(s.requests, ip), cutoff) == After(history, cutoff)
  }

  lemma AfterNone(cutoff: Time)
    ensures After([], cutoff) == []
  {
  }

  lemma SweptRemembers(s: Store, window: Time, now: Time, history: seq<Time>, ip: string)
    requires Remembers(s, history, ip, now - window)
    ensures Remembers(Swept(s, window, now), history, ip, now - window)
  {
    hide After;
    var swept := Swept(s, window, now);
    if now > s.cleanupAt {
      forall cutoff | now - window <= cutoff
        ensures After(Times(swept.requests, ip), cutoff) == After(history, cutoff)
      {
        AfterNone(now - window);
        AfterAfter(Times(s.requests, ip), now - window, cutoff);
        if ip in s.requests && ip !in swept.requests {
          assert After(s.requests[ip], now - window) == [];
        }
      }
    }
  }

  lemma AllowedStores(s: Store, limit: int, window: Time, now: Time, ip: string, of: string)
    ensures var (s', ok) := Allowed(s, limit, window, now, ip);
            var times := Times(Swept(s, window, now).requests, of);
            Times(s'.requests, of) == if of == ip && ok then After(times, now - window) + [now] else times
  {
  }

  lemma AnswerIsTheRules(s: Store, limit: int, window: Time, now: Time, ip: string, history: seq<Time>)
    requires Remembers(s, history, ip, now - window)
    ensures Allowed(s, limit, window, now, ip).1 == (|After(history, now - window)| < limit)
  {
    SweptRemembers(s, window, now, history, ip);
  }

  lemma RemembersAdmission(times: seq<Time>, history: seq<Time>, from: Time, now: Time, cutoff: Time)
    requires from <= cutoff && After(times, cutoff) == After(history, cutoff)
    ensures After(After(times, from) + [now], cutoff) == After(history + [now], cutoff)
  {
    AfterAfter(times, from, cutoff);
    AfterAppend(After(times, from), now, cutoff);
    AfterAppend(history, now, cutoff);
  }

  /** One request: what must be remembered of any address still is. */
  lemma AllowedRemembers(
    s: Store, s': Store, ok: bool, limit: int, window: Time, now: Time, ip: string, history: seq<Time>, of: string)
    requires Remembers(s, history, of, now - window)
    requires (s', ok) == Allowed(s, limit, window, now, ip)
    ensures Remembers(s', if of == ip && ok then history + [now] else history, of, now - window)
  {
    hide After, Swept, Allowed;
    SweptRemembers(s, window, now, history, of);
    AllowedStores(s, limit, window, now, ip, of);
    var swept := Swept(s, window, now);
    var times, times' := Times(swept.requests, of), Times(s'.requests, of);
    var history' := if of == ip && ok then history + [now] else history;
    forall cutoff | now - window <= cutoff
      ensures After(times', cutoff) == After(history', cutoff)
    {
      assert After(times, cutoff) == After(history, cutoff);
      if of == ip && ok {
        RemembersAdmission(times, history, now - window, now, cutoff);
      }
    }
  }

  lemma AdmissionsStep(requests: seq<Request>, limit: int, window: Time, last: Request, ip: string)
    ensures Admissions(requests + [last], limit, window, ip)
         == Admissions(requests, limit, window, ip)
            + if last.ip == ip && Admits(requests, limit, window, last) then [last.at] else []
  {
    assert (requests + [last])[..|requests|] == requests;
  }

  lemma RemembersLater(s: Store, history: seq<Time>, ip: string, from: Time, later: Time)
    requires Remembers(s, history, ip, from) && from <= later
    ensures Remembers(s, history, ip, later)
  {
  }

  lemma StepRemembers(
    s: Store, limit: int, window: Time, earlier: seq<Request>, last: Request, ip: string)
    returns (s': Store)
    requires Remembers(s, Admissions(earlier, limit, window, ip), ip, last.at - window)
    ensures s' == Allowed(s, limit, window, last.at, last.ip).0
    ensures Remembers(s', Admissions(earlier + [last], limit, window, ip), ip, last.at - window)
  {
    hide Admissions, After, Allowed, Remembers;
    var history := Admissions(earlier, limit, window, ip);
    AdmissionsStep(earlier, limit, window, last, ip);
    s' := Allowed(s, limit, window, last.at, last.ip).0;
    var ok := Allowed(s, limit, window, last.at, last.ip).1;
    if last.ip == ip {
      AnswerIsTheRules(s, limit, window, last.at, ip, history);
    }
    AllowedRemembers(s, s', ok, limit, window, last.at, last.ip, history, ip);
    assert history + [] == history;
  }

  lemma AnswerAfter(s: Store, limit: int, window: Time, earlier: seq<Request>, next: Request)
    requires Remembers(s, Admissions(earlier, limit, window, next.ip), next.ip, next.at - window)
    ensures Allowed(s, limit, window, next.at, next.ip).1 == Admits(earlier, limit, window, next)
  {
    hide Admissions, After;
    AnswerIsTheRules(s, limit, window, next.at, next.ip, Admissions(earlier, limit, window, next.ip));
  }

  lemma {:induction false} RunRemembers(
    states: seq<Store>, limit: int, window: Time, requests: seq<Request>, n: nat, ip: string, from: Time)
    requires IsRun(states, limit, window, requests) && InOrder(requests) && n <= |requests|
    requires n > 0 ==> requests[n - 1].at - window <= from
    ensures Remembers(states[n], Admissions(requests[..n], limit, window, ip), ip, from)
  {
    hide After, Allowed;
    if n == 0 {
    } else {
      var earlier, last := requests[..n - 1], requests[n - 1];
      assert requests[..n] == earlier + [last];
      RunRemembers(states, limit, window, requests, n - 1, ip, last.at - window);
      var s' := StepRemembers(states[n - 1], limit, window, earlier, last, ip);
      assert IsStep(states[n - 1], states[n], limit, window, last);
      RemembersLater(s', Admissions(requests[..n], limit, window, ip), ip, last.at - window, from);
    }
  }

  /**
   In any run under a clock that does not step back, every answer is the full-history rule's; when cleanup ran, or
   whether, cannot be told from the answers.
   */
  lemma AnswersAsIfNothingWereForgotten(
    states: seq<Store>, limit: int, window: Time, requests: seq<Request>, n: nat)
    requires IsRun(states, limit, window, requests) && InOrder(requests) && n < |requests|
    ensures Allowed(states[n], limit, window, requests[n].at, requests[n].ip).1
         == Admits(requests[..n], limit, window, requests[n])
  {
    hide Admissions, After, Allowed, Admits;
    var next := requests[n];
    RunRemembers(states, limit, window, requests, n, next.ip, next.at - window);
    AnswerAfter(states[n], limit, window, requests[..n], next);
  }

  // ----- what the rule guarantees -----

  /** The admissions that lie in the half-open window after `start`. */
  function Within(times: seq<Time>, start: Time, window: Time): seq<Time> {
    if times == [] then []
    else
      var t := times[|times| - 1];
      Within(times[..|times| - 1], start, window) + if start < t <= start + window then [t] else []
  }

  lemma {:induction false} WithinIsRecent(times: seq<Time>, start: Time, window: Time, now: Time)
    requires start < now <= start + window
    ensures |Within(times, start, window)| <= |After(times, now - window)|
  {
    if times == [] {
    } else {
      WithinIsRecent(times[..|times| - 1], start, window, now);
    }
  }

  /** By the full-history rule, no window of that length ever holds more than `limit` admissions of an address. */
  lemma {:induction false} NoWindowHoldsMore(requests: seq<Request>, limit: nat, window: Time, ip: string, start: Time)
    ensures |Within(Admissions(requests, limit, window, ip), start, window)| <= limit
  {
    if requests == [] {
    } else {
      var n := |requests| - 1;
      var earlier, last := Admissions(requests[..n], limit, window, ip), requests[n];
      NoWindowHoldsMore(requests[..n], limit, window, ip, start);
      if Admissions(requests, limit, window, ip) != earlier {
        assert (earlier + [last.at])[..|earlier|] == earlier;
        if start < last.at <= start + window {
          WithinIsRecent(earlier, start, window, last.at);
        }
      }
    }
  }

  /** When the limiter itself admitted an address in a run. */
  function Admitted(states: seq<Store>, limit: int, window: Time, requests: seq<Request>, ip: string): seq<Time>
    requires |states| == |requests| + 1
    decreases |requests|
  {
    if requests == [] then []
    else
      var n := |requests| - 1;
      var last := requests[n];
      Admitted(states[..n + 1], limit, window, requests[..n], ip)
      + if last.ip == ip && Allowed(states[n], limit, window, last.at, last.ip).1 then [last.at] else []
  }

  lemma EarlierRun(states: seq<Store>, limit: int, window: Time, requests: seq<Request>, n: nat)
    requires IsRun(states, limit, window, requests) && InOrder(requests) && n <= |requests|
    ensures IsRun(states[..n + 1], limit, window, requests[..n]) && InOrder(requests[..n])
  {
    hide IsStep;
    var before, earlier := states[..n + 1], requests[..n];
    forall k | 0 <= k < n
      ensures IsStep(before[k], before[k + 1], limit, window, earlier[k])
    {
      assert earlier[k] == requests[k];
    }
  }

  /** In any run under a clock that does not step back, the limiter admits exactly what the full-history rule does. */
  lemma {:induction false} AdmittedByTheRule(
    states: seq<Store>, limit: int, window: Time, requests: seq<Request>, ip: string)
    requires IsRun(states, limit, window, requests) && InOrder(requests)
    ensures Admitted(states, limit, window, requests, ip) == Admissions(requests, limit, window, ip)
    decreases |requests|
  {
    if requests == [] {
    } else {
      hide Allowed, Admits, IsRun, InOrder;
      var n := |requests| - 1;
      var earlier, last := requests[..n], requests[n];
      assert requests == earlier + [last];
      EarlierRun(states, limit, window, requests, n);
      AdmittedByTheRule(states[..n + 1], limit, window, earlier, ip);
      AnswersAsIfNothingWereForgotten(states, limit, window, requests, n);
      AdmissionsStep(earlier, limit, window, last, ip);
    }
  }

  /** No half-open window of that length ever holds more than `limit` of the limiter's own admissions of an address. */
  lemma NoWindowAdmitsMore(
    states: seq<Store>, limit: nat, window: Time, requests: seq<Request>, ip: string, start: Time)
    requires IsRun(states, limit, window, requests) && InOrder(requests)
    ensures |Within(Admitted(states, limit, window, requests, ip), start, window)| <= limit
  {
    AdmittedByTheRule(states, limit, window, requests, ip);
    NoWindowHoldsMore(requests, limit, window, ip, start);
  }

  lemma {:induction false} AfterIsShorter(times: seq<Time>, cutoff: Time)
    ensures |After(times, cutoff)| <= |times|
  {
    if times == [] {
    } else {
      AfterIsShorter(times[..|times| - 1], cutoff);
    }
  }

  lemma SweptStoresNoMore(s: Store, window: Time, now: Time, of: string)
    ensures |Times(Swept(s, window, now).requests, of)| <= |Times(s.requests, of)|
  {
    AfterIsShorter(Times(s.requests, of), now - window);
    hide After;
  }

  lemma AllowedStoresAtMostLimit(s: Store, limit: nat, window: Time, now: Time, ip: string, of: string)
    requires |Times(s.requests, of)| <= limit
    ensures |Times(Allowed(s, limit, window, now, ip).0.requests, of)| <= limit
  {
    hide After, Swept;
    SweptStoresNoMore(s, window, now, of);
    AllowedStores(s, limit, window, now, ip, of);
  }

  /** Nor are more than `limit` timestamps ever stored for one. */
  lemma {:induction false} StoresAtMostLimit(
    states: seq<Store>, limit: nat, window: Time, requests: seq<Request>, n: nat, ip: string)
    requires IsRun(states, limit, window, requests) && n <= |requests|
    ensures |Times(states[n].requests, ip)| <= limit
  {
    if n == 0 {
    } else {
      var last := requests[n - 1];
      StoresAtMostLimit(states, limit, window, requests, n - 1, ip);
      AllowedStoresAtMostLimit(states[n - 1], limit, window, last.at, last.ip, ip);
      assert IsStep(states[n - 1], states[n], limit, window, last);
    }
  }

  lemma {:induction false} WithinIsAfter(times: seq<Time>, cutoff: Time, now: Time)
    requires forall n :: 0 <= n < |times| ==> times[n] <= now
    ensures Within(times, cutoff, now - cutoff) == After(times, cutoff)
  {
    if times == [] {
    } else {
      WithinIsAfter(times[..|times| - 1], cutoff, now);
    }
  }

  lemma {:induction false} AdmissionsAreEarlier(
    requests: seq<Request>, limit: int, window: Time, ip: string, now: Time)
    requires forall n :: 0 <= n < |requests| ==> requests[n].at <= now
    ensures var times := Admissions(requests, limit, window, ip); forall n :: 0 <= n < |times| ==> times[n] <= now
  {
    if requests == [] {
    } else {
      var earlier, last := requests[..|requests| - 1], requests[|requests| - 1];
      AdmissionsAreEarlier(earlier, limit, window, ip, now);
      AdmissionsStep(earlier, limit, window, last, ip);
      assert requests == earlier + [last];
      hide Admissions, Admits;
    }
  }

  /**
   A request is refused exactly when the window that ends with it already holds `limit` of the limiter's own admissions
   of that address.
   */
  lemma RefusedExactlyWhenFull(states: seq<Store>, limit: int, window: Time, requests: seq<Request>, n: nat)
    requires IsRun(states, limit, window, requests) && InOrder(requests) && n < |requests|
    ensures var ip, now := requests[n].ip, requests[n].at;
            Allowed(states[n], limit, window, now, ip).1
            <==> |Within(Admitted(states[..n + 1], limit, window, requests[..n], ip), now - window, window)| < limit
  {
    hide Allowed, Admissions, After, Within, Admitted, IsStep;
    var ip, now := requests[n].ip, requests[n].at;
    EarlierRun(states, limit, window, requests, n);
    AdmittedByTheRule(states[..n + 1], limit, window, requests[..n], ip);
    AnswersAsIfNothingWereForgotten(states, limit, window, requests, n);
    AdmissionsAreEarlier(requests[..n], limit, window, ip, now);
    WithinIsAfter(Admissions(requests[..n], limit, window, ip), now - window, now);
  }

  // ----- what is forgotten -----

  lemma {:induction false} AfterHolds(times: seq<Time>, cutoff: Time)
    ensures forall t :: t in After(times, cutoff) <==> t in times && cutoff < t
  {
    if times == [] {
    } else {
      var last := |times| - 1;
      AfterHolds(times[..last], cutoff);
      assert times == times[..last] + [times[last]];
    }
  }

  /** Some timestamp of the address is less than a window old. */
  predicate Fresh(requests: map<string, seq<Time>>, ip: string, window: Time, now: Time) {
    ip in requests && exists n :: 0 <= n < |requests[ip]| && now - window < requests[ip][n]
  }

  /**
   Once a cleanup is due, the addresses not asked about stay exactly if some timestamp of theirs is still in the window,
   with those and no others, and the next one is due five minutes later; until then none of them is touched.
   */
  lemma CleanupForgetsTheStale(s: Store, limit: int, window: Time, now: Time, ip: string, other: string)
    requires other != ip
    ensures var s' := Allowed(s, limit, window, now, ip).0;
            if s.cleanupAt < now then
              && s'.cleanupAt == now + 300_000_000_000
              && (other in s'.requests <==> Fresh(s.requests, other, window, now))
              && (other in s'.requests ==>
                    forall t :: t in s'.requests[other] <==> t in s.requests[other] && now - window < t)
            else
              && s'.cleanupAt == s.cleanupAt
              && (other in s'.requests <==> other in s.requests)
              && (other in s.requests ==> s'.requests[other] == s.requests[other])
  {
    if other in s.requests {
      FreshIsKept(s.requests, other, window, now);
      AfterHolds(s.requests[other], now - window);
    }
    hide After;
  }

  lemma FreshIsKept(requests: map<string, seq<Time>>, ip: string, window: Time, now: Time)
    requires ip in requests
    ensures Fresh(requests, ip, window, now) <==> After(requests[ip], now - window) != []
  {
    var times, after := requests[ip], After(requests[ip], now - window);
    AfterHolds(times, now - window);
    if after != [] {
      assert after[0] in after;
      var n :| 0 <= n < |times| && times[n] == after[0];
    }
    if n :| 0 <= n < |times| && now - window < times[n] {
      assert times[n] in after;
    }
  }
}
