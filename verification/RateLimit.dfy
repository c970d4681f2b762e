/**
 Sliding-window rate limiting over one Redis sorted set.

 A request trims the set, counts what is left, adds itself and renews the key's expiry;
 it is allowed when the count before adding was below the limit. Times are whole
 milliseconds. The theorems compare the trimmed set with the plain log of all requests.
 */
module RateLimit {
  import opened Common

  /** The sorted set under one key (member to score) and when its expiry falls due. */
  datatype Store = Store(entries: map<string, nat>, deadline: Option<nat>)

  const EMPTY := Store(map[], None)

  /**
   One request: the clock, the request id the client sent, and whether Redis had dropped the key
   by then if it was allowed to (expiry is due at the deadline, and lazily or actively applied later).
   */
  datatype Request = Request(now: nat, id: string, dropped: bool)

  function Decimal(n: nat): string {
    if n < 10 then [DIGITS[n]] else Decimal(n / 10) + [DIGITS[n % 10]]
  }

  const DIGITS := ['0', '1', '2', '3', '4', '5', '6', '7', '8', '9']

  /** The member string a request adds: its time, a dash and its request id. */
  function Member(r: Request): string {
    Decimal(r.now) + ['-'] + r.id
  }

  function OrDefault(value: real, default: real): real {
    if value <= 0.0 then default else value
  }

  /** The limit per window after defaults: rate times window, or the burst when that is below one. */
  function EffectiveLimit(perSecond: real, burst: int, windowSeconds: real): (limit: int)
    ensures limit >= 1
    ensures var product := OrDefault(perSecond, 10.0) * OrDefault(windowSeconds, 60.0);
            if product >= 1.0 then limit as real <= product < (limit + 1) as real
            else limit == if burst > 0 then burst else 20
  {
    var rate := OrDefault(perSecond, 10.0);
    var window := OrDefault(windowSeconds, 60.0);
    var limit := (rate * window).Floor;
    if limit >= 1 then limit else if burst <= 0 then 20 else burst
  }

  /** The key as the pipeline finds it. */
  function Present(store: Store, r: Request): Store {
    if r.dropped && store.deadline.Some? && r.now >= store.deadline.value then EMPTY else store
  }

  /** ZREMRANGEBYSCORE from 0 to the start of the window, both ends included. */
  function Trim(entries: map<string, nat>, windowStart: int): map<string, nat> {
    map m | m in entries && !(0 <= entries[m] <= windowStart) :: entries[m]
  }

  function Trimmed(store: Store, r: Request, window: nat): map<string, nat> {
    Trim(Present(store, r).entries, r.now - window)
  }

  /** The store after one pipeline. */
  function Step(store: Store, r: Request, window: nat): Store {
    Store(Trimmed(store, r, window)[Member(r) := r.now], Some(r.now + window))
  }

  /** The store after a whole run, starting from an absent key. */
  function After(log: seq<Request>, window: nat): Store {
    if log == [] then EMPTY else Step(After(log[..|log| - 1], window), log[|log| - 1], window)
  }

  /** Whether the `i`th request of the log was let through. */
  predicate Allowed(log: seq<Request>, i: nat, limit: int, window: nat)
    requires i < |log|
  {
    |Trimmed(After(log[..i], window), log[i], window)| < limit
  }

  lemma AfterOneMore(log: seq<Request>, r: Request, limit: int, window: nat)
    ensures After(log + [r], window) == Step(After(log, window), r, window)
    ensures Allowed(log + [r], |log|, limit, window) <==> |Trimmed(After(log, window), r, window)| < limit
  {
    assert (log + [r])[..|log|] == log;
  }

  /** The limiter as the middleware holds it: one key, updated in place. */
  class Limiter {
    var store: Store
    const limit: int
    const window: nat

    constructor (limit: int, window: nat)
      ensures store == After([], window) && this.limit == limit && this.window == window
    {
      store := EMPTY;
      this.limit := limit;
      this.window := window;
    }

    /** One call of the check, made after the calls in `log`; when Redis cannot be reached the request is let through. */
    method Check(r: Request, reachable: bool, ghost log: seq<Request>) returns (allowed: bool)
      requires store == After(log, window)
      modifies this
      ensures store == if reachable then After(log + [r], window) else old(store)
      ensures allowed <==> !reachable || Allowed(log + [r], |log|, limit, window)
    {
      hide After, Allowed, Member, Trim, Present;
      if !reachable {
        return true;
      }
      AfterOneMore(log, r, limit, window);
      store := Present(store, r);
      var entries := Trim(store.entries, r.now - window);
      var count := |entries|;
      entries := entries[Member(r) := r.now];
      store := Store(entries, Some(r.now + window));
      allowed := count < limit;
    }
  }

  // --- Member strings ----------------------------------------------------------------------

  lemma {:induction false} DecimalHasNoDash(n: nat, k: nat)
    requires k < |Decimal(n)|
    ensures Decimal(n)[k] != '-'
  {
    if n >= 10 && k < |Decimal(n / 10)| {
      DecimalHasNoDash(n / 10, k);
    }
  }

  lemma {:induction false} DecimalIsInjective(n: nat, m: nat)
    requires Decimal(n) == Decimal(m)
    ensures n == m
  {
    var d, e := Decimal(n), Decimal(m);
    assert d[|d| - 1] == DIGITS[n % 10] && e[|e| - 1] == DIGITS[m % 10];
    assert n % 10 == m % 10;
    DecimalLength(n);
    DecimalLength(m);
    if n >= 10 && m >= 10 {
      assert d[..|d| - 1] == Decimal(n / 10) && e[..|e| - 1] == Decimal(m / 10);
      DecimalIsInjective(n / 10, m / 10);
    }
  }

  lemma DecimalLength(n: nat)
    ensures |Decimal(n)| >= 1 && (n >= 10 <==> |Decimal(n)| >= 2)
  {
    if n >= 10 {
      assert |Decimal(n / 10)| >= 1;
    }
  }

  /** Equal members were added at equal times, with equal request ids. */
  lemma MembersTellTheTime(r: Request, q: Request)
    requires Member(r) == Member(q)
    ensures r.now == q.now && r.id == q.id
  {
    var d, e, m := Decimal(r.now), Decimal(q.now), Member(r);
    assert m[|d|] == '-' && m[|e|] == '-';
    assert forall k :: 0 <= k < |d| ==> m[k] == d[k];
    assert forall k :: 0 <= k < |e| ==> m[k] == e[k];
    if |d| < |e| {
      DecimalHasNoDash(q.now, |d|);
    } else if |e| < |d| {
      DecimalHasNoDash(r.now, |e|);
    }
    assert |d| == |e|;
    assert d == m[..|d|] == e;
    assert r.id == m[|d| + 1..] == q.id;
    hide Decimal;
    DecimalIsInjective(r.now, q.now);
  }

  // --- The log ---------------------------------------------------------------------------

  ghost predicate Monotone(log: seq<Request>) {
    forall i, j :: 0 <= i <= j < |log| ==> log[i].now <= log[j].now
  }

  /** The requests of the last window, denied ones included, as a member-to-time map. */
  function InWindow(log: seq<Request>, now: nat, window: nat): map<string, nat> {
    if log == [] then map[]
    else
      var r, rest := log[|log| - 1], InWindow(log[..|log| - 1], now, window);
      if r.now + window > now then rest[Member(r) := r.now] else rest
  }

  /** The different members among the logged requests younger than one window. */
  function RecentMembers(log: seq<Request>, now: nat, window: nat): set<string> {
    set i | 0 <= i < |log| && log[i].now + window > now :: Member(log[i])
  }

  predicate Accounts(r: Request, m: string, score: nat, now: nat, window: nat) {
    Member(r) == m && r.now == score && r.now + window > now
  }

  lemma {:induction false} InWindowHoldsOnlyLogged(log: seq<Request>, now: nat, window: nat, m: string)
    requires m in InWindow(log, now, window)
    ensures exists i :: 0 <= i < |log| && Accounts(log[i], m, InWindow(log, now, window)[m], now, window)
  {
    hide Member;
    var last := |log| - 1;
    var r := log[last];
    if r.now + window > now && m == Member(r) {
      assert Accounts(log[last], m, r.now, now, window);
    } else {
      InWindowHoldsOnlyLogged(log[..last], now, window, m);
      var i :| 0 <= i < last && Accounts(log[..last][i], m, InWindow(log[..last], now, window)[m], now, window);
      assert Accounts(log[i], m, InWindow(log, now, window)[m], now, window);
    }
  }

  lemma {:induction false} InWindowHoldsAll(log: seq<Request>, now: nat, window: nat, i: nat)
    requires i < |log| && log[i].now + window > now
    ensures Member(log[i]) in InWindow(log, now, window)
  {
    hide Member;
    var last := |log| - 1;
    if i < last {
      InWindowHoldsAll(log[..last], now, window, i);
    }
  }

  /** The map holds each recent member once. */
  lemma InWindowKeys(log: seq<Request>, now: nat, window: nat)
    ensures InWindow(log, now, window).Keys == RecentMembers(log, now, window)
    ensures |InWindow(log, now, window)| == |RecentMembers(log, now, window)|
  {
    hide Member, InWindow;
    var entries, members := InWindow(log, now, window), RecentMembers(log, now, window);
    forall m | m in entries.Keys ensures m in members {
      InWindowHoldsOnlyLogged(log, now, window, m);
    }
    forall m | m in members ensures m in entries.Keys {
      var i :| 0 <= i < |log| && log[i].now + window > now && Member(log[i]) == m;
      InWindowHoldsAll(log, now, window, i);
    }
    assert |entries| == |entries.Keys|;
  }

  lemma {:induction false} TrimmingInWindow(log: seq<Request>, earlier: nat, now: nat, window: nat)
    requires earlier <= now
    ensures Trim(InWindow(log, earlier, window), now - window) == InWindow(log, now, window)
  {
    if log != [] {
      var last := |log| - 1;
      var r := log[last];
      var m, rest := Member(r), InWindow(log[..last], earlier, window);
      TrimmingInWindow(log[..last], earlier, now, window);
      assert m in rest ==> rest[m] == r.now by {
        if m in rest {
          InWindowHoldsOnlyLogged(log[..last], earlier, window, m);
          var i :| 0 <= i < last && Accounts(log[..last][i], m, rest[m], earlier, window);
          MembersTellTheTime(log[..last][i], r);
        }
      }
      hide Member;
      if r.now + window > earlier {
        var with := rest[m := r.now];
        assert Trim(with, now - window) ==
               if r.now + window > now then Trim(rest, now - window)[m := r.now] else Trim(rest, now - window);
      }
    }
  }

  lemma {:induction false} NothingInWindowAfterTheDeadline(log: seq<Request>, now: nat, window: nat)
    requires forall i :: 0 <= i < |log| ==> log[i].now + window <= now
    ensures InWindow(log, now, window) == map[]
  {
    if log != [] {
      NothingInWindowAfterTheDeadline(log[..|log| - 1], now, window);
    }
  }

  /** The store that holds the window before `earlier`, seen by a request at `r.now`. */
  lemma TrimmedFromWindow(log: seq<Request>, earlier: nat, r: Request, window: nat)
    requires earlier <= r.now
    requires forall i :: 0 <= i < |log| ==> log[i].now <= earlier
    ensures Trimmed(Store(InWindow(log, earlier, window), Some(earlier + window)), r, window)
            == InWindow(log, r.now, window)
  {
    hide Member;
    TrimmingInWindow(log, earlier, r.now, window);
    if r.now >= earlier + window {
      NothingInWindowAfterTheDeadline(log, r.now, window);
    }
  }

  /** The stored set is exactly the requests of the last window, denied ones included, each member once. */
  lemma {:induction false} StoreIsTheLastWindow(log: seq<Request>, window: nat)
    requires Monotone(log) && log != [] && window > 0
    ensures var now := log[|log| - 1].now;
            && After(log, window) == Store(InWindow(log, now, window), Some(now + window))
            && After(log, window).entries.Keys == RecentMembers(log, now, window)
    decreases |log|, 0
  {
    hide Member, RecentMembers;
    var last := |log| - 1;
    TrimmedIsTheWindow(log[..last], log[last], window);
    InWindowKeys(log, log[last].now, window);
  }

  /** What a new request finds is the plain log of the last window, whether or not the key had expired. */
  lemma {:induction false} TrimmedIsTheWindow(log: seq<Request>, r: Request, window: nat)
    requires Monotone(log) && window > 0
    requires forall i :: 0 <= i < |log| ==> log[i].now <= r.now
    ensures Trimmed(After(log, window), r, window) == InWindow(log, r.now, window)
    decreases |log|, 1
  {
    if log != [] {
      hide Trimmed, After, InWindow, RecentMembers;
      StoreIsTheLastWindow(log, window);
      TrimmedFromWindow(log, log[|log| - 1].now, r, window);
    } else {
      assert After(log, window) == EMPTY;
    }
  }

  /** A decision depends on the log alone: fewer than `limit` different members in the last window. */
  lemma AllowedMeansFewerThanLimit(log: seq<Request>, i: nat, limit: int, window: nat)
    requires i < |log| && Monotone(log) && window > 0
    ensures Allowed(log, i, limit, window) <==> |RecentMembers(log[..i], log[i].now, window)| < limit
  {
    hide InWindow, RecentMembers, Member;
    TrimmedIsTheWindow(log[..i], log[i], window);
    InWindowKeys(log[..i], log[i].now, window);
  }

  /** Two logs that differ only in when the key was dropped get the same decisions. */
  lemma ExpiryNeverChangesADecision(log: seq<Request>, log': seq<Request>, i: nat, limit: int, window: nat)
    requires i < |log| == |log'| && Monotone(log) && window > 0
    requires forall k :: 0 <= k < |log| ==> log'[k] == log[k].(dropped := log'[k].dropped)
    ensures Allowed(log, i, limit, window) <==> Allowed(log', i, limit, window)
  {
    hide Allowed, RecentMembers;
    AllowedMeansFewerThanLimit(log, i, limit, window);
    assert Monotone(log');
    AllowedMeansFewerThanLimit(log', i, limit, window);
    DropsChangeNoMember(log[..i], log'[..i], log[i].now, window);
  }

  lemma DropsChangeNoMember(log: seq<Request>, log': seq<Request>, now: nat, window: nat)
    requires |log| == |log'| && forall k :: 0 <= k < |log| ==> log'[k] == log[k].(dropped := log'[k].dropped)
    ensures RecentMembers(log, now, window) == RecentMembers(log', now, window)
  {
    assert forall k :: 0 <= k < |log| ==> Member(log'[k]) == Member(log[k]);
    hide Member;
  }

  // --- The bound -------------------------------------------------------------------------

  /** The members of those of the first `n` requests that were allowed at a time in `(from, from + window]`. */
  ghost function AllowedMembers(log: seq<Request>, n: nat, from: int, limit: int, window: nat): set<string>
    requires n <= |log|
  {
    set i | 0 <= i < n && from < log[i].now <= from + window && Allowed(log, i, limit, window) :: Member(log[i])
  }

  lemma SubsetIsNoLarger(a: set<string>, b: set<string>)
    requires a <= b
    ensures |a| <= |b|
  {
    assert b == a + (b - a);
  }

  /** No interval of window length ever contains more than `limit` different allowed members. */
  lemma {:induction false} DistinctBound(log: seq<Request>, n: nat, from: int, limit: int, window: nat)
    requires n <= |log| && Monotone(log) && window > 0 && limit >= 0
    ensures |AllowedMembers(log, n, from, limit, window)| <= limit
  {
    hide Allowed, Member;
    if n > 0 {
      DistinctBound(log, n - 1, from, limit, window);
      var r, before := log[n - 1], AllowedMembers(log, n - 1, from, limit, window);
      if from < r.now <= from + window && Allowed(log, n - 1, limit, window) {
        AllowedMeansFewerThanLimit(log, n - 1, limit, window);
        var recent := RecentMembers(log[..n - 1], r.now, window);
        forall m | m in before ensures m in recent {
          var i :| 0 <= i < n - 1 && from < log[i].now <= from + window && Allowed(log, i, limit, window) && Member(log[i]) == m;
          assert log[..n - 1][i] == log[i];
        }
        SubsetIsNoLarger(before, recent);
        assert AllowedMembers(log, n, from, limit, window) == before + {Member(r)};
      } else {
        assert AllowedMembers(log, n, from, limit, window) == before;
      }
    }
  }

  /** How many of the first `n` requests were allowed at a time in `(from, from + window]`. */
  ghost function AllowedWithin(log: seq<Request>, n: nat, from: int, limit: int, window: nat): nat
    requires n <= |log|
  {
    if n == 0 then 0
    else
      (if from < log[n - 1].now <= from + window && Allowed(log, n - 1, limit, window) then 1 else 0)
      + AllowedWithin(log, n - 1, from, limit, window)
  }

  /** No two requests arrive in the same millisecond with the same request id. */
  ghost predicate DistinctRequests(log: seq<Request>) {
    forall i, j :: 0 <= i < j < |log| ==> log[i].now != log[j].now || log[i].id != log[j].id
  }

  lemma {:induction false} DistinctRequestsCount(log: seq<Request>, n: nat, from: int, limit: int, window: nat)
    requires n <= |log| && DistinctRequests(log)
    ensures AllowedWithin(log, n, from, limit, window) == |AllowedMembers(log, n, from, limit, window)|
  {
    hide Allowed, Member;
    if n > 0 {
      DistinctRequestsCount(log, n - 1, from, limit, window);
      var r, before := log[n - 1], AllowedMembers(log, n - 1, from, limit, window);
      if from < r.now <= from + window && Allowed(log, n - 1, limit, window) {
        assert AllowedMembers(log, n, from, limit, window) == before + {Member(r)};
        forall i | 0 <= i < n - 1 ensures Member(log[i]) != Member(r) {
          if Member(log[i]) == Member(r) {
            MembersTellTheTime(log[i], r);
            assert false;
          }
        }
      } else {
        assert AllowedMembers(log, n, from, limit, window) == before;
      }
    }
  }

  /** So when requests are distinguishable, no interval of window length contains more than `limit` allowed ones. */
  lemma WindowBound(log: seq<Request>, n: nat, from: int, limit: int, window: nat)
    requires n <= |log| && Monotone(log) && DistinctRequests(log) && window > 0 && limit >= 0
    ensures AllowedWithin(log, n, from, limit, window) <= limit
  {
    DistinctBound(log, n, from, limit, window);
    DistinctRequestsCount(log, n, from, limit, window);
  }

  /** Requests that are not distinguishable are stored once, so any number of them passes a limit above one. */
  lemma {:induction false} RepeatedRequestsAllPass(r: Request, n: nat, limit: int, window: nat)
    requires limit > 1 && window > 0
    ensures var log := seq(n, _ => r); Monotone(log) && AllowedWithin(log, n, r.now - 1, limit, window) == n
  {
    var log := seq(n, _ => r);
    AllAllowed(log, r, n, limit, window);
  }

  lemma {:induction false} AllAllowed(log: seq<Request>, r: Request, n: nat, limit: int, window: nat)
    requires n <= |log| && (forall i :: 0 <= i < |log| ==> log[i] == r) && limit > 1 && window > 0
    ensures AllowedWithin(log, n, r.now - 1, limit, window) == n
  {
    hide Member;
    if n > 0 {
      AllAllowed(log, r, n - 1, limit, window);
      AllowedMeansFewerThanLimit(log, n - 1, limit, window);
      hide Allowed;
      SubsetIsNoLarger(RecentMembers(log[..n - 1], r.now, window), {Member(r)});
    }
  }
}
