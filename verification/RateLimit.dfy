/** The sliding-window limiter on unauthenticated routes: its pruned event table against the full
    history of attempts, the bound it enforces, and the audit rows it writes. */
module RateLimit {
  import Sets

  /** 3600 seconds; clock readings are in microseconds. */
  const WINDOW := 3_600_000_000

  /** The bucket an attempt falls in. */
  datatype Key = Key(route: string, ip: string)

  datatype Attempt = Attempt(key: Key, at: int)

  /** The per-hour limit of each route, overrides included; 0 or less switches it off. */
  type Limits = string -> int

  // ---- The table ----

  predicate Dead(e: Attempt, route: string, start: int) {
    e.key.route == route && e.at < start
  }

  function Prune(events: seq<Attempt>, route: string, start: int): seq<Attempt> {
    if events == [] then []
    else
      var front, last := events[..|events| - 1], events[|events| - 1];
      if Dead(last, route, start) then Prune(front, route, start) else Prune(front, route, start) + [last]
  }

  function One(e: Attempt, key: Key, start: int): nat {
    if e.key == key && e.at >= start then 1 else 0
  }

  /** How many of a key's events are not older than `start`. */
  function Count(events: seq<Attempt>, key: Key, start: int): nat {
    if events == [] then 0
    else Count(events[..|events| - 1], key, start) + One(events[|events| - 1], key, start)
  }

  /** Committed rows: the attempt events and the `auth.rate_limited` audit rows. */
  datatype Table = Table(events: seq<Attempt>, audits: seq<Attempt>)

  datatype Verdict = Admitted | Rejected

  /** How many attempts the call for `a` counts. */
  function Counted(t: Table, a: Attempt): nat {
    Count(Prune(t.events, a.key.route, a.at - WINDOW), a.key, a.at - WINDOW)
  }

  /** One call of `enforce_ip_rate_limit`. */
  function Step(limits: Limits, t: Table, a: Attempt): Table {
    if limits(a.key.route) <= 0 then t
    else
      Table(Prune(t.events, a.key.route, a.at - WINDOW) + [a],
            if Counted(t, a) == limits(a.key.route) then t.audits + [a] else t.audits)
  }

  function Decision(limits: Limits, t: Table, a: Attempt): Verdict {
    if 0 < limits(a.key.route) <= Counted(t, a) then Rejected else Admitted
  }

  class Limiter {
    const limits: Limits
    var events: seq<Attempt>
    var audits: seq<Attempt>

    constructor (limits: Limits)
      ensures this.limits == limits && events == [] && audits == []
    {
      this.limits := limits;
      events, audits := [], [];
    }

    method Enforce(route: string, ip: string, now: int) returns (verdict: Verdict)
      modifies this
      ensures Table(events, audits) == Step(limits, Table(old(events), old(audits)), Attempt(Key(route, ip), now))
      ensures verdict == Decision(limits, Table(old(events), old(audits)), Attempt(Key(route, ip), now))
    {
      var limit := limits(route);
      if limit <= 0 {
        return Admitted;
      }
      var windowStart := now - WINDOW;
      events := Prune(events, route, windowStart);
      var current := Count(events, Key(route, ip), windowStart);
      var attempt := Attempt(Key(route, ip), now);
      events := events + [attempt];
      if current >= limit {
        if current == limit {
          audits := audits + [attempt];
        }
        return Rejected;
      }
      return Admitted;
    }
  }

  // ---- The full history ----

  /** The table after a sequence of attempts on an empty table. */
  function After(limits: Limits, attempts: seq<Attempt>): Table {
    if attempts == [] then Table([], [])
    else Step(limits, After(limits, attempts[..|attempts| - 1]), attempts[|attempts| - 1])
  }

  function VerdictOf(limits: Limits, attempts: seq<Attempt>, i: nat): Verdict
    requires i < |attempts|
  {
    Decision(limits, After(limits, attempts[..i]), attempts[i])
  }

  ghost predicate ClockForward(attempts: seq<Attempt>) {
    forall i, j :: 0 <= i <= j < |attempts| ==> attempts[i].at <= attempts[j].at
  }

  /** How many earlier attempts of its own key attempt `i` has in its window, by full history. */
  function Current(attempts: seq<Attempt>, i: nat): nat
    requires i < |attempts|
  {
    Count(attempts[..i], attempts[i].key, attempts[i].at - WINDOW)
  }

  lemma CountAppend(a: seq<Attempt>, e: Attempt, key: Key, start: int)
    ensures Count(a + [e], key, start) == Count(a, key, start) + One(e, key, start)
  {
    assert (a + [e])[..|a|] == a;
  }

  lemma {:induction false} CountConcat(a: seq<Attempt>, b: seq<Attempt>, key: Key, start: int)
    ensures Count(a + b, key, start) == Count(a, key, start) + Count(b, key, start)
  {
    if b == [] {
      assert a + b == a;
    } else {
      var front := b[..|b| - 1];
      assert a + b == (a + front) + [b[|b| - 1]];
      CountAppend(a + front, b[|b| - 1], key, start);
      CountConcat(a, front, key, start);
    }
  }

  lemma {:induction false} PruneKeepsCount(events: seq<Attempt>, route: string, start: int, key: Key, from: int)
    requires key.route == route ==> from >= start
    ensures Count(Prune(events, route, start), key, from) == Count(events, key, from)
  {
    if events != [] {
      var front, last := events[..|events| - 1], events[|events| - 1];
      PruneKeepsCount(front, route, start, key, from);
      if Dead(last, route, start) {
        assert One(last, key, from) == 0;
      } else {
        CountAppend(Prune(front, route, start), last, key, from);
      }
    }
  }

  lemma StepCounts(limits: Limits, t: Table, a: Attempt, key: Key, from: int)
    requires limits(key.route) > 0
    requires from >= a.at - WINDOW
    ensures Count(Step(limits, t, a).events, key, from) == Count(t.events, key, from) + One(a, key, from)
  {
    if limits(a.key.route) <= 0 {
      assert One(a, key, from) == 0;
    } else {
      var pruned := Prune(t.events, a.key.route, a.at - WINDOW);
      PruneKeepsCount(t.events, a.key.route, a.at - WINDOW, key, from);
      CountAppend(pruned, a, key, from);
      assert Step(limits, t, a).events == pruned + [a];
    }
  }

  /** Pruning forgets nothing a later call will count: over any window reaching back from now on,
      the table and the full history agree. */
  lemma {:induction false} TableCountsAsHistory(limits: Limits, attempts: seq<Attempt>, key: Key, from: int)
    requires limits(key.route) > 0
    requires forall a :: a in attempts ==> from >= a.at - WINDOW
    ensures Count(After(limits, attempts).events, key, from) == Count(attempts, key, from)
  {
    if attempts != [] {
      var front, last := attempts[..|attempts| - 1], attempts[|attempts| - 1];
      assert last in attempts;
      TableCountsAsHistory(limits, front, key, from);
      StepCounts(limits, After(limits, front), last, key, from);
    }
  }

  predicate IsRejected(limits: Limits, attempts: seq<Attempt>, i: nat)
    requires i < |attempts|
  {
    0 < limits(attempts[i].key.route) <= Current(attempts, i)
  }

  predicate IsAudited(limits: Limits, attempts: seq<Attempt>, i: nat)
    requires i < |attempts|
  {
    0 < limits(attempts[i].key.route) == Current(attempts, i)
  }

  lemma CountedIsCurrent(limits: Limits, attempts: seq<Attempt>, i: nat)
    requires ClockForward(attempts)
    requires i < |attempts| && limits(attempts[i].key.route) > 0
    ensures Counted(After(limits, attempts[..i]), attempts[i]) == Current(attempts, i)
  {
    var a, past := attempts[i], attempts[..i];
    forall e | e in past
      ensures a.at - WINDOW >= e.at - WINDOW
    {
      var k :| 0 <= k < i && attempts[k] == e;
    }
    TableCountsAsHistory(limits, past, a.key, a.at - WINDOW);
    PruneKeepsCount(After(limits, past).events, a.key.route, a.at - WINDOW, a.key, a.at - WINDOW);
  }

  /** Every decision the pruned table makes is the one the full history of attempts calls for. */
  lemma DecisionsMatchHistory(limits: Limits, attempts: seq<Attempt>, i: nat)
    requires ClockForward(attempts)
    requires i < |attempts|
    ensures VerdictOf(limits, attempts, i) == Rejected <==> IsRejected(limits, attempts, i)
  {
    if limits(attempts[i].key.route) > 0 {
      CountedIsCurrent(limits, attempts, i);
    }
  }

  /** And so is every audit row it writes. */
  lemma AuditsMatchHistory(limits: Limits, attempts: seq<Attempt>, i: nat)
    requires ClockForward(attempts)
    requires i < |attempts|
    ensures After(limits, attempts[..i + 1]).audits ==
            After(limits, attempts[..i]).audits + (if IsAudited(limits, attempts, i) then [attempts[i]] else [])
  {
    assert attempts[..i + 1][..i] == attempts[..i];
    if limits(attempts[i].key.route) > 0 {
      CountedIsCurrent(limits, attempts, i);
    }
  }

  // ---- The history, counted ----

  /** The earlier attempts on the same route from the same address in the 3600 seconds up to attempt `i`. */
  ghost function RecentOwn(attempts: seq<Attempt>, i: nat): set<nat>
    requires i < |attempts|
  {
    set j: nat | j < i && attempts[j].key.route == attempts[i].key.route && attempts[j].key.ip == attempts[i].key.ip &&
                 attempts[j].at >= attempts[i].at - 3600 * 1_000_000
  }

  ghost function OwnSince(attempts: seq<Attempt>, n: nat, key: Key, start: int): set<nat>
    requires n <= |attempts|
  {
    set j: nat | j < n && attempts[j].key == key && attempts[j].at >= start
  }

  lemma OwnSinceStep(attempts: seq<Attempt>, n: nat, key: Key, start: int)
    requires n < |attempts|
    ensures |OwnSince(attempts, n + 1, key, start)| == |OwnSince(attempts, n, key, start)| + One(attempts[n], key, start)
  {
    var e := attempts[n];
    assert OwnSince(attempts, n + 1, key, start) ==
           OwnSince(attempts, n, key, start) + (if e.key == key && e.at >= start then {n} else {});
  }

  lemma {:induction false} CountIsSize(attempts: seq<Attempt>, n: nat, key: Key, start: int)
    requires n <= |attempts|
    ensures Count(attempts[..n], key, start) == |OwnSince(attempts, n, key, start)|
  {
    if n == 0 {
      assert OwnSince(attempts, n, key, start) == {};
    } else {
      CountIsSize(attempts, n - 1, key, start);
      assert attempts[..n] == attempts[..n - 1] + [attempts[n - 1]];
      CountAppend(attempts[..n - 1], attempts[n - 1], key, start);
      OwnSinceStep(attempts, n - 1, key, start);
    }
  }

  lemma CurrentIsRecentOwn(attempts: seq<Attempt>, i: nat)
    requires i < |attempts|
    ensures Current(attempts, i) == |RecentOwn(attempts, i)|
  {
    var a := attempts[i];
    CountIsSize(attempts, i, a.key, a.at - WINDOW);
    assert RecentOwn(attempts, i) == OwnSince(attempts, i, a.key, a.at - WINDOW);
  }

  /** What the limiter decides and logs, on the history of attempts alone: an attempt is rejected when
      its route has a limit and that many of its own attempts lie within the hour before it, rejected
      ones included, and it is logged when there are exactly that many. */
  lemma DecidedByRecentOwn(limits: Limits, attempts: seq<Attempt>, i: nat)
    requires ClockForward(attempts)
    requires i < |attempts|
    ensures var limit := limits(attempts[i].key.route);
            && (VerdictOf(limits, attempts, i) == Rejected <==> limit > 0 && |RecentOwn(attempts, i)| >= limit)
            && After(limits, attempts[..i + 1]).audits ==
               After(limits, attempts[..i]).audits +
               (if limit > 0 && |RecentOwn(attempts, i)| == limit then [attempts[i]] else [])
  {
    CurrentIsRecentOwn(attempts, i);
    DecisionsMatchHistory(limits, attempts, i);
    AuditsMatchHistory(limits, attempts, i);
  }

  // ---- Keys do not interfere ----

  function OfKey(attempts: seq<Attempt>, key: Key): seq<Attempt> {
    if attempts == [] then []
    else
      var front, last := attempts[..|attempts| - 1], attempts[|attempts| - 1];
      if last.key == key then OfKey(front, key) + [last] else OfKey(front, key)
  }

  lemma {:induction false} CountOfKey(attempts: seq<Attempt>, key: Key, from: int)
    ensures Count(OfKey(attempts, key), key, from) == Count(attempts, key, from)
  {
    if attempts != [] {
      var front, last := attempts[..|attempts| - 1], attempts[|attempts| - 1];
      CountOfKey(front, key, from);
      CountAppend(OfKey(front, key), last, key, from);
    }
  }

  lemma CurrentOfOwnKey(attempts: seq<Attempt>, i: nat)
    requires i < |attempts|
    ensures Current(attempts, i) ==
            Count(OfKey(attempts[..i], attempts[i].key), attempts[i].key, attempts[i].at - WINDOW)
  {
    CountOfKey(attempts[..i], attempts[i].key, attempts[i].at - WINDOW);
  }

  /** Two histories in which one (route, IP) made the same attempts decide its next attempt alike,
      whatever everyone else did in either. */
  lemma OthersDoNotMatter(limits: Limits, a: seq<Attempt>, i: nat, b: seq<Attempt>, j: nat)
    requires ClockForward(a) && ClockForward(b)
    requires i < |a| && j < |b| && a[i] == b[j]
    requires OfKey(a[..i], a[i].key) == OfKey(b[..j], b[j].key)
    ensures VerdictOf(limits, a, i) == VerdictOf(limits, b, j)
  {
    DecisionsMatchHistory(limits, a, i);
    DecisionsMatchHistory(limits, b, j);
    CurrentOfOwnKey(a, i);
    CurrentOfOwnKey(b, j);
  }

  // ---- The bound ----

  /** Those of the first `n` attempts that were admitted within 3600 seconds from `from` on. */
  ghost function AdmittedInHour(limits: Limits, attempts: seq<Attempt>, n: nat, route: string, ip: string, from: int): set<nat>
    requires n <= |attempts|
  {
    set j: nat | j < n && attempts[j].key.route == route && attempts[j].key.ip == ip &&
                 from <= attempts[j].at <= from + 3600 * 1_000_000 && VerdictOf(limits, attempts, j) == Admitted
  }

  /** The last one admitted had the others among its recent own. */
  lemma LastAdmittedBounds(limits: Limits, attempts: seq<Attempt>, i: nat, route: string, ip: string, from: int)
    requires ClockForward(attempts)
    requires i < |attempts| && limits(route) > 0
    requires i in AdmittedInHour(limits, attempts, i + 1, route, ip, from)
    ensures |AdmittedInHour(limits, attempts, i + 1, route, ip, from)| <= limits(route)
  {
    var admitted, recent := AdmittedInHour(limits, attempts, i + 1, route, ip, from), RecentOwn(attempts, i);
    DecidedByRecentOwn(limits, attempts, i);
    assert admitted <= recent + {i};
    Sets.SubsetSize(admitted, recent + {i});
  }

  /** In any closed stretch of 3600 seconds a route with a limit admits at most that many attempts from
      one address. */
  lemma {:induction false} AtMostLimitAdmitted(limits: Limits, attempts: seq<Attempt>, n: nat, route: string, ip: string,
                                               from: int)
    requires ClockForward(attempts)
    requires n <= |attempts| && limits(route) > 0
    ensures |AdmittedInHour(limits, attempts, n, route, ip, from)| <= limits(route)
  {
    if n > 0 {
      if n - 1 in AdmittedInHour(limits, attempts, n, route, ip, from) {
        LastAdmittedBounds(limits, attempts, n - 1, route, ip, from);
      } else {
        assert AdmittedInHour(limits, attempts, n, route, ip, from) == AdmittedInHour(limits, attempts, n - 1, route, ip, from);
        AtMostLimitAdmitted(limits, attempts, n - 1, route, ip, from);
      }
    }
  }

  // ---- The audit rows ----

  function OneExpired(e: Attempt, key: Key, from: int, to: int): nat {
    if e.key == key && from <= e.at < to then 1 else 0
  }

  /** How many of a key's events count from `from` on but no longer from `to` on. */
  function Expired(events: seq<Attempt>, key: Key, from: int, to: int): nat {
    if events == [] then 0
    else Expired(events[..|events| - 1], key, from, to) + OneExpired(events[|events| - 1], key, from, to)
  }

  lemma {:induction false} CountSplits(events: seq<Attempt>, key: Key, from: int, to: int)
    requires from <= to
    ensures Count(events, key, from) == Count(events, key, to) + Expired(events, key, from, to)
  {
    if events != [] {
      CountSplits(events[..|events| - 1], key, from, to);
    }
  }

  lemma {:induction false} RecentAreAllCounted(events: seq<Attempt>, key: Key, from: int)
    requires forall e :: e in events ==> e.at >= from
    ensures Count(events, key, from) == |OfKey(events, key)|
  {
    if events != [] {
      var front, last := events[..|events| - 1], events[|events| - 1];
      assert last in events;
      RecentAreAllCounted(front, key, from);
    }
  }

  /** Between two attempts of a key, what the window counts changes by the attempts made less the
      attempts expired. */
  lemma WindowBalance(attempts: seq<Attempt>, i: nat, j: nat)
    requires ClockForward(attempts)
    requires i < j < |attempts| && attempts[i].key == attempts[j].key
    ensures Current(attempts, j) ==
            Current(attempts, i) + |OfKey(attempts[i..j], attempts[j].key)| -
            Expired(attempts[..j], attempts[j].key, attempts[i].at - WINDOW, attempts[j].at - WINDOW)
  {
    var key, from, to := attempts[j].key, attempts[i].at - WINDOW, attempts[j].at - WINDOW;
    CountSplits(attempts[..j], key, from, to);
    CountThrough(attempts, i, j, key, from);
  }

  lemma CountThrough(attempts: seq<Attempt>, i: nat, j: nat, key: Key, from: int)
    requires ClockForward(attempts)
    requires i < j < |attempts| && from <= attempts[i].at
    ensures Count(attempts[..j], key, from) == Count(attempts[..i], key, from) + |OfKey(attempts[i..j], key)|
  {
    assert attempts[..j] == attempts[..i] + attempts[i..j];
    CountConcat(attempts[..i], attempts[i..j], key, from);
    forall e | e in attempts[i..j]
      ensures e.at >= from
    {
      var k :| i <= k < j && attempts[k] == e;
    }
    RecentAreAllCounted(attempts[i..j], key, from);
  }

  /** Attempt `j` is its key's next attempt after attempt `i`. */
  ghost predicate NextOfKey(attempts: seq<Attempt>, i: nat, j: nat)
    requires i < j < |attempts|
  {
    attempts[i].key == attempts[j].key && forall k :: i < k < j ==> attempts[k].key != attempts[j].key
  }

  lemma {:induction false} OfKeyNone(attempts: seq<Attempt>, key: Key)
    requires forall a :: a in attempts ==> a.key != key
    ensures OfKey(attempts, key) == []
  {
    if attempts != [] {
      assert attempts[|attempts| - 1] in attempts;
      OfKeyNone(attempts[..|attempts| - 1], key);
    }
  }

  lemma {:induction false} OfKeyCons(a: Attempt, rest: seq<Attempt>, key: Key)
    ensures OfKey([a] + rest, key) == (if a.key == key then [a] else []) + OfKey(rest, key)
  {
    if rest == [] {
      assert [a] + rest == [a];
      assert [a][..0] == [];
    } else {
      var all := [a] + rest;
      assert all[..|all| - 1] == [a] + rest[..|rest| - 1];
      OfKeyCons(a, rest[..|rest| - 1], key);
    }
  }

  lemma OneBetween(attempts: seq<Attempt>, i: nat, j: nat)
    requires i < j < |attempts| && NextOfKey(attempts, i, j)
    ensures OfKey(attempts[i..j], attempts[j].key) == [attempts[i]]
  {
    var key, rest := attempts[j].key, attempts[i + 1..j];
    assert attempts[i..j] == [attempts[i]] + rest;
    OfKeyCons(attempts[i], rest, key);
    forall a | a in rest
      ensures a.key != key
    {
      var k :| i < k < j && attempts[k] == a;
    }
    OfKeyNone(rest, key);
  }

  /** A key that goes from admitted to rejected writes an audit row doing so. */
  lemma TurnToRejectionIsAudited(limits: Limits, attempts: seq<Attempt>, i: nat, j: nat)
    requires ClockForward(attempts)
    requires i < j < |attempts| && NextOfKey(attempts, i, j)
    requires !IsRejected(limits, attempts, i) && IsRejected(limits, attempts, j)
    ensures IsAudited(limits, attempts, j)
  {
    WindowBalance(attempts, i, j);
    OneBetween(attempts, i, j);
  }

  /** After one audited rejection, a later attempt of the key is audited exactly when as many of its
      attempts have expired since as it has made since, the audited one included: at least one. */
  lemma AuditedAgainIff(limits: Limits, attempts: seq<Attempt>, i: nat, j: nat)
    requires ClockForward(attempts)
    requires i < j < |attempts| && attempts[i].key == attempts[j].key
    requires IsAudited(limits, attempts, i)
    ensures IsAudited(limits, attempts, j) <==>
            Expired(attempts[..j], attempts[j].key, attempts[i].at - WINDOW, attempts[j].at - WINDOW) ==
            |OfKey(attempts[i..j], attempts[j].key)|
    ensures |OfKey(attempts[i..j], attempts[j].key)| >= 1
  {
    WindowBalance(attempts, i, j);
    assert attempts[i..j] == [attempts[i]] + attempts[i + 1..j];
    OfKeyCons(attempts[i], attempts[i + 1..j], attempts[j].key);
  }

  const LOGIN := Key("auth.login", "192.0.2.1")

  /** Four attempts on a route limited to two per hour. */
  function TwiceAudited(): seq<Attempt> {
    [Attempt(LOGIN, 0), Attempt(LOGIN, 1), Attempt(LOGIN, 2), Attempt(LOGIN, WINDOW + 1)]
  }

  lemma CountTwo(a: Attempt, b: Attempt, key: Key, start: int)
    ensures Count([] + [a] + [b], key, start) == One(a, key, start) + One(b, key, start)
  {
    CountAppend([], a, key, start);
    CountAppend([] + [a], b, key, start);
  }

  /** So an audit row is not written once per window: here two are, less than an hour apart. */
  lemma TwoAuditRowsInOneWindow(limits: Limits)
    requires limits(LOGIN.route) == 2
    ensures ClockForward(TwiceAudited())
    ensures IsAudited(limits, TwiceAudited(), 2) && IsAudited(limits, TwiceAudited(), 3)
    ensures TwiceAudited()[3].at - TwiceAudited()[2].at < WINDOW
  {
    var s := TwiceAudited();
    assert s[..2] == [] + [s[0]] + [s[1]] && s[..3] == s[..2] + [s[2]];
    CountTwo(s[0], s[1], LOGIN, 2 - WINDOW);
    CountTwo(s[0], s[1], LOGIN, 1);
    CountAppend(s[..2], s[2], LOGIN, 1);
  }
}
