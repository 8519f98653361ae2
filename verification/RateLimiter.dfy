/** The token bucket per address, its background cleanup, and what they promise over whole runs. */
module RateLimiting {
  import opened Options

  /** Requests per window. The server falls back to its default for a rate below one. */
  datatype Config = Config(rate: int, window: real)

  predicate ConfigOk(c: Config) { c.rate >= 1 && c.window > 0.0 }

  datatype Visitor = Visitor(tokens: real, lastSeen: real)

  type Table = map<string, Visitor>

  function Refill(c: Config, elapsed: real): real
    requires ConfigOk(c)
  {
    elapsed * c.rate as real / c.window
  }

  /** The tokens a visitor has at `now`, before a request is charged. */
  function Available(c: Config, v: Visitor, now: real): real
    requires ConfigOk(c)
  {
    var tokens := v.tokens + Refill(c, now - v.lastSeen);
    if tokens > c.rate as real then c.rate as real else tokens
  }

  /** A request reads the clock twice: `at` for the time elapsed, `seen` for the time it records. */
  function Charge(c: Config, v: Option<Visitor>, at: real, seen: real): (Visitor, bool)
    requires ConfigOk(c)
  {
    match v
    case None => (Visitor((c.rate - 1) as real, seen), true)
    case Some(v) =>
      var tokens := Available(c, v, at);
      if tokens < 1.0 then (Visitor(tokens, seen), false) else (Visitor(tokens - 1.0, seen), true)
  }

  function Lookup(t: Table, ip: string): Option<Visitor> { if ip in t then Some(t[ip]) else None }

  predicate Stale(c: Config, v: Visitor, now: real) { now - v.lastSeen > c.window * 2.0 }

  class RateLimiter {
    const config: Config
    var visitors: Table

    constructor (rate: int, window: real)
      requires rate >= 1 && window > 0.0
      ensures config == Config(rate, window) && visitors == map[]
    {
      config, visitors := Config(rate, window), map[];
    }

    method Allow(ip: string, at: real, seen: real) returns (ok: bool)
      requires ConfigOk(config)
      modifies this
      ensures (visitors, ok) == (old(visitors)[ip := Charge(config, Lookup(old(visitors), ip), at, seen).0],
                                 Charge(config, Lookup(old(visitors), ip), at, seen).1)
    {
      if ip !in visitors {
        visitors := visitors[ip := Visitor((config.rate - 1) as real, seen)];
        return true;
      }
      var v := visitors[ip];
      var elapsed := at - v.lastSeen;
      var tokens := v.tokens + elapsed * config.rate as real / config.window;
      if tokens > config.rate as real { tokens := config.rate as real; }
      if tokens < 1.0 {
        visitors := visitors[ip := Visitor(tokens, seen)];
        return false;
      }
      visitors := visitors[ip := Visitor(tokens - 1.0, seen)];
      return true;
    }

    /** Reads the clock again for every visitor. */
    method Cleanup(e: Event)
      requires e.Sweep?
      modifies this
      ensures visitors == Kept(config, old(visitors), e)
      ensures forall ip :: ip in visitors <==>
                ip in old(visitors) && Reading(e, ip) <= old(visitors)[ip].lastSeen + 2.0 * config.window
      ensures forall ip :: ip in visitors ==> visitors[ip] == old(visitors)[ip]
    {
      var left := visitors.Keys;
      while left != {}
        invariant left <= old(visitors).Keys
        invariant forall ip :: ip in visitors <==>
                    ip in old(visitors) && (ip in left || !Stale(config, old(visitors)[ip], Reading(e, ip)))
        invariant forall ip :: ip in visitors ==> visitors[ip] == old(visitors)[ip]
        decreases left
      {
        var ip :| ip in left;
        if Stale(config, visitors[ip], Reading(e, ip)) { visitors := visitors - {ip}; }
        left := left - {ip};
      }
    }

    /** A run of events on the limiter. */
    method Run(events: seq<Event>) returns (answers: seq<bool>)
      requires ConfigOk(config)
      modifies this
      ensures answers == Answers(config, old(visitors), events)
    {
      hide Charge, Kept, Lookup, Stale;
      answers := [];
      for i := 0 to |events|
        invariant Answers(config, old(visitors), events) == answers + Answers(config, visitors, events[i..])
      {
        assert events[i..][0] == events[i] && events[i..][1..] == events[i + 1..];
        match events[i] {
          case Request(ip, at, seen) =>
            var ok := Allow(ip, at, seen);
            answers := answers + [ok];
          case Sweep(_, _, _) =>
            Cleanup(events[i]);
        }
      }
    }
  }

  // ---- Runs ----------------------------------------------------------------------------------

  /** Both last from `at` to `seen`. A sweep's readings in between are those of `clock`, or `at`. */
  datatype Event = Request(ip: string, at: real, seen: real) | Sweep(at: real, seen: real, clock: map<string, real>)

  function Reading(e: Event, ip: string): real
    requires e.Sweep?
  {
    if ip in e.clock then e.clock[ip] else e.at
  }

  function Kept(c: Config, t: Table, e: Event): Table
    requires e.Sweep?
  {
    map ip | ip in t && !Stale(c, t[ip], Reading(e, ip)) :: t[ip]
  }

  function After(c: Config, t: Table, e: Event): Table
    requires ConfigOk(c)
  {
    match e
    case Request(ip, at, seen) => t[ip := Charge(c, Lookup(t, ip), at, seen).0]
    case Sweep(_, _, _) => Kept(c, t, e)
  }

  /** The answers to the requests of a run, in order. */
  function Answers(c: Config, t: Table, events: seq<Event>): seq<bool>
    requires ConfigOk(c)
    decreases |events|
  {
    if events == [] then []
    else (if events[0].Request? then [Charge(c, Lookup(t, events[0].ip), events[0].at, events[0].seen).1] else []) +
         Answers(c, After(c, t, events[0]), events[1..])
  }

  function WithoutSweeps(events: seq<Event>): seq<Event> {
    if events == [] then []
    else (if events[0].Request? then [events[0]] else []) + WithoutSweeps(events[1..])
  }

  predicate Lasting(e: Event) {
    e.at <= e.seen && (e.Sweep? ==> forall ip :: ip in e.clock ==> e.at <= e.clock[ip] <= e.seen)
  }

  /** Time does not go backwards, from `start` on. */
  predicate InOrder(events: seq<Event>, start: real) {
    events == [] || (start <= events[0].at && Lasting(events[0]) && InOrder(events[1..], events[0].seen))
  }

  /** A table the limiter can have at time `now`. */
  predicate TableOk(c: Config, t: Table, now: real) {
    forall ip :: ip in t ==> 0.0 <= t[ip].tokens <= c.rate as real && t[ip].lastSeen <= now
  }

  lemma RefillNonNegative(c: Config, elapsed: real)
    requires ConfigOk(c) && elapsed >= 0.0
    ensures Refill(c, elapsed) >= 0.0
  {
    assert elapsed * c.rate as real >= 0.0;
  }

  lemma RefillAdds(c: Config, x: real, y: real)
    requires ConfigOk(c)
    ensures Refill(c, x + y) == Refill(c, x) + Refill(c, y)
  {
    assert (x + y) * c.rate as real == x * c.rate as real + y * c.rate as real;
  }

  lemma RefillGrows(c: Config, x: real, y: real)
    requires ConfigOk(c) && x <= y
    ensures Refill(c, x) <= Refill(c, y)
  {
    RefillAdds(c, x, y - x);
    RefillNonNegative(c, y - x);
  }

  lemma TwoWindowsRefill(c: Config, elapsed: real)
    requires ConfigOk(c) && elapsed > c.window * 2.0
    ensures Refill(c, elapsed) >= c.rate as real
  {
    RefillGrows(c, c.window * 2.0, elapsed);
    assert c.window * 2.0 * c.rate as real / c.window == 2.0 * c.rate as real;
  }

  lemma TableStaysOk(c: Config, t: Table, e: Event, now: real)
    requires ConfigOk(c) && TableOk(c, t, now) && now <= e.at && Lasting(e)
    ensures TableOk(c, After(c, t, e), e.seen)
  {
    if e.Request? && e.ip in t { RefillNonNegative(c, e.at - t[e.ip].lastSeen); }
  }

  // ---- Cleanup is invisible ------------------------------------------------------------------

  /** `swept` lacks only visitors of `t` that have been idle for over two windows. */
  predicate SweptFrom(c: Config, swept: Table, t: Table, now: real) {
    && (forall ip :: ip in swept ==> ip in t && swept[ip] == t[ip])
    && (forall ip :: ip in t && ip !in swept ==> Stale(c, t[ip], now))
  }

  lemma SameCharge(c: Config, swept: Table, t: Table, ip: string, now: real, at: real, seen: real)
    requires ConfigOk(c) && TableOk(c, t, now) && SweptFrom(c, swept, t, now) && now <= at
    ensures Charge(c, Lookup(swept, ip), at, seen) == Charge(c, Lookup(t, ip), at, seen)
  {
    if ip in t && ip !in swept { TwoWindowsRefill(c, at - t[ip].lastSeen); }
  }

  lemma {:induction false} SameAnswers(c: Config, swept: Table, t: Table, events: seq<Event>, now: real)
    requires ConfigOk(c) && TableOk(c, t, now) && SweptFrom(c, swept, t, now) && InOrder(events, now)
    ensures Answers(c, swept, events) == Answers(c, t, WithoutSweeps(events))
    decreases |events|
  {
    if events != [] {
      var e, rest := events[0], events[1..];
      match e {
        case Request(ip, at, seen) =>
          SameCharge(c, swept, t, ip, now, at, seen);
          TableStaysOk(c, t, e, now);
          SameAnswers(c, After(c, swept, e), After(c, t, e), rest, seen);
          assert WithoutSweeps(events)[0] == e && WithoutSweeps(events)[1..] == WithoutSweeps(rest);
        case Sweep(_, seen, _) =>
          SameAnswers(c, Kept(c, swept, e), t, rest, seen);
          assert WithoutSweeps(events) == WithoutSweeps(rest);
      }
    }
  }

  /** Every run gets the answers it would get from a limiter that never cleans up. */
  lemma CleanupInvisible(c: Config, events: seq<Event>, start: real)
    requires ConfigOk(c) && InOrder(events, start)
    ensures Answers(c, map[], events) == Answers(c, map[], WithoutSweeps(events))
  {
    SameAnswers(c, map[], map[], events, start);
  }

  // ---- How many requests get through ---------------------------------------------------------

  /** The requests of one address that a run admits. */
  function Admitted(c: Config, t: Table, events: seq<Event>, ip: string): nat
    requires ConfigOk(c)
    decreases |events|
  {
    if events == [] then 0
    else
      var e := events[0];
      (if e.Request? && e.ip == ip && Charge(c, Lookup(t, ip), e.at, e.seen).1 then 1 else 0) +
      Admitted(c, After(c, t, events[0]), events[1..], ip)
  }

  /** The table a run ends in. */
  function Final(c: Config, t: Table, events: seq<Event>): Table
    requires ConfigOk(c)
    decreases |events|
  {
    if events == [] then t else Final(c, After(c, t, events[0]), events[1..])
  }

  /** What an address could spend at `now`: a full bucket when it has none yet. */
  function Budget(c: Config, t: Table, ip: string, now: real): real
    requires ConfigOk(c)
  {
    if ip in t then Available(c, t[ip], now) else c.rate as real
  }

  lemma BudgetGrows(c: Config, t: Table, ip: string, now: real, later: real)
    requires ConfigOk(c) && now <= later
    ensures Budget(c, t, ip, later) <= Budget(c, t, ip, now) + Refill(c, later - now)
  {
    RefillNonNegative(c, later - now);
    if ip in t {
      RefillAdds(c, now - t[ip].lastSeen, later - now);
      assert now - t[ip].lastSeen + (later - now) == later - t[ip].lastSeen;
    }
  }

  lemma BudgetAfter(c: Config, t: Table, e: Event, ip: string, now: real)
    requires ConfigOk(c) && TableOk(c, t, now) && now <= e.at && Lasting(e)
    ensures Budget(c, After(c, t, e), ip, e.seen) <=
            Budget(c, t, ip, now) + Refill(c, e.seen - now) -
            if e.Request? && e.ip == ip && Charge(c, Lookup(t, ip), e.at, e.seen).1 then 1.0 else 0.0
  {
    BudgetGrows(c, t, ip, now, e.seen);
    match e
    case Request(other, at, seen) =>
      if other == ip {
        assert Refill(c, 0.0) == 0.0;
        BudgetGrows(c, t, ip, now, at);
        RefillGrows(c, at - now, seen - now);
        var v := Charge(c, Lookup(t, ip), at, seen).0;
        assert After(c, t, e)[ip] == v && seen - v.lastSeen == 0.0;
        if ip in t { RefillNonNegative(c, at - t[ip].lastSeen); }
      }
    case Sweep(_, seen, _) =>
      if ip in t && Stale(c, t[ip], Reading(e, ip)) { TwoWindowsRefill(c, seen - t[ip].lastSeen); }
  }

  lemma {:induction false} AdmittedWithinBudget(c: Config, t: Table, events: seq<Event>, ip: string, now: real,
                                                end: real)
    requires ConfigOk(c) && TableOk(c, t, now) && InOrder(events, now) && now <= end
    requires forall i :: 0 <= i < |events| ==> events[i].seen <= end
    ensures Admitted(c, t, events, ip) as real <= Budget(c, t, ip, now) + Refill(c, end - now)
    decreases |events|
  {
    if events == [] {
      RefillNonNegative(c, end - now);
      if ip in t { RefillNonNegative(c, now - t[ip].lastSeen); }
    } else {
      var e := events[0];
      TableStaysOk(c, t, e, now);
      AdmittedWithinBudget(c, After(c, t, e), events[1..], ip, e.seen, end);
      BudgetAfter(c, t, e, ip, now);
      RefillAdds(c, e.seen - now, end - e.seen);
      assert e.seen - now + (end - e.seen) == end - now;
    }
  }

  lemma {:induction false} FinalOk(c: Config, t: Table, events: seq<Event>, now: real) returns (last: real)
    requires ConfigOk(c) && TableOk(c, t, now) && InOrder(events, now)
    ensures now <= last && TableOk(c, Final(c, t, events), last)
    ensures last == if events == [] then now else events[|events| - 1].seen
    decreases |events|
  {
    if events == [] {
      last := now;
    } else {
      TableStaysOk(c, t, events[0], now);
      last := FinalOk(c, After(c, t, events[0]), events[1..], events[0].seen);
    }
  }

  lemma {:induction false} InOrderSplits(events: seq<Event>, start: real, i: nat)
    requires InOrder(events, start) && i <= |events|
    ensures InOrder(events[..i], start)
    ensures InOrder(events[i..], if i == 0 then start else events[i - 1].seen)
    ensures i < |events| ==> (if i == 0 then start else events[i - 1].seen) <= events[i].at
  {
    if i > 0 {
      InOrderSplits(events[1..], events[0].seen, i - 1);
      assert events[..i] == [events[0]] + events[1..][..i - 1] && events[i..] == events[1..][i - 1..];
    }
  }

  /** In any stretch of any run, over an interval of length T, one address gets at most
      rate + rate * T / window requests through. */
  lemma AdmissionBound(c: Config, events: seq<Event>, start: real, ip: string, i: nat, begin: real, end: real)
    requires ConfigOk(c) && InOrder(events, start) && i <= |events|
    requires (if i == 0 then start else events[i - 1].seen) <= begin <= end
    requires forall k :: i <= k < |events| ==> begin <= events[k].at && events[k].seen <= end
    ensures Admitted(c, Final(c, map[], events[..i]), events[i..], ip) as real
              <= c.rate as real + (end - begin) * c.rate as real / c.window
  {
    hide Refill, Budget, Admitted, Final, InOrder, TableOk;
    var t := Final(c, map[], events[..i]);
    InOrderSplits(events, start, i);
    StartsOk(c, start);
    var now := FinalOk(c, map[], events[..i], start);
    BoundFrom(c, t, events[i..], ip, now, if i == 0 then start else events[i - 1].seen, begin, end);
  }

  lemma StartsOk(c: Config, start: real)
    ensures TableOk(c, map[], start)
  {
  }

  lemma BoundFrom(c: Config, t: Table, events: seq<Event>, ip: string, now: real, start: real, begin: real, end: real)
    requires ConfigOk(c) && TableOk(c, t, now) && InOrder(events, start) && now <= begin <= end
    requires forall i :: 0 <= i < |events| ==> begin <= events[i].at && events[i].seen <= end
    ensures Admitted(c, t, events, ip) as real <= c.rate as real + (end - begin) * c.rate as real / c.window
  {
    hide Refill, Budget, Admitted;
    AdmittedWithinBudget(c, t, events, ip, begin, end);
    BudgetBounded(c, t, ip, begin);
    RefillIs(c, end - begin);
  }

  lemma BudgetBounded(c: Config, t: Table, ip: string, now: real)
    requires ConfigOk(c)
    ensures Budget(c, t, ip, now) <= c.rate as real
  {
  }

  lemma RefillIs(c: Config, elapsed: real)
    requires ConfigOk(c)
    ensures Refill(c, elapsed) == elapsed * c.rate as real / c.window
  {
  }

  // ---- Who is never refused ------------------------------------------------------------------

  /** Each request of `ip` begins at least `gap` after the one before ended, the first after `last`. */
  predicate Spaced(events: seq<Event>, ip: string, gap: real, last: Option<real>) {
    events == [] ||
    if events[0].Request? && events[0].ip == ip
    then (last.Some? ==> events[0].at - last.value >= gap) && Spaced(events[1..], ip, gap, Some(events[0].seen))
    else Spaced(events[1..], ip, gap, last)
  }

  function RequestCount(events: seq<Event>, ip: string): nat {
    if events == [] then 0
    else (if events[0].Request? && events[0].ip == ip then 1 else 0) + RequestCount(events[1..], ip)
  }

  lemma GapRefills(c: Config, elapsed: real)
    requires ConfigOk(c) && elapsed >= c.window / c.rate as real
    ensures Refill(c, elapsed) >= 1.0
  {
    RefillGrows(c, c.window / c.rate as real, elapsed);
    assert c.window / c.rate as real * c.rate as real == c.window;
  }

  lemma {:induction false} SpacedFrom(c: Config, t: Table, events: seq<Event>, ip: string, now: real,
                                      last: Option<real>)
    requires ConfigOk(c) && TableOk(c, t, now) && InOrder(events, now)
    requires Spaced(events, ip, c.window / c.rate as real, last)
    requires ip in t ==> last == Some(t[ip].lastSeen)
    ensures Admitted(c, t, events, ip) == RequestCount(events, ip)
    decreases |events|
  {
    if events != [] {
      var e := events[0];
      TableStaysOk(c, t, e, now);
      if e.Request? && e.ip == ip {
        if ip in t { GapRefills(c, e.at - t[ip].lastSeen); }
        SpacedFrom(c, After(c, t, e), events[1..], ip, e.seen, Some(e.seen));
      } else {
        SpacedFrom(c, After(c, t, e), events[1..], ip, e.seen, last);
      }
    }
  }

  /** An address whose requests are at least window / rate apart is never refused, whatever other
      addresses do and whenever cleanups run. */
  lemma SpacedNeverRefused(c: Config, events: seq<Event>, start: real, ip: string)
    requires ConfigOk(c) && InOrder(events, start) && Spaced(events, ip, c.window / c.rate as real, None)
    ensures Admitted(c, map[], events, ip) == RequestCount(events, ip)
  {
    SpacedFrom(c, map[], events, ip, start, None);
  }

  /** `n` requests at one instant. */
  function Burst(ip: string, at: real, n: nat): seq<Event> {
    if n == 0 then [] else [Request(ip, at, at)] + Burst(ip, at, n - 1)
  }

  lemma {:induction false} BurstFrom(c: Config, t: Table, ip: string, at: real, n: nat, left: nat)
    requires ConfigOk(c) && ip in t && t[ip] == Visitor(left as real, at) && left < c.rate
    ensures Admitted(c, t, Burst(ip, at, n), ip) == if n <= left then n else left
  {
    if n > 0 {
      assert Burst(ip, at, n)[1..] == Burst(ip, at, n - 1);
      assert Refill(c, at - at) == 0.0;
      if left == 0 {
        BurstFrom(c, After(c, t, Request(ip, at, at)), ip, at, n - 1, 0);
      } else {
        BurstFrom(c, After(c, t, Request(ip, at, at)), ip, at, n - 1, left - 1);
      }
    }
  }

  /** So the bound is tight: of a burst at one instant, exactly `rate` requests get through. */
  lemma BurstAdmitsRate(c: Config, ip: string, at: real, n: nat)
    requires ConfigOk(c)
    ensures Admitted(c, map[], Burst(ip, at, n), ip) == if n <= c.rate then n else c.rate
  {
    if n > 0 {
      assert Burst(ip, at, n)[1..] == Burst(ip, at, n - 1);
      BurstFrom(c, After(c, map[], Request(ip, at, at)), ip, at, n - 1, c.rate - 1);
    }
  }
}
