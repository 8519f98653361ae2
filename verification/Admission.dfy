/** What one address is answered: it depends on its own requests only, and a request is admitted
    exactly when that keeps every stretch of them within the bound. */
module Admission {
  import opened Options
  import opened RateLimiting

  // ---- One address of a run ------------------------------------------------------------------

  /** The two clock readings of each request of an address. */
  function Times(events: seq<Event>, ip: string): seq<(real, real)> {
    if events == [] then []
    else
      (if events[0].Request? && events[0].ip == ip then [(events[0].at, events[0].seen)] else []) + Times(events[1..],
            ip)
  }

  function Requests(events: seq<Event>): nat {
    if events == [] then 0 else (if events[0].Request? then 1 else 0) + Requests(events[1..])
  }

  /** Of a run's answers, those to one address. */
  function Select(events: seq<Event>, answers: seq<bool>, ip: string): seq<bool>
    requires |answers| == Requests(events)
    decreases |events|
  {
    if events == [] then []
    else if events[0].Sweep? then Select(events[1..], answers, ip)
    else (if events[0].ip == ip then [answers[0]] else []) + Select(events[1..], answers[1..], ip)
  }

  lemma {:induction false} AnswersCount(c: Config, t: Table, events: seq<Event>)
    requires ConfigOk(c)
    ensures |Answers(c, t, events)| == Requests(events)
    decreases |events|
  {
    if events != [] { AnswersCount(c, After(c, t, events[0]), events[1..]); }
  }

  /** The answers a fresh limiter gives to one address in a run. */
  function OwnAnswers(c: Config, events: seq<Event>, ip: string): seq<bool>
    requires ConfigOk(c)
  {
    AnswersCount(c, map[], events);
    Select(events, Answers(c, map[], events), ip)
  }

  /** The answers to an address that is alone, from a visitor entry or none. */
  function Alone(c: Config, v: Option<Visitor>, times: seq<(real, real)>): (answers: seq<bool>)
    requires ConfigOk(c)
    ensures |answers| == |times|
    decreases |times|
  {
    if times == [] then []
    else
      var charged := Charge(c, v, times[0].0, times[0].1);
      [charged.1] + Alone(c, Some(charged.0), times[1..])
  }

  lemma {:induction false} SelectWithoutSweeps(events: seq<Event>, answers: seq<bool>, ip: string)
    requires |answers| == Requests(events)
    ensures Requests(WithoutSweeps(events)) == Requests(events)
    ensures Select(WithoutSweeps(events), answers, ip) == Select(events, answers, ip)
    ensures Times(WithoutSweeps(events), ip) == Times(events, ip)
    decreases |events|
  {
    if events != [] {
      var rest := WithoutSweeps(events[1..]);
      if events[0].Sweep? {
        SelectWithoutSweeps(events[1..], answers, ip);
        assert WithoutSweeps(events) == rest;
      } else {
        SelectWithoutSweeps(events[1..], answers[1..], ip);
        assert WithoutSweeps(events) == [events[0]] + rest;
        assert WithoutSweeps(events)[1..] == rest;
      }
    }
  }

  lemma {:induction false} AloneAmongOthers(c: Config, t: Table, events: seq<Event>, ip: string)
    requires ConfigOk(c) && forall i :: 0 <= i < |events| ==> events[i].Request?
    requires |Answers(c, t, events)| == Requests(events)
    ensures Select(events, Answers(c, t, events), ip) == Alone(c, Lookup(t, ip), Times(events, ip))
    decreases |events|
  {
    hide Charge;
    if events != [] {
      var e := events[0];
      var later := Answers(c, After(c, t, e), events[1..]);
      assert Answers(c, t, events)[1..] == later;
      AloneAmongOthers(c, After(c, t, e), events[1..], ip);
      var rest := Times(events[1..], ip);
      assert Lookup(After(c, t, e),
                    ip) == if e.ip == ip then Some(Charge(c, Lookup(t, ip), e.at, e.seen).0) else Lookup(t, ip);
      if e.ip == ip {
        assert Times(events, ip) == [(e.at, e.seen)] + rest && Times(events, ip)[1..] == rest;
      } else {
        assert Times(events, ip) == rest;
      }
    }
  }

  lemma {:induction false} OnlyRequests(events: seq<Event>)
    ensures forall i :: 0 <= i < |WithoutSweeps(events)| ==> WithoutSweeps(events)[i].Request?
  {
    if events != [] { OnlyRequests(events[1..]); }
  }

  /** An address is answered as if it were alone: other addresses and sweeps make no difference. */
  lemma AnsweredAlone(c: Config, events: seq<Event>, start: real, ip: string)
    requires ConfigOk(c) && InOrder(events, start)
    ensures OwnAnswers(c, events, ip) == Alone(c, None, Times(events, ip))
  {
    hide Charge, InOrder;
    AnswersCount(c, map[], events);
    CleanupInvisible(c, events, start);
    SelectWithoutSweeps(events, Answers(c, map[], events), ip);
    OnlyRequests(events);
    AloneAmongOthers(c, map[], WithoutSweeps(events), ip);
  }

  // ---- The level of the bucket ---------------------------------------------------------------

  function StateAfter(c: Config, v: Option<Visitor>, times: seq<(real, real)>): Option<Visitor>
    requires ConfigOk(c)
    decreases |times|
  {
    if times == [] then v else StateAfter(c, Some(Charge(c, v, times[0].0, times[0].1).0), times[1..])
  }

  lemma {:induction false} AloneAt(c: Config, v: Option<Visitor>, times: seq<(real, real)>, n: nat)
    requires ConfigOk(c) && n < |times|
    ensures var charged := Charge(c, StateAfter(c, v, times[..n]), times[n].0, times[n].1);
            Alone(c, v, times)[n] == charged.1 && StateAfter(c, v, times[..n + 1]) == Some(charged.0)
    decreases n
  {
    hide Charge;
    if n == 0 {
      assert times[..1][1..] == [];
    } else {
      AloneAt(c, Some(Charge(c, v, times[0].0, times[0].1).0), times[1..], n - 1);
      assert times[..n][1..] == times[1..][..n - 1] && times[..n + 1][1..] == times[1..][..n];
    }
  }

  /** The tokens there are at request `n`, before it is charged. */
  function Level(c: Config, times: seq<(real, real)>, n: nat): real
    requires ConfigOk(c) && n < |times|
    decreases n, 0
  {
    if n == 0 then c.rate as real
    else Available(c, Visitor(Left(c, times, n - 1), times[n - 1].1), times[n].0)
  }

  function Left(c: Config, times: seq<(real, real)>, n: nat): real
    requires ConfigOk(c) && n < |times|
    decreases n, 1
  {
    if Level(c, times, n) < 1.0 then Level(c, times, n) else Level(c, times, n) - 1.0
  }

  lemma {:induction false} LevelDecides(c: Config, times: seq<(real, real)>, n: nat)
    requires ConfigOk(c) && n < |times|
    ensures Alone(c, None, times)[n] <==> Level(c, times, n) >= 1.0
    ensures StateAfter(c, None, times[..n + 1]) == Some(Visitor(Left(c, times, n), times[n].1))
  {
    hide Available;
    AloneAt(c, None, times, n);
    if n == 0 {
      assert times[..0] == [];
    } else {
      LevelDecides(c, times, n - 1);
      assert times[..n - 1 + 1] == times[..n];
    }
  }

  // ---- Admission, exactly --------------------------------------------------------------------

  /** How many were admitted. */
  function Count(answers: seq<bool>): nat {
    if answers == [] then 0 else Count(answers[..|answers| - 1]) + if answers[|answers| - 1] then 1 else 0
  }

  /** The time between requests `i` and `n` of an address, without that spent in a request. */
  function Between(times: seq<(real, real)>, i: nat, n: nat): real
    requires i <= n < |times|
  {
    if i == n then 0.0 else Between(times, i, n - 1) + (times[n].0 - times[n - 1].1)
  }

  /** Admitting request `n` keeps the stretch from request `i` on within the bound. */
  predicate Fits(c: Config, times: seq<(real, real)>, answers: seq<bool>, i: nat, n: nat)
    requires ConfigOk(c) && i <= n < |times| == |answers|
  {
    Count(answers[i..n]) as real + 1.0 <= c.rate as real + Between(times, i, n) * c.rate as real / c.window
  }

  function Room(c: Config, times: seq<(real, real)>, answers: seq<bool>, i: nat, n: nat): real
    requires ConfigOk(c) && i <= n < |times| == |answers|
  {
    c.rate as real - Count(answers[i..n]) as real + Refill(c, Between(times, i, n))
  }

  lemma RoomNext(c: Config, times: seq<(real, real)>, answers: seq<bool>, i: nat, n: nat)
    requires ConfigOk(c) && i < n < |times| == |answers|
    ensures Room(c, times, answers, i, n) ==
            Room(c, times, answers, i, n - 1) - (if answers[n - 1] then 1.0 else 0.0) +
            Refill(c, times[n].0 - times[n - 1].1)
  {
    hide Refill;
    assert answers[i..n][..n - 1 - i] == answers[i..n - 1];
    RefillAdds(c, Between(times, i, n - 1), times[n].0 - times[n - 1].1);
  }

  lemma RoomNow(c: Config, times: seq<(real, real)>, answers: seq<bool>, n: nat)
    requires ConfigOk(c) && n < |times| == |answers|
    ensures Room(c, times, answers, n, n) == c.rate as real
  {
    assert answers[n..n] == [];
    assert 0.0 * c.rate as real == 0.0;
  }

  lemma FitsIsRoom(c: Config, times: seq<(real, real)>, answers: seq<bool>, i: nat, n: nat)
    requires ConfigOk(c) && i <= n < |times| == |answers|
    ensures Fits(c, times, answers, i, n) <==> Room(c, times, answers, i, n) >= 1.0
  {
    hide Between, Count;
    RefillIs(c, Between(times, i, n));
  }

  /** The level is the least room any stretch leaves. */
  lemma {:induction false} LevelIsLeast(c: Config, times: seq<(real, real)>, answers: seq<bool>, n: nat)
    returns (least: nat)
    requires ConfigOk(c) && n < |times| == |answers|
    requires forall k :: 0 <= k < n ==> (answers[k] <==> Level(c, times, k) >= 1.0)
    ensures forall i :: 0 <= i <= n ==> Level(c, times, n) <= Room(c, times, answers, i, n)
    ensures least <= n && Level(c, times, n) == Room(c, times, answers, least, n)
  {
    hide Room, Refill;
    RoomNow(c, times, answers, n);
    if n == 0 {
      least := 0;
    } else {
      least := LevelIsLeast(c, times, answers, n - 1);
      forall i | 0 <= i < n ensures Level(c, times, n) <= Room(c, times, answers, i, n) {
        RoomNext(c, times, answers, i, n);
      }
      RoomNext(c, times, answers, least, n);
      if Room(c, times, answers, least, n) > c.rate as real { least := n; }
    }
  }

  /** Of a fresh limiter's answers to one address in any run, each is yes if and only if it keeps every
      stretch of that address's requests that ends with it within rate + rate * T / window admissions. */
  lemma AdmittedExactly(c: Config, events: seq<Event>, start: real, ip: string, n: nat)
    requires ConfigOk(c) && InOrder(events, start) && n < |Times(events, ip)|
    ensures var times, answers := Times(events, ip), OwnAnswers(c, events, ip);
            && |answers| == |times|
            && (answers[n] <==> forall i :: 0 <= i <= n ==> Fits(c, times, answers, i, n))
  {
    hide OwnAnswers, Charge, Level, Refill, Between, Count, InOrder, Fits, Room;
    var times, answers := Times(events, ip), OwnAnswers(c, events, ip);
    AnsweredAlone(c, events, start, ip);
    forall k | 0 <= k <= n ensures answers[k] <==> Level(c, times, k) >= 1.0 { LevelDecides(c, times, k); }
    var least := LevelIsLeast(c, times, answers, n);
    forall i | 0 <= i <= n ensures Fits(c, times, answers, i, n) <==> Room(c, times, answers, i, n) >= 1.0 {
      FitsIsRoom(c, times, answers, i, n);
    }
  }

  /** With requests that take no time, T is the time from the first request of the stretch to this one. */
  lemma {:induction false} BetweenInstants(times: seq<(real, real)>, i: nat, n: nat)
    requires i <= n < |times| && forall k :: i <= k < n ==> times[k].0 == times[k].1
    ensures Between(times, i, n) == times[n].0 - times[i].0
  {
    if i < n { BetweenInstants(times, i, n - 1); }
  }

  /** A refusal keeps what has been refilled: with 100 requests a minute and an empty bucket, a request
      0.4 seconds later is refused and one another 0.4 seconds later is not. */
  lemma FractionIsKept(c: Config, ip: string)
    requires c == Config(100, 60.0)
    ensures var retried := [Request(ip, 0.4, 0.4), Request(ip, 0.8, 0.8)];
            forall t: Table :: ip in t && t[ip] == Visitor(0.0, 0.0) ==> Answers(c, t, retried) == [false, true]
  {
    var first, second := Request(ip, 0.4, 0.4), Request(ip, 0.8, 0.8);
    forall t: Table | ip in t && t[ip] == Visitor(0.0, 0.0) ensures Answers(c, t, [first, second]) == [false, true] {
      var u := After(c, t, first);
      assert [first, second][1..] == [second] && [second][1..] == [];
      assert u[ip] == Visitor(Refill(c, 0.4), 0.4);
      assert Answers(c, u, [second]) == [true] + Answers(c, After(c, u, second), []);
    }
  }
}
