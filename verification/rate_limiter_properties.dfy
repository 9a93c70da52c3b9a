/**
 Properties of the rate limiter across steps: the stored count stays within
 the limit, a step touches only its own identifier, at most `maxRequests`
 requests of one identifier pass in one window when one limiter serves it, and
 the periodic cleanup is invisible to clients. Because every limiter shares one
 table, a second limiter can reopen a client's quota; the per-limiter bound is
 proved for limiters that keep tables of their own.
 */
module RateLimiterProperties {
  import opened Optional
  import opened RateLimiter

  /** Every stored record counts at least one and at most `maxRequests` requests. */
  ghost predicate CountsBounded(t: Table, c: Config) {
    forall id :: id in t ==> 1 <= t[id].count <= c.maxRequests
  }

  /** With a limit of at least one, a step keeps every stored count within the limit. */
  lemma StepKeepsCountsBounded(t: Table, id: Identifier, now: int, c: Config)
    requires c.maxRequests >= 1
    requires CountsBounded(t, c)
    ensures CountsBounded(Step(t, id, now, c).table, c)
  {
  }

  /** A step for `id` leaves every other identifier's record, or its absence, as it was. */
  lemma StepFrame(t: Table, id: Identifier, now: int, c: Config, other: Identifier)
    requires other != id
    ensures var t' := Step(t, id, now, c).table;
      && id in t'
      && (other in t' <==> other in t)
      && (other in t ==> t'[other] == t[other])
  {
  }

  /** A limiter built by the factory: a name telling instances apart, and its settings. */
  datatype Limiter = Limiter(name: nat, config: Config)

  /** One request of a history, with the limiter that handled it. */
  datatype Request = Request(id: Identifier, now: int, via: Limiter)

  /** The shared table after the requests are handled in order, each under its own limiter's settings. */
  function Run(t: Table, reqs: seq<Request>): (r: Table)
    ensures t.Keys <= r.Keys
    decreases |reqs|
  {
    if reqs == [] then t
    else Run(Step(t, reqs[0].id, reqs[0].now, reqs[0].via.config).table, reqs[1..])
  }

  /** How many requests from `id` handled by limiter `l` are let through along the history. */
  function AllowedVia(t: Table, reqs: seq<Request>, id: Identifier, l: Limiter): (n: nat)
    ensures n <= |reqs|
    decreases |reqs|
  {
    if reqs == [] then 0
    else
      var r := Step(t, reqs[0].id, reqs[0].now, reqs[0].via.config);
      (if reqs[0].id == id && reqs[0].via == l && r.decision.Allow? then 1 else 0)
        + AllowedVia(r.table, reqs[1..], id, l)
  }

  /**
   Inside a window that has not ended, when every request of `id` goes through
   limiter `l`, the record of `id` keeps its end time and counts exactly the
   requests let through, so no more pass than the room left below the limit.
   */
  lemma {:induction false} WithinWindow(t: Table, reqs: seq<Request>, id: Identifier, l: Limiter)
    requires id in t && t[id].count <= l.config.maxRequests
    requires forall i :: 0 <= i < |reqs| && reqs[i].id == id ==> reqs[i].via == l && reqs[i].now <= t[id].resetTime
    ensures id in Run(t, reqs)
    ensures Run(t, reqs)[id].resetTime == t[id].resetTime
    ensures Run(t, reqs)[id].count == t[id].count + AllowedVia(t, reqs, id, l)
    ensures t[id].count + AllowedVia(t, reqs, id, l) <= l.config.maxRequests
    decreases |reqs|
  {
    if reqs != [] {
      var r := Step(t, reqs[0].id, reqs[0].now, reqs[0].via.config);
      assert id in r.table && r.table[id].resetTime == t[id].resetTime;
      assert r.table[id].count <= l.config.maxRequests;
      assert r.table[id].count == t[id].count + (if reqs[0].id == id && reqs[0].via == l && r.decision.Allow? then 1 else 0);
      forall i | 0 <= i < |reqs[1..]| && reqs[1..][i].id == id
        ensures reqs[1..][i].via == l && reqs[1..][i].now <= r.table[id].resetTime
      {
        assert reqs[1..][i] == reqs[i + 1];
      }
      WithinWindow(r.table, reqs[1..], id, l);
    }
  }

  /**
   At most `maxRequests` requests per identifier per window, for a client served
   by one limiter: when a request from `id` opens a new window (the identifier is
   unseen or its window has passed), at most `maxRequests` of its requests up to
   the end of that window are let through, however they interleave with other
   clients' requests under any limiter.
   */
  lemma {:induction false} AtMostMaxPerWindow(t: Table, reqs: seq<Request>, id: Identifier, l: Limiter)
    requires l.config.maxRequests >= 1
    requires |reqs| > 0 && reqs[0].id == id && reqs[0].via == l
    requires id !in t || reqs[0].now > t[id].resetTime
    requires forall i :: 1 <= i < |reqs| && reqs[i].id == id ==>
      reqs[i].via == l && reqs[i].now <= reqs[0].now + l.config.windowMs
    ensures AllowedVia(t, reqs, id, l) <= l.config.maxRequests
  {
    var r := Step(t, id, reqs[0].now, l.config);
    assert r.decision.Allow? && r.table[id] == Record(1, reqs[0].now + l.config.windowMs);
    forall i | 0 <= i < |reqs[1..]| && reqs[1..][i].id == id
      ensures reqs[1..][i].via == l && reqs[1..][i].now <= r.table[id].resetTime
    {
      assert reqs[1..][i] == reqs[i + 1];
    }
    WithinWindow(r.table, reqs[1..], id, l);
  }

  /**
   The one table is shared by every limiter, so a limiter with a short window can
   restart a client's record and reopen the quota of a stricter limiter. Here the
   strict limiter (2 per 1000 ms) sees requests at 1, 11 and 12 ms, all inside the
   window its first one would open, and lets all three through, because a lenient
   limiter (100 per 10 ms) opened the record at 0 ms with an end time of 10 ms.
   On a table of its own the strict limiter lets only two through.
   */
  lemma SharedTableReopensQuota()
    ensures
      var strict := Limiter(0, Config(1000, 2, DefaultMessage));
      var lenient := Limiter(1, Config(10, 100, DefaultMessage));
      var reqs := [Request("ip", 0, lenient), Request("ip", 1, strict), Request("ip", 11, strict),
                   Request("ip", 12, strict)];
      && AllowedVia(map[], reqs, "ip", strict) == 3 > strict.config.maxRequests
      && IsolatedAllowed(map[], reqs, "ip", strict) == 2
  {
    var strict := Limiter(0, Config(1000, 2, DefaultMessage));
    var lenient := Limiter(1, Config(10, 100, DefaultMessage));
    var reqs := [Request("ip", 0, lenient), Request("ip", 1, strict), Request("ip", 11, strict),
                 Request("ip", 12, strict)];
    var t1 := map["ip" := Record(1, 10)];
    var t2 := map["ip" := Record(2, 10)];
    var t3 := map["ip" := Record(1, 1011)];
    var t4 := map["ip" := Record(2, 1011)];
    assert Step(map[], "ip", 0, lenient.config) == StepResult(Allow, t1);
    assert Step(t1, "ip", 1, strict.config) == StepResult(Allow, t2);
    assert Step(t2, "ip", 11, strict.config) == StepResult(Allow, t3);
    assert Step(t3, "ip", 12, strict.config) == StepResult(Allow, t4);
    assert AllowedVia(t4, reqs[4..], "ip", strict) == 0;
    assert AllowedVia(t3, reqs[3..], "ip", strict) == 1 by { assert reqs[3..][1..] == reqs[4..]; }
    assert AllowedVia(t2, reqs[2..], "ip", strict) == 2 by { assert reqs[2..][1..] == reqs[3..]; }
    assert AllowedVia(t1, reqs[1..], "ip", strict) == 3 by { assert reqs[1..][1..] == reqs[2..]; }
    var own := [Request("ip", 1, strict), Request("ip", 11, strict), Request("ip", 12, strict)];
    assert OnlyVia(reqs, strict) == own by {
      assert reqs[1..] == own;
      assert own[2..][1..] == own[3..] && OnlyVia(own[3..], strict) == [];
      assert OnlyVia(own[2..], strict) == own[2..];
      assert own[1..][1..] == own[2..];
      assert OnlyVia(own[1..], strict) == own[1..];
      assert OnlyVia(own, strict) == [own[0]] + own[1..] == own;
    }
    var u1 := map["ip" := Record(1, 1001)];
    var u2 := map["ip" := Record(2, 1001)];
    assert Step(map[], "ip", 1, strict.config) == StepResult(Allow, u1);
    assert Step(u1, "ip", 11, strict.config) == StepResult(Allow, u2);
    assert Step(u2, "ip", 12, strict.config).decision.Deny?;
    assert AllowedVia(u2, own[2..], "ip", strict) == 0 by { assert own[2..][1..] == own[3..]; }
    assert AllowedVia(u1, own[1..], "ip", strict) == 1 by { assert own[1..][1..] == own[2..]; }
  }

  /** The requests of a history handled by limiter `l`, in order. */
  function OnlyVia(reqs: seq<Request>, l: Limiter): (r: seq<Request>)
    ensures |r| <= |reqs|
    ensures forall i :: 0 <= i < |r| ==> r[i].via == l
    decreases |reqs|
  {
    if reqs == [] then []
    else if reqs[0].via == l then [reqs[0]] + OnlyVia(reqs[1..], l)
    else OnlyVia(reqs[1..], l)
  }

  /**
   How many requests from `id` limiter `l` lets through when it keeps a table of
   its own, starting from `t`, and sees only its own requests.
   */
  function IsolatedAllowed(t: Table, reqs: seq<Request>, id: Identifier, l: Limiter): (n: nat)
    ensures n <= |OnlyVia(reqs, l)|
  {
    AllowedVia(t, OnlyVia(reqs, l), id, l)
  }

  /**
   With a table per limiter, every limiter keeps its own bound whatever the other
   limiters do: once a request from `id` opens a window in `l`'s table, at most
   `maxRequests` of the requests from `id` that `l` sees up to the end of that
   window are let through.
   */
  lemma IsolatedAtMostMaxPerWindow(t: Table, reqs: seq<Request>, id: Identifier, l: Limiter)
    requires l.config.maxRequests >= 1
    requires |OnlyVia(reqs, l)| > 0 && OnlyVia(reqs, l)[0].id == id
    requires id !in t || OnlyVia(reqs, l)[0].now > t[id].resetTime
    requires forall i :: 1 <= i < |OnlyVia(reqs, l)| && OnlyVia(reqs, l)[i].id == id ==>
      OnlyVia(reqs, l)[i].now <= OnlyVia(reqs, l)[0].now + l.config.windowMs
    ensures IsolatedAllowed(t, reqs, id, l) <= l.config.maxRequests
  {
    AtMostMaxPerWindow(t, OnlyVia(reqs, l), id, l);
  }

  /** Supplying every option reproduces the settings exactly. */
  lemma ConfigureRoundTrip(c: Config)
    ensures Configure(Options(Some(c.windowMs), Some(c.maxRequests), Some(c.message))) == c
  {
  }

  /** The factory called with no options limits to 100 requests per 15 minutes. */
  lemma ConfigureDefaults()
    ensures Configure(NoOptions) == Config(900000, 100, "Too many requests, please try again later.")
  {
  }

  /** Cleanup keeps every stored count within the limit. */
  lemma CleanupKeepsCountsBounded(t: Table, now: int, c: Config)
    requires CountsBounded(t, c)
    ensures CountsBounded(Cleanup(t, now), c)
  {
  }

  /** Sweeping at `a` and then at a later `b` leaves what one sweep at `b` leaves. */
  lemma CleanupAbsorbs(t: Table, a: int, b: int)
    requires a <= b
    ensures Cleanup(Cleanup(t, a), b) == Cleanup(t, b)
  {
  }

  /**
   The sweep is invisible to clients: a request at `now` after a sweep at an
   earlier or equal time gets the same decision and leaves the same record for
   its identifier as without the sweep, since an expired record and a missing
   one are both answered by opening a fresh window.
   */
  lemma CleanupUnobservable(t: Table, id: Identifier, sweep: int, now: int, c: Config)
    requires sweep <= now
    ensures var withSweep := Step(Cleanup(t, sweep), id, now, c);
      var without := Step(t, id, now, c);
      && withSweep.decision == without.decision
      && withSweep.table == Cleanup(t, sweep)[id := without.table[id]]
  {
  }
}
