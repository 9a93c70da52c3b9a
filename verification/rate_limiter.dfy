/**
 The in-memory fixed-window rate limiter.

 One table, shared by every limiter built from the module, maps a client
 identifier to a record of how many requests it made in its current window and
 when that window ends. Time is a parameter in milliseconds; the identifier is
 a parameter too.
 */
module RateLimiter {
  import opened Optional

  type Identifier = string

  /** Requests counted in the current window, and the instant the window ends. */
  datatype Record = Record(count: int, resetTime: int)

  type Table = map<Identifier, Record>

  /** The options object passed to the factory; None stands for a missing property. */
  datatype Options = Options(windowMs: Option<int>, maxRequests: Option<int>, message: Option<string>)

  /** The settings a limiter runs with once defaults are filled in. */
  datatype Config = Config(windowMs: int, maxRequests: int, message: string)

  const DefaultWindowMs: int := 15 * 60 * 1000
  const DefaultMaxRequests: int := 100
  const DefaultMessage: string := "Too many requests, please try again later."

  /** Each missing option takes its own default; a supplied one is kept. */
  function Configure(o: Options): (c: Config)
    ensures o.windowMs.None? ==> c.windowMs == 900000
    ensures o.maxRequests.None? ==> c.maxRequests == 100
    ensures o.message.None? ==> c.message == DefaultMessage
    ensures o.windowMs.Some? ==> c.windowMs == o.windowMs.value
    ensures o.maxRequests.Some? ==> c.maxRequests == o.maxRequests.value
    ensures o.message.Some? ==> c.message == o.message.value
  {
    Config(
      if o.windowMs.Some? then o.windowMs.value else DefaultWindowMs,
      if o.maxRequests.Some? then o.maxRequests.value else DefaultMaxRequests,
      if o.message.Some? then o.message.value else DefaultMessage)
  }

  /** The factory called with no options at all. */
  const NoOptions: Options := Options(None, None, None)

  datatype Decision = Allow | Deny(retryAfter: int, message: string)

  datatype StepResult = StepResult(decision: Decision, table: Table)

  /** Math.ceil(ms / 1000): whole seconds, rounded up. */
  function CeilSeconds(ms: int): (sec: int)
    ensures (sec - 1) * 1000 < ms <= sec * 1000
  {
    -((-ms) / 1000)
  }

  /**
   One request from `id` at time `now`: a first sighting opens a window, an
   expired window is restarted, a full window denies without changing anything,
   and otherwise the request is counted.
   */
  function Step(t: Table, id: Identifier, now: int, c: Config): (r: StepResult)
    // first request from an unseen identifier
    ensures id !in t ==> r == StepResult(Allow, t[id := Record(1, now + c.windowMs)])
    // the window has passed: start a new one
    ensures id in t && now > t[id].resetTime ==> r == StepResult(Allow, t[id := Record(1, now + c.windowMs)])
    // the window is full: deny, nothing changes
    ensures id in t && now <= t[id].resetTime && t[id].count >= c.maxRequests ==>
      && r.decision.Deny?
      && r.table == t
      && r.decision.message == c.message
      && (r.decision.retryAfter - 1) * 1000 < t[id].resetTime - now <= r.decision.retryAfter * 1000
    // otherwise count the request in the current window
    ensures id in t && now <= t[id].resetTime && t[id].count < c.maxRequests ==>
      r == StepResult(Allow, t[id := Record(t[id].count + 1, t[id].resetTime)])
  {
    if id !in t then StepResult(Allow, t[id := Record(1, now + c.windowMs)])
    else
      var rec := t[id];
      if now > rec.resetTime then StepResult(Allow, t[id := Record(1, now + c.windowMs)])
      else if rec.count >= c.maxRequests then StepResult(Deny(CeilSeconds(rec.resetTime - now), c.message), t)
      else StepResult(Allow, t[id := rec.(count := rec.count + 1)])
  }

  /** The periodic sweep: drop every record whose window has passed. */
  function Cleanup(t: Table, now: int): (r: Table)
    ensures forall id :: id in r <==> id in t && now <= t[id].resetTime
    ensures forall id :: id in r ==> r[id] == t[id]
  {
    map id | id in t && !(now > t[id].resetTime) :: t[id]
  }
}
