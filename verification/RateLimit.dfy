/** The in-memory token-bucket rate limiter: its buckets, its atomic steps and its runs.
    Every step happens under one mutex with the clock read inside the lock, so a run is a
    sequence of atomic events with non-decreasing times. float64 is modelled by `real`. */
module RateLimit {

  type Key = string
  type Time = real // seconds

  /** Buckets not seen for more than five minutes are swept. */
  const IDLE_SECONDS: real := 300.0

  datatype Config = Config(rate: real, burst: int)

  datatype Bucket = Bucket(tokens: real, lastSeen: Time)

  type Buckets = map<Key, Bucket>

  /** The tokens that accrue between two times. */
  function Gain(c: Config, from: Time, to: Time): real {
    (to - from) * c.rate
  }

  /** What a bucket holds at `now`, before anything is consumed. */
  function Refilled(c: Config, b: Bucket, now: Time): real {
    var filled := b.tokens + Gain(c, b.lastSeen, now);
    if filled > c.burst as real then c.burst as real else filled
  }

  /** A key without a bucket stands for a full one. */
  function Level(c: Config, bs: Buckets, key: Key, now: Time): real {
    if key in bs then Refilled(c, bs[key], now) else c.burst as real
  }

  /** Go's conversion of a float to int: truncation towards zero. */
  function Truncate(x: real): (n: int)
    ensures if x >= 0.0 then n as real <= x < n as real + 1.0 else n as real - 1.0 < x <= n as real
  {
    if x >= 0.0 then x.Floor else -((-x).Floor)
  }

  lemma TruncateInt(n: int)
    ensures Truncate(n as real) == n
  {
    assert -(n as real) == (-n) as real;
  }

  // ---------- Events, answers and runs ----------

  datatype Event =
    | Allow(key: Key, now: Time)
    | Remaining(key: Key, now: Time)
    | Sweep(now: Time)

  datatype Answer = Verdict(ok: bool) | Tokens(count: int) | Silent

  datatype Outcome = Outcome(buckets: Buckets, answer: Answer)

  function AfterAllow(c: Config, bs: Buckets, key: Key, now: Time): Outcome {
    var level := Level(c, bs, key, now);
    if level < 1.0
    then Outcome(bs[key := Bucket(level, now)], Verdict(false))
    else Outcome(bs[key := Bucket(level - 1.0, now)], Verdict(true))
  }

  function Idle(b: Bucket, now: Time): bool {
    b.lastSeen < now - IDLE_SECONDS
  }

  function Swept(bs: Buckets, now: Time): Buckets {
    map k | k in bs && !Idle(bs[k], now) :: bs[k]
  }

  /** One atomic step. With `evict` the limiter is the real one; without it, sweeps delete nothing. */
  function Step(c: Config, evict: bool, bs: Buckets, e: Event): Outcome {
    match e
    case Allow(key, now) => AfterAllow(c, bs, key, now)
    case Remaining(key, now) => Outcome(bs, Tokens(Truncate(Level(c, bs, key, now))))
    case Sweep(now) => Outcome(if evict then Swept(bs, now) else bs, Silent)
  }

  function Run(c: Config, evict: bool, bs: Buckets, es: seq<Event>): Buckets
    decreases |es|
  {
    if es == [] then bs else Run(c, evict, Step(c, evict, bs, es[0]).buckets, es[1..])
  }

  function Answers(c: Config, evict: bool, bs: Buckets, es: seq<Event>): (answers: seq<Answer>)
    ensures |answers| == |es|
    decreases |es|
  {
    if es == [] then []
    else var o := Step(c, evict, bs, es[0]);
         [o.answer] + Answers(c, evict, o.buckets, es[1..])
  }

  function AdmittedBy(e: Event, answer: Answer, key: Key): seq<Time> {
    if e.Allow? && e.key == key && answer == Verdict(true) then [e.now] else []
  }

  /** The times of the requests of `key` that were admitted, in order. */
  function AdmittedTimes(es: seq<Event>, answers: seq<Answer>, key: Key): seq<Time>
    requires |es| == |answers|
    decreases |es|
  {
    if es == [] then []
    else AdmittedBy(es[0], answers[0], key) + AdmittedTimes(es[1..], answers[1..], key)
  }

  /** The event deletes the bucket of `key`. */
  predicate Evicted(c: Config, bs: Buckets, e: Event, key: Key) {
    key in bs && key !in Step(c, true, bs, e).buckets
  }

  /** How often sweeps delete the bucket of `key` in a run of the real limiter. */
  function Evictions(c: Config, bs: Buckets, es: seq<Event>, key: Key): nat
    decreases |es|
  {
    if es == [] then 0
    else (if Evicted(c, bs, es[0], key) then 1 else 0) + Evictions(c, Step(c, true, bs, es[0]).buckets, es[1..], key)
  }

  /** The clock never runs backwards, and starts at `from`. */
  predicate Monotone(from: Time, es: seq<Event>)
    decreases |es|
  {
    es == [] || (from <= es[0].now && Monotone(es[0].now, es[1..]))
  }

  function EndTime(from: Time, es: seq<Event>): Time
    decreases |es|
  {
    if es == [] then from else EndTime(es[0].now, es[1..])
  }

  // ---------- The limiter itself ----------

  class Limiter {
    const rate: real
    const burst: int
    var buckets: Buckets

    function Cfg(): Config { Config(rate, burst) }

    constructor (rate: real, burst: int)
      ensures this.rate == rate && this.burst == burst && buckets == map[]
    {
      this.rate, this.burst, this.buckets := rate, burst, map[];
    }

    method Allow(key: Key, now: Time) returns (ok: bool)
      modifies this`buckets
      ensures Outcome(buckets, Verdict(ok)) == Step(Cfg(), true, old(buckets), Event.Allow(key, now))
    {
      var b: Bucket;
      if key in buckets {
        b := buckets[key];
      } else {
        b := Bucket(burst as real, now);
      }
      var elapsed := now - b.lastSeen;
      var gained := elapsed * rate;
      assert key !in buckets ==> gained == 0.0;
      b := b.(tokens := b.tokens + gained);
      if b.tokens > burst as real {
        b := b.(tokens := burst as real);
      }
      b := b.(lastSeen := now);
      assert b.tokens == Level(Cfg(), buckets, key, now);
      ok := b.tokens >= 1.0;
      if ok {
        b := b.(tokens := b.tokens - 1.0);
      }
      buckets := buckets[key := b];
    }

    method Remaining(key: Key, now: Time) returns (n: int)
      ensures Outcome(buckets, Tokens(n)) == Step(Cfg(), true, buckets, Event.Remaining(key, now))
    {
      if key !in buckets {
        TruncateInt(burst);
        return burst;
      }
      var b := buckets[key];
      var tokens := b.tokens + (now - b.lastSeen) * rate;
      if tokens > burst as real {
        tokens := burst as real;
      }
      assert tokens == Level(Cfg(), buckets, key, now);
      n := Truncate(tokens);
    }

    /** One firing of the cleanup ticker: the range loop over the map, deleting as it goes. */
    method Sweep(now: Time)
      modifies this`buckets
      ensures forall k :: k in buckets <==> k in old(buckets) && old(buckets)[k].lastSeen >= now - 300.0
      ensures forall k | k in buckets :: buckets[k] == old(buckets)[k]
      ensures Outcome(buckets, Silent) == Step(Cfg(), true, old(buckets), Event.Sweep(now))
    {
      var cutoff := now - IDLE_SECONDS;
      var todo := buckets.Keys;
      while todo != {}
        invariant todo <= buckets.Keys <= old(buckets).Keys
        invariant forall k :: k in buckets ==> buckets[k] == old(buckets)[k]
        invariant forall k :: k in old(buckets) && k !in todo ==> (k in buckets <==> !Idle(old(buckets)[k], now))
      {
        var k :| k in todo;
        if buckets[k].lastSeen < cutoff {
          buckets := buckets - {k};
        }
        todo := todo - {k};
      }
      assert buckets == Swept(old(buckets), now);
    }
  }
}
