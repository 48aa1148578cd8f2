/** Whole-run laws of the rate limiter. */
module RateLimitLaws {
  import opened Common
  import opened RateLimit

  // ---------- Arithmetic of refilling ----------
  // Only these four lemmas look inside Gain; all others hide the product and reason linearly.

  lemma GainNonNegative(c: Config, s: Time, t: Time)
    requires c.rate >= 0.0 && s <= t
    ensures Gain(c, s, t) >= 0.0
  {
  }

  lemma GainAdds(c: Config, s: Time, m: Time, t: Time)
    ensures Gain(c, s, t) == Gain(c, s, m) + Gain(c, m, t)
  {
  }

  lemma GainNothing(c: Config, t: Time)
    ensures Gain(c, t, t) == 0.0
  {
  }

  lemma GainAfterIdling(c: Config, s: Time, t: Time)
    requires c.rate >= 0.0 && t - s >= IDLE_SECONDS
    ensures Gain(c, s, t) >= IDLE_SECONDS * c.rate
  {
    GainNonNegative(c, s + IDLE_SECONDS, t);
    GainAdds(c, s, s + IDLE_SECONDS, t);
  }

  /** Refilling in two stages is refilling once, so a refused request costs nothing. */
  lemma RefillComposes(c: Config, b: Bucket, mid: Time, t: Time)
    requires c.rate >= 0.0 && mid <= t
    ensures Refilled(c, Bucket(Refilled(c, b, mid), mid), t) == Refilled(c, b, t)
  {
    hide Gain;
    GainAdds(c, b.lastSeen, mid, t);
    GainNonNegative(c, mid, t);
  }

  lemma FullStaysFull(c: Config, mid: Time, t: Time)
    requires c.rate >= 0.0 && mid <= t
    ensures Refilled(c, Bucket(c.burst as real, mid), t) == c.burst as real
  {
    hide Gain;
    GainNonNegative(c, mid, t);
  }

  lemma NoTimeNoRefill(c: Config, b: Bucket)
    requires b.tokens <= c.burst as real
    ensures Refilled(c, b, b.lastSeen) == b.tokens
  {
    hide Gain;
    GainNothing(c, b.lastSeen);
  }

  // ---------- The exact admission law ----------

  predicate Ascending(adm: seq<Time>, t: Time) {
    (forall i, j | 0 <= i < j < |adm| :: adm[i] <= adm[j]) && (adm != [] ==> adm[|adm| - 1] <= t)
  }

  /** The admissions at time `s` or later. */
  function CountSince(adm: seq<Time>, s: Time): nat {
    if adm == [] then 0
    else CountSince(adm[..|adm| - 1], s) + if adm[|adm| - 1] >= s then 1 else 0
  }

  /** One more admission at `now` keeps every window that ends at `now` within burst + rate * length. */
  ghost predicate Conforms(c: Config, adm: seq<Time>, now: Time) {
    forall s: Time | s <= now :: (CountSince(adm, s) + 1) as real <= c.burst as real + Gain(c, s, now)
  }

  /** The tokens left at `t` when `adm` are all the admissions so far. */
  function Budget(c: Config, adm: seq<Time>, t: Time): real
    decreases |adm|
  {
    if adm == [] then c.burst as real
    else var last := adm[|adm| - 1];
         Refilled(c, Bucket(Budget(c, adm[..|adm| - 1], last) - 1.0, last), t)
  }

  ghost predicate WindowsLeave(c: Config, adm: seq<Time>, t: Time, x: real) {
    forall s: Time | s <= t :: CountSince(adm, s) as real + x <= c.burst as real + Gain(c, s, t)
  }

  lemma {:induction false} NoneAfterLast(adm: seq<Time>, t: Time, s: Time)
    requires Ascending(adm, t) && t < s
    ensures CountSince(adm, s) == 0
  {
    if adm != [] {
      NoneAfterLast(adm[..|adm| - 1], t, s);
    }
  }

  lemma {:induction false} BudgetBoundsWindows(c: Config, adm: seq<Time>, t: Time, x: real)
    requires c.rate >= 0.0 && Ascending(adm, t) && x <= Budget(c, adm, t)
    ensures WindowsLeave(c, adm, t, x)
    decreases |adm|
  {
    hide Gain;
    forall s: Time | s <= t
      ensures CountSince(adm, s) as real + x <= c.burst as real + Gain(c, s, t)
    {
      GainNonNegative(c, s, t);
      if adm != [] {
        var front, last := adm[..|adm| - 1], adm[|adm| - 1];
        if s > last {
          NoneAfterLast(adm, last, s);
        } else {
          var x' := x + 1.0 - Gain(c, last, t);
          BudgetBoundsWindows(c, front, last, x');
          assert CountSince(front, s) as real + x' <= c.burst as real + Gain(c, s, last);
          GainAdds(c, s, last, t);
        }
      }
    }
  }

  lemma {:induction false} WindowsBoundBudget(c: Config, adm: seq<Time>, t: Time, x: real)
    requires c.rate >= 0.0 && Ascending(adm, t) && WindowsLeave(c, adm, t, x)
    ensures x <= Budget(c, adm, t)
    decreases |adm|
  {
    hide Gain;
    GainNothing(c, t);
    assert CountSince(adm, t) as real + x <= c.burst as real + Gain(c, t, t);
    if adm != [] {
      var front, last := adm[..|adm| - 1], adm[|adm| - 1];
      var x' := x + 1.0 - Gain(c, last, t);
      forall s: Time | s <= last
        ensures CountSince(front, s) as real + x' <= c.burst as real + Gain(c, s, last)
      {
        assert CountSince(adm, s) as real + x <= c.burst as real + Gain(c, s, t);
        GainAdds(c, s, last, t);
      }
      WindowsBoundBudget(c, front, last, x');
    }
  }

  lemma BudgetIsTightestWindow(c: Config, adm: seq<Time>, now: Time)
    requires c.rate >= 0.0 && Ascending(adm, now)
    ensures 1.0 <= Budget(c, adm, now) <==> Conforms(c, adm, now)
  {
    hide Gain;
    if 1.0 <= Budget(c, adm, now) {
      BudgetBoundsWindows(c, adm, now, 1.0);
      forall s: Time | s <= now
        ensures (CountSince(adm, s) + 1) as real <= c.burst as real + Gain(c, s, now)
      {
        assert CountSince(adm, s) as real + 1.0 <= c.burst as real + Gain(c, s, now);
      }
    }
    if Conforms(c, adm, now) {
      forall s: Time | s <= now
        ensures CountSince(adm, s) as real + 1.0 <= c.burst as real + Gain(c, s, now)
      {
        assert (CountSince(adm, s) + 1) as real <= c.burst as real + Gain(c, s, now);
      }
      WindowsBoundBudget(c, adm, now, 1.0);
    }
  }

  /** The bucket of `key` holds, at every later time, exactly what its admissions have left. */
  ghost predicate Tracks(c: Config, bs: Buckets, key: Key, clock: Time, adm: seq<Time>) {
    && Ascending(adm, clock)
    && forall t: Time | t >= clock :: Level(c, bs, key, t) == Budget(c, adm, t)
  }

  lemma StepTracks(c: Config, bs: Buckets, e: Event, key: Key, clock: Time, adm: seq<Time>)
    requires c.rate >= 0.0 && clock <= e.now && Tracks(c, bs, key, clock, adm)
    ensures var o := Step(c, false, bs, e);
            Tracks(c, o.buckets, key, e.now, adm + AdmittedBy(e, o.answer, key))
  {
    hide Gain;
    var o := Step(c, false, bs, e);
    var adm' := adm + AdmittedBy(e, o.answer, key);
    forall t: Time | t >= e.now
      ensures Level(c, o.buckets, key, t) == Budget(c, adm', t)
    {
      if e.Allow? && e.key == key {
        var level := Level(c, bs, key, e.now);
        if o.answer == Verdict(true) {
          assert adm'[..|adm'| - 1] == adm;
        } else {
          assert adm' == adm;
          if key in bs {
            RefillComposes(c, bs[key], e.now, t);
          } else {
            FullStaysFull(c, e.now, t);
          }
        }
      } else {
        assert adm' == adm;
      }
    }
  }

  lemma {:induction false} RunTracks(c: Config, bs: Buckets, es: seq<Event>, key: Key, clock: Time, adm: seq<Time>)
    requires c.rate >= 0.0 && Monotone(clock, es) && Tracks(c, bs, key, clock, adm)
    ensures Tracks(c, Run(c, false, bs, es), key, EndTime(clock, es),
                   adm + AdmittedTimes(es, Answers(c, false, bs, es), key))
    decreases |es|
  {
    hide Tracks, Step, AdmittedBy;
    if es == [] {
      assert adm + [] == adm;
    } else {
      var o := Step(c, false, bs, es[0]);
      StepTracks(c, bs, es[0], key, clock, adm);
      var first := AdmittedBy(es[0], o.answer, key);
      RunTracks(c, o.buckets, es[1..], key, es[0].now, adm + first);
      var rest := AdmittedTimes(es[1..], Answers(c, false, o.buckets, es[1..]), key);
      var answers := Answers(c, false, bs, es);
      assert answers[1..] == Answers(c, false, o.buckets, es[1..]);
      assert AdmittedTimes(es, answers, key) == first + rest;
      assert adm + first + rest == adm + (first + rest);
    }
  }

  lemma {:induction false} AnswerAt(c: Config, evict: bool, bs: Buckets, clock: Time, es: seq<Event>, i: nat)
    requires i < |es| && Monotone(clock, es)
    ensures Answers(c, evict, bs, es)[i] == Step(c, evict, Run(c, evict, bs, es[..i]), es[i]).answer
    ensures Answers(c, evict, bs, es)[..i] == Answers(c, evict, bs, es[..i])
    ensures Monotone(clock, es[..i]) && EndTime(clock, es[..i]) <= es[i].now
    decreases i
  {
    if i > 0 {
      var o := Step(c, evict, bs, es[0]);
      AnswerAt(c, evict, o.buckets, es[0].now, es[1..], i - 1);
      assert es[..i][1..] == es[1..][..i - 1];
      var all := Answers(c, evict, bs, es);
      assert all[..i] == [all[0]] + all[1..][..i - 1];
    } else {
      assert es[..0] == [];
    }
  }

  lemma VerdictFromBudget(c: Config, evict: bool, bs: Buckets, key: Key, now: Time, adm: seq<Time>)
    requires c.rate >= 0.0 && Tracks(c, bs, key, now, adm)
    ensures Step(c, evict, bs, Allow(key, now)).answer == Verdict(true) <==> Conforms(c, adm, now)
  {
    hide Refilled;
    assert Level(c, bs, key, now) == Budget(c, adm, now);
    BudgetIsTightestWindow(c, adm, now);
  }

  lemma TracksLater(c: Config, bs: Buckets, key: Key, clock: Time, later: Time, adm: seq<Time>)
    requires Tracks(c, bs, key, clock, adm) && clock <= later
    ensures Tracks(c, bs, key, later, adm)
  {
    hide Level, Budget;
  }

  lemma TracksFromEmpty(c: Config, key: Key, clock: Time)
    ensures Tracks(c, map[], key, clock, [])
  {
  }

  /** Without eviction: a request is admitted exactly when every window ending at it conforms. */
  lemma KeptAdmissionLaw(c: Config, clock: Time, es: seq<Event>, i: nat)
    requires c.rate >= 0.0 && Monotone(clock, es)
    requires i < |es| && es[i].Allow?
    ensures var answers := Answers(c, false, map[], es);
            answers[i] == Verdict(true)
            <==> Conforms(c, AdmittedTimes(es[..i], answers[..i], es[i].key), es[i].now)
  {
    hide Step, Tracks, Conforms, AdmittedTimes;
    var key, now := es[i].key, es[i].now;
    var adm := AdmittedTimes(es[..i], Answers(c, false, map[], es[..i]), key);
    var bs := Run(c, false, map[], es[..i]);
    AnswerAt(c, false, map[], clock, es, i);
    TracksFromEmpty(c, key, clock);
    RunTracks(c, map[], es[..i], key, clock, []);
    assert [] + adm == adm;
    TracksLater(c, bs, key, EndTime(clock, es[..i]), now, adm);
    VerdictFromBudget(c, false, bs, key, now, adm);
  }

  // ---------- Eviction is invisible exactly when five minutes refill a bucket ----------

  /** No sweep can hand out tokens that waiting would not have given. */
  predicate RefillsWhileIdle(c: Config) {
    IDLE_SECONDS * c.rate >= c.burst as real
  }

  predicate InTimeOrder(es: seq<Event>) {
    es == [] || Monotone(es[0].now, es)
  }

  /** The limiter answers a run as if it never deleted a bucket. */
  predicate SweepsUnnoticed(c: Config, es: seq<Event>) {
    Answers(c, true, map[], es) == Answers(c, false, map[], es)
  }

  /** What every reachable limiter state satisfies at `clock`. */
  predicate Sane(c: Config, bs: Buckets, clock: Time) {
    forall k | k in bs ::
      bs[k].lastSeen <= clock && (bs[k].tokens >= 0.0 || bs[k].tokens >= c.burst as real)
  }

  /** Each key has the same bucket in both limiters, or only the evicting one lost it and it is full by now. */
  ghost predicate Matches(c: Config, evicting: Buckets, keeping: Buckets, clock: Time) {
    && evicting.Keys <= keeping.Keys
    && (forall k | k in evicting :: evicting[k] == keeping[k])
    && (forall k, t: Time | k in keeping && k !in evicting && t >= clock ::
          Refilled(c, keeping[k], t) == c.burst as real)
  }

  lemma IdleIsFull(c: Config, b: Bucket, sweep: Time, t: Time)
    requires c.rate >= 0.0 && RefillsWhileIdle(c)
    requires b.tokens >= 0.0 || b.tokens >= c.burst as real
    requires Idle(b, sweep) && sweep <= t
    ensures Refilled(c, b, t) == c.burst as real
  {
    hide Gain;
    GainAfterIdling(c, b.lastSeen, t);
  }

  lemma StepSane(c: Config, evict: bool, bs: Buckets, e: Event, clock: Time)
    requires c.rate >= 0.0 && clock <= e.now && Sane(c, bs, clock)
    ensures Sane(c, Step(c, evict, bs, e).buckets, e.now)
  {
    hide Gain;
    if e.Allow? && e.key in bs {
      GainNonNegative(c, bs[e.key].lastSeen, e.now);
    }
  }

  lemma {:induction false} RunSane(c: Config, evict: bool, bs: Buckets, es: seq<Event>, clock: Time)
    requires c.rate >= 0.0 && Monotone(clock, es) && Sane(c, bs, clock)
    ensures Sane(c, Run(c, evict, bs, es), EndTime(clock, es))
    decreases |es|
  {
    if es != [] {
      StepSane(c, evict, bs, es[0], clock);
      RunSane(c, evict, Step(c, evict, bs, es[0]).buckets, es[1..], es[0].now);
    }
  }

  lemma StepMatches(c: Config, ev: Buckets, kept: Buckets, e: Event, clock: Time)
    requires c.rate >= 0.0 && RefillsWhileIdle(c) && clock <= e.now
    requires Sane(c, kept, clock) && Matches(c, ev, kept, clock)
    ensures Step(c, true, ev, e).answer == Step(c, false, kept, e).answer
    ensures Matches(c, Step(c, true, ev, e).buckets, Step(c, false, kept, e).buckets, e.now)
    ensures Sane(c, Step(c, false, kept, e).buckets, e.now)
  {
    hide Gain;
    StepSane(c, false, kept, e, clock);
    match e
    case Allow(key, now) =>
      assert Level(c, ev, key, now) == Level(c, kept, key, now);
    case Remaining(key, now) =>
      assert Level(c, ev, key, now) == Level(c, kept, key, now);
    case Sweep(now) =>
      var ev' := Swept(ev, now);
      forall k, t: Time | k in kept && k !in ev' && t >= now
        ensures Refilled(c, kept[k], t) == c.burst as real
      {
        if k in ev {
          IdleIsFull(c, kept[k], now, t);
        }
      }
  }

  lemma {:induction false} RunsMatch(c: Config, ev: Buckets, kept: Buckets, es: seq<Event>, clock: Time)
    requires c.rate >= 0.0 && RefillsWhileIdle(c) && Monotone(clock, es)
    requires Sane(c, kept, clock) && Matches(c, ev, kept, clock)
    ensures Answers(c, true, ev, es) == Answers(c, false, kept, es)
    decreases |es|
  {
    if es != [] {
      StepMatches(c, ev, kept, es[0], clock);
      RunsMatch(c, Step(c, true, ev, es[0]).buckets, Step(c, false, kept, es[0]).buckets, es[1..], es[0].now);
    }
  }

  /** `n` requests of one key at one instant. */
  function Volley(key: Key, now: Time, n: nat): seq<Event> {
    if n == 0 then [] else [Allow(key, now)] + Volley(key, now, n - 1)
  }

  lemma VolleyStep(c: Config, evict: bool, bs: Buckets, key: Key, now: Time)
    requires key in bs && bs[key].lastSeen == now && 1.0 <= bs[key].tokens <= c.burst as real
    ensures Step(c, evict, bs, Allow(key, now)) == Outcome(bs[key := Bucket(bs[key].tokens - 1.0, now)], Verdict(true))
  {
    hide Gain;
    NoTimeNoRefill(c, bs[key]);
  }

  /** `n` requests at one instant take a bucket from left + n tokens down to `left`. */
  lemma {:induction false} VolleyDrains(
    c: Config, evict: bool, bs: Buckets, key: Key, now: Time, left: real, n: nat, rest: seq<Event>)
    requires key in bs && bs[key] == Bucket(left + n as real, now) && 0.0 <= left && left + n as real <= c.burst as real
    ensures Answers(c, evict, bs, Volley(key, now, n) + rest)[|Volley(key, now, n)|..]
            == Answers(c, evict, bs[key := Bucket(left, now)], rest)
    decreases n
  {
    hide Step;
    var es := Volley(key, now, n) + rest;
    if n == 0 {
      assert es == rest;
      assert bs[key := Bucket(left, now)] == bs;
    } else {
      assert es[0] == Allow(key, now) && es[1..] == Volley(key, now, n - 1) + rest;
      var next := bs[key := Bucket(left + (n - 1) as real, now)];
      VolleyStep(c, evict, bs, key, now);
      VolleyDrains(c, evict, next, key, now, left, n - 1, rest);
      assert next[key := Bucket(left, now)] == bs[key := Bucket(left, now)];
      assert Answers(c, evict, bs, es) == [Verdict(true)] + Answers(c, evict, next, es[1..]);
    }
  }

  /** An instant after the idle limit at which a drained bucket is still not full. */
  lemma StarvedInstant(c: Config) returns (t: Time)
    requires c.rate >= 0.0 && !RefillsWhileIdle(c)
    ensures t > IDLE_SECONDS && t * c.rate < c.burst as real
  {
    if c.rate == 0.0 {
      t := IDLE_SECONDS + 1.0;
    } else {
      var full := c.burst as real / c.rate;
      assert full * c.rate == c.burst as real;
      assert (full - IDLE_SECONDS) * c.rate > 0.0;
      t := (IDLE_SECONDS + full) / 2.0;
      assert (full - t) * c.rate > 0.0;
    }
  }

  lemma BurstPositive(c: Config)
    requires c.rate >= 0.0 && !RefillsWhileIdle(c)
    ensures c.burst > 0
  {
  }

  lemma FirstOfVolley(c: Config, evict: bool)
    requires c.burst > 0
    ensures Step(c, evict, map[], Allow("k", 0.0))
            == Outcome(map["k" := Bucket((c.burst - 1) as real, 0.0)], Verdict(true))
  {
    assert (c.burst - 1) as real == c.burst as real - 1.0;
  }

  /** After a full burst at once the bucket is empty. */
  lemma DrainedThen(c: Config, evict: bool, rest: seq<Event>)
    requires c.burst > 0
    ensures var first := Volley("k", 0.0, c.burst);
            Answers(c, evict, map[], first + rest)[|first|..] == Answers(c, evict, map["k" := Bucket(0.0, 0.0)], rest)
  {
    hide Step;
    var es := Volley("k", 0.0, c.burst) + rest;
    var bs := map["k" := Bucket((c.burst - 1) as real, 0.0)];
    assert es[1..] == Volley("k", 0.0, c.burst - 1) + rest;
    FirstOfVolley(c, evict);
    VolleyDrains(c, evict, bs, "k", 0.0, 0.0, c.burst - 1, rest);
    assert bs["k" := Bucket(0.0, 0.0)] == map["k" := Bucket(0.0, 0.0)];
    assert Answers(c, evict, map[], es) == [Verdict(true)] + Answers(c, evict, bs, es[1..]);
  }

  /** A run in which a sweep is noticed: drain the bucket, sweep after the idle limit, ask what remains. */
  lemma EvictionNoticed(c: Config) returns (es: seq<Event>)
    requires c.rate >= 0.0 && !RefillsWhileIdle(c)
    ensures Monotone(0.0, es)
    ensures !SweepsUnnoticed(c, es)
  {
    hide Step;
    var t := StarvedInstant(c);
    BurstPositive(c);
    var first, rest := Volley("k", 0.0, c.burst), [Sweep(t), Event.Remaining("k", t)];
    es := first + rest;
    VolleyMonotone("k", c.burst, rest);
    DrainedThen(c, true, rest);
    DrainedThen(c, false, rest);
    TailAnswers(c, map["k" := Bucket(0.0, 0.0)], t);
    assert Answers(c, true, map[], es)[|first|..][1] != Answers(c, false, map[], es)[|first|..][1];
  }

  lemma {:induction false} VolleyMonotone(key: Key, n: nat, rest: seq<Event>)
    requires Monotone(0.0, rest)
    ensures Monotone(0.0, Volley(key, 0.0, n) + rest)
  {
    if n == 0 {
      assert Volley(key, 0.0, n) + rest == rest;
    } else {
      VolleyMonotone(key, n - 1, rest);
      assert (Volley(key, 0.0, n) + rest)[1..] == Volley(key, 0.0, n - 1) + rest;
    }
  }

  lemma TailAnswers(c: Config, drained: Buckets, t: Time)
    requires c.rate >= 0.0 && c.burst > 0
    requires drained == map["k" := Bucket(0.0, 0.0)] && t > IDLE_SECONDS && t * c.rate < c.burst as real
    ensures var rest := [Sweep(t), Event.Remaining("k", t)];
            Answers(c, true, drained, rest)[1] != Answers(c, false, drained, rest)[1]
  {
    var rest := [Sweep(t), Event.Remaining("k", t)];
    assert rest[1..] == [Event.Remaining("k", t)];
    assert Swept(drained, t) == map[];
    TruncateInt(c.burst);
    assert Answers(c, true, drained, rest)[1] == Tokens(c.burst);
    var left := Gain(c, 0.0, t);
    GainNonNegative(c, 0.0, t);
    assert Level(c, drained, "k", t) == left;
    assert Answers(c, false, drained, rest)[1] == Tokens(left.Floor);
  }

  /** Sweeping changes no answer of any run exactly when a bucket refills within the idle limit. */
  lemma EvictionInvisible(c: Config)
    requires c.rate >= 0.0
    ensures (forall es: seq<Event> | InTimeOrder(es) :: SweepsUnnoticed(c, es))
            <==> 300.0 * c.rate >= c.burst as real
  {
    if RefillsWhileIdle(c) {
      forall es: seq<Event> | InTimeOrder(es)
        ensures SweepsUnnoticed(c, es)
      {
        RunsMatch(c, map[], map[], es, if es == [] then 0.0 else es[0].now);
      }
    } else {
      var es := EvictionNoticed(c);
      assert InTimeOrder(es) && !SweepsUnnoticed(c, es);
    }
  }

  // ---------- What a sweep deletes, read off the events ----------

  /** The time of the latest request of `key`, admitted or not. */
  function LastRequest(es: seq<Event>, key: Key): Option<Time> {
    if es == [] then None
    else var last := es[|es| - 1];
         if last.Allow? && last.key == key then Some(last.now) else LastRequest(es[..|es| - 1], key)
  }

  lemma {:induction false} RunLast(c: Config, evict: bool, bs: Buckets, es: seq<Event>, clock: Time)
    requires es != [] && Monotone(clock, es)
    ensures var front := es[..|es| - 1];
            && Run(c, evict, bs, es) == Step(c, evict, Run(c, evict, bs, front), es[|es| - 1]).buckets
            && Monotone(clock, front) && EndTime(clock, front) <= es[|es| - 1].now == EndTime(clock, es)
    decreases |es|
  {
    hide Step;
    var front := es[..|es| - 1];
    if |es| == 1 {
      assert front == [] && es[1..] == [];
    } else {
      RunLast(c, evict, Step(c, evict, bs, es[0]).buckets, es[1..], es[0].now);
      assert es[1..][..|es| - 2] == front[1..];
    }
  }

  /** A kept bucket was last seen at the latest request of its key; without one, that request is over five minutes old. */
  ghost predicate SeenLast(bs: Buckets, es: seq<Event>, key: Key, now: Time) {
    match LastRequest(es, key)
    case None => key !in bs
    case Some(t) => if key in bs then bs[key].lastSeen == t else t < now - 300.0
  }

  lemma {:induction false} RunSeenLast(c: Config, clock: Time, es: seq<Event>, key: Key)
    requires Monotone(clock, es)
    ensures SeenLast(Run(c, true, map[], es), es, key, EndTime(clock, es))
    decreases |es|
  {
    if es != [] {
      hide Refilled;
      RunLast(c, true, map[], es, clock);
      RunSeenLast(c, clock, es[..|es| - 1], key);
    }
  }

  /** In every run, a sweep leaves exactly the keys with a bucket that had a request within the last five minutes; any
      other key is answered as one that was never seen, with a full burst. */
  lemma SweepLaw(c: Config, clock: Time, es: seq<Event>, i: nat, key: Key, later: Time)
    requires Monotone(clock, es) && i < |es| && es[i].Sweep?
    ensures var swept := Run(c, true, map[], es[..i + 1]);
            var recent := exists j :: 0 <= j < i && es[j].Allow? && es[j].key == key && es[j].now >= es[i].now - 300.0;
            && (key in swept <==> recent)
            && (!recent ==> Step(c, true, swept, Event.Remaining(key, later)).answer == Tokens(c.burst))
            && (!recent ==> Step(c, true, swept, Allow(key, later)).answer == Verdict(c.burst >= 1))
  {
    var before, upto := es[..i], es[..i + 1];
    assert upto[..|upto| - 1] == before;
    MonotonePrefix(clock, es, i + 1);
    RunLast(c, true, map[], upto, clock);
    RunSeenLast(c, clock, before, key);
    LastRequestIsLatest(before, clock, key);
    TruncateInt(c.burst);
    assert forall j | 0 <= j < i :: before[j] == es[j];
  }

  lemma {:induction false} MonotonePrefix(clock: Time, es: seq<Event>, i: nat)
    requires Monotone(clock, es) && i <= |es|
    ensures Monotone(clock, es[..i])
    decreases i
  {
    if i > 0 {
      MonotonePrefix(es[0].now, es[1..], i - 1);
      assert es[..i][1..] == es[1..][..i - 1];
    }
  }

  lemma {:induction false} LastRequestIsLatest(es: seq<Event>, clock: Time, key: Key)
    requires Monotone(clock, es)
    ensures match LastRequest(es, key)
            case None => forall j | 0 <= j < |es| :: !(es[j].Allow? && es[j].key == key)
            case Some(t) => (exists j :: 0 <= j < |es| && es[j] == Allow(key, t))
                            && forall j | 0 <= j < |es| && es[j].Allow? && es[j].key == key :: es[j].now <= t
    ensures forall j | 0 <= j < |es| :: es[j].now <= EndTime(clock, es)
    decreases |es|
  {
    if es != [] {
      var front, last := es[..|es| - 1], es[|es| - 1];
      RunLast(Config(0.0, 0), true, map[], es, clock);
      LastRequestIsLatest(front, clock, key);
      assert forall j | 0 <= j < |front| :: front[j] == es[j];
      assert es[|es| - 1] == last;
    }
  }

  // ---------- The laws for the real limiter ----------

  predicate NoSweeps(es: seq<Event>) {
    forall i | 0 <= i < |es| :: !es[i].Sweep?
  }

  lemma {:induction false} NoSweepsNoEviction(c: Config, bs: Buckets, es: seq<Event>)
    requires NoSweeps(es)
    ensures Answers(c, true, bs, es) == Answers(c, false, bs, es)
    decreases |es|
  {
    if es != [] {
      assert !es[0].Sweep?;
      NoSweepsNoEviction(c, Step(c, true, bs, es[0]).buckets, es[1..]);
    }
  }

  /** The admissions of `key` since its bucket was last evicted, given those at the start. */
  function AdmittedSinceEviction(c: Config, bs: Buckets, es: seq<Event>, key: Key, adm: seq<Time>): seq<Time>
    decreases |es|
  {
    if es == [] then adm
    else var o := Step(c, true, bs, es[0]);
         AdmittedSinceEviction(c, o.buckets, es[1..], key,
                               if Evicted(c, bs, es[0], key) then [] else adm + AdmittedBy(es[0], o.answer, key))
  }

  /** An evicted bucket is as good as full, so it starts over with no admissions. */
  lemma EvictingStepTracks(c: Config, bs: Buckets, e: Event, key: Key, clock: Time, adm: seq<Time>)
    requires c.rate >= 0.0 && clock <= e.now && Tracks(c, bs, key, clock, adm)
    ensures var o := Step(c, true, bs, e);
            Tracks(c, o.buckets, key, e.now,
                   if Evicted(c, bs, e, key) then [] else adm + AdmittedBy(e, o.answer, key))
  {
    hide Gain, Budget, Refilled;
    if e.Sweep? {
      assert adm + [] == adm;
      if Evicted(c, bs, e, key) {
        EvictedTracksNothing(c, Swept(bs, e.now), key, e.now);
      } else {
        forall t: Time | t >= e.now
          ensures Level(c, Swept(bs, e.now), key, t) == Budget(c, adm, t)
        {
          assert Level(c, bs, key, t) == Budget(c, adm, t);
        }
      }
    } else {
      StepTracks(c, bs, e, key, clock, adm);
    }
  }

  lemma EvictedTracksNothing(c: Config, bs: Buckets, key: Key, clock: Time)
    requires key !in bs
    ensures Tracks(c, bs, key, clock, [])
  {
  }

  lemma {:induction false} EvictingRunTracks(
    c: Config, bs: Buckets, es: seq<Event>, key: Key, clock: Time, adm: seq<Time>)
    requires c.rate >= 0.0 && Monotone(clock, es) && Tracks(c, bs, key, clock, adm)
    ensures Tracks(c, Run(c, true, bs, es), key, EndTime(clock, es), AdmittedSinceEviction(c, bs, es, key, adm))
    decreases |es|
  {
    hide Tracks, Step, AdmittedBy, Evicted;
    if es != [] {
      var o := Step(c, true, bs, es[0]);
      EvictingStepTracks(c, bs, es[0], key, clock, adm);
      EvictingRunTracks(c, o.buckets, es[1..], key, es[0].now,
                        if Evicted(c, bs, es[0], key) then [] else adm + AdmittedBy(es[0], o.answer, key));
    }
  }

  /** The exact admission law, for every run with any sweeps and every configuration: a request is admitted
      exactly when, counting the requests of its key admitted since its bucket was last evicted, each window
      ending at it holds at most burst + rate * length of them. */
  lemma AdmissionLaw(c: Config, clock: Time, es: seq<Event>, i: nat)
    requires c.rate >= 0.0 && Monotone(clock, es)
    requires i < |es| && es[i].Allow?
    ensures Answers(c, true, map[], es)[i] == Verdict(true)
            <==> Conforms(c, AdmittedSinceEviction(c, map[], es[..i], es[i].key, []), es[i].now)
  {
    hide Step, Tracks, Conforms, AdmittedSinceEviction;
    var key, now := es[i].key, es[i].now;
    var adm := AdmittedSinceEviction(c, map[], es[..i], key, []);
    var bs := Run(c, true, map[], es[..i]);
    AnswerAt(c, true, map[], clock, es, i);
    TracksFromEmpty(c, key, clock);
    EvictingRunTracks(c, map[], es[..i], key, clock, []);
    TracksLater(c, bs, key, EndTime(clock, es[..i]), now, adm);
    VerdictFromBudget(c, true, bs, key, now, adm);
  }

  lemma {:induction false} UnevictedRemembersAll(c: Config, bs: Buckets, es: seq<Event>, key: Key, adm: seq<Time>)
    requires Evictions(c, bs, es, key) == 0
    ensures AdmittedSinceEviction(c, bs, es, key, adm) == adm + AdmittedTimes(es, Answers(c, true, bs, es), key)
    decreases |es|
  {
    hide AdmittedBy, Step;
    if es == [] {
      assert adm + [] == adm;
    } else {
      var o := Step(c, true, bs, es[0]);
      var first := AdmittedBy(es[0], o.answer, key);
      UnevictedRemembersAll(c, o.buckets, es[1..], key, adm + first);
      var answers := Answers(c, true, bs, es);
      var rest := AdmittedTimes(es[1..], Answers(c, true, o.buckets, es[1..]), key);
      assert answers[1..] == Answers(c, true, o.buckets, es[1..]);
      assert adm + first + rest == adm + (first + rest);
    }
  }

  /** The request at `i` is admitted exactly when every window conforms, counting all admissions of its key so far. */
  ghost predicate AdmittedByAll(c: Config, es: seq<Event>, i: nat)
    requires i < |es| && es[i].Allow?
  {
    var answers := Answers(c, true, map[], es);
    answers[i] == Verdict(true) <==> Conforms(c, AdmittedTimes(es[..i], answers[..i], es[i].key), es[i].now)
  }

  /** As long as the key was not evicted, all its admissions count. */
  lemma UnevictedAdmissionLaw(c: Config, clock: Time, es: seq<Event>, i: nat)
    requires c.rate >= 0.0 && Monotone(clock, es)
    requires i < |es| && es[i].Allow? && Evictions(c, map[], es[..i], es[i].key) == 0
    ensures AdmittedByAll(c, es, i)
  {
    hide Conforms, AdmittedTimes, AdmittedSinceEviction, Evictions, Step;
    AdmissionLaw(c, clock, es, i);
    AnswerAt(c, true, map[], clock, es, i);
    UnevictedRemembersAll(c, map[], es[..i], es[i].key, []);
    var all := AdmittedTimes(es[..i], Answers(c, true, map[], es[..i]), es[i].key);
    assert [] + all == all;
  }

  /** The law that counts all admissions, at every request of a run. */
  ghost predicate AllAdmissionsCount(c: Config, es: seq<Event>) {
    forall i | 0 <= i < |es| && es[i].Allow? :: AdmittedByAll(c, es, i)
  }

  /** Counting all admissions leaves only one way to answer: that of the limiter that never evicts. */
  lemma {:induction false} CountingAllIsKeeping(c: Config, clock: Time, es: seq<Event>, i: nat)
    requires c.rate >= 0.0 && Monotone(clock, es) && i <= |es|
    requires AllAdmissionsCount(c, es) && forall k | 0 <= k < |es| :: !es[k].Remaining?
    ensures Answers(c, true, map[], es)[..i] == Answers(c, false, map[], es)[..i]
  {
    hide Conforms, AdmittedTimes, Run;
    if i > 0 {
      var k := i - 1;
      CountingAllIsKeeping(c, clock, es, k);
      AnswerAt(c, true, map[], clock, es, k);
      AnswerAt(c, false, map[], clock, es, k);
      if es[k].Allow? {
        assert AdmittedByAll(c, es, k);
        KeptAdmissionLaw(c, clock, es, k);
      }
      var evicting, keeping := Answers(c, true, map[], es), Answers(c, false, map[], es);
      assert evicting[..i] == evicting[..k] + [evicting[k]] && keeping[..i] == keeping[..k] + [keeping[k]];
    }
  }

  lemma {:induction false} VolleyIsRequests(key: Key, now: Time, n: nat)
    ensures |Volley(key, now, n)| == n && forall k | 0 <= k < n :: Volley(key, now, n)[k] == Allow(key, now)
  {
    if n > 0 {
      VolleyIsRequests(key, now, n - 1);
    }
  }

  lemma {:induction false} VolleyAtOnce(key: Key, now: Time, n: nat)
    ensures Monotone(now, Volley(key, now, n))
  {
    if n > 0 {
      VolleyAtOnce(key, now, n - 1);
      assert Volley(key, now, n)[1..] == Volley(key, now, n - 1);
    }
  }

  /** Whether or not the limiter evicts, a volley is granted what Remaining would have reported. */
  lemma VolleyGrants(c: Config, evict: bool, bs: Buckets, key: Key, now: Time, n: nat)
    ensures var reported := Truncate(Level(c, bs, key, now));
            Grants(Answers(c, evict, bs, Volley(key, now, n))) == if n <= reported then n else Max(reported, 0)
  {
    VolleyIsRequests(key, now, n);
    NoSweepsNoEviction(c, bs, Volley(key, now, n));
    RemainingTruthful(c, bs, key, now, n);
  }

  lemma SecondVolleyTells(c: Config, drained: Buckets, t: Time)
    requires c.rate >= 0.0 && c.burst > 0
    requires drained == map["k" := Bucket(0.0, 0.0)] && t > IDLE_SECONDS && t * c.rate < c.burst as real
    ensures var rest := [Sweep(t)] + Volley("k", t, c.burst);
            Answers(c, true, drained, rest) != Answers(c, false, drained, rest)
  {
    hide Gain;
    var volley := Volley("k", t, c.burst);
    var rest := [Sweep(t)] + volley;
    assert rest[1..] == volley;
    assert Swept(drained, t) == map[];
    TruncateInt(c.burst);
    VolleyGrants(c, true, map[], "k", t, c.burst);
    VolleyGrants(c, false, drained, "k", t, c.burst);
    SlowRefill(c, t);
    assert Answers(c, true, drained, rest)[1..] == Answers(c, true, map[], volley);
    assert Answers(c, false, drained, rest)[1..] == Answers(c, false, drained, volley);
  }

  lemma SlowRefill(c: Config, t: Time)
    requires c.rate >= 0.0 && c.burst > 0 && t > IDLE_SECONDS && t * c.rate < c.burst as real
    ensures 0 <= Truncate(Refilled(c, Bucket(0.0, 0.0), t)) < c.burst
  {
    GainNonNegative(c, 0.0, t);
  }

  /** Drain a bucket, have it swept at `t`, and ask for a full burst again. */
  function TwoBursts(burst: nat, t: Time): seq<Event> {
    Volley("k", 0.0, burst) + ([Sweep(t)] + Volley("k", t, burst))
  }

  lemma TwoBurstsInOrder(burst: nat, t: Time)
    requires t >= 0.0
    ensures Monotone(0.0, TwoBursts(burst, t))
    ensures forall k | 0 <= k < |TwoBursts(burst, t)| :: !TwoBursts(burst, t)[k].Remaining?
  {
    var rest := [Sweep(t)] + Volley("k", t, burst);
    VolleyAtOnce("k", t, burst);
    assert rest[1..] == Volley("k", t, burst);
    VolleyMonotone("k", burst, rest);
    VolleyIsRequests("k", 0.0, burst);
    VolleyIsRequests("k", t, burst);
  }

  lemma TwoBurstsTell(c: Config, t: Time)
    requires c.rate >= 0.0 && c.burst > 0 && t > IDLE_SECONDS && t * c.rate < c.burst as real
    ensures !SweepsUnnoticed(c, TwoBursts(c.burst, t))
  {
    hide Step;
    var rest := [Sweep(t)] + Volley("k", t, c.burst);
    DrainedThen(c, true, rest);
    DrainedThen(c, false, rest);
    SecondVolleyTells(c, map["k" := Bucket(0.0, 0.0)], t);
  }

  /** A run in which counting all admissions gives a wrong answer. */
  lemma EvictionForgetsAdmissions(c: Config) returns (es: seq<Event>)
    requires c.rate >= 0.0 && !RefillsWhileIdle(c)
    ensures Monotone(0.0, es) && !AllAdmissionsCount(c, es)
  {
    var t := StarvedInstant(c);
    BurstPositive(c);
    es := TwoBursts(c.burst, t);
    TwoBurstsInOrder(c.burst, t);
    TwoBurstsTell(c, t);
    hide Volley, Step, TwoBursts, AllAdmissionsCount;
    if AllAdmissionsCount(c, es) {
      CountingAllIsKeeping(c, 0.0, es, |es|);
    }
  }

  /** Counting all admissions is right for every run exactly when a bucket refills within the idle limit. */
  lemma AllAdmissionsCountIff(c: Config)
    requires c.rate >= 0.0
    ensures (forall es: seq<Event> | InTimeOrder(es) :: AllAdmissionsCount(c, es))
            <==> 300.0 * c.rate >= c.burst as real
  {
    if RefillsWhileIdle(c) {
      forall es: seq<Event>, i: nat | InTimeOrder(es) && i < |es| && es[i].Allow?
        ensures AdmittedByAll(c, es, i)
      {
        hide Conforms, AdmittedTimes;
        RunsMatch(c, map[], map[], es, es[0].now);
        KeptAdmissionLaw(c, es[0].now, es, i);
      }
    } else {
      var es := EvictionForgetsAdmissions(c);
      assert InTimeOrder(es) && !AllAdmissionsCount(c, es);
    }
  }

  function Max(a: int, b: int): int { if a >= b then a else b }

  lemma LevelNonNegative(c: Config, bs: Buckets, key: Key, clock: Time)
    requires c.rate >= 0.0 && c.burst >= 0 && Sane(c, bs, clock)
    ensures Level(c, bs, key, clock) >= 0.0
  {
    hide Gain;
    if key in bs {
      GainNonNegative(c, bs[key].lastSeen, clock);
    }
  }

  function Gains(c: Config, clock: Time, es: seq<Event>): real
    decreases |es|
  {
    if es == [] then 0.0 else Gain(c, clock, es[0].now) + Gains(c, es[0].now, es[1..])
  }

  lemma {:induction false} GainsAddUp(c: Config, clock: Time, es: seq<Event>)
    ensures Gains(c, clock, es) == Gain(c, clock, EndTime(clock, es))
    decreases |es|
  {
    hide Gain;
    if es == [] {
      GainNothing(c, clock);
    } else {
      GainsAddUp(c, es[0].now, es[1..]);
      GainAdds(c, clock, es[0].now, EndTime(clock, es));
    }
  }

  /** What evictions of `key` give away: a full bucket each. */
  function Given(c: Config, bs: Buckets, es: seq<Event>, key: Key): (g: int)
    ensures g == c.burst * Evictions(c, bs, es, key)
    decreases |es|
  {
    if es == [] then 0
    else (if Evicted(c, bs, es[0], key) then c.burst else 0) + Given(c, Step(c, true, bs, es[0]).buckets, es[1..], key)
  }

  /** `admitted` requests and the tokens left are covered by the tokens at the start, `given` and `gain`. */
  predicate Covered(admitted: nat, left: real, start: real, given: int, gain: real) {
    admitted as real + left <= start + given as real + gain
  }

  /** Tokens are conserved: what a run admits plus what it leaves is covered by what it started with,
      what time refilled and what evictions gave away. */
  lemma {:induction false} TokenLedger(c: Config, bs: Buckets, es: seq<Event>, key: Key, clock: Time)
    requires c.rate >= 0.0 && c.burst >= 0 && Monotone(clock, es) && Sane(c, bs, clock)
    ensures Covered(|AdmittedTimes(es, Answers(c, true, bs, es), key)|,
                    Level(c, Run(c, true, bs, es), key, EndTime(clock, es)), Level(c, bs, key, clock),
                    Given(c, bs, es, key), Gains(c, clock, es))
    decreases |es|
  {
    hide Gain;
    if es != [] {
      var e := es[0];
      var o := Step(c, true, bs, e);
      StepSane(c, true, bs, e, clock);
      LedgerStep(c, bs, e, key, clock);
      TokenLedger(c, o.buckets, es[1..], key, e.now);
      assert Answers(c, true, bs, es)[1..] == Answers(c, true, o.buckets, es[1..]);
    }
  }

  lemma LedgerStep(c: Config, bs: Buckets, e: Event, key: Key, clock: Time)
    requires c.rate >= 0.0 && c.burst >= 0 && clock <= e.now && Sane(c, bs, clock)
    ensures var o := Step(c, true, bs, e);
            Covered(|AdmittedBy(e, o.answer, key)|, Level(c, o.buckets, key, e.now), Level(c, bs, key, clock),
                    if Evicted(c, bs, e, key) then c.burst else 0, Gain(c, clock, e.now))
  {
    hide Gain;
    GainNonNegative(c, clock, e.now);
    LevelNonNegative(c, bs, key, clock);
    if key in bs {
      GainAdds(c, bs[key].lastSeen, clock, e.now);
    }
    if e.Allow? && e.key == key {
      NoTimeNoRefill(c, Step(c, true, bs, e).buckets[key]);
    }
  }

  lemma {:induction false} NothingWithoutBurst(c: Config, bs: Buckets, es: seq<Event>, key: Key)
    requires c.burst < 1
    ensures AdmittedTimes(es, Answers(c, true, bs, es), key) == []
    decreases |es|
  {
    hide Gain;
    if es != [] {
      var o := Step(c, true, bs, es[0]);
      NothingWithoutBurst(c, o.buckets, es[1..], key);
      assert Answers(c, true, bs, es)[1..] == Answers(c, true, o.buckets, es[1..]);
    }
  }

  /** Whatever the rate, a window of a run admits at most burst * (1 + evictions in it) + rate * length. */
  lemma EvictionBound(c: Config, clock: Time, before: seq<Event>, window: seq<Event>, key: Key)
    requires c.rate >= 0.0 && Monotone(clock, before) && window != []
    requires Monotone(EndTime(clock, before), window)
    ensures var bs := Run(c, true, map[], before);
            |AdmittedTimes(window, Answers(c, true, bs, window), key)| as real
            <= (Max(c.burst, 0) * (1 + Evictions(c, bs, window, key))) as real
               + Gain(c, window[0].now, EndTime(clock, window))
  {
    hide Gain;
    var bs, s := Run(c, true, map[], before), window[0].now;
    RunSane(c, true, map[], before, clock);
    if c.burst < 1 {
      NothingWithoutBurst(c, bs, window, key);
      EndNotBefore(s, window);
      GainNonNegative(c, s, EndTime(s, window));
    } else {
      assert Monotone(s, window) && Sane(c, bs, s);
      TokenLedger(c, bs, window, key, s);
      RunSane(c, true, bs, window, s);
      LevelNonNegative(c, Run(c, true, bs, window), key, EndTime(s, window));
      GainsAddUp(c, s, window);
      assert c.burst * (1 + Evictions(c, bs, window, key)) == c.burst + Given(c, bs, window, key);
    }
  }

  lemma {:induction false} EndNotBefore(clock: Time, es: seq<Event>)
    requires Monotone(clock, es)
    ensures clock <= EndTime(clock, es)
    decreases |es|
  {
    if es != [] {
      EndNotBefore(es[0].now, es[1..]);
    }
  }

  // ---------- Remaining is truthful and harmless ----------

  function Grants(answers: seq<Answer>): nat {
    if answers == [] then 0 else (if answers[0] == Verdict(true) then 1 else 0) + Grants(answers[1..])
  }

  /** What Remaining reports is the number of immediate requests that would succeed, out of any `n` tried. */
  lemma {:induction false} RemainingTruthful(c: Config, bs: Buckets, key: Key, now: Time, n: nat)
    ensures var reported := Step(c, true, bs, Event.Remaining(key, now)).answer.count;
            Grants(Answers(c, true, bs, Volley(key, now, n))) == if n <= reported then n else Max(reported, 0)
    decreases n
  {
    hide Gain;
    if n > 0 {
      var o := Step(c, true, bs, Allow(key, now));
      var level := Level(c, bs, key, now);
      assert Volley(key, now, n)[1..] == Volley(key, now, n - 1);
      RemainingTruthful(c, o.buckets, key, now, n - 1);
      NoTimeNoRefill(c, o.buckets[key]);
      assert Level(c, o.buckets, key, now) == if level < 1.0 then level else level - 1.0;
      var answers := Answers(c, true, bs, Volley(key, now, n));
      assert answers[1..] == Answers(c, true, o.buckets, Volley(key, now, n - 1));
    }
  }

  /** The answers given to the events of one key. */
  function AnswersTo(es: seq<Event>, answers: seq<Answer>, key: Key): seq<Answer>
    requires |es| == |answers|
    decreases |es|
  {
    if es == [] then []
    else (if !es[0].Sweep? && es[0].key == key then [answers[0]] else []) + AnswersTo(es[1..], answers[1..], key)
  }

  ghost predicate SameLevels(c: Config, left: Buckets, right: Buckets, key: Key, clock: Time) {
    forall t: Time | t >= clock :: Level(c, left, key, t) == Level(c, right, key, t)
  }

  lemma {:induction false} UnadmittedKeepsLevels(c: Config, bs: Buckets, es: seq<Event>, key: Key, clock: Time)
    requires c.rate >= 0.0 && Monotone(clock, es) && NoSweeps(es)
    requires AdmittedTimes(es, Answers(c, true, bs, es), key) == []
    ensures SameLevels(c, bs, Run(c, true, bs, es), key, EndTime(clock, es))
    decreases |es|
  {
    hide Gain;
    if es != [] {
      var e := es[0];
      var o := Step(c, true, bs, e);
      assert !e.Sweep?;
      assert Answers(c, true, bs, es)[1..] == Answers(c, true, o.buckets, es[1..]);
      assert AdmittedBy(e, o.answer, key) == [];
      UnadmittedKeepsLevels(c, o.buckets, es[1..], key, e.now);
      EndNotBefore(e.now, es[1..]);
      forall t: Time | t >= EndTime(clock, es)
        ensures Level(c, bs, key, t) == Level(c, Run(c, true, bs, es), key, t)
      {
        if e.Allow? && e.key == key {
          if key in bs {
            RefillComposes(c, bs[key], e.now, t);
          } else {
            FullStaysFull(c, e.now, t);
          }
        }
        assert Level(c, bs, key, t) == Level(c, o.buckets, key, t);
      }
    }
  }

  lemma {:induction false} SameLevelsSameAnswers(
    c: Config, left: Buckets, right: Buckets, es: seq<Event>, key: Key, clock: Time)
    requires c.rate >= 0.0 && Monotone(clock, es) && NoSweeps(es) && SameLevels(c, left, right, key, clock)
    ensures AnswersTo(es, Answers(c, true, left, es), key) == AnswersTo(es, Answers(c, true, right, es), key)
    decreases |es|
  {
    hide Gain;
    if es != [] {
      var e := es[0];
      assert !e.Sweep?;
      var l, r := Step(c, true, left, e), Step(c, true, right, e);
      assert Level(c, left, key, e.now) == Level(c, right, key, e.now);
      forall t: Time | t >= e.now
        ensures Level(c, l.buckets, key, t) == Level(c, r.buckets, key, t)
      {
        assert Level(c, left, key, t) == Level(c, right, key, t);
      }
      SameLevelsSameAnswers(c, l.buckets, r.buckets, es[1..], key, e.now);
      assert Answers(c, true, left, es)[1..] == Answers(c, true, l.buckets, es[1..]);
      assert Answers(c, true, right, es)[1..] == Answers(c, true, r.buckets, es[1..]);
    }
  }

  /** Inserting anything that admits no request of `key` (queries, refused requests, traffic of other
      keys) anywhere into a sweep-free run changes no later answer for `key`. */
  lemma OtherTrafficHarmless(c: Config, clock: Time, before: seq<Event>, inserted: seq<Event>, after: seq<Event>, key: Key)
    requires c.rate >= 0.0 && NoSweeps(inserted) && NoSweeps(after)
    requires Monotone(clock, before) && Monotone(EndTime(clock, before), inserted)
    requires Monotone(EndTime(EndTime(clock, before), inserted), after)
    requires AdmittedTimes(inserted, Answers(c, true, Run(c, true, map[], before), inserted), key) == []
    ensures var without := Run(c, true, map[], before);
            var with := Run(c, true, without, inserted);
            AnswersTo(after, Answers(c, true, without, after), key) == AnswersTo(after, Answers(c, true, with, after), key)
  {
    var without := Run(c, true, map[], before);
    UnadmittedKeepsLevels(c, without, inserted, key, EndTime(clock, before));
    SameLevelsSameAnswers(c, without, Run(c, true, without, inserted), after, key,
                          EndTime(EndTime(clock, before), inserted));
  }
}
