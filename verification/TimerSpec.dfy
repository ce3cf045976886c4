/** The timers as values: what a tick of the one-second alarm does to them, and when each is
    called over a whole run. */
module TimerSpec {
  import opened Maybes

  /** A timer; its tag says how many had been added before it. */
  datatype Timer = Timer(tag: nat, id: int, period: int, nextcall: int, times: nat, call: nat, arg: int)

  datatype Call = Call(tag: nat, at: int, call: nat, arg: int)

  /** What a timer was added with, and when. */
  datatype Birth = Birth(born: int, period: int, count: nat)

  datatype State = State(now: int, timers: seq<Timer>, births: seq<Birth>, cut: set<nat>, log: seq<Call>)

  datatype Event = Tick | Add(period: int, times: int, call: nat, arg: int) | Del(id: int)

  const FOREVER: nat := 0xffff_ffff    // (unsigned) -1, for a timer without a number of calls
  const TIMERID: int := 0              // timer_count, which is never advanced

  predicate Due(t: Timer, now: int) {
    t.times != 0 && now >= t.nextcall
  }

  function Advance(t: Timer, now: int): Timer {
    if Due(t, now) then t.(nextcall := t.nextcall + t.period, times := t.times - 1) else t
  }

  /** The timers that are kept at a tick: all but those without calls left. */
  function Survivors(ts: seq<Timer>, now: int): seq<Timer> {
    if ts == [] then []
    else
      var t := ts[|ts| - 1];
      Survivors(ts[..|ts| - 1], now) + if t.times == 0 then [] else [Advance(t, now)]
  }

  function Calls(ts: seq<Timer>, now: int): seq<Call> {
    if ts == [] then []
    else
      var t := ts[|ts| - 1];
      Calls(ts[..|ts| - 1], now) + if Due(t, now) then [Call(t.tag, now, t.call, t.arg)] else []
  }

  function FirstWith(ts: seq<Timer>, id: int): (i: nat)
    ensures i <= |ts| && (i < |ts| ==> ts[i].id == id)
    ensures forall j :: 0 <= j < i ==> ts[j].id != id
  {
    if ts == [] then 0
    else
      var i := FirstWith(ts[..|ts| - 1], id);
      if i < |ts| - 1 then i else if ts[i].id == id then i else |ts|
  }

  predicate Acceptable(e: Event) {
    e.Add? && e.period > 0 && e.call != 0 && e.times >= 0
  }

  function Step(s: State, e: Event): State {
    match e
    case Tick =>
      var now := s.now + 1;
      s.(now := now, timers := Survivors(s.timers, now), log := s.log + Calls(s.timers, now))
    case Add(period, times, call, arg) =>
      if !Acceptable(e) then s
      else
        var count := if times == 0 then FOREVER else times;
        s.(timers := s.timers + [Timer(|s.births|, TIMERID, period, s.now + period, count, call, arg)],
           births := s.births + [Birth(s.now, period, count)])
    case Del(id) =>
      var i := FirstWith(s.timers, id);
      if i == |s.timers| then s
      else s.(timers := s.timers[i := s.timers[i].(times := 0)], cut := s.cut + {s.timers[i].tag})
  }

  function Run(now: int, events: seq<Event>): State {
    if events == [] then State(now, [], [], {}, [])
    else Step(Run(now, events[..|events| - 1]), events[|events| - 1])
  }

  // ----- when a timer is called -----

  /** How often a timer with this birth has been called by `now`. */
  function Fired(b: Birth, now: int): nat
    requires b.born <= now && b.period > 0
  {
    var rounds: nat := (now - b.born) / b.period;
    if rounds < b.count then rounds else b.count
  }

  /** The moments at which the log has calls of a timer. */
  function CallsOf(log: seq<Call>, tag: nat): seq<int> {
    if log == [] then []
    else CallsOf(log[..|log| - 1], tag) + if log[|log| - 1].tag == tag then [log[|log| - 1].at] else []
  }

  /** born + period, born + 2 * period, and so on, m of them. */
  function Multiples(born: int, period: int, m: nat): (r: seq<int>)
    ensures |r| == m && forall k :: 0 <= k < m ==> r[k] == born + (k + 1) * period
  {
    seq(m, k requires 0 <= k < m => born + (k + 1) * period)
  }

  /** A timer that has not been deleted: its remaining calls and the moment of the next. */
  predicate OnTime(t: Timer, b: Birth, now: int)
    requires b.born <= now && b.period > 0
  {
    && t.period == b.period
    && t.times == b.count - Fired(b, now)
    && t.nextcall == b.born + (Fired(b, now) + 1) * b.period
  }

  /** The timer with a given tag, if it is still in the list. */
  function Find(ts: seq<Timer>, q: nat): Maybe<Timer> {
    if ts == [] then None
    else if ts[|ts| - 1].tag == q then Some(ts[|ts| - 1])
    else Find(ts[..|ts| - 1], q)
  }

  ghost predicate Rising(ts: seq<Timer>) {
    forall i, j :: 0 <= i < j < |ts| ==> ts[i].tag < ts[j].tag
  }

  ghost predicate Ordered(s: State) {
    && Rising(s.timers)
    && (forall i :: 0 <= i < |s.timers| ==> s.timers[i].tag < |s.births| && s.timers[i].id == TIMERID)
    && (forall q :: 0 <= q < |s.births| ==>
          s.births[q].born <= s.now && s.births[q].period > 0 && s.births[q].count > 0)
    && (forall c :: c in s.log ==> c.tag < |s.births|)
    && (forall q :: q in s.cut ==> q < |s.births|)
    && (forall i :: 0 <= i < |s.timers| && s.timers[i].tag in s.cut ==> s.timers[i].times == 0)
  }

  /** A timer has been called at its due moments so far, and is kept up to the second in
      which it makes its last call. */
  ghost predicate Exact(ts: seq<Timer>, log: seq<Call>, b: Birth, now: int, q: nat)
    requires b.born <= now && b.period > 0
  {
    && CallsOf(log, q) == Multiples(b.born, b.period, Fired(b, now))
    && match Find(ts, q)
       case None => now > b.born + b.count * b.period
       case Some(t) => OnTime(t, b, now) && now <= b.born + b.count * b.period
  }

  ghost predicate ExactIn(s: State, q: nat)
    requires Ordered(s) && q < |s.births|
  {
    Exact(s.timers, s.log, s.births[q], s.now, q)
  }

  ghost predicate Inv(s: State) {
    Ordered(s) && forall q :: 0 <= q < |s.births| && q !in s.cut ==> ExactIn(s, q)
  }

  // ----- one tick, one timer -----

  lemma MulLe(x: int, y: int, p: int)
    requires x <= y && p >= 0
    ensures x * p <= y * p
  {
    assert (y - x) * p >= 0;
    assert y * p == x * p + (y - x) * p;
  }

  /** The number of calls by its bounds. */
  lemma FiredBounds(b: Birth, now: int)
    requires b.born <= now && b.period > 0
    ensures var f := Fired(b, now);
      && f <= b.count && f * b.period <= now - b.born
      && (f == b.count || now - b.born < (f + 1) * b.period)
  {
    var r := (now - b.born) / b.period;
    assert r * b.period <= now - b.born < r * b.period + b.period;
    if r >= b.count { MulLe(b.count, r, b.period); }
    assert (r + 1) * b.period == r * b.period + b.period;
  }

  lemma FiredIs(b: Birth, now: int, m: nat)
    requires b.born <= now && b.period > 0
    requires m <= b.count && m * b.period <= now - b.born
    requires m == b.count || now - b.born < (m + 1) * b.period
    ensures Fired(b, now) == m
  {
    FiredBounds(b, now);
    var f := Fired(b, now);
    if f < m { MulLe(f + 1, m, b.period); }
    if m < f { MulLe(m + 1, f, b.period); }
  }

  /** The arithmetic of a second. */
  lemma Second(b: Birth, now: int)
    requires b.born <= now && b.period > 0 && b.count > 0
    ensures var f, g := Fired(b, now), Fired(b, now + 1);
      && g == f + (if f < b.count && now + 1 >= b.born + (f + 1) * b.period then 1 else 0)
      && (g == f + 1 ==> now + 1 == b.born + g * b.period)
      && (f == b.count <==> now >= b.born + b.count * b.period)
  {
    var f := Fired(b, now);
    FiredBounds(b, now);
    if f < b.count && now + 1 >= b.born + (f + 1) * b.period {
      MulLe(f + 1, f + 2, b.period);
      assert (f + 2) * b.period == (f + 1) * b.period + b.period;
      FiredIs(b, now + 1, f + 1);
    } else {
      FiredIs(b, now + 1, f);
    }
    if f < b.count { MulLe(f + 1, b.count, b.period); }
  }

  // ----- the list -----

  lemma {:induction false} FindIn(ts: seq<Timer>, q: nat)
    ensures match Find(ts, q)
      case None => forall i :: 0 <= i < |ts| ==> ts[i].tag != q
      case Some(t) => t.tag == q && exists i :: 0 <= i < |ts| && ts[i] == t
  {
    if ts != [] {
      FindIn(ts[..|ts| - 1], q);
      if ts[|ts| - 1].tag == q { assert ts[|ts| - 1] == Find(ts, q).value; }
    }
  }

  lemma {:induction false} CallsAppend(a: seq<Call>, b: seq<Call>, q: nat)
    ensures CallsOf(a + b, q) == CallsOf(a, q) + CallsOf(b, q)
  {
    if b == [] {
      assert a + b == a;
    } else {
      assert (a + b)[..|a + b| - 1] == a + b[..|b| - 1];
      CallsAppend(a, b[..|b| - 1], q);
    }
  }

  lemma FindLast(front: seq<Timer>, t: Timer, q: nat)
    ensures Find(front + [t], q) == if t.tag == q then Some(t) else Find(front, q)
  {
    assert (front + [t])[..|front|] == front;
  }

  lemma CallsLast(log: seq<Call>, c: Call, q: nat)
    ensures CallsOf(log + [c], q) == CallsOf(log, q) + if c.tag == q then [c.at] else []
  {
    assert (log + [c])[..|log|] == log;
  }

  /** A tick, seen from one timer: whether it is kept, and whether it is called. */
  lemma {:induction false} TickFind(ts: seq<Timer>, now: int, q: nat)
    requires Rising(ts)
    ensures Find(Survivors(ts, now), q)
      == match Find(ts, q)
         case None => None
         case Some(t) => if t.times == 0 then None else Some(Advance(t, now))
  {
    if ts != [] {
      var front, t := ts[..|ts| - 1], ts[|ts| - 1];
      TickFind(front, now, q);
      FindIn(front, q);
      FindLast(Survivors(front, now), Advance(t, now), q);
      assert t.times == 0 ==> Survivors(ts, now) == Survivors(front, now);
    }
  }

  lemma {:induction false} TickCalls(ts: seq<Timer>, now: int, q: nat)
    requires Rising(ts)
    ensures CallsOf(Calls(ts, now), q)
      == match Find(ts, q)
         case None => []
         case Some(t) => if Due(t, now) then [now] else []
  {
    if ts != [] {
      var front, t := ts[..|ts| - 1], ts[|ts| - 1];
      TickCalls(front, now, q);
      FindIn(front, q);
      CallsLast(Calls(front, now), Call(t.tag, now, t.call, t.arg), q);
      assert !Due(t, now) ==> Calls(ts, now) == Calls(front, now);
    }
  }

  /** Each timer that is kept comes from the list. */
  lemma {:induction false} TickSource(ts: seq<Timer>, now: int, i: nat) returns (j: nat)
    requires i < |Survivors(ts, now)|
    ensures j < |ts| && ts[j].times != 0 && Survivors(ts, now)[i] == Advance(ts[j], now)
  {
    var front := ts[..|ts| - 1];
    if i < |Survivors(front, now)| {
      j := TickSource(front, now, i);
    } else {
      j := |ts| - 1;
    }
  }

  /** Compaction keeps the order. */
  lemma {:induction false} TickRising(ts: seq<Timer>, now: int)
    requires Rising(ts)
    ensures Rising(Survivors(ts, now))
  {
    if ts != [] {
      var front := ts[..|ts| - 1];
      TickRising(front, now);
      var r := Survivors(front, now);
      forall i | 0 <= i < |r|
        ensures r[i].tag < ts[|ts| - 1].tag
      {
        var j := TickSource(front, now, i);
      }
    }
  }

  /** Only timers of the list are called, each with the function and argument it holds. */
  lemma {:induction false} TickCalled(ts: seq<Timer>, now: int, c: Call) returns (j: nat)
    requires c in Calls(ts, now)
    ensures j < |ts| && ts[j].tag == c.tag && ts[j].call == c.call && ts[j].arg == c.arg
  {
    var front := ts[..|ts| - 1];
    if c in Calls(front, now) {
      j := TickCalled(front, now, c);
    } else {
      j := |ts| - 1;
    }
  }

  // ----- the invariant -----

  lemma TickOrdered(s: State)
    requires Ordered(s)
    ensures Ordered(Step(s, Tick))
  {
    var t := Step(s, Tick);
    TickRising(s.timers, t.now);
    forall i | 0 <= i < |t.timers|
      ensures t.timers[i].tag < |t.births| && t.timers[i].id == TIMERID && t.timers[i].tag !in t.cut
    {
      var j := TickSource(s.timers, t.now, i);
    }
    forall c | c in Calls(s.timers, t.now)
      ensures c.tag < |t.births|
    {
      var j := TickCalled(s.timers, t.now, c);
    }
  }

  lemma TickKeeps(s: State)
    requires Inv(s)
    ensures Inv(Step(s, Tick))
  {
    var t := Step(s, Tick);
    TickOrdered(s);
    forall q | 0 <= q < |t.births| && q !in t.cut
      ensures ExactIn(t, q)
    {
      assert ExactIn(s, q);
      TickExact(s.timers, s.log, s.births[q], s.now, q);
    }
  }

  lemma MultiplesMore(born: int, period: int, m: nat)
    ensures Multiples(born, period, m + 1) == Multiples(born, period, m) + [born + (m + 1) * period]
  {
  }

  lemma TickExact(ts: seq<Timer>, log: seq<Call>, b: Birth, now: int, q: nat)
    requires Rising(ts) && b.born <= now && b.period > 0 && b.count > 0 && Exact(ts, log, b, now, q)
    ensures Exact(Survivors(ts, now + 1), log + Calls(ts, now + 1), b, now + 1, q)
  {
    TickFind(ts, now + 1, q);
    TickCalls(ts, now + 1, q);
    CallsAppend(log, Calls(ts, now + 1), q);
    Second(b, now);
    MultiplesMore(b.born, b.period, Fired(b, now));
    TickTimer(ts, b, now, q);
  }

  /** A timer on time is called when its number of calls is to grow, and is on time again. */
  lemma TickTimer(ts: seq<Timer>, b: Birth, now: int, q: nat)
    requires b.born <= now && b.period > 0 && b.count > 0
    requires match Find(ts, q)
             case None => now > b.born + b.count * b.period
             case Some(t) => OnTime(t, b, now) && now <= b.born + b.count * b.period
    ensures match Find(ts, q)
            case None => Fired(b, now + 1) == Fired(b, now)
            case Some(t) =>
              && (Due(t, now + 1) <==> Fired(b, now + 1) == Fired(b, now) + 1)
              && (t.times == 0 <==> now + 1 > b.born + b.count * b.period)
              && (t.times > 0 ==> OnTime(Advance(t, now + 1), b, now + 1))
  {
    Second(b, now);
    var f := Fired(b, now);
    assert (f + 2) * b.period == (f + 1) * b.period + b.period;
  }

  lemma {:induction false} NoCalls(log: seq<Call>, q: nat)
    requires forall c :: c in log ==> c.tag != q
    ensures CallsOf(log, q) == []
  {
    if log != [] {
      assert log[|log| - 1] in log;
      NoCalls(log[..|log| - 1], q);
    }
  }

  /** A new timer is on time, and does not disturb the others. */
  lemma AddExact(ts: seq<Timer>, log: seq<Call>, b: Birth, now: int, q: nat, t: Timer)
    requires b.born <= now && b.period > 0 && b.count > 0
    requires if q == t.tag
             then b.born == now && CallsOf(log, q) == [] && OnTime(t, b, now)
             else Exact(ts, log, b, now, q)
    ensures Exact(ts + [t], log, b, now, q)
  {
    FindLast(ts, t, q);
    if q == t.tag {
      FiredIs(b, now, 0);
      MulLe(1, b.count, b.period);
    }
  }

  lemma AddOrdered(s: State, e: Event)
    requires Ordered(s) && Acceptable(e)
    ensures Ordered(Step(s, e))
  {
  }

  lemma AddKeeps(s: State, e: Event)
    requires Inv(s) && Acceptable(e)
    ensures Inv(Step(s, e))
  {
    var t, n := Step(s, e), |s.births|;
    AddOrdered(s, e);
    NoCalls(s.log, n);
    FiredIs(t.births[n], s.now, 0);
    forall q | 0 <= q < |t.births| && q !in t.cut
      ensures ExactIn(t, q)
    {
      if q < n { assert ExactIn(s, q); }
      AddExact(s.timers, s.log, t.births[q], s.now, q, t.timers[|s.timers|]);
    }
  }

  lemma {:induction false} FindElsewhere(ts: seq<Timer>, i: nat, t: Timer, q: nat)
    requires i < |ts| && t.tag == ts[i].tag != q
    ensures Find(ts[i := t], q) == Find(ts, q)
  {
    var front := ts[..|ts| - 1];
    if i < |ts| - 1 {
      assert ts[i := t][..|ts| - 1] == front[i := t];
      FindElsewhere(front, i, t, q);
    } else {
      assert ts[i := t][..|ts| - 1] == front;
    }
  }

  lemma DelKeeps(s: State, id: int)
    requires Inv(s)
    ensures Inv(Step(s, Del(id)))
  {
    var t, i := Step(s, Del(id)), FirstWith(s.timers, id);
    if i < |s.timers| {
      forall q | 0 <= q < |t.births| && q !in t.cut
        ensures ExactIn(t, q)
      {
        assert ExactIn(s, q);
        FindElsewhere(s.timers, i, t.timers[i], q);
      }
    }
  }

  // ----- whole runs -----

  lemma {:induction false} RunKeeps(now: int, events: seq<Event>)
    ensures Inv(Run(now, events))
  {
    if events != [] {
      var s, e := Run(now, events[..|events| - 1]), events[|events| - 1];
      RunKeeps(now, events[..|events| - 1]);
      match e
      case Tick => TickKeeps(s);
      case Del(id) => DelKeeps(s, id);
      case Add(_, _, _, _) => if Acceptable(e) { AddKeeps(s, e); }
    }
  }

  /** Exactness. In every run a timer that was never deleted has been called at born + period,
      born + 2 * period and so on up to now, and no more than `count` times; it has its whole
      number of calls once that time is over, and is recycled at the tick after the last. */
  lemma TimerExact(start: int, events: seq<Event>, q: nat)
    requires q < |Run(start, events).births| && q !in Run(start, events).cut
    ensures var s := Run(start, events); var b := s.births[q];
      && b.born <= s.now && b.period > 0
      && CallsOf(s.log, q) == Multiples(b.born, b.period, Fired(b, s.now))
      && (s.now >= b.born + b.count * b.period <==> |CallsOf(s.log, q)| == b.count)
      && (Find(s.timers, q) == None <==> s.now > b.born + b.count * b.period)
  {
    RunKeeps(start, events);
    var s := Run(start, events);
    assert ExactIn(s, q);
    Second(s.births[q], s.now);
  }

  // ----- what an addition asks for -----

  /** Wherever the timer with this tag is, or has been called, it is with this function and
      argument. */
  ghost predicate Carries(s: State, q: nat, call: nat, arg: int) {
    && (forall i :: 0 <= i < |s.timers| && s.timers[i].tag == q ==> s.timers[i].call == call && s.timers[i].arg == arg)
    && (forall c :: c in s.log && c.tag == q ==> c.call == call && c.arg == arg)
  }

  lemma CarriesOn(s: State, e: Event, q: nat, call: nat, arg: int)
    requires Carries(s, q, call, arg) && q < |s.births|
    ensures Carries(Step(s, e), q, call, arg)
  {
    if e.Tick? {
      var t := Step(s, e);
      forall i | 0 <= i < |t.timers| && t.timers[i].tag == q
        ensures t.timers[i].call == call && t.timers[i].arg == arg
      {
        var j := TickSource(s.timers, t.now, i);
      }
      forall c | c in Calls(s.timers, t.now) && c.tag == q
        ensures c.call == call && c.arg == arg
      {
        var j := TickCalled(s.timers, t.now, c);
      }
    }
  }

  lemma {:induction false} CarriesLater(start: int, events: seq<Event>, later: seq<Event>, q: nat, call: nat, arg: int)
    requires q < |Run(start, events).births| && Carries(Run(start, events), q, call, arg)
    ensures Carries(Run(start, events + later), q, call, arg)
  {
    if later == [] {
      assert events + later == events;
    } else {
      var front := later[..|later| - 1];
      assert (events + later)[..|events + later| - 1] == events + front;
      CarriesLater(start, events, front, q, call, arg);
      BirthStays(start, events, front, q);
      CarriesOn(Run(start, events + front), later[|later| - 1], q, call, arg);
    }
  }

  lemma AddedAs(start: int, events: seq<Event>, e: Event, later: seq<Event>)
    requires Acceptable(e)
    ensures var was, s := Run(start, events), Run(start, events + [e] + later);
      var q, n := |was.births|, if e.times == 0 then 0xffff_ffff else e.times;
      q < |s.births| && s.births[q] == Birth(was.now, e.period, n) && Carries(s, q, e.call, e.arg)
  {
    var q := |Run(start, events).births|;
    assert (events + [e])[..|events|] == events;
    BirthStays(start, events + [e], later, q);
    RunKeeps(start, events);
    CarriesLater(start, events + [e], later, q, e.call, e.arg);
  }

  /** The calls of a timer, one for each period that has gone by since t0, up to n. */
  ghost predicate CalledAt(calls: seq<int>, t0: int, period: int, n: nat, now: int)
    requires period > 0
  {
    var rounds := (now - t0) / period;
    && |calls| == (if rounds < n then rounds else n)
    && forall k :: 0 <= k < |calls| ==> calls[k] == t0 + (k + 1) * period
  }

  lemma CalledAtIs(b: Birth, now: int)
    requires b.born <= now && b.period > 0
    ensures CalledAt(Multiples(b.born, b.period, Fired(b, now)), b.born, b.period, b.count, now)
  {
  }

  /** A timer added for n calls, or 2^32 - 1 for 0, and not deleted, is called just as often
      as periods have gone by since, up to n, each time at the end of a period and with the
      function and argument it was added with; it is recycled after the last. */
  lemma CalledAsAsked(start: int, events: seq<Event>, e: Event, later: seq<Event>)
    requires e.Add? && e.period > 0 && e.call != 0 && e.times >= 0
    ensures var was, s := Run(start, events), Run(start, events + [e] + later);
      var q, n := |was.births|, if e.times == 0 then 0xffff_ffff else e.times;
      q !in s.cut ==>
        && was.now <= s.now
        && CalledAt(CallsOf(s.log, q), was.now, e.period, n, s.now)
        && (forall c :: c in s.log && c.tag == q ==> c.call == e.call && c.arg == e.arg)
        && (Find(s.timers, q) == None <==> s.now > was.now + n * e.period)
  {
    var q, s := |Run(start, events).births|, Run(start, events + [e] + later);
    AddedAs(start, events, e, later);
    if q !in s.cut {
      TimerExact(start, events + [e] + later, q);
      CalledAtIs(s.births[q], s.now);
    }
  }

  /** An addition without a function, without a period or for less than no calls is refused. */
  lemma AddRefused(s: State, period: int, times: int, call: nat, arg: int)
    ensures Step(s, Add(period, times, call, arg)) == s <==> period <= 0 || call == 0 || times < 0
  {
  }

  /** A deletion leaves the first timer with the number without calls, and is lost if there is
      none. */
  lemma DelDoes(s: State, id: int, i: nat)
    requires i <= |s.timers| && (forall j :: 0 <= j < i ==> s.timers[j].id != id)
    requires i < |s.timers| ==> s.timers[i].id == id
    ensures var t := Step(s, Del(id));
      if i == |s.timers| then t == s
      else t == s.(timers := s.timers[i := s.timers[i].(times := 0)], cut := s.cut + {s.timers[i].tag})
  {
    assert FirstWith(s.timers, id) == i;
  }

  /** A deleted timer is never called again. */
  lemma {:induction false} DeletedSilent(start: int, events: seq<Event>, later: seq<Event>, q: nat)
    requires q in Run(start, events).cut
    ensures var s, t := Run(start, events), Run(start, events + later);
      q in t.cut && CallsOf(t.log, q) == CallsOf(s.log, q)
  {
    if later == [] {
      assert events + later == events;
    } else {
      var front := later[..|later| - 1];
      assert (events + later)[..|events + later| - 1] == events + front;
      DeletedSilent(start, events, front, q);
      RunKeeps(start, events + front);
      SilentStep(Run(start, events + front), later[|later| - 1], q);
    }
  }

  lemma CutFind(s: State, q: nat)
    requires Ordered(s) && q in s.cut
    ensures Find(s.timers, q).Some? ==> Find(s.timers, q).value.times == 0
  {
    FindIn(s.timers, q);
  }

  lemma SilentStep(s: State, e: Event, q: nat)
    requires Ordered(s) && q in s.cut
    ensures q in Step(s, e).cut && CallsOf(Step(s, e).log, q) == CallsOf(s.log, q)
  {
    if e.Tick? {
      var calls := Calls(s.timers, s.now + 1);
      CutFind(s, q);
      TickCalls(s.timers, s.now + 1, q);
      CallsAppend(s.log, calls, q);
      assert CallsOf(s.log, q) + [] == CallsOf(s.log, q);
    }
  }

  /** A timer added with 0 calls is not called for ever: it has 2^32 - 1 calls, and is
      recycled after the last. */
  lemma NotForever(start: int, events: seq<Event>, e: Event, later: seq<Event>)
    requires Acceptable(e) && e.times == 0
    ensures var q := |Run(start, events).births|; var s := Run(start, events + [e] + later);
      && q < |s.births| && s.births[q] == Birth(Run(start, events).now, e.period, FOREVER)
      && (q !in s.cut && s.now > s.births[q].born + FOREVER * e.period
          ==> |CallsOf(s.log, q)| == FOREVER && Find(s.timers, q) == None)
  {
    var q := |Run(start, events).births|;
    assert (events + [e])[..|events|] == events;
    BirthStays(start, events + [e], later, q);
    if q !in Run(start, events + [e] + later).cut { TimerExact(start, events + [e] + later, q); }
  }

  lemma {:induction false} BirthStays(start: int, events: seq<Event>, later: seq<Event>, q: nat)
    requires q < |Run(start, events).births|
    ensures var s := Run(start, events + later); q < |s.births| && s.births[q] == Run(start, events).births[q]
  {
    if later == [] {
      assert events + later == events;
    } else {
      assert (events + later)[..|events + later| - 1] == events + later[..|later| - 1];
      BirthStays(start, events, later[..|later| - 1], q);
    }
  }

  lemma DueLater(t: Timer, b: Birth, now: int)
    requires b.born <= now && b.period > 0 && OnTime(t, b, now) && t.times > 0
    ensures t.nextcall > now
  {
    FiredBounds(b, now);
  }

  /** A timer with calls left, deleted or not, is due in the future. */
  lemma NothingOverdue(start: int, events: seq<Event>, i: nat)
    requires i < |Run(start, events).timers| && Run(start, events).timers[i].times > 0
    ensures Run(start, events).timers[i].nextcall > Run(start, events).now
  {
    RunKeeps(start, events);
    var s := Run(start, events);
    var t := s.timers[i];
    FindAt(s.timers, i);
    assert ExactIn(s, t.tag);
    DueLater(t, s.births[t.tag], s.now);
  }

  lemma {:induction false} FindAt(ts: seq<Timer>, i: nat)
    requires Rising(ts) && i < |ts|
    ensures Find(ts, ts[i].tag) == Some(ts[i])
  {
    if i < |ts| - 1 { FindAt(ts[..|ts| - 1], i); }
  }

  /** Every timer has the same identifier: deleting by the identifier that an addition
      returned stops the timer just added if and only if it is the only one. */
  lemma DeletedByNumber(start: int, events: seq<Event>, e: Event)
    requires Acceptable(e)
    ensures var s := Step(Run(start, events), e); var r := Step(s, Del(TIMERID));
      var mine := s.timers[|s.timers| - 1];
      && mine.tag == |s.births| - 1
      && (mine.tag in r.cut <==> Run(start, events).timers == [])
      && r.timers[0].times == 0 && r.timers[1..] == s.timers[1..]
  {
    RunKeeps(start, events);
    AddKeeps(Run(start, events), e);
    var s := Step(Run(start, events), e);
    assert s.timers[0].id == TIMERID;
    assert FirstWith(s.timers, TIMERID) == 0;
  }

  /** Two timers are added to a fresh wheel; deleting the second by its identifier stops the
      first. */
  lemma DeletesTheOther(start: int, e: Event, f: Event)
    requires Acceptable(e) && Acceptable(f)
    ensures |Run(start, [e, f]).timers| == 2
    ensures var s := Run(start, [e, f]); var r := Step(s, Del(s.timers[1].id));
      && |r.timers| == 2 && s.timers[1].times > 0
      && r.timers[0].times == 0 && r.timers[1] == s.timers[1] && r.cut == {0}
  {
    assert [e, f][..1] == [e] && [e][..0] == [];
    assert Run(start, []) == State(start, [], [], {}, []);
    var s := Run(start, [e]);
    assert s == Step(Run(start, []), e) && |s.timers| == 1 && s.timers[0].tag == 0;
    DeletedByNumber(start, [e], f);
  }
}
