/** What an endpoint's packet queue does with the packets offered to it, as values: some go
    straight to the sender, some wait, some are lost. */
module PacketFlow {
  import opened Frames

  /** What the sender answers: 0, -EWOULDBLOCK, or another error. */
  datatype Answer = Took | Blocks | Fails

  datatype Event =
    | Offer(frame: Frame, answer: Answer, memory: bool)   // send_packet_port, for one endpoint
    | Drain(answers: seq<Answer>)                         // handle_out_packet
    | Limit(max: int)                                     // setqlen_ep_port_fd

  datatype Flow = Flow(queue: seq<Frame>, max: int, taken: seq<Frame>)

  /** How many of n packets go out before the sender first blocks. */
  function Passed(answers: seq<Answer>, n: nat): (k: nat)
    requires n <= |answers|
    ensures k <= n
    ensures forall i :: 0 <= i < k ==> answers[i] != Blocks
    ensures k < n ==> answers[k] == Blocks
  {
    if n == 0 then 0
    else
      var k := Passed(answers, n - 1);
      if k == n - 1 && answers[k] != Blocks then n else k
  }

  predicate Answered(s: Flow, e: Event) {
    e.Drain? ==> |s.queue| <= |e.answers|
  }

  function Next(s: Flow, e: Event): Flow
    requires Answered(s, e)
  {
    match e
    case Offer(f, answer, memory) =>
      if s.queue == [] && answer != Blocks then s.(taken := s.taken + [f])
      else if |s.queue| < s.max && memory then s.(queue := s.queue + [f])
      else s
    case Drain(answers) =>
      var k := Passed(answers, |s.queue|);
      s.(queue := s.queue[k..], taken := s.taken + s.queue[..k])
    case Limit(max) => s.(max := max)
  }

  /** The log has an answer for each attempt to send. */
  predicate Complete(max: int, log: seq<Event>)
    decreases |log|, 0
  {
    log == [] ||
    (Complete(max, log[..|log| - 1]) && Answered(Replay(max, log[..|log| - 1]), log[|log| - 1]))
  }

  /** The endpoint after a log of events, starting empty with a given limit. */
  function Replay(max: int, log: seq<Event>): Flow
    requires Complete(max, log)
    decreases |log|, 1
  {
    if log == [] then Flow([], max, [])
    else Next(Replay(max, log[..|log| - 1]), log[|log| - 1])
  }

  // ----- order -----

  /** Everything offered, in order. */
  function Offered(log: seq<Event>): seq<Frame> {
    if log == [] then []
    else Offered(log[..|log| - 1]) + if log[|log| - 1].Offer? then [log[|log| - 1].frame] else []
  }

  /** What the sender has been given, followed by what still waits. */
  function Line(s: Flow): seq<Frame> {
    s.taken + s.queue
  }

  /** An offered packet is lost: the sender has not been given it and it does not wait. */
  predicate Loses(s: Flow, e: Event) {
    e.Offer? && (s.queue != [] || e.answer == Blocks) && (|s.queue| >= s.max || !e.memory)
  }

  /** The positions, among the packets offered, of those that were not lost. */
  function Kept(max: int, log: seq<Event>): seq<nat>
    requires Complete(max, log)
    decreases |log|
  {
    if log == [] then []
    else
      var front, e := log[..|log| - 1], log[|log| - 1];
      Kept(max, front) +
      if e.Offer? && !Loses(Replay(max, front), e) then [|Offered(front)|] else []
  }

  function Pick(s: seq<Frame>, at: seq<nat>): (r: seq<Frame>)
    requires forall i :: 0 <= i < |at| ==> at[i] < |s|
    ensures |r| == |at| && forall i :: 0 <= i < |at| ==> r[i] == s[at[i]]
  {
    seq(|at|, i requires 0 <= i < |at| => s[at[i]])
  }

  /** A step lets nothing overtake and loses nothing but an offer that meets a full queue or
      no memory. */
  lemma StepInOrder(s: Flow, e: Event)
    requires Answered(s, e)
    ensures Line(Next(s, e)) == Line(s) + if e.Offer? && !Loses(s, e) then [e.frame] else []
  {
    if e.Drain? {
      var k := Passed(e.answers, |s.queue|);
      assert s.queue[..k] + s.queue[k..] == s.queue;
    } else if e.Offer? && !Loses(s, e) {
      assert s.queue == [] ==> s.taken + [e.frame] + s.queue == s.taken + s.queue + [e.frame];
    }
  }

  /** In every run, what the sender was given followed by what waits is the packets offered,
      in order, but for those that were lost. */
  lemma {:induction false} InOrder(max: int, log: seq<Event>)
    requires Complete(max, log)
    ensures var k := Kept(max, log);
      && (forall i :: 0 <= i < |k| ==> k[i] < |Offered(log)|)
      && (forall i, j :: 0 <= i < j < |k| ==> k[i] < k[j])
      && Line(Replay(max, log)) == Pick(Offered(log), k)
    decreases |log|
  {
    if log != [] {
      var front, e := log[..|log| - 1], log[|log| - 1];
      InOrder(max, front);
      StepInOrder(Replay(max, front), e);
      var k, all := Kept(max, log), Offered(log);
      assert Line(Replay(max, log)) == Pick(all, k);
    }
  }

  /** No overtaking: what has been given and what waits is never reordered or withdrawn. */
  lemma {:induction false} NoOvertaking(max: int, log: seq<Event>, n: nat)
    requires Complete(max, log) && n <= |log|
    ensures Complete(max, log[..n])
    ensures Line(Replay(max, log[..n])) <= Line(Replay(max, log))
    ensures Replay(max, log[..n]).taken <= Replay(max, log).taken
    decreases |log|
  {
    if n < |log| {
      var front := log[..|log| - 1];
      assert front[..n] == log[..n];
      NoOvertaking(max, front, n);
      StepInOrder(Replay(max, front), log[|log| - 1]);
    } else {
      assert log[..n] == log;
    }
  }

  /** The offer at position n of a log leaves no trace when it is lost, and otherwise has its
      place, for good, behind everything given or queued before it. */
  lemma OfferFate(max: int, log: seq<Event>, n: nat)
    requires Complete(max, log) && n < |log| && log[n].Offer?
    ensures Complete(max, log[..n]) && Complete(max, log[..n + 1])
    ensures var s, t := Replay(max, log[..n]), Replay(max, log);
      if Loses(s, log[n])
      then Replay(max, log[..n + 1]) == s
      else |Line(s)| < |Line(t)| && Line(t)[|Line(s)|] == log[n].frame && Line(s) <= Line(t)
  {
    NoOvertaking(max, log, n);
    NoOvertaking(max, log, n + 1);
    assert log[..n + 1][..n] == log[..n];
    StepInOrder(Replay(max, log[..n]), log[n]);
  }

  /** While the limit is not changed the queue stays within it. */
  lemma {:induction false} WithinLimit(max: int, log: seq<Event>)
    requires Complete(max, log) && max >= 0 && forall i :: 0 <= i < |log| ==> !log[i].Limit?
    ensures |Replay(max, log).queue| <= Replay(max, log).max == max
    decreases |log|
  {
    if log != [] { WithinLimit(max, log[..|log| - 1]); }
  }

  // ----- one event -----

  /** An offered packet goes straight to the sender, whether it is then taken or fails, when
      nothing waits and the sender does not block; it waits when the queue has room and there
      is memory; otherwise it is lost. */
  lemma OfferDoes(s: Flow, f: Frame, answer: Answer, memory: bool)
    ensures var t := Next(s, Offer(f, answer, memory));
      if |s.queue| == 0 && answer != Blocks then t.taken == s.taken + [f] && t.queue == [] && t.max == s.max
      else if |s.queue| + 1 <= s.max && memory then t == Flow(s.queue + [f], s.max, s.taken)
      else t == s
  {
  }

  /** A drain hands over the first k packets, none of which blocks; the next one, if there is
      one, does. */
  lemma DrainDoes(s: Flow, answers: seq<Answer>) returns (k: nat)
    requires |s.queue| <= |answers|
    ensures k <= |s.queue| && Next(s, Drain(answers)) == Flow(s.queue[k..], s.max, s.taken + s.queue[..k])
    ensures (forall i :: 0 <= i < k ==> answers[i] != Blocks) && (k < |s.queue| ==> answers[k] == Blocks)
  {
    k := Passed(answers, |s.queue|);
  }

  lemma LimitDoes(s: Flow, max: int)
    ensures Next(s, Limit(max)) == Flow(s.queue, max, s.taken)
  {
  }
}
