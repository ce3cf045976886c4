/** The packet queues of all endpoints as they are stored: circular lists designated by their
    last node, whose nodes share reference-counted copies of the packets. */
module PacketQueue {
  import opened Frames
  import opened PacketFlow

  /** A copy of a packet, made when it is first queued. */
  class PacketBuf {
    const data: Frame
    var count: int

    constructor (data: Frame)
      ensures this.data == data && count == 0
    {
      this.data, count := data, 0;
    }
  }

  class Node {
    const pb: PacketBuf
    var next: Node?
    ghost const owner: Endpoint
    ghost const serial: int         // how many nodes its owner had had before it

    constructor (pb: PacketBuf, ghost owner: Endpoint, ghost serial: int)
      ensures this.pb == pb && this.owner == owner && this.serial == serial
    {
      this.pb, this.owner, this.serial, next := pb, owner, serial, null;
    }
  }

  class Endpoint {
    var tail: Node?
    var count: int
    var max: int
    var pollout: bool
    ghost var had: nat              // how many nodes it has ever had
    ghost var gone: nat             // how many of them have left the queue
    ghost var seat: map<int, Node>  // each of them, by serial number
    ghost var queued: seq<Frame>    // the packets they carried
    ghost var taken: seq<Frame>     // what the sender has been given

    constructor (max: int)
      ensures tail == null && count == 0 && !pollout && this.max == max
      ensures had == gone == 0 && queued == taken == []
    {
      tail, count, this.max, pollout := null, 0, max, false;
      had, gone, seat, queued, taken := 0, 0, map[], [], [];
    }

    /** The queue as a value. */
    ghost function Abs(): Flow
      requires gone <= |queued|
      reads `gone, `queued, `max, `taken
    {
      Flow(queued[gone..], max, taken)
    }
  }

  lemma {:induction false} PassedIs(answers: seq<Answer>, n: nat, k: nat)
    requires k <= n <= |answers| && Passed(answers, k) == k && (k < n ==> answers[k] == Blocks)
    ensures Passed(answers, n) == k
  {
  }

  /** The live nodes that point to a copy. */
  ghost function Refs(nodes: set<Node>, b: PacketBuf): set<Node> {
    set n | n in nodes && n.pb == b
  }

  lemma OneRef(nodes: set<Node>, n: Node, b: PacketBuf)
    requires n !in nodes
    ensures |Refs(nodes + {n}, b)| == |Refs(nodes, b)| + if n.pb == b then 1 else 0
  {
    assert Refs(nodes + {n}, b) == if n.pb == b then Refs(nodes, b) + {n} else Refs(nodes, b);
  }

  lemma OneRefLess(nodes: set<Node>, n: Node, b: PacketBuf)
    requires n in nodes
    ensures |Refs(nodes - {n}, b)| == |Refs(nodes, b)| - if n.pb == b then 1 else 0
  {
    assert nodes - {n} + {n} == nodes;
    OneRef(nodes - {n}, n, b);
  }

  lemma AnyRefs(nodes: set<Node>, b: PacketBuf)
    ensures |Refs(nodes, b)| == 0 <==> forall n :: n in nodes ==> n.pb != b
  {
    if n :| n in nodes && n.pb == b {
      assert n in Refs(nodes, b);
    } else {
      assert Refs(nodes, b) == {};
    }
  }

  // ----- the rings -----

  /** A live node belongs to a live endpoint, is one of those not yet gone, and is followed
      by the next of them, or by the first after the last. */
  ghost predicate NodeOk(n: Node, eps: set<Endpoint>, nodes: set<Node>)
    reads eps`had, eps`gone, eps`seat, n`next
  {
    var e := n.owner;
    && e in eps
    && e.gone <= n.serial < e.had
    && n.serial in e.seat && e.seat[n.serial] == n
    && n.next != null && n.next in nodes && n.next.owner == e
    && n.next.serial == if n.serial + 1 < e.had then n.serial + 1 else e.gone
  }

  /** The endpoint designates its last node, if it has any. */
  ghost predicate TailOk(e: Endpoint, nodes: set<Node>)
    reads e`tail, e`had, e`gone
  {
    && e.gone <= e.had
    && (e.tail == null <==> e.gone == e.had)
    && (e.tail != null ==> e.tail in nodes && e.tail.owner == e && e.tail.serial == e.had - 1)
  }

  ghost predicate Ringed(eps: set<Endpoint>, nodes: set<Node>)
    reads eps`tail, eps`had, eps`gone, eps`seat, nodes`next
  {
    && (forall e :: e in eps ==> TailOk(e, nodes))
    && (forall n {:trigger n.next} {:trigger NodeOk(n, eps, nodes)} :: n in nodes ==> NodeOk(n, eps, nodes))
  }

  /** The pointer writes of vdepq_add that put a node behind the last one. */
  method LinkLast(e: Endpoint, n: Node, ghost eps: set<Endpoint>, ghost nodes: set<Node>)
    requires Ringed(eps, nodes) && e in eps
    requires n !in nodes && n.owner == e && n.serial == e.had
    modifies e`tail, e`had, e`seat, e`queued, nodes`next, n`next
    ensures Ringed(eps, nodes + {n}) && e.had == old(e.had) + 1 && e.queued == old(e.queued) + [n.pb.data]
  {
    assert TailOk(e, nodes);
    if e.tail == null {
      n.next := n;
    } else {
      n.next := e.tail.next;
      e.tail.next := n;
    }
    e.tail := n;
    e.had, e.seat, e.queued := e.had + 1, e.seat[n.serial := n], e.queued + [n.pb.data];
    assert NodeOk(n, eps, nodes + {n});
    forall m | m in nodes
      ensures NodeOk(m, eps, nodes + {n})
    {
      assert old(NodeOk(m, eps, nodes));
      if m != old(e.tail) {
        assert m.next == old(m.next);
        assert m.owner == e ==> m.serial + 1 < old(e.had);
      }
    }
  }

  method SkipFirst(e: Endpoint) returns (first: Node)
    requires e.tail != null && e.tail.next != null
    modifies e`tail, e`gone, e.tail`next
    ensures first == old(e.tail.next) && e.gone == old(e.gone) + 1
    ensures if first == old(e.tail) then e.tail == null && first.next == first
            else e.tail == old(e.tail) && e.tail.next == old(first.next)
  {
    first := e.tail.next;
    if first == e.tail {
      e.tail := null;
    } else {
      e.tail.next := first.next;
    }
    e.gone := e.gone + 1;
  }

  /** The pointer writes of vdepq_try and vdepq_del that take the first node out. */
  method UnlinkFirst(e: Endpoint, ghost eps: set<Endpoint>, ghost nodes: set<Node>) returns (first: Node)
    requires Ringed(eps, nodes) && e in eps && e.tail != null
    modifies e`tail, e`gone, nodes`next
    ensures first == old(e.tail.next) && first in nodes && first.owner == e && first.serial == old(e.gone)
    ensures Ringed(eps, nodes - {first}) && e.gone == old(e.gone) + 1
  {
    assert TailOk(e, nodes);
    first := SkipFirst(e);
    forall m | m in nodes - {first}
      ensures NodeOk(m, eps, nodes - {first})
    {
      assert old(NodeOk(m, eps, nodes));
    }
  }

  // ----- the copies -----

  /** The live copies are those that a live node points to, and each counts its nodes. */
  ghost predicate Counted(nodes: set<Node>, bufs: set<PacketBuf>)
    reads bufs`count
  {
    && (forall n :: n in nodes ==> n.pb in bufs)
    && (forall b :: b in bufs ==> 0 < b.count == |Refs(nodes, b)|)
  }

  /** One more node points to a copy. */
  method Retain(n: Node, ghost nodes: set<Node>, ghost bufs: set<PacketBuf>)
    requires Counted(nodes, bufs) && n !in nodes
    requires n.pb !in bufs ==> n.pb.count == 0
    modifies n.pb`count
    ensures Counted(nodes + {n}, bufs + {n.pb})
  {
    n.pb.count := n.pb.count + 1;
    forall b | b in bufs + {n.pb}
      ensures 0 < b.count == |Refs(nodes + {n}, b)|
    {
      OneRef(nodes, n, b);
      if b !in bufs { AnyRefs(nodes, b); }
    }
  }

  /** One node fewer points to a copy, which is freed at zero. */
  method Release(n: Node, ghost nodes: set<Node>, ghost bufs: set<PacketBuf>) returns (ghost left: set<PacketBuf>)
    requires Counted(nodes, bufs) && n in nodes
    modifies n.pb`count
    ensures Counted(nodes - {n}, left)
    ensures left == if exists m :: m in nodes - {n} && m.pb == n.pb then bufs else bufs - {n.pb}
  {
    n.pb.count := n.pb.count - 1;
    left := bufs;
    if n.pb.count == 0 {
      left := bufs - {n.pb};
    }
    forall b | b in bufs
      ensures b.count == |Refs(nodes - {n}, b)|
      ensures |Refs(nodes - {n}, b)| == 0 <==> forall m :: m in nodes - {n} ==> m.pb != b
    {
      OneRefLess(nodes, n, b);
      AnyRefs(nodes - {n}, b);
    }
  }

  // ----- one node comes or goes -----

  /** The part of vdepq_add that follows the allocations. */
  method Enqueue(e: Endpoint, n: Node, ghost eps: set<Endpoint>, ghost nodes: set<Node>, ghost bufs: set<PacketBuf>)
    requires Ringed(eps, nodes) && Counted(nodes, bufs) && e in eps
    requires n !in nodes && n.owner == e && n.serial == e.had
    requires n.pb !in bufs ==> n.pb.count == 0
    modifies e`tail, e`had, e`seat, e`queued, nodes`next, n`next, n.pb`count
    ensures Ringed(eps, nodes + {n}) && Counted(nodes + {n}, bufs + {n.pb})
    ensures e.had == old(e.had) + 1 && e.queued == old(e.queued) + [n.pb.data]
  {
    Retain(n, nodes, bufs);
    LinkLast(e, n, eps, nodes);
  }

  /** The body that vdepq_try and vdepq_del share: the first node goes, and its copy of the
      packet with it when no other node points there. */
  method Dequeue(e: Endpoint, ghost eps: set<Endpoint>, ghost nodes: set<Node>, ghost bufs: set<PacketBuf>)
    returns (ghost first: Node, ghost left: set<PacketBuf>)
    requires Ringed(eps, nodes) && Counted(nodes, bufs) && e in eps && e.tail != null
    modifies e`tail, e`gone, nodes`next, bufs`count
    ensures first in nodes && first.owner == e && first.serial == old(e.gone) == e.gone - 1
    ensures Ringed(eps, nodes - {first}) && Counted(nodes - {first}, left)
    ensures left == if exists m :: m in nodes - {first} && m.pb == first.pb then bufs else bufs - {first.pb}
  {
    assert TailOk(e, nodes) && NodeOk(e.tail, eps, nodes);
    left := Release(e.tail.next, nodes, bufs);
    var head := UnlinkFirst(e, eps, nodes);
    first := head;
  }

  // ----- all queues together -----

  /** Each live node carries the packet that was queued under its serial number. */
  ghost predicate Carried(eps: set<Endpoint>, nodes: set<Node>)
    reads eps`queued
  {
    forall n {:trigger n.pb.data} :: n in nodes ==>
      n.owner in eps && 0 <= n.serial < |n.owner.queued| && n.pb.data == n.owner.queued[n.serial]
  }

  /** The counter and the poll flag of an endpoint agree with its queue. */
  ghost predicate TallyOk(e: Endpoint)
    reads e`count, e`pollout, e`had, e`gone, e`queued
  {
    e.had == |e.queued| && e.count == e.had - e.gone && (e.pollout <==> e.count > 0)
  }

  /** The counters and the poll flags agree with the queues. */
  ghost predicate Tallied(eps: set<Endpoint>)
    reads eps`count, eps`pollout, eps`had, eps`gone, eps`queued
  {
    forall e :: e in eps ==> TallyOk(e)
  }

  /** The endpoints, and what malloc has handed out to their queues and not got back. */
  datatype World = World(eps: set<Endpoint>, nodes: set<Node>, bufs: set<PacketBuf>)

  ghost predicate Linked(w: World)
    reads w.eps`tail, w.eps`had, w.eps`gone, w.eps`seat, w.eps`queued, w.nodes`next, w.bufs`count
  {
    Ringed(w.eps, w.nodes) && Counted(w.nodes, w.bufs) && Carried(w.eps, w.nodes)
  }

  ghost predicate Valid(w: World)
    reads w.eps, w.nodes`next, w.bufs`count
  {
    Linked(w) && Tallied(w.eps)
  }

  twostate lemma GrownBy(w: World, new r: World, new n: Node)
    requires r == World(w.eps, w.nodes + {n}, w.bufs + {n.pb})
    requires fresh(n) && (n.pb in w.bufs || fresh(n.pb))
    ensures fresh(r.nodes - w.nodes) && fresh(r.bufs - w.bufs)
  {
  }

  twostate lemma CarriedAdd(w: World, new e: Endpoint, new n: Node)
    requires old(Carried(w.eps, w.nodes)) && e in w.eps && n.owner == e && n.serial == |old(e.queued)|
    requires e.queued == old(e.queued) + [n.pb.data]
    requires forall x :: x in w.eps && x != e ==> x.queued == old(x.queued)
    ensures Carried(w.eps, w.nodes + {n})
  {
    forall m | m in w.nodes
      ensures 0 <= m.serial < |m.owner.queued| && m.pb.data == m.owner.queued[m.serial]
    {
      assert m.pb.data == m.pb.data && 0 <= m.serial < |old(m.owner.queued)|;
    }
  }

  /** vdepq_add. The two flags are the answers of malloc; `tmp` is the copy that an earlier
      call for the same packet has made, if any. */
  method Add(e: Endpoint, frame: Frame, tmp: PacketBuf?, nodeOk: bool, bufOk: bool, ghost w: World)
    returns (added: nat, buf: PacketBuf?, ghost r: World)
    requires Linked(w) && e in w.eps && e.had == |e.queued|
    requires tmp != null ==> tmp in w.bufs && tmp.data == frame
    modifies e`tail, e`had, e`seat, e`queued, w.nodes`next, w.bufs`count
    ensures Linked(r) && r.eps == w.eps
    ensures fresh(r.nodes - w.nodes) && fresh(r.bufs - w.bufs)
    ensures added == if nodeOk && (tmp != null || bufOk) then 1 else 0
    ensures e.had == old(e.had) + added
    ensures e.queued == old(e.queued) + if added == 1 then [frame] else []
    ensures buf != null ==> buf in r.bufs && buf.data == frame
    ensures if added == 1 then buf != null else buf == tmp
    ensures tmp != null ==> buf == tmp
  {
    if !nodeOk { return 0, tmp, w; }
    buf := tmp;
    if buf == null {
      if !bufOk { return 0, null, w; }
      buf := new PacketBuf(frame);
    }
    var n := new Node(buf, e, e.had);
    Enqueue(e, n, w.eps, w.nodes, w.bufs);
    r := World(w.eps, w.nodes + {n}, w.bufs + {n.pb});
    CarriedAdd(w, e, n);
    GrownBy(w, r, n);
    added := 1;
  }

  method DropFirst(e: Endpoint, ghost w: World) returns (ghost r: World)
    requires Linked(w) && e in w.eps && e.tail != null
    modifies e`tail, e`gone, w.nodes`next, w.bufs`count
    ensures Linked(r) && r.eps == w.eps && r.nodes <= w.nodes && r.bufs <= w.bufs
    ensures old(e.gone) < e.had && e.gone == old(e.gone) + 1
  {
    ghost var first, left := Dequeue(e, w.eps, w.nodes, w.bufs);
    r := World(w.eps, w.nodes - {first}, left);
    forall n | n in r.nodes
      ensures n.owner in r.eps && 0 <= n.serial < |n.owner.queued| && n.pb.data == n.owner.queued[n.serial]
    {
      assert n in w.nodes && n.pb.data == n.pb.data;
    }
  }

  // ----- what the switch does with a queue -----

  /** One round of vdepq_try: the first packet is offered to the sender, and goes unless
      that would block. */
  method OfferFirst(e: Endpoint, answer: Answer, ghost w: World) returns (packet: Frame, ghost r: World)
    requires Linked(w) && e in w.eps && e.tail != null
    modifies e`tail, e`gone, w.nodes`next, w.bufs`count
    ensures Linked(r) && r.eps == w.eps && r.nodes <= w.nodes && r.bufs <= w.bufs
    ensures old(e.gone) < e.had && old(e.gone) < |e.queued| && packet == e.queued[old(e.gone)]
    ensures e.gone == old(e.gone) + if answer == Blocks then 0 else 1
  {
    assert TailOk(e, w.nodes) && NodeOk(e.tail, w.eps, w.nodes);
    var first := e.tail.next;
    assert first in w.nodes;
    packet, r := first.pb.data, w;
    if answer != Blocks {
      r := DropFirst(e, w);
    }
  }

  /** A list is what lies in q from lo on. */
  ghost predicate LiesAt(part: seq<Frame>, q: seq<Frame>, lo: nat) {
    lo + |part| <= |q| && part == q[lo..lo + |part|]
  }

  lemma LiesMore(part: seq<Frame>, q: seq<Frame>, lo: nat, packet: Frame)
    requires LiesAt(part, q, lo) && lo + |part| < |q| && packet == q[lo + |part|]
    ensures LiesAt(part + [packet], q, lo) && |part + [packet]| == |part| + 1
  {
  }

  /** The packets given so far, and where the queue stands. */
  ghost predicate Sent(e: Endpoint, answers: seq<Answer>, given: seq<Frame>, lo: nat)
    reads e`gone, e`queued
  {
    && e.gone == lo + |given| && |given| <= |answers| && Passed(answers, |given|) == |given|
    && LiesAt(given, e.queued, lo)
  }

  method SendFirst(e: Endpoint, answers: seq<Answer>, given: seq<Frame>, ghost lo: nat, ghost w: World)
    returns (more: seq<Frame>, ghost r: World)
    requires Linked(w) && e in w.eps && e.tail != null && |given| < |answers| && Sent(e, answers, given, lo)
    modifies e`tail, e`gone, w.nodes`next, w.bufs`count
    ensures Linked(r) && r.eps == w.eps && r.nodes <= w.nodes && r.bufs <= w.bufs
    ensures Sent(e, answers, more, lo) && e.gone <= e.had
    ensures if answers[|given|] == Blocks then more == given && e.gone == old(e.gone)
            else |more| == |given| + 1
  {
    var packet;
    packet, r := OfferFirst(e, answers[|given|], w);
    more := given;
    if answers[|given|] != Blocks {
      LiesMore(given, e.queued, lo, packet);
      more := given + [packet];
    }
  }

  /** vdepq_try: packets go out, first to last, until the sender blocks. */
  method TrySend(e: Endpoint, answers: seq<Answer>, ghost w: World)
    returns (sent: nat, given: seq<Frame>, ghost r: World)
    requires Linked(w) && e in w.eps && e.had == |e.queued| && e.had - e.gone <= |answers|
    modifies e`tail, e`gone, w.nodes`next, w.bufs`count
    ensures Linked(r) && r.eps == w.eps && r.nodes <= w.nodes && r.bufs <= w.bufs
    ensures e.gone == old(e.gone) + sent <= e.had && sent == Passed(answers, e.had - old(e.gone))
    ensures LiesAt(given, e.queued, old(e.gone)) && |given| == sent
  {
    ghost var lo := e.gone;
    given, r := [], w;
    Standing(e, w);
    var blocked := false;
    while e.tail != null && !blocked
      invariant Linked(r) && r.eps == w.eps && r.nodes <= w.nodes && r.bufs <= w.bufs
      invariant Sent(e, answers, given, lo) && e.gone <= e.had && (e.tail == null <==> e.gone == e.had)
      invariant blocked ==> |given| < e.had - lo && answers[|given|] == Blocks
      decreases e.had - e.gone, !blocked
    {
      var more;
      more, r := SendFirst(e, answers, given, lo, r);
      Standing(e, r);
      blocked := |more| == |given|;
      given := more;
    }
    sent := |given|;
    PassedIs(answers, e.had - lo, sent);
  }

  lemma Standing(e: Endpoint, w: World)
    requires Linked(w) && e in w.eps
    ensures e.gone <= e.had && (e.tail == null <==> e.gone == e.had)
  {
    assert TailOk(e, w.nodes);
  }

  /** vdepq_del */
  method Del(e: Endpoint, ghost w: World) returns (ghost r: World)
    requires Linked(w) && e in w.eps
    modifies e`tail, e`gone, w.nodes`next, w.bufs`count
    ensures Linked(r) && r.eps == w.eps && r.nodes <= w.nodes && r.bufs <= w.bufs
    ensures e.tail == null && e.gone == e.had
  {
    r := w;
    assert TailOk(e, w.nodes);
    while e.tail != null
      invariant Linked(r) && r.eps == w.eps && r.nodes <= w.nodes && r.bufs <= w.bufs
      invariant e.gone <= e.had
      decreases e.had - e.gone
    {
      r := DropFirst(e, r);
    }
    assert TailOk(e, r.nodes);
  }

  lemma TalliedAll(w: World, e: Endpoint)
    requires Linked(w) && Tallied(w.eps - {e}) && TallyOk(e)
    ensures Valid(w)
  {
    forall x | x in w.eps ensures TallyOk(x) {
      if x != e { assert x in w.eps - {e}; }
    }
  }

  lemma Untallied(w: World, e: Endpoint)
    requires Valid(w) && e in w.eps
    ensures Tallied(w.eps - {e}) && TallyOk(e) && e.gone <= e.had
  {
    assert TailOk(e, w.nodes);
  }

  /** handle_out_packet */
  method HandleOut(e: Endpoint, answers: seq<Answer>, ghost w: World) returns (given: seq<Frame>, ghost r: World)
    requires Valid(w) && e in w.eps && e.had - e.gone <= |answers|
    modifies e, w.nodes`next, w.bufs`count
    ensures Valid(r) && r.eps == w.eps && r.nodes <= w.nodes && r.bufs <= w.bufs
    ensures e.taken == old(e.taken) + given
    ensures e.Abs() == Next(old(e.Abs()), Drain(answers))
  {
    var sent;
    sent, given, r := SendWaiting(e, answers, w);
    Settle(e, sent, r);
  }

  /** The counter has still to become `count`, and the poll flag to follow it. */
  ghost predicate Unsettled(w: World, e: Endpoint, count: int)
    reads w.eps`tail, w.eps`had, w.eps`gone, w.eps`seat, w.eps`queued, w.nodes`next, w.bufs`count
    reads w.eps`count, w.eps`pollout, e`had, e`gone, e`queued, e`pollout, e`count
  {
    && Linked(w) && e in w.eps && Tallied(w.eps - {e})
    && e.had == |e.queued| && count == e.had - e.gone >= 0 && (e.pollout <==> e.count > 0)
  }

  method SendWaiting(e: Endpoint, answers: seq<Answer>, ghost w: World)
    returns (sent: nat, given: seq<Frame>, ghost r: World)
    requires Valid(w) && e in w.eps && e.had - e.gone <= |answers|
    modifies e`tail, e`gone, e`taken, w.nodes`next, w.bufs`count
    ensures Unsettled(r, e, e.count - sent) && r.eps == w.eps && r.nodes <= w.nodes && r.bufs <= w.bufs
    ensures e.taken == old(e.taken) + given
    ensures e.Abs() == Next(old(e.Abs()), Drain(answers))
  {
    ghost var s, lo := e.Abs(), e.gone;
    sent, given, r := SendAll(e, answers, w);
    e.taken := e.taken + given;
    Drained(s, answers, e.queued, lo, given);
  }

  method SendAll(e: Endpoint, answers: seq<Answer>, ghost w: World)
    returns (sent: nat, given: seq<Frame>, ghost r: World)
    requires Valid(w) && e in w.eps && e.had - e.gone <= |answers|
    modifies e`tail, e`gone, w.nodes`next, w.bufs`count
    ensures Unsettled(r, e, e.count - sent) && r.eps == w.eps && r.nodes <= w.nodes && r.bufs <= w.bufs
    ensures e.gone == old(e.gone) + sent && sent == Passed(answers, |e.queued| - old(e.gone))
    ensures LiesAt(given, e.queued, old(e.gone)) && |given| == sent
  {
    Untallied(w, e);
    sent, given, r := TrySend(e, answers, w);
  }

  /** The counter and the poll flag after packets have gone. */
  method Settle(e: Endpoint, sent: nat, ghost w: World)
    requires Unsettled(w, e, e.count - sent)
    modifies e`count, e`pollout
    ensures Valid(w) && e.Abs() == old(e.Abs())
  {
    e.count := e.count - sent;
    if e.count == 0 {
      e.pollout := false;
    }
    assert TallyOk(e);
    TalliedAll(w, e);
  }

  lemma Drained(s: Flow, answers: seq<Answer>, q: seq<Frame>, lo: nat, given: seq<Frame>)
    requires LiesAt(given, q, lo) && s.queue == q[lo..] && |s.queue| <= |answers|
    requires |given| == Passed(answers, |s.queue|)
    ensures Next(s, Drain(answers)) == Flow(q[lo + |given|..], s.max, s.taken + given)
  {
  }

  lemma Bounded(w: World, e: Endpoint)
    requires Valid(w) && e in w.eps
    ensures e.gone <= e.had == |e.queued| && e.count == e.had - e.gone
  {
    assert TailOk(e, w.nodes);
  }

  lemma Behind(q: seq<Frame>, lo: nat, more: seq<Frame>)
    requires lo <= |q|
    ensures |q[lo..]| == |q| - lo && (q + more)[lo..] == q[lo..] + more
  {
  }

  /** The body of send_packet_port for one endpoint: the packet goes to the sender, unless
      others wait already or the sender would block; then it is queued if there is room. */
  method SendTo(e: Endpoint, frame: Frame, answer: Answer, tmp: PacketBuf?, nodeOk: bool, bufOk: bool, ghost w: World)
    returns (handed: bool, buf: PacketBuf?, ghost r: World)
    requires Valid(w) && e in w.eps
    requires tmp != null ==> tmp in w.bufs && tmp.data == frame
    modifies e, w.nodes`next, w.bufs`count
    ensures Valid(r) && r.eps == w.eps && fresh(r.nodes - w.nodes) && fresh(r.bufs - w.bufs)
    ensures e.Abs() == Next(old(e.Abs()), Offer(frame, answer, nodeOk && (tmp != null || bufOk)))
    ensures handed <==> old(e.Abs()).queue == [] && answer != Blocks
    ensures buf != null ==> buf in r.bufs && buf.data == frame
    ensures tmp != null ==> buf == tmp
  {
    buf, r := tmp, w;
    ghost var s, memory := e.Abs(), nodeOk && (tmp != null || bufOk);
    Bounded(w, e);
    Behind(e.queued, e.gone, if memory then [frame] else []);
    assert |s.queue| == e.count;
    handed := e.count == 0 && answer != Blocks;
    if handed {
      e.taken := e.taken + [frame];
      assert e.Abs() == s.(taken := s.taken + [frame]);
    } else if e.count < e.max {
      buf, r := Queue(e, frame, tmp, nodeOk, bufOk, w);
      assert e.Abs() == if memory then s.(queue := s.queue + [frame]) else s;
    }
    assert e.Abs() == Next(s, Offer(frame, answer, memory));
  }

  method Queue(e: Endpoint, frame: Frame, tmp: PacketBuf?, nodeOk: bool, bufOk: bool, ghost w: World)
    returns (buf: PacketBuf?, ghost r: World)
    requires Valid(w) && e in w.eps
    requires tmp != null ==> tmp in w.bufs && tmp.data == frame
    modifies e`tail, e`had, e`seat, e`queued, e`count, e`pollout, w.nodes`next, w.bufs`count
    ensures Valid(r) && r.eps == w.eps && fresh(r.nodes - w.nodes) && fresh(r.bufs - w.bufs)
    ensures e.queued == old(e.queued) + if nodeOk && (tmp != null || bufOk) then [frame] else []
    ensures buf != null ==> buf in r.bufs && buf.data == frame
    ensures tmp != null ==> buf == tmp
  {
    Untallied(w, e);
    var added;
    added, buf, r := Add(e, frame, tmp, nodeOk, bufOk, w);
    Count(e, added, r);
  }

  method Count(e: Endpoint, added: nat, ghost w: World)
    requires Unsettled(w, e, e.count + added) && added <= 1 && e.count >= 0
    modifies e`count, e`pollout
    ensures Valid(w)
  {
    e.count := e.count + added;
    if e.count == 1 {
      e.pollout := true;
    }
    TalliedAll(w, e);
  }

  /** What one packet meets at an endpoint: the answers of its sender and of malloc. */
  datatype Luck = Luck(answer: Answer, nodeOk: bool, bufOk: bool)

  /** The first n endpoints of the list have had the packet offered to them, the others have
      not; `memory` says where a queue could grow. */
  ghost predicate OfferedTo(list: seq<Endpoint>, n: nat, frame: Frame, luck: seq<Luck>, memory: seq<bool>,
                            was: seq<Flow>)
    requires n <= |list| == |luck| == |was| && |memory| == n
    reads list`gone, list`queued, list`max, list`taken
  {
    forall i :: 0 <= i < |list| ==>
      && list[i].gone <= |list[i].queued|
      && list[i].Abs() == if i < n then Next(was[i], Offer(frame, luck[i].answer, memory[i])) else was[i]
  }

  /** A queue could grow where malloc gave a node, and a copy unless there was one already. */
  predicate Grew(luck: seq<Luck>, memory: seq<bool>, copied: bool)
    requires |memory| <= |luck|
  {
    forall i :: 0 <= i < |memory| ==>
      && (luck[i].nodeOk && (copied || luck[i].bufOk) ==> memory[i])
      && (memory[i] ==> luck[i].nodeOk)
  }

  twostate lemma OfferedMore(list: seq<Endpoint>, new n: nat, new frame: Frame, new luck: seq<Luck>,
                             new memory: seq<bool>, new m: bool, new was: seq<Flow>)
    requires n < |list| == |luck| == |was| && |memory| == n
    requires old(OfferedTo(list, n, frame, luck, memory, was))
    requires forall j :: 0 <= j < |list| && j != n ==>
               && list[j].gone == old(list[j].gone) && list[j].queued == old(list[j].queued)
               && list[j].max == old(list[j].max) && list[j].taken == old(list[j].taken)
    requires list[n].gone <= |list[n].queued|
    requires list[n].Abs() == Next(was[n], Offer(frame, luck[n].answer, m))
    ensures OfferedTo(list, n + 1, frame, luck, memory + [m], was)
  {
  }

  /** The packet is offered to one endpoint more. */
  method SendNext(list: seq<Endpoint>, i: nat, frame: Frame, luck: seq<Luck>, tmp: PacketBuf?,
                  ghost memory: seq<bool>, ghost was: seq<Flow>, ghost w: World)
    returns (buf: PacketBuf?, ghost m: bool, ghost r: World)
    requires Valid(w) && i < |list| == |luck| == |was| && |memory| == i && list[i] in w.eps
    requires forall j :: 0 <= j < |list| && j != i ==> list[j] != list[i]
    requires OfferedTo(list, i, frame, luck, memory, was)
    requires tmp != null ==> tmp in w.bufs && tmp.data == frame
    modifies list[i], w.nodes`next, w.bufs`count
    ensures Valid(r) && r.eps == w.eps && fresh(r.nodes - w.nodes) && fresh(r.bufs - w.bufs)
    ensures m == (luck[i].nodeOk && (tmp != null || luck[i].bufOk))
    ensures OfferedTo(list, i + 1, frame, luck, memory + [m], was)
    ensures buf != null ==> buf in r.bufs && buf.data == frame
    ensures tmp != null ==> buf == tmp
  {
    m := luck[i].nodeOk && (tmp != null || luck[i].bufOk);
    var handed;
    handed, buf, r := SendTo(list[i], frame, luck[i].answer, tmp, luck[i].nodeOk, luck[i].bufOk, w);
    Bounded(r, list[i]);
    OfferedMore(list, i, frame, luck, memory, m, was);
  }

  /** send_packet_port: the packet is offered to each endpoint of a port. */
  method SendPort(list: seq<Endpoint>, frame: Frame, luck: seq<Luck>, tmp: PacketBuf?, ghost was: seq<Flow>,
                  ghost w: World)
    returns (buf: PacketBuf?, ghost memory: seq<bool>, ghost r: World)
    requires Valid(w) && forall e :: e in list ==> e in w.eps
    requires forall i, j :: 0 <= i < j < |list| ==> list[i] != list[j]
    requires |list| == |luck| == |was| && OfferedTo(list, 0, frame, luck, [], was)
    requires tmp != null ==> tmp in w.bufs && tmp.data == frame
    modifies list, w.nodes`next, w.bufs`count
    ensures Valid(r) && r.eps == w.eps && fresh(r.nodes - w.nodes) && fresh(r.bufs - w.bufs)
    ensures |memory| == |list| && OfferedTo(list, |list|, frame, luck, memory, was)
    ensures Grew(luck, memory, tmp != null)
    ensures buf != null ==> buf in r.bufs && buf.data == frame
  {
    buf, memory, r := tmp, [], w;
    for i := 0 to |list|
      invariant Valid(r) && r.eps == w.eps && fresh(r.nodes - w.nodes) && fresh(r.bufs - w.bufs)
      invariant tmp != null ==> buf == tmp
      invariant buf != null ==> buf in r.bufs && buf.data == frame
      invariant |memory| == i && OfferedTo(list, i, frame, luck, memory, was)
      invariant Grew(luck, memory, tmp != null)
    {
      ghost var m;
      buf, m, r := SendNext(list, i, frame, luck, buf, memory, was, r);
      memory := memory + [m];
    }
  }

  lemma RingsJoined(eps: set<Endpoint>, nodes: set<Node>, e: Endpoint)
    requires Ringed(eps, nodes) && e.tail == null && e.had == e.gone
    ensures Ringed(eps + {e}, nodes)
  {
    forall n | n in nodes
      ensures NodeOk(n, eps + {e}, nodes)
    {
      assert NodeOk(n, eps, nodes);
    }
    forall x | x in eps + {e}
      ensures TailOk(x, nodes)
    {
    }
  }

  lemma TalliesJoined(eps: set<Endpoint>, e: Endpoint)
    requires Tallied(eps) && TallyOk(e)
    ensures Tallied(eps + {e})
  {
  }

  lemma Joined(w: World, e: Endpoint)
    requires Valid(w) && e.tail == null && e.had == e.gone && TallyOk(e)
    ensures Valid(World(w.eps + {e}, w.nodes, w.bufs))
  {
    RingsJoined(w.eps, w.nodes, e);
    TalliesJoined(w.eps, e);
    assert Carried(w.eps + {e}, w.nodes);
  }

  /** A new endpoint, with the default limit. */
  method Attach(max: int, ghost w: World) returns (e: Endpoint, ghost r: World)
    requires Valid(w)
    ensures fresh(e) && r == World(w.eps + {e}, w.nodes, w.bufs) && Valid(r)
    ensures e.gone <= |e.queued| && e.Abs() == Flow([], max, [])
  {
    e := new Endpoint(max);
    r := World(w.eps + {e}, w.nodes, w.bufs);
    Joined(w, e);
  }

  lemma Parted(w: World, e: Endpoint)
    requires Linked(w) && Tallied(w.eps - {e}) && e in w.eps && e.gone == e.had
    ensures Valid(World(w.eps - {e}, w.nodes, w.bufs)) && forall n :: n in w.nodes ==> n.owner != e
  {
    forall n | n in w.nodes
      ensures n.owner != e && NodeOk(n, w.eps - {e}, w.nodes)
    {
      assert NodeOk(n, w.eps, w.nodes);
    }
    assert Ringed(w.eps - {e}, w.nodes);
    assert Carried(w.eps - {e}, w.nodes);
  }

  /** rec_close_ep: the queue is emptied and the endpoint freed. */
  method Close(e: Endpoint, ghost w: World) returns (ghost r: World)
    requires Valid(w) && e in w.eps
    modifies e`tail, e`gone, w.nodes`next, w.bufs`count
    ensures Valid(r) && r.eps == w.eps - {e} && r.nodes <= w.nodes && r.bufs <= w.bufs
    ensures forall n :: n in r.nodes ==> n.owner != e
  {
    Untallied(w, e);
    r := Del(e, w);
    assert Tallied(w.eps - {e});
    Parted(r, e);
    r := World(r.eps - {e}, r.nodes, r.bufs);
  }

  /** rec_setqlen_ep */
  method SetMax(e: Endpoint, max: int, ghost w: World)
    requires Valid(w) && e in w.eps && e.gone <= |e.queued|
    modifies e`max
    ensures Valid(w) && e.Abs() == Next(old(e.Abs()), Limit(max))
  {
    e.max := max;
  }

  /** A waiting node carries the packet that was queued, at its endpoint, under its number. */
  lemma Waiting(w: World, n: Node)
    requires Valid(w) && n in w.nodes
    ensures n.pb in w.bufs && n.owner in w.eps && n.owner.gone <= n.serial < |n.owner.queued|
    ensures n.pb.data == n.owner.queued[n.serial]
  {
    assert NodeOk(n, w.eps, w.nodes);
    assert n.pb.data == n.pb.data;
  }

  /** Conservation: an allocated copy counts the nodes that hold it over all queues, and is
      held by one at least. */
  lemma Conserved(w: World, b: PacketBuf)
    requires Valid(w) && b in w.bufs
    ensures b.count == |set n | n in w.nodes && n.pb == b|
    ensures exists n :: n in w.nodes && n.pb == b
  {
    assert Counted(w.nodes, w.bufs);
    AnyRefs(w.nodes, b);
  }
}
