/** The two halves of the data path together: the copies of a flood, handed to the queues of
    the endpoints of each port. */
module Transmission {
  import opened Frames
  import opened PacketFlow
  import opened PacketQueue
  import SwitchSpec
  import SwitchSafety

  /** All endpoints of some ports. */
  ghost function All(lists: seq<seq<Endpoint>>): set<Endpoint> {
    set k, i | 0 <= k < |lists| && 0 <= i < |lists[k]| :: lists[k][i]
  }

  /** Every endpoint is attached to one port, once. */
  ghost predicate Wired(lists: seq<seq<Endpoint>>, eps: set<Endpoint>) {
    && (forall k, i :: 0 <= k < |lists| && 0 <= i < |lists[k]| ==> lists[k][i] in eps)
    && (forall k, i, j :: 0 <= k < |lists| && 0 <= i < j < |lists[k]| ==> lists[k][i] != lists[k][j])
    && (forall k, m, i, j :: 0 <= k < m < |lists| && 0 <= i < |lists[k]| && 0 <= j < |lists[m]|
          ==> lists[k][i] != lists[m][j])
  }

  /** The queue of an endpoint is as it was, */
  ghost predicate Stands(e: Endpoint, was: Flow)
    reads e`gone, e`queued, e`max, e`taken
  {
    e.gone <= |e.queued| && e.Abs() == was
  }

  /** or the packet has been offered to it, once, and nothing else. */
  ghost predicate OfferedOnce(e: Endpoint, was: Flow, frame: Frame, l: Luck)
    reads e`gone, e`queued, e`max, e`taken
  {
    exists m :: (l.nodeOk && l.bufOk ==> m) && (m ==> l.nodeOk)
             && Stands(e, Next(was, Offer(frame, l.answer, m)))
  }

  ghost predicate AllStand(list: seq<Endpoint>, was: seq<Flow>)
    reads list`gone, list`queued, list`max, list`taken
  {
    |was| == |list| && forall i :: 0 <= i < |list| ==> Stands(list[i], was[i])
  }

  ghost predicate AllOffered(list: seq<Endpoint>, was: seq<Flow>, frame: Frame, luck: seq<Luck>)
    reads list`gone, list`queued, list`max, list`taken
  {
    |was| == |luck| == |list| && forall i :: 0 <= i < |list| ==> OfferedOnce(list[i], was[i], frame, luck[i])
  }

  /** What one call of send_packet_port does to the endpoints of its port. */
  method SendOne(list: seq<Endpoint>, frame: Frame, luck: seq<Luck>, tmp: PacketBuf?, ghost was: seq<Flow>,
                 ghost w: World)
    returns (buf: PacketBuf?, ghost r: World)
    requires Valid(w) && forall e :: e in list ==> e in w.eps
    requires forall i, j :: 0 <= i < j < |list| ==> list[i] != list[j]
    requires |luck| == |list| && (tmp != null ==> tmp in w.bufs && tmp.data == frame)
    requires AllStand(list, was)
    modifies list, w.nodes`next, w.bufs`count
    ensures Valid(r) && r.eps == w.eps && fresh(r.nodes - w.nodes) && fresh(r.bufs - w.bufs)
    ensures AllOffered(list, was, frame, luck)
    ensures buf != null ==> buf in r.bufs && buf.data == frame
  {
    ghost var memory;
    buf, memory, r := SendPort(list, frame, luck, tmp, was, w);
    forall i | 0 <= i < |list|
      ensures OfferedOnce(list[i], was[i], frame, luck[i])
    {
      assert Stands(list[i], Next(was[i], Offer(frame, luck[i].answer, memory[i])));
    }
  }

  /** The first n ports have been served, the others not. */
  ghost predicate Served(lists: seq<seq<Endpoint>>, n: nat, frame: Frame, luck: seq<seq<Luck>>, was: seq<seq<Flow>>)
    reads All(lists)`gone, All(lists)`queued, All(lists)`max, All(lists)`taken
  {
    && n <= |lists| == |luck| == |was|
    && (forall k :: 0 <= k < n ==> AllOffered(lists[k], was[k], frame, luck[k]))
    && (forall k :: n <= k < |lists| ==> AllStand(lists[k], was[k]))
  }

  method ServeNext(lists: seq<seq<Endpoint>>, k: nat, frame: Frame, luck: seq<seq<Luck>>, tmp: PacketBuf?,
                   ghost was: seq<seq<Flow>>, ghost w: World)
    returns (buf: PacketBuf?, ghost r: World)
    requires Valid(w) && Wired(lists, w.eps) && k < |lists| && Served(lists, k, frame, luck, was)
    requires |luck[k]| == |lists[k]| && (tmp != null ==> tmp in w.bufs && tmp.data == frame)
    modifies lists[k], w.nodes`next, w.bufs`count
    ensures Valid(r) && r.eps == w.eps && fresh(r.nodes - w.nodes) && fresh(r.bufs - w.bufs)
    ensures Served(lists, k + 1, frame, luck, was)
    ensures buf != null ==> buf in r.bufs && buf.data == frame
  {
    buf, r := SendOne(lists[k], frame, luck[k], tmp, was[k], w);
  }

  /** The loop over the ports of one broadcast set: the copy that the first queue makes is
      shared by all. */
  method SendPorts(lists: seq<seq<Endpoint>>, frame: Frame, luck: seq<seq<Luck>>, ghost was: seq<seq<Flow>>,
                   ghost w: World)
    returns (ghost r: World)
    requires Valid(w) && Wired(lists, w.eps) && Served(lists, 0, frame, luck, was)
    requires forall k :: 0 <= k < |lists| ==> |luck[k]| == |lists[k]|
    modifies All(lists), w.nodes`next, w.bufs`count
    ensures Valid(r) && r.eps == w.eps && fresh(r.nodes - w.nodes) && fresh(r.bufs - w.bufs)
    ensures Served(lists, |lists|, frame, luck, was)
  {
    var buf: PacketBuf? := null;
    r := w;
    for k := 0 to |lists|
      invariant Valid(r) && r.eps == w.eps && fresh(r.nodes - w.nodes) && fresh(r.bufs - w.bufs)
      invariant buf != null ==> buf in r.bufs && buf.data == frame
      invariant Served(lists, k, frame, luck, was)
    {
      buf, r := ServeNext(lists, k, frame, luck, buf, was, r);
    }
  }

  /** How many of the copies of a flood are sent before the packet is stripped. */
  ghost function Untouched(s: SwitchSpec.State, p: nat, v: nat, f: Frame): nat
    requires v in s.member && |f| >= MINFRAME
  {
    var same := if Tagged(f) then SwitchSpec.TagSet(s, v) else SwitchSpec.UntagSet(s, v);
    |SwitchSpec.Ascending(same - {p}, s.numports)|
  }

  lemma FloodHalves(s: SwitchSpec.State, p: nat, v: nat, f: Frame, k: nat)
    requires v in s.member && |f| >= MINFRAME && k < |SwitchSpec.Flood(s, p, v, f)|
    ensures Untouched(s, p, v, f) <= |SwitchSpec.Flood(s, p, v, f)|
    ensures SwitchSpec.Flood(s, p, v, f)[k].frame == if k < Untouched(s, p, v, f) then f else Strip(f)
  {
  }

  lemma Halves(lists: seq<seq<Endpoint>>, n: nat, eps: set<Endpoint>)
    requires Wired(lists, eps) && n <= |lists|
    ensures Wired(lists[..n], eps) && Wired(lists[n..], eps) && All(lists[..n]) !! All(lists[n..])
    ensures All(lists[..n]) + All(lists[n..]) == All(lists)
  {
  }

  /** The two loops do not share a copy of the packet, which is stripped in between. */
  method SendHalves(lists: seq<seq<Endpoint>>, luck: seq<seq<Luck>>, f: Frame, g: Frame, n: nat,
                    ghost was: seq<seq<Flow>>, ghost w: World)
    returns (ghost r: World)
    requires Valid(w) && Wired(lists, w.eps) && n <= |lists| == |luck| == |was|
    requires forall k :: 0 <= k < |lists| ==> AllStand(lists[k], was[k]) && |luck[k]| == |lists[k]|
    modifies All(lists), w.nodes`next, w.bufs`count
    ensures Valid(r) && r.eps == w.eps
    ensures Served(lists[..n], n, f, luck[..n], was[..n])
    ensures Served(lists[n..], |lists| - n, g, luck[n..], was[n..])
  {
    Halves(lists, n, w.eps);
    r := SendPorts(lists[..n], f, luck[..n], was[..n], w);
    r := SendPorts(lists[n..], g, luck[n..], was[n..], r);
  }

  lemma ServedAt(lists: seq<seq<Endpoint>>, luck: seq<seq<Luck>>, f: Frame, g: Frame, n: nat,
                 was: seq<seq<Flow>>, k: nat)
    requires n <= |lists| == |luck| == |was| && k < |lists|
    requires Served(lists[..n], n, f, luck[..n], was[..n])
    requires Served(lists[n..], |lists| - n, g, luck[n..], was[n..])
    ensures AllOffered(lists[k], was[k], if k < n then f else g, luck[k])
  {
    if k < n {
      assert AllOffered(lists[..n][k], was[..n][k], f, luck[..n][k]);
    } else {
      assert AllOffered(lists[n..][k - n], was[n..][k - n], g, luck[n..][k - n]);
    }
  }

  /** A flood, down to the queues: each endpoint of each active member of the VLAN but the
      sender's is offered the copy made for its port, once, and no other queue changes. */
  method FloodOut(lists: seq<seq<Endpoint>>, luck: seq<seq<Luck>>, f: Frame, n: nat, ghost was: seq<seq<Flow>>,
                  ghost s: SwitchSpec.State, ghost p: nat, ghost v: nat, ghost w: World)
    returns (ghost r: World)
    requires SwitchSpec.Inv(s) && v in s.member && |f| >= MINFRAME
    requires |lists| == |SwitchSpec.Flood(s, p, v, f)| == |luck| == |was| && n == Untouched(s, p, v, f) <= |lists|
    requires Valid(w) && Wired(lists, w.eps)
    requires forall k :: 0 <= k < |lists| ==> AllStand(lists[k], was[k]) && |luck[k]| == |lists[k]|
    modifies All(lists), w.nodes`next, w.bufs`count
    ensures Valid(r) && r.eps == w.eps
    ensures var sends := SwitchSpec.Flood(s, p, v, f);
      && SwitchSafety.OnceEach(sends, SwitchSafety.Others(s, v, p))
      && forall k :: 0 <= k < |sends| ==> AllOffered(lists[k], was[k], sends[k].frame, luck[k])
  {
    SwitchSafety.FloodOnce(s, p, v, f);
    r := SendHalves(lists, luck, f, Strip(f), n, was, w);
    forall k | 0 <= k < |lists|
      ensures AllOffered(lists[k], was[k], SwitchSpec.Flood(s, p, v, f)[k].frame, luck[k])
    {
      FloodHalves(s, p, v, f, k);
      ServedAt(lists, luck, f, Strip(f), n, was, k);
    }
  }
}
