/** What holds of the switch after every command, in every run, and for every frame. */
module SwitchSafety {
  import opened KeyPacking
  import opened Learning
  import opened Frames
  import opened SwitchSpec
  import opened Maybes

  // ----- the invariant, command by command -----

  /** Learned entries survive a change of state that flushes port p and takes nothing
      reachable away from the other ports. */
  lemma FlushKeeps(s: State, t: State, p: nat)
    requires LearnedOk(s) && t.learned == Without(s.learned, DeletePort(p))
    requires forall v, q :: q != p && Reachable(s, v, q) ==> Reachable(t, v, q)
    ensures LearnedOk(t)
  {
    forall k | k in t.learned
      ensures Reachable(t, VlanOf(k), t.learned[k].port)
    {
      assert Reachable(s, VlanOf(k), s.learned[k].port);
    }
  }

  lemma SameReach(s: State, t: State)
    requires LearnedOk(s) && t.learned.Keys <= s.learned.Keys
    requires forall k :: k in t.learned ==> t.learned[k] == s.learned[k]
    requires forall v, q :: Reachable(s, v, q) ==> Reachable(t, v, q)
    ensures LearnedOk(t)
  {
    forall k | k in t.learned
      ensures Reachable(t, VlanOf(k), t.learned[k].port)
    {
      assert Reachable(s, VlanOf(k), s.learned[k].port);
    }
  }

  lemma InitKeeps(numports: nat)
    ensures Inv(Init(numports))
  {
  }

  lemma MovedKeeps(s: State, p: nat, vlan: nat)
    requires Inv(s) && p in s.ports && (vlan == NOVLAN || vlan in s.member)
    ensures Inv(Moved(s, p, vlan))
  {
    FlushKeeps(s, Moved(s, p, vlan), p);
  }

  lemma SetVlanKeeps(s: State, port: int, vlan: int)
    requires Inv(s)
    ensures Inv(SetVlan(s, port, vlan).state)
  {
    if SetVlan(s, port, vlan).code == OK { MovedKeeps(s, port, vlan); }
  }

  lemma AllocKeeps(s: State, portno: nat)
    requires Inv(s)
    ensures Inv(AllocPort(s, portno).0)
    ensures Resolvable(s, portno) ==> AllocPort(s, portno).1 in AllocPort(s, portno).0.ports
  {
    SameReach(s, AllocPort(s, portno).0);
  }

  lemma ReserveKeeps(s: State, portno: nat)
    requires Inv(s) && Resolvable(s, portno)
    ensures Inv(PortReserve(s, portno).state)
  {
    AllocKeeps(s, portno);
    SameReach(AllocPort(s, portno).0, PortReserve(s, portno).state);
  }

  lemma FreeKeeps(s: State, p: nat)
    requires Inv(s)
    ensures Inv(FreePort(s, p))
  {
    SameReach(s, FreePort(s, p));
  }

  lemma AllocatableKeeps(s: State, port: int, value: int)
    requires Inv(s)
    ensures Inv(PortAllocatable(s, port, value).state)
  {
    SameReach(s, PortAllocatable(s, port, value).state);
  }

  lemma VlanCreateKeeps(s: State, v: int)
    requires Inv(s)
    ensures Inv(VlanCreate(s, v).state)
  {
    SameReach(s, VlanCreate(s, v).state);
  }

  /** Removing a VLAN keeps the invariant unless it is VLAN 0 with an empty table, which the
      command accepts although every new port is put there. */
  lemma VlanRemoveKeeps(s: State, v: int)
    requires Inv(s)
    ensures Inv(VlanRemove(s, v).state) <==> !(v == 0 && s.member[0] == {})
  {
    var t := VlanRemove(s, v).state;
    if !(v == 0 && s.member[0] == {}) {
      SameReach(s, t);
      assert VlansOk(t);
    }
  }

  lemma VlanAddPortKeeps(s: State, vlan: int, port: int)
    requires Inv(s)
    ensures Inv(VlanAddPort(s, vlan, port).state)
  {
    SameReach(s, VlanAddPort(s, vlan, port).state);
  }

  lemma VlanDelPortKeeps(s: State, vlan: int, port: int)
    requires Inv(s)
    ensures Inv(VlanDelPort(s, vlan, port).state)
  {
    var t := VlanDelPort(s, vlan, port).state;
    if t != s { FlushKeeps(s, t, port); }
  }

  lemma SetupAtKeeps(s: State, p: nat, ep: Endpoint, user: nat, permitted: bool)
    requires Inv(s) && p in s.ports
    ensures Inv(SetupAt(s, p, ep, user, permitted).state)
  {
    SameReach(s, SetupAt(s, p, ep, user, permitted).state);
  }

  lemma SetupKeeps(s: State, portno: nat, ep: Endpoint, user: nat, permitted: bool)
    requires Inv(s) && Resolvable(s, portno)
    ensures Inv(SetupEp(s, portno, ep, user, permitted).state)
  {
    AllocKeeps(s, portno);
    var (s1, p) := AllocPort(s, portno);
    SetupAtKeeps(s1, p, ep, user, permitted);
  }

  lemma CloseKeeps(s: State, portno: nat, fd: int)
    requires Inv(s)
    ensures Inv(CloseEp(s, portno, fd).state)
  {
    var t := CloseEp(s, portno, fd).state;
    if t.learned != s.learned || (portno in s.ports && t.ports[portno].eps == []) {
      FlushKeeps(s, t, portno);
    } else {
      SameReach(s, t);
    }
  }

  /** The port count is stored in 16 bits: an accepted count keeps the invariant exactly
      when every port is below what is stored. */
  lemma SetNumPortsKeeps(s: State, n: int)
    requires Inv(s)
    ensures Inv(SetNumPorts(s, n).state)
       <==> SetNumPorts(s, n).code != OK || forall p :: p in s.ports ==> p < n % 0x1_0000
    ensures n <= 0xffff ==> Inv(SetNumPorts(s, n).state)
  {
    var t := SetNumPorts(s, n).state;
    SameReach(s, t);
  }

  // ----- whole runs -----

  datatype Command =
    | NumPorts(n: int)
    | Hub(n: int)
    | PortVlan(port: int, vlan: int)
    | CreatePort(n: int)
    | CreateAuto
    | Free(p: nat)
    | Allocatable(port: int, value: int)
    | AddVlan(vlan: int)
    | DropVlan(vlan: int)
    | AddToVlan(vlan: int, port: int)
    | DelFromVlan(vlan: int, port: int)
    | Attach(portno: nat, ep: Endpoint, user: nat, permitted: bool)
    | Close(portno: nat, fd: int)
    | Packet(p: nat, frame: Frame)
    | Tick
    | MinPersistence(n: int)
    | HashFlush
    | Expire(expire: int)

  /** The commands for which the C code has a defined meaning that stays within the model:
      a 16-bit port count, a port that alloc_port can resolve, VLAN 0 not removed, packets
      from attached endpoints. */
  predicate Allowed(s: State, c: Command) {
    match c
    case NumPorts(n) => n <= 0xffff
    case CreatePort(n) => n >= 0 ==> Resolvable(s, n)
    case CreateAuto => Resolvable(s, 0)
    case DropVlan(v) => v != 0
    case Attach(portno, _, _, _) => Resolvable(s, portno)
    case Packet(p, f) => Active(s, p) && |f| >= MINFRAME
    case _ => true
  }

  function Step(s: State, c: Command): State
    requires Inv(s) && Allowed(s, c)
  {
    match c
    case NumPorts(n) => SetNumPorts(s, n).state
    case Hub(n) => SetHub(s, n).state
    case PortVlan(port, vlan) => SetVlan(s, port, vlan).state
    case CreatePort(n) => PortCreate(s, n).state
    case CreateAuto => PortReserve(s, 0).state
    case Free(p) => FreePort(s, p)
    case Allocatable(port, value) => PortAllocatable(s, port, value).state
    case AddVlan(v) => VlanCreate(s, v).state
    case DropVlan(v) => VlanRemove(s, v).state
    case AddToVlan(v, port) => VlanAddPort(s, v, port).state
    case DelFromVlan(v, port) => VlanDelPort(s, v, port).state
    case Attach(portno, ep, user, permitted) => SetupEp(s, portno, ep, user, permitted).state
    case Close(portno, fd) => CloseEp(s, portno, fd).state
    case Packet(p, f) => HandleIn(s, p, f).state
    case Tick => s.(now := s.now + 1)
    case MinPersistence(n) => s.(minPersistence := n)
    case HashFlush => s.(learned := map[])
    case Expire(expire) => s.(learned := Without(s.learned, Collect(s.now, expire)))
  }

  lemma StepKeeps(s: State, c: Command)
    requires Inv(s) && Allowed(s, c)
    ensures Inv(Step(s, c))
  {
    if Quiet(c) {
      QuietKeeps(s, c);
    } else if OnPorts(c) {
      PortStepKeeps(s, c);
    } else if OnVlans(c) {
      VlanStepKeeps(s, c);
    } else {
      EndpointStepKeeps(s, c);
    }
  }

  lemma EndpointStepKeeps(s: State, c: Command)
    requires Inv(s) && Allowed(s, c) && (c.Attach? || c.Close? || c.Packet?)
    ensures Inv(Step(s, c))
  {
    match c
    case Attach(portno, ep, user, permitted) => SetupKeeps(s, portno, ep, user, permitted);
    case Close(portno, fd) => CloseKeeps(s, portno, fd);
    case Packet(p, f) => assert Step(s, c) == HandleIn(s, p, f).state;
  }

  predicate OnPorts(c: Command) {
    c.NumPorts? || c.CreatePort? || c.CreateAuto? || c.Free? || c.Allocatable?
  }

  lemma PortStepKeeps(s: State, c: Command)
    requires Inv(s) && Allowed(s, c) && OnPorts(c)
    ensures Inv(Step(s, c))
  {
    match c
    case NumPorts(n) => SetNumPortsKeeps(s, n);
    case CreatePort(n) => if n >= 0 { ReserveKeeps(s, n); }
    case CreateAuto => ReserveKeeps(s, 0);
    case Free(p) => FreeKeeps(s, p);
    case Allocatable(port, value) => AllocatableKeeps(s, port, value);
  }

  predicate Quiet(c: Command) {
    c.Hub? || c.Tick? || c.MinPersistence? || c.HashFlush? || c.Expire?
  }

  predicate OnVlans(c: Command) {
    c.PortVlan? || c.AddVlan? || c.DropVlan? || c.AddToVlan? || c.DelFromVlan?
  }

  lemma VlanStepKeeps(s: State, c: Command)
    requires Inv(s) && Allowed(s, c)
    requires OnVlans(c)
    ensures Inv(Step(s, c))
  {
    match c
    case PortVlan(port, vlan) => SetVlanKeeps(s, port, vlan);
    case AddVlan(v) => VlanCreateKeeps(s, v);
    case DropVlan(v) => VlanRemoveKeeps(s, v);
    case AddToVlan(v, port) => VlanAddPortKeeps(s, v, port);
    case DelFromVlan(v, port) => VlanDelPortKeeps(s, v, port);
  }

  lemma QuietKeeps(s: State, c: Command)
    requires Inv(s) && Quiet(c)
    ensures Inv(Step(s, c))
  {
    SameReach(s, Step(s, c));
  }

  /** Every command of the list is allowed in the state it meets. */
  ghost predicate AllAllowed(s: State, cs: seq<Command>)
    requires Inv(s)
    decreases |cs|
  {
    cs == [] || (Allowed(s, cs[0]) && (StepKeeps(s, cs[0]); AllAllowed(Step(s, cs[0]), cs[1..])))
  }

  ghost function Run(s: State, cs: seq<Command>): State
    requires Inv(s) && AllAllowed(s, cs)
    decreases |cs|
  {
    if cs == [] then s
    else
      StepKeeps(s, cs[0]);
      Run(Step(s, cs[0]), cs[1..])
  }

  /** No port is ever barred from learning: only the spanning tree code would do that. */
  predicate NothingBlocked(s: State) {
    forall v :: v in s.blocked ==> s.blocked[v] == {}
  }

  /** Only a new or a removed VLAN and an endpoint touch the notlearning sets. */
  lemma BlockedSame(s: State, c: Command)
    requires Inv(s) && Allowed(s, c) && !c.AddVlan? && !c.DropVlan? && !c.Attach?
    ensures Step(s, c).blocked == s.blocked
  {
    if c.Packet? { PacketUnblocked(s, c.p, c.frame); }
  }

  lemma StepUnblocked(s: State, c: Command)
    requires Inv(s) && NothingBlocked(s) && Allowed(s, c)
    ensures NothingBlocked(Step(s, c))
  {
    if c.Attach? {
      SetupUnblocked(s, c.portno, c.ep, c.user, c.permitted);
    } else if !c.AddVlan? && !c.DropVlan? {
      BlockedSame(s, c);
    }
  }

  lemma SetupUnblocked(s: State, portno: nat, ep: Endpoint, user: nat, permitted: bool)
    requires Inv(s) && NothingBlocked(s) && Resolvable(s, portno)
    ensures NothingBlocked(SetupEp(s, portno, ep, user, permitted).state)
  {
    AllocKeeps(s, portno);
    var (s1, p) := AllocPort(s, portno);
    SetupAtUnblocked(s1, p, ep, user, permitted);
  }

  lemma SetupAtUnblocked(s: State, p: nat, ep: Endpoint, user: nat, permitted: bool)
    requires p in s.ports && NothingBlocked(s)
    ensures NothingBlocked(SetupAt(s, p, ep, user, permitted).state)
  {
  }

  lemma PacketUnblocked(s: State, p: nat, f: Frame)
    requires Inv(s) && Active(s, p) && |f| >= MINFRAME
    ensures HandleIn(s, p, f).state.blocked == s.blocked
  {
  }

  /** Every run of allowed commands from a fresh switch ends in a state that satisfies the
      invariant. */
  lemma {:induction false} RunKeeps(s: State, cs: seq<Command>)
    requires Inv(s) && NothingBlocked(s) && AllAllowed(s, cs)
    ensures Inv(Run(s, cs)) && NothingBlocked(Run(s, cs))
    decreases |cs|
  {
    if cs != [] {
      StepKeeps(s, cs[0]);
      StepUnblocked(s, cs[0]);
      RunKeeps(Step(s, cs[0]), cs[1..]);
    }
  }

  lemma EveryRunIsSafe(numports: nat, cs: seq<Command>)
    requires AllAllowed(Init(numports), cs)
    ensures var t := Run(Init(numports), cs);
      && Inv(t)
      && (forall k :: k in t.learned ==> Reachable(t, VlanOf(k), t.learned[k].port))
      && (forall v, p :: v in t.member && p in UntagSet(t, v) ==> p in t.member[v] && p !in TagSet(t, v))
      && (forall v, p :: v in t.member && p in t.member[v] && Active(t, p) ==> p in TagSet(t, v) + UntagSet(t, v))
  {
    RunKeeps(Init(numports), cs);
  }

  // ----- isolation and exactly-once delivery -----

  lemma {:induction false} AscendingOrder(a: set<nat>, n: nat)
    ensures var r := Ascending(a, n);
      && (forall i, j :: 0 <= i < j < |r| ==> r[i] < r[j])
      && (forall k: nat :: k in r <==> k in a && k < n)
  {
    if n > 0 {
      AscendingOrder(a, n - 1);
      var front := Ascending(a, n - 1);
      assert forall i :: 0 <= i < |front| ==> front[i] in front;
    }
  }

  /** Sent to each port of a set once, and to no other port. */
  ghost predicate OnceEach(sends: seq<Send>, to: set<nat>) {
    && (forall i, j :: 0 <= i < j < |sends| ==> sends[i].port != sends[j].port)
    && (forall i :: 0 <= i < |sends| ==> sends[i].port in to)
    && (forall q :: q in to ==> exists i :: 0 <= i < |sends| && sends[i].port == q)
  }

  ghost predicate Lists(x: seq<nat>, a: set<nat>) {
    && (forall i, j :: 0 <= i < j < |x| ==> x[i] < x[j])
    && (forall p: nat :: p in a <==> p in x)
  }

  /** Two lists of distinct ports, one after the other. */
  lemma ListsOnce(x: seq<nat>, y: seq<nat>, a: set<nat>, b: set<nat>, f: Frame, g: Frame)
    requires Lists(x, a) && Lists(y, b) && a !! b
    ensures OnceEach(Copies(x, f) + Copies(y, g), a + b)
  {
    var r := Copies(x, f) + Copies(y, g);
    forall i | 0 <= i < |r|
      ensures r[i].port == if i < |x| then x[i] else y[i - |x|]
      ensures if i < |x| then r[i].port in a else r[i].port in b
    {
      if i < |x| { assert x[i] in x; } else { assert y[i - |x|] in y; }
    }
    forall p | p in a
      ensures exists i :: 0 <= i < |r| && r[i].port == p
    {
      var i :| 0 <= i < |x| && x[i] == p;
      assert r[i].port == p;
    }
    forall p | p in b
      ensures exists i :: 0 <= i < |r| && r[i].port == p
    {
      var i :| 0 <= i < |y| && y[i] == p;
      assert r[|x| + i].port == p;
    }
  }

  lemma CopiesOnce(a: set<nat>, b: set<nat>, n: nat, f: Frame, g: Frame)
    requires a !! b && (forall p :: p in a ==> p < n) && (forall p :: p in b ==> p < n)
    ensures OnceEach(Copies(Ascending(a, n), f) + Copies(Ascending(b, n), g), a + b)
  {
    AscendingOrder(a, n);
    AscendingOrder(b, n);
    ListsOnce(Ascending(a, n), Ascending(b, n), a, b, f, g);
  }

  /** The active members of VLAN v other than p. */
  function Others(s: State, v: nat, p: nat): set<nat> {
    set q | q in s.ports && Reachable(s, v, q) && q != p
  }

  lemma BroadcastSplit(s: State, v: nat, p: nat)
    requires Inv(s) && v in s.member
    ensures TagSet(s, v) - {p} !! UntagSet(s, v) - {p}
    ensures (TagSet(s, v) - {p}) + (UntagSet(s, v) - {p}) == Others(s, v, p)
  {
    forall q
      ensures q in (TagSet(s, v) - {p}) + (UntagSet(s, v) - {p}) <==> q in Others(s, v, p)
    {
    }
  }

  /** A flooded frame goes once to each active member of the VLAN but the sender. */
  lemma FloodOnce(s: State, p: nat, v: nat, f: Frame)
    requires Inv(s) && v in s.member && |f| >= MINFRAME
    ensures OnceEach(Flood(s, p, v, f), Others(s, v, p))
  {
    var tag, untag := TagSet(s, v) - {p}, UntagSet(s, v) - {p};
    BroadcastSplit(s, v, p);
    assert tag + untag == untag + tag;
    if Tagged(f) {
      CopiesOnce(tag, untag, s.numports, f, Strip(f));
    } else {
      CopiesOnce(untag, tag, s.numports, f, Strip(f));
    }
  }

  /** Whether an accepted frame is flooded: a group address, or one not in the table. */
  predicate Floods(s: State, v: nat, f: Frame)
    requires |f| >= MINFRAME
  {
    IsBroadcast(Dest(f)) || ExtMac(Dest(f), v) !in s.learned
  }

  /** VLAN isolation. A switch that rejects a frame sends and learns nothing. One that
      accepts it in VLAN v sends only to active members of v other than the sender, at most
      once to each; when it floods, to every one of them; when it knows the destination, to
      the learned port alone, or to none if that is where the frame came from. */
  lemma Isolation(s: State, p: nat, f: Frame)
    requires Inv(s) && !s.hub && Active(s, p) && |f| >= MINFRAME
    ensures var r := HandleIn(s, p, f);
      match Ingress(s, p, f)
      case None => r.state == s && r.sends == []
      case Some(v) =>
        && Reachable(s, v, p)
        && r.state == LearnSource(s, p, v, f)
        && (forall i :: 0 <= i < |r.sends| ==>
              Reachable(s, v, r.sends[i].port) && r.sends[i].port != p)
        && (forall i, j :: 0 <= i < j < |r.sends| ==> r.sends[i].port != r.sends[j].port)
        && (if Floods(r.state, v, f)
            then OnceEach(r.sends, Others(s, v, p))
            else
              var t := r.state.learned[ExtMac(Dest(f), v)].port;
              && Reachable(s, v, t)
              && (if t == p then r.sends == [] else |r.sends| == 1 && r.sends[0].port == t))
  {
    match Ingress(s, p, f)
    case None =>
    case Some(v) =>
      IngressReachable(s, p, f);
      LearnKeeps(s, p, v, f);
      var t := LearnSource(s, p, v, f);
      assert Others(t, v, p) == Others(s, v, p);
      if Floods(t, v, f) {
        FloodOnce(t, p, v, f);
        assert HandleIn(s, p, f).sends == Flood(t, p, v, f);
      } else {
        KnownUnicast(t, p, v, f);
      }
  }

  lemma KnownUnicast(s: State, p: nat, v: nat, f: Frame)
    requires Inv(s) && v in s.member && |f| >= MINFRAME && !Floods(s, v, f)
    ensures var t := s.learned[ExtMac(Dest(f), v)].port;
      && Reachable(s, v, t)
      && Forward(s, p, v, f) == if t == p then [] else [Unicast(s, t, v, f)]
  {
    KeyVlan(Dest(f), v);
    EntryReachable(s, ExtMac(Dest(f), v));
  }

  lemma EntryReachable(s: State, key: nat)
    requires Inv(s) && key in s.learned
    ensures Reachable(s, VlanOf(key), s.learned[key].port)
  {
  }

  /** The form of a frame of VLAN v that port q is due. */
  function Due(s: State, q: nat, v: nat, f: Frame): Frame
    requires q in s.ports && |f| >= MINFRAME
  {
    var untag := s.ports[q].vlanuntag == v;
    if Tagged(f) then (if untag then Strip(f) else f)
    else (if untag then f else Insert(f, v))
  }

  lemma FloodForms(s: State, p: nat, v: nat, f: Frame, i: nat)
    requires Inv(s) && v in s.member && |f| >= MINFRAME && i < |Flood(s, p, v, f)|
    ensures var x := Flood(s, p, v, f)[i];
      && x.port in s.ports
      && x.frame == (if Tagged(f) == (s.ports[x.port].vlanuntag != v) then f else Strip(f))
  {
    var tag, untag := TagSet(s, v) - {p}, UntagSet(s, v) - {p};
    AscendingOrder(tag, s.numports);
    AscendingOrder(untag, s.numports);
    var a, b := Ascending(tag, s.numports), Ascending(untag, s.numports);
    if Tagged(f) {
      if i < |a| { assert a[i] in a; } else { assert b[i - |a|] in b; }
    } else {
      if i < |b| { assert b[i] in b; } else { assert a[i - |b|] in a; }
    }
  }

  /** The same before the frame is handled: its own source address will have been learned. */
  predicate WillFlood(s: State, v: nat, f: Frame)
    requires |f| >= MINFRAME
  {
    IsBroadcast(Dest(f)) || (ExtMac(Dest(f), v) !in s.learned && Dest(f) != Source(f))
  }

  lemma FloodForeseen(s: State, p: nat, f: Frame)
    requires Inv(s) && !s.hub && Active(s, p) && |f| >= MINFRAME && Ingress(s, p, f).Some?
    ensures var v := Ingress(s, p, f).value; Floods(HandleIn(s, p, f).state, v, f) <==> WillFlood(s, v, f)
  {
    var v := Ingress(s, p, f).value;
    IngressReachable(s, p, f);
    KeysCollide(Dest(f), v, Source(f), v);
    Isolation(s, p, f);
  }

  /** Each copy is in the form its receiver is due exactly when the frame came in tagged, or
      the receiver takes the VLAN untagged, or the copy is unicast and the misplaced tag
      happens to coincide with the source bytes it overwrites. */
  lemma SentAsDue(s: State, p: nat, f: Frame, i: nat)
    requires Inv(s) && !s.hub && Active(s, p) && |f| >= MINFRAME
    requires Ingress(s, p, f).Some? && i < |HandleIn(s, p, f).sends|
    ensures var v := Ingress(s, p, f).value; var x := HandleIn(s, p, f).sends[i];
      && x.port in s.ports
      && (x.frame == Due(s, x.port, v, f) <==>
            || Tagged(f)
            || s.ports[x.port].vlanuntag == v
            || (!WillFlood(s, v, f) && f[8..12] == TagBytes(v)))
  {
    var v := Ingress(s, p, f).value;
    IngressReachable(s, p, f);
    LearnKeeps(s, p, v, f);
    FloodForeseen(s, p, f);
    Isolation(s, p, f);
    var t := LearnSource(s, p, v, f);
    StrippedIsNotTagged(f, v);
    TagMisplaced(f, v);
    if Floods(t, v, f) { FloodForms(t, p, v, f, i); }
  }

  lemma RunFirst(s: State, c: Command, cs: seq<Command>)
    requires Inv(s) && Allowed(s, c) && Inv(Step(s, c)) && AllAllowed(Step(s, c), cs)
    ensures AllAllowed(s, [c] + cs) && Run(s, [c] + cs) == Run(Step(s, c), cs)
  {
    assert ([c] + cs)[1..] == cs;
  }

  /** VLAN 0 of a fresh switch can be removed, and then no new port has a VLAN to go to. */
  lemma DropsVlanZero(numports: nat)
    ensures var r := VlanRemove(Init(numports), 0); r.code == OK && !Inv(r.state)
  {
    VlanRemoveKeeps(Init(numports), 0);
  }

  /** A count of 65537 is taken on a switch of four ports, of which port 1 exists; one port
      is left, and port 1 is beyond it. */
  lemma LosesPortOne()
    ensures var s := PortReserve(Init(4), 1).state; var r := SetNumPorts(s, 65537);
      Inv(s) && 1 in s.ports && r.code == OK && r.state.numports == 1 && !Inv(r.state)
  {
    ReserveKeeps(Init(4), 1);
    var s := PortReserve(Init(4), 1).state;
    assert 1 in s.ports && s.ports.Keys == {1};
    SetNumPortsKeeps(s, 65537);
  }

  /** An endpoint that asks for port 9 of a switch with four ports joins port 1. */
  lemma LandsOnPortOne(a: Endpoint, b: Endpoint)
    ensures var s := Two(map[1 := Taken(a, 0)], {1}, {}); var r := SetupEp(s, 9, b, 0, true);
      Inv(s) && r.code == OK && 1 in r.state.ports && r.state.ports[1].eps == [b, a]
  {
    var s := Two(map[1 := Taken(a, 0)], {1}, {});
    assert [b] + [a] == [b, a];
    assert AllocPort(s, 9) == (s, 1);
  }

  /** Two endpoints are attached; the port of the second takes VLAN 5 untagged and VLAN 0
      tagged. */
  function TwoPorts(a: Endpoint, b: Endpoint): seq<Command> {
    [AddVlan(5)] + ([Command.Attach(1, a, 0, true)] + Second(b))
  }

  function Second(b: Endpoint): seq<Command> {
    [Command.Attach(2, b, 0, true)] + ([PortVlan(2, 5)] + ([AddToVlan(0, 2)] + []))
  }

  /** The switch of the example, with VLANs 0 and 5. */
  function Two(ports: map<nat, Port>, zero: set<nat>, five: set<nat>): State {
    Init(4).(ports := ports, member := map[0 := zero, 5 := five], blocked := map[0 := {}, 5 := {}])
  }

  function Taken(ep: Endpoint, vlan: nat): Port {
    Port([ep], false, vlan, 0)
  }

  function TwoPortsState(a: Endpoint, b: Endpoint): State {
    Two(map[1 := Taken(a, 0), 2 := Taken(b, 5)], {1, 2}, {2})
  }

  lemma AttachTwo(s: State, p: nat, ep: Endpoint)
    requires Inv(s) && s == Two(s.ports, s.member[0], {}) && 0 < p < 4 && p !in s.ports
    ensures var c := Command.Attach(p, ep, 0, true);
      Allowed(s, c) && Step(s, c) == Two(s.ports[p := Taken(ep, 0)], s.member[0] + {p}, {}) && Inv(Step(s, c))
  {
    SetupKeeps(s, p, ep, 0, true);
    var t := s.(ports := NewPort(s.ports, p), member := Join(s.member, 0, p));
    assert AllocPort(s, p) == (t, p);
    var none: set<nat> := {};
    assert none - {p} == none && [ep] + [] == [ep];
    var u := SetupAt(t, p, ep, 0, true);
    assert u.state.ports == s.ports[p := Taken(ep, 0)];
    assert u.state.blocked == s.blocked;
    assert u.state == Two(s.ports[p := Taken(ep, 0)], s.member[0] + {p}, {});
  }

  lemma TwoSound(a: Endpoint, b: Endpoint, vlan: nat, zero: set<nat>, five: set<nat>)
    requires zero == {1} || zero == {1, 2}
    requires if vlan == 0 then 2 in zero && five == {} else vlan == 5 && five == {2}
    ensures Inv(Two(map[1 := Taken(a, 0), 2 := Taken(b, vlan)], zero, five))
  {
  }

  lemma MoveTwo(a: Endpoint, b: Endpoint)
    ensures var s := Two(map[1 := Taken(a, 0), 2 := Taken(b, 0)], {1, 2}, {});
      Moved(s, 2, 5) == Two(map[1 := Taken(a, 0), 2 := Taken(b, 5)], {1}, {2})
  {
    var s := Two(map[1 := Taken(a, 0), 2 := Taken(b, 0)], {1, 2}, {});
    var none: set<nat>, one: set<nat> := {}, {1};
    assert none + {2} == {2} && {1, 2} - {2} == one;
    var t := Moved(s, 2, 5);
    assert t.ports == map[1 := Taken(a, 0), 2 := Taken(b, 5)] && t.member == map[0 := one, 5 := {2}];
    assert t.learned == map[];
  }

  lemma JoinTwo(a: Endpoint, b: Endpoint)
    ensures var u := Two(map[1 := Taken(a, 0), 2 := Taken(b, 5)], {1}, {2});
      Inv(u) && Step(u, AddToVlan(0, 2)) == TwoPortsState(a, b)
  {
    var u := Two(map[1 := Taken(a, 0), 2 := Taken(b, 5)], {1}, {2});
    var one: set<nat> := {1};
    TwoSound(a, b, 5, {1}, {2});
    assert one + {2} == {1, 2} && u.member[0 := {1, 2}] == TwoPortsState(a, b).member;
  }

  lemma ThirdReached(a: Endpoint, b: Endpoint)
    ensures var s := Two(map[1 := Taken(a, 0), 2 := Taken(b, 0)], {1, 2}, {});
      var cs := [PortVlan(2, 5)] + ([AddToVlan(0, 2)] + []);
      Inv(s) && AllAllowed(s, cs) && Run(s, cs) == TwoPortsState(a, b)
  {
    var s := Two(map[1 := Taken(a, 0), 2 := Taken(b, 0)], {1, 2}, {});
    var u := Two(map[1 := Taken(a, 0), 2 := Taken(b, 5)], {1}, {2});
    TwoSound(a, b, 0, {1, 2}, {});
    TwoSound(a, b, 5, {1, 2}, {2});
    MoveTwo(a, b);
    JoinTwo(a, b);
    assert Step(s, PortVlan(2, 5)) == u;
    RunFirst(u, AddToVlan(0, 2), []);
    RunFirst(s, PortVlan(2, 5), [AddToVlan(0, 2)] + []);
  }

  lemma SecondReached(a: Endpoint, b: Endpoint)
    ensures var s := Two(map[1 := Taken(a, 0)], {1}, {});
      Inv(s) && AllAllowed(s, Second(b)) && Run(s, Second(b)) == TwoPortsState(a, b)
  {
    var s := Two(map[1 := Taken(a, 0)], {1}, {});
    var t := Two(map[1 := Taken(a, 0), 2 := Taken(b, 0)], {1, 2}, {});
    AttachTwo(s, 2, b);
    assert s.ports[2 := Taken(b, 0)] == t.ports && s.member[0] + {2} == {1, 2};
    ThirdReached(a, b);
    RunFirst(s, Command.Attach(2, b, 0, true), [PortVlan(2, 5)] + ([AddToVlan(0, 2)] + []));
  }

  lemma TwoPortsReached(a: Endpoint, b: Endpoint)
    ensures AllAllowed(Init(4), TwoPorts(a, b)) && Run(Init(4), TwoPorts(a, b)) == TwoPortsState(a, b)
  {
    var c, d := AddVlan(5), Command.Attach(1, a, 0, true);
    var s, none: set<nat> := Two(map[], {}, {}), {};
    StepKeeps(Init(4), c);
    assert Step(Init(4), c) == s;
    AttachTwo(s, 1, a);
    assert s.ports[1 := Taken(a, 0)] == map[1 := Taken(a, 0)] && none + {1} == {1};
    SecondReached(a, b);
    RunFirst(s, d, Second(b));
    RunFirst(Init(4), c, [d] + Second(b));
  }

  /** In a run of five commands the switch comes to flood an untagged frame of VLAN 0 to a
      port that is due it tagged: it sends it stripped. */
  lemma WrongFormReached(a: Endpoint, b: Endpoint, f: Frame)
    requires |f| >= MINFRAME && !Tagged(f) && IsBroadcast(Dest(f))
    ensures AllAllowed(Init(4), TwoPorts(a, b))
    ensures var s := Run(Init(4), TwoPorts(a, b));
      && Inv(s) && !s.hub && Active(s, 1) && Active(s, 2)
      && HandleIn(s, 1, f).sends == [Send(2, Strip(f))]
      && Due(s, 2, 0, f) == Insert(f, 0) != Strip(f)
  {
    TwoPortsReached(a, b);
    var s := TwoPortsState(a, b);
    assert Inv(s) && Active(s, 1);
    IngressReachable(s, 1, f);
    LearnKeeps(s, 1, 0, f);
    FloodsToTwo(LearnSource(s, 1, 0, f), f);
    StrippedIsNotTagged(f, 0);
  }

  lemma FloodsToTwo(t: State, f: Frame)
    requires |f| >= MINFRAME && !Tagged(f) && t.numports == 4 && 0 in t.member && t.member[0] == {1, 2}
    requires t.ports.Keys == {1, 2} && t.ports[1].vlanuntag == 0 && t.ports[2].vlanuntag != 0 && Active(t, 2)
    ensures Flood(t, 1, 0, f) == [Send(2, Strip(f))]
  {
    assert TagSet(t, 0) - {1} == {2} && UntagSet(t, 0) - {1} == {};
    EmptyAscending(4);
    assert Ascending({2}, 4) == [2];
  }

  lemma {:induction false} EmptyAscending(n: nat)
    ensures Ascending({}, n) == []
  {
    if n > 0 { EmptyAscending(n - 1); }
  }

  /** In hub mode every port but port 0 and the sender's is sent the frame once, unchanged. */
  lemma HubRepeats(s: State, p: nat, f: Frame)
    requires Inv(s) && s.hub && Active(s, p) && |f| >= MINFRAME
    ensures var r := HandleIn(s, p, f);
      && r.state == s
      && OnceEach(r.sends, s.ports.Keys - {0, p})
      && forall i :: 0 <= i < |r.sends| ==> r.sends[i].frame == f
  {
    var to := s.ports.Keys - {0, p};
    CopiesOnce(to, {}, s.numports, f, f);
    EmptyAscending(s.numports);
    var r := Copies(Ascending(to, s.numports), f);
    assert r + Copies([], f) == r;
    assert to + {} == to;
  }

  // ----- ports and endpoints -----

  /** Asking for any port yields the lowest one, from 1 up, that does not exist yet or is
      idle and in the pool; all ports may be taken. */
  lemma {:induction false} FirstFreeLowest(s: State, i: nat)
    requires i <= s.numports
    ensures var k := FirstFree(s, i);
      && i <= k <= s.numports
      && (k < s.numports ==> k !in s.ports || (s.ports[k].eps == [] && !s.ports[k].notInPool))
      && (forall j :: i <= j < k ==> j in s.ports && (s.ports[j].eps != [] || s.ports[j].notInPool))
    decreases s.numports - i
  {
    if i < s.numports && i in s.ports && (s.ports[i].eps != [] || s.ports[i].notInPool) {
      FirstFreeLowest(s, i + 1);
    }
  }

  /** An endpoint that asks for a port by number gets that port exactly when the number is
      in range, or is 1 beyond a switch that has such a port: out of range it lands on 1. */
  lemma AttachedWhere(s: State, portno: nat, ep: Endpoint, user: nat, permitted: bool)
    requires Inv(s) && portno != 0 && Resolvable(s, portno)
    requires SetupEp(s, portno, ep, user, permitted).code == OK
    ensures var t := SetupEp(s, portno, ep, user, permitted).state;
      var at := if portno < s.numports then portno else 1;
      && Active(t, at) && t.ports[at].eps[0] == ep
      && (forall q :: q in t.ports && q != at ==> q in s.ports && t.ports[q] == s.ports[q])
      && (forall v :: v in t.member ==> TagSet(t, v) <= TagSet(s, v) + {at} && UntagSet(t, v) <= UntagSet(s, v) + {at})
  {
  }

  /** Attaching to an idle port and closing the endpoint again changes nothing. */
  lemma AttachClose(s: State, portno: nat, ep: Endpoint, user: nat)
    requires Inv(s) && NothingBlocked(s) && portno in s.ports && portno != 0
    requires !Active(s, portno) && s.ports[portno].curuser == NOBODY
    ensures var t := SetupEp(s, portno, ep, user, true).state;
      CloseEp(t, portno, ep.fdCtl) == Outcome(s, OK)
  {
    var t := SetupEp(s, portno, ep, user, true).state;
    assert t.ports[portno].eps == [ep];
    assert HasEp([ep], ep.fdCtl) by { assert [ep][0].fdCtl == ep.fdCtl; }
    assert RemoveEp([ep], ep.fdCtl) == [];
    var u := CloseEp(t, portno, ep.fdCtl).state;
    assert u.ports == s.ports;
    assert u.blocked == s.blocked by {
      var v := s.ports[portno].vlanuntag;
      if v in s.blocked { assert s.blocked[v] - {portno} == {}; }
    }
    forall k | k in s.learned
      ensures s.learned[k].port != portno
    {
      assert Reachable(s, VlanOf(k), s.learned[k].port);
    }
    assert u.learned == s.learned;
  }
}
