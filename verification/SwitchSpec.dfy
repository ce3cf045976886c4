/** The switch as a value: which ports exist, which VLANs they belong to, and what has been
    learned. The broadcast sets that the running switch keeps per VLAN are not part of this
    state: here they are computed from it. */
module SwitchSpec {
  import opened KeyPacking
  import opened Learning
  import opened Frames
  import opened Maybes

  const NOBODY: nat := 0xffff_ffff     // user id -1

  datatype Endpoint = Endpoint(fdCtl: int, fdData: int)

  datatype Port = Port(eps: seq<Endpoint>, notInPool: bool, vlanuntag: nat, curuser: nat)

  datatype State = State(
    numports: nat,
    ports: map<nat, Port>,
    member: map<nat, set<nat>>,      // valid VLANs and their tables
    blocked: map<nat, set<nat>>,     // their notlearning sets
    learned: Table,
    hub: bool,
    now: int,
    minPersistence: int)

  datatype Code = OK | EINVAL | ENXIO | EADDRINUSE | EEXIST

  datatype Outcome = Outcome(state: State, code: Code)

  // ----- the broadcast sets -----

  predicate Active(s: State, p: nat) {
    p in s.ports && s.ports[p].eps != []
  }

  /** Active ports whose untagged VLAN is v. */
  function UntagSet(s: State, v: nat): set<nat> {
    set p | p in s.ports && s.ports[p].eps != [] && s.ports[p].vlanuntag == v
  }

  /** Active members of v that take its frames tagged. */
  function TagSet(s: State, v: nat): set<nat>
    requires v in s.member
  {
    set p | p in s.member[v] && p in s.ports && s.ports[p].eps != [] && s.ports[p].vlanuntag != v
  }

  // ----- the invariant -----

  ghost predicate PortsOk(s: State) {
    && (forall p :: p in s.ports ==> p < s.numports)
    && (forall p :: p in s.ports ==>
          var v := s.ports[p].vlanuntag;
          v == NOVLAN || (v in s.member && p in s.member[v]))
  }

  ghost predicate VlansOk(s: State) {
    && 0 in s.member
    && s.blocked.Keys == s.member.Keys
    && (forall v :: v in s.member ==> v < NUMOFVLAN && forall p :: p in s.member[v] ==> p in s.ports)
  }

  /** The comment at winvde_port.c:2165: the table never names a port outside the VLAN. */
  ghost predicate LearnedOk(s: State) {
    forall k :: k in s.learned ==> Reachable(s, VlanOf(k), s.learned[k].port)
  }

  predicate Reachable(s: State, v: nat, p: nat) {
    v in s.member && p in s.member[v] && Active(s, p)
  }

  ghost predicate Inv(s: State) {
    PortsOk(s) && VlansOk(s) && LearnedOk(s)
  }

  function Init(numports: nat): State {
    State(numports, map[], map[0 := {}], map[0 := {}], map[], false, 0, 3)
  }

  // ----- membership -----

  function Join(member: map<nat, set<nat>>, v: nat, p: nat): map<nat, set<nat>> {
    if v in member then member[v := member[v] + {p}] else member
  }

  function Leave(member: map<nat, set<nat>>, v: nat, p: nat): map<nat, set<nat>> {
    if v in member then member[v := member[v] - {p}] else member
  }

  // ----- writes to one port structure -----

  type Ports = map<nat, Port>

  function SetUntag(ports: Ports, p: nat, vlan: nat): Ports
    requires p in ports
  {
    ports[p := ports[p].(vlanuntag := vlan)]
  }

  function SetPool(ports: Ports, p: nat, notInPool: bool): Ports
    requires p in ports
  {
    ports[p := ports[p].(notInPool := notInPool)]
  }

  function SetEps(ports: Ports, p: nat, eps: seq<Endpoint>, curuser: nat): Ports
    requires p in ports
  {
    ports[p := ports[p].(eps := eps, curuser := curuser)]
  }

  function NewPort(ports: Ports, p: nat): Ports {
    ports[p := Port([], false, 0, NOBODY)]
  }

  // ----- management commands -----

  /** portsetnumports; `numports` is a uint16_t. */
  function SetNumPorts(s: State, n: int): Outcome {
    if n <= 0 then Outcome(s, EINVAL)
    else if exists p :: p in s.ports && n <= p < s.numports then Outcome(s, EADDRINUSE)
    else Outcome(s.(numports := n % 0x1_0000), OK)
  }

  function SetHub(s: State, n: int): Outcome {
    Outcome(s.(hub := n != 0), OK)
  }

  /** portsetvlan */
  function SetVlan(s: State, port: int, vlan: int): Outcome {
    if vlan < 0 || vlan > NUMOFVLAN || port < 0 || port >= s.numports then Outcome(s, EINVAL)
    else if (vlan != NOVLAN && vlan !in s.member) || port !in s.ports then Outcome(s, ENXIO)
    else Outcome(Moved(s, port, vlan), OK)
  }

  function Moved(s: State, p: nat, vlan: nat): State
    requires p in s.ports
  {
    s.(ports := SetUntag(s.ports, p, vlan),
       member := Join(Leave(s.member, s.ports[p].vlanuntag, p), vlan, p),
       learned := Without(s.learned, DeletePort(p)))
  }

  /** The first index from i on that is free for an endpoint without a port of its own. */
  function FirstFree(s: State, i: nat): nat
    decreases s.numports - i
  {
    if i < s.numports && i in s.ports && (s.ports[i].eps != [] || s.ports[i].notInPool)
    then FirstFree(s, i + 1)
    else i
  }

  /** The index that alloc_port works on; 0 asks for any. */
  function Wanted(s: State, portno: nat): nat {
    if portno == 0 then FirstFree(s, 1) else portno
  }

  /** alloc_port: out of range it allocates nothing, and returns 1. */
  function AllocPort(s: State, portno: nat): (State, nat) {
    var index := Wanted(s, portno);
    if index >= s.numports then (s, 1)
    else if index in s.ports then (s, index)
    else (s.(ports := NewPort(s.ports, index), member := Join(s.member, 0, index)),
          index)
  }

  /** The port that the callers of alloc_port go on to use exists. */
  predicate Resolvable(s: State, portno: nat) {
    Wanted(s, portno) < s.numports || 1 in s.ports
  }

  function PortCreate(s: State, n: int): Outcome
    requires n >= 0 ==> Resolvable(s, n)
  {
    if n < 0 || n >= s.numports then Outcome(s, EINVAL)
    else if n in s.ports then Outcome(s, EEXIST)
    else PortReserve(s, n)
  }

  /** alloc_port followed by taking the port out of the pool. */
  function PortReserve(s: State, portno: nat): Outcome
    requires Resolvable(s, portno)
  {
    var (s1, p) := AllocPort(s, portno);
    Outcome(s1.(ports := SetPool(s1.ports, p, true)), OK)
  }

  function FreePort(s: State, p: nat): State {
    if p < s.numports && p in s.ports && s.ports[p].eps == [] then
      s.(ports := s.ports - {p}, member := map v | v in s.member :: s.member[v] - {p})
    else s
  }

  function PortAllocatable(s: State, port: int, value: int): Outcome {
    if port < 0 || port >= s.numports then Outcome(s, EINVAL)
    else if port !in s.ports then Outcome(s, ENXIO)
    else Outcome(s.(ports := SetPool(s.ports, port, value == 0)), OK)
  }

  function VlanCreate(s: State, v: int): Outcome {
    if v <= 0 || v >= NUMOFVLAN - 1 then Outcome(s, EINVAL)
    else if v in s.member then Outcome(s, EEXIST)
    else Outcome(s.(member := s.member[v := {}], blocked := s.blocked[v := {}]), OK)
  }

  function VlanRemove(s: State, v: int): Outcome {
    if v < 0 || v >= NUMOFVLAN then Outcome(s, EINVAL)
    else if v !in s.member then Outcome(s, ENXIO)
    else if s.member[v] != {} then Outcome(s, EADDRINUSE)
    else Outcome(s.(member := s.member - {v}, blocked := s.blocked - {v}), OK)
  }

  function VlanAddPort(s: State, vlan: int, port: int): Outcome {
    if vlan < 0 || vlan >= NUMOFVLAN - 1 || port < 0 || port >= s.numports then Outcome(s, EINVAL)
    else if vlan !in s.member || port !in s.ports then Outcome(s, ENXIO)
    else Outcome(s.(member := Join(s.member, vlan, port)), OK)
  }

  function VlanDelPort(s: State, vlan: int, port: int): Outcome {
    if vlan < 0 || vlan >= NUMOFVLAN - 1 || port < 0 || port >= s.numports then Outcome(s, EINVAL)
    else if vlan !in s.member || port !in s.ports then Outcome(s, ENXIO)
    else if s.ports[port].vlanuntag == vlan then Outcome(s, EADDRINUSE)
    else Outcome(
      s.(member := Leave(s.member, vlan, port), learned := Without(s.learned, DeletePort(port))), OK)
  }

  // ----- endpoints -----

  /** setup_ep. `permitted` is the answer of the access check. */
  function SetupEp(s: State, portno: nat, ep: Endpoint, user: nat, permitted: bool): Outcome
    requires Resolvable(s, portno)
  {
    var (s1, p) := AllocPort(s, portno);
    SetupAt(s1, p, ep, user, permitted)
  }

  function SetupAt(s: State, p: nat, ep: Endpoint, user: nat, permitted: bool): Outcome
    requires p in s.ports
  {
    var port := s.ports[p];
    var curuser := if port.eps == [] && permitted then user else port.curuser;
    if curuser != user then
      Outcome(s.(ports := SetEps(s.ports, p, port.eps, curuser)), EADDRINUSE)
    else
      Outcome(
        s.(ports := SetEps(s.ports, p, [ep] + port.eps, curuser),
           blocked := if port.eps == [] then Leave(s.blocked, port.vlanuntag, p) else s.blocked),
        OK)
  }

  /** rec_close_ep: the first endpoint with this descriptor goes. */
  function RemoveEp(eps: seq<Endpoint>, fd: int): seq<Endpoint> {
    if eps == [] then []
    else if eps[0].fdCtl == fd then eps[1..]
    else [eps[0]] + RemoveEp(eps[1..], fd)
  }

  predicate HasEp(eps: seq<Endpoint>, fd: int) {
    exists i :: 0 <= i < |eps| && eps[i].fdCtl == fd
  }

  /** close_ep_port_fd: when no endpoint is left the port turns inactive and its learned
      addresses are flushed. */
  function CloseEp(s: State, portno: nat, fd: int): Outcome {
    if portno >= s.numports then Outcome(s, EINVAL)
    else if portno !in s.ports then Outcome(s, ENXIO)
    else
      var port := s.ports[portno];
      var eps := RemoveEp(port.eps, fd);
      var code := if HasEp(port.eps, fd) then OK else ENXIO;
      if eps == [] then
        Outcome(s.(ports := SetEps(s.ports, portno, [], NOBODY),
                   learned := Without(s.learned, DeletePort(portno))), code)
      else
        Outcome(s.(ports := SetEps(s.ports, portno, eps, port.curuser)), code)
  }

  // ----- the data path -----

  datatype Send = Send(port: nat, frame: Frame)

  /** The VLAN a frame is accepted in, if it is accepted. */
  function Ingress(s: State, p: nat, f: Frame): Maybe<nat>
    requires p in s.ports && |f| >= MINFRAME
  {
    var v := if Tagged(f) then Vid(f) else s.ports[p].vlanuntag;
    if Tagged(f) && !(v in s.member && p in s.member[v]) then None
    else if !Tagged(f) && v == NOVLAN then None
    else if v in s.blocked && p in s.blocked[v] then None
    else Some(v)
  }

  /** The source address is learned unless it is a group address. */
  function LearnSource(s: State, p: nat, v: nat, f: Frame): State
    requires |f| >= MINFRAME
  {
    if IsBroadcast(Source(f)) then s
    else s.(learned := Learn(s.learned, ExtMac(Source(f), v), p, s.now, s.minPersistence))
  }

  /** The members of a set below n, in increasing order. */
  function Ascending(a: set<nat>, n: nat): seq<nat> {
    if n == 0 then [] else Ascending(a, n - 1) + if n - 1 in a then [n - 1] else []
  }

  function Copies(to: seq<nat>, f: Frame): (r: seq<Send>)
    ensures |r| == |to| && forall i :: 0 <= i < |to| ==> r[i] == Send(to[i], f)
  {
    seq(|to|, i requires 0 <= i < |to| => Send(to[i], f))
  }

  /** Flooding: an untouched copy to the members of the frame's own tagness, then a copy of
      the stripped frame to the others. */
  function Flood(s: State, p: nat, v: nat, f: Frame): seq<Send>
    requires v in s.member && |f| >= MINFRAME
  {
    var tag, untag := Ascending(TagSet(s, v) - {p}, s.numports), Ascending(UntagSet(s, v) - {p}, s.numports);
    if Tagged(f) then Copies(tag, f) + Copies(untag, Strip(f))
    else Copies(untag, f) + Copies(tag, Strip(f))
  }

  function Unicast(s: State, t: nat, v: nat, f: Frame): Send
    requires t in s.ports && |f| >= MINFRAME
  {
    var untag := s.ports[t].vlanuntag == v;
    Send(t, if Tagged(f) == !untag then f else if untag then Strip(f) else InsertAsWritten(f, v))
  }

  /** Forwarding of a frame accepted in VLAN v, once its source is learned. */
  function Forward(s: State, p: nat, v: nat, f: Frame): seq<Send>
    requires Inv(s) && v in s.member && |f| >= MINFRAME
  {
    var key := ExtMac(Dest(f), v);
    if IsBroadcast(Dest(f)) || key !in s.learned then Flood(s, p, v, f)
    else if s.learned[key].port == p then []
    else
      assert Reachable(s, VlanOf(key), s.learned[key].port);
      [Unicast(s, s.learned[key].port, v, f)]
  }

  /** A hub repeats the frame to every other port but port 0, attached or not. */
  function Repeat(s: State, p: nat, f: Frame): seq<Send> {
    Copies(Ascending(s.ports.Keys - {0, p}, s.numports), f)
  }

  datatype Handled = Handled(state: State, sends: seq<Send>)

  /** handle_in_packet, after padding. */
  function HandleIn(s: State, p: nat, f: Frame): (r: Handled)
    requires Inv(s) && Active(s, p) && |f| >= MINFRAME
    ensures Inv(r.state)
  {
    if s.hub then Handled(s, Repeat(s, p, f))
    else
      match Ingress(s, p, f)
      case None => Handled(s, [])
      case Some(v) =>
        IngressReachable(s, p, f);
        LearnKeeps(s, p, v, f);
        var s1 := LearnSource(s, p, v, f);
        Handled(s1, Forward(s1, p, v, f))
  }

  lemma IngressReachable(s: State, p: nat, f: Frame)
    requires Inv(s) && Active(s, p) && |f| >= MINFRAME && Ingress(s, p, f).Some?
    ensures Reachable(s, Ingress(s, p, f).value, p)
  {
  }

  lemma LearnKeeps(s: State, p: nat, v: nat, f: Frame)
    requires Inv(s) && Reachable(s, v, p) && |f| >= MINFRAME
    ensures Inv(LearnSource(s, p, v, f))
  {
    KeyVlan(Source(f), v);
    LearnOne(s, ExtMac(Source(f), v), p);
  }

  lemma LearnOne(s: State, key: nat, p: nat)
    requires Inv(s) && Reachable(s, VlanOf(key), p)
    ensures Inv(s.(learned := Learn(s.learned, key, p, s.now, s.minPersistence)))
  {
    var s1 := s.(learned := Learn(s.learned, key, p, s.now, s.minPersistence));
    forall k | k in s1.learned
      ensures Reachable(s1, VlanOf(k), s1.learned[k].port)
    {
      if k in s.learned { assert Reachable(s, VlanOf(k), s.learned[k].port); }
    }
  }
}
