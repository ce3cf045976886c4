/** What each command does, and what it leaves alone, said by ports, members and addresses. */
module SwitchEffects {
  import opened KeyPacking
  import opened Learning
  import opened SwitchSpec
  import opened SwitchSafety

  /** Exactly the addresses learned on port p are gone. */
  ghost predicate OnlyFlushed(was: Table, now: Table, p: nat) {
    && (forall k :: k in now <==> k in was && was[k].port != p)
    && (forall k :: k in now ==> now[k] == was[k])
  }

  ghost predicate OtherPortsSame(was: Ports, now: Ports, p: nat) {
    forall q :: q != p ==> (q in now <==> q in was) && (q in now ==> now[q] == was[q])
  }

  /** Apart from port p in VLAN v, every VLAN has the members it had. */
  ghost predicate OthersSame(was: map<nat, set<nat>>, now: map<nat, set<nat>>, v: nat, p: nat) {
    && now.Keys == was.Keys
    && forall w, q :: w in was && !(w == v && q == p) ==> (q in now[w] <==> q in was[w])
  }

  // ----- ports -----

  lemma SetNumPortsDoes(s: State, n: int)
    requires PortsOk(s)
    ensures var r := SetNumPorts(s, n);
      if n <= 0 then r == Outcome(s, EINVAL)
      else if exists p :: p in s.ports && p >= n then r == Outcome(s, EADDRINUSE)
      else r == Outcome(s.(numports := n % 65536), OK)
  {
  }

  lemma SetHubDoes(s: State, n: int)
    ensures SetHub(s, n).code == OK && SetHub(s, n).state == s.(hub := SetHub(s, n).state.hub)
    ensures SetHub(s, n).state.hub <==> n != 0
  {
  }

  /** The port takes the VLAN untagged and is a member of it, has left the one before, and
      its addresses are flushed; NOVLAN, which is 4095, leaves it without one. */
  lemma SetVlanDoes(s: State, port: int, vlan: int)
    requires Inv(s)
    ensures var r := SetVlan(s, port, vlan); var t := r.state;
      if vlan < 0 || vlan > 4095 || port < 0 || port >= s.numports then r == Outcome(s, EINVAL)
      else if port !in s.ports || (vlan != 4095 && vlan !in s.member) then r == Outcome(s, ENXIO)
      else
        && r.code == OK && t == s.(ports := t.ports, member := t.member, learned := t.learned)
        && OtherPortsSame(s.ports, t.ports, port)
        && port in t.ports && t.ports[port] == s.ports[port].(vlanuntag := vlan)
        && t.member.Keys == s.member.Keys
        && (forall v, q :: v in s.member ==>
              (q in t.member[v] <==>
                if q != port then q in s.member[v]
                else v == vlan || (v != s.ports[port].vlanuntag && q in s.member[v])))
        && OnlyFlushed(s.learned, t.learned, port)
  {
  }

  /** An index from 1 up that an endpoint without a port of its own may have. */
  predicate Free(s: State, i: nat) {
    1 <= i < s.numports && (i !in s.ports || (s.ports[i].eps == [] && !s.ports[i].notInPool))
  }

  /** The port that alloc_port names: the one asked for, or the lowest free one for 0; port 1
      when that is out of range. */
  lemma AllocNames(s: State, portno: nat)
    requires s.numports > 0
    ensures var k := AllocPort(s, portno).1;
      if portno != 0 then k == (if portno < s.numports then portno else 1)
      else if exists i :: Free(s, i) then Free(s, k) && forall i :: Free(s, i) ==> k <= i
      else k == 1
  {
    FirstFreeLowest(s, 1);
    if portno == 0 {
      var k := FirstFree(s, 1);
      if k < s.numports { assert Free(s, k); }
      forall i | Free(s, i)
        ensures k <= i
      {
      }
    }
  }

  /** A port that did not exist is made, idle, in the pool and a member of VLAN 0 only,
      unless the number asked for is out of range; otherwise nothing changes. */
  lemma AllocDoes(s: State, portno: nat)
    requires Inv(s) && s.numports > 0
    ensures var (t, k) := AllocPort(s, portno);
      var inRange := if portno == 0 then exists i :: Free(s, i) else portno < s.numports;
      if inRange && k !in s.ports then
        && t == s.(ports := t.ports, member := t.member)
        && OtherPortsSame(s.ports, t.ports, k) && OthersSame(s.member, t.member, 0, k)
        && k in t.ports && t.ports[k] == Port([], false, 0, 0xffff_ffff)
        && k in t.member[0] && forall v :: v in t.member && v != 0 ==> k !in t.member[v]
      else t == s
  {
    AllocNames(s, portno);
    FirstFreeLowest(s, 1);
    if portno == 0 {
      var k := FirstFree(s, 1);
      if k < s.numports { assert Free(s, k); }
    }
  }

  lemma ReserveDoes(s: State, portno: nat)
    requires Inv(s) && Resolvable(s, portno)
    ensures var (a, k) := AllocPort(s, portno); var r := PortReserve(s, portno); var t := r.state;
      && k in a.ports && r.code == OK && t == a.(ports := t.ports)
      && OtherPortsSame(a.ports, t.ports, k)
      && k in t.ports && t.ports[k] == a.ports[k].(notInPool := true)
  {
    AllocKeeps(s, portno);
  }

  lemma PortCreateDoes(s: State, n: int)
    requires Inv(s) && (n >= 0 ==> Resolvable(s, n))
    ensures var r := PortCreate(s, n);
      && (n < 0 || n >= s.numports ==> r == Outcome(s, EINVAL))
      && (0 <= n < s.numports && n in s.ports ==> r == Outcome(s, EEXIST))
      && (0 < n < s.numports && n !in s.ports ==>
            && r.code == OK && n in r.state.ports && r.state.ports[n] == Port([], true, 0, 0xffff_ffff)
            && OtherPortsSame(s.ports, r.state.ports, n))
  {
    if 0 < n < s.numports && n !in s.ports {
      AllocDoes(s, n);
      ReserveDoes(s, n);
      AllocNames(s, n);
    }
  }

  /** An idle port is gone, from every VLAN; an active one, or none, is left alone. */
  lemma FreePortDoes(s: State, p: nat)
    requires Inv(s)
    ensures var t := FreePort(s, p);
      if p in s.ports && s.ports[p].eps == [] then
        && t == s.(ports := t.ports, member := t.member)
        && p !in t.ports && OtherPortsSame(s.ports, t.ports, p)
        && t.member.Keys == s.member.Keys
        && forall v, q :: v in s.member ==> (q in t.member[v] <==> q in s.member[v] && q != p)
      else t == s
  {
  }

  /** A port is in the pool from then on if and only if the value is not 0. */
  lemma AllocatableDoes(s: State, port: int, value: int)
    ensures var r := PortAllocatable(s, port, value); var t := r.state;
      if port < 0 || port >= s.numports then r == Outcome(s, EINVAL)
      else if port !in s.ports then r == Outcome(s, ENXIO)
      else
        && r.code == OK && t == s.(ports := t.ports) && OtherPortsSame(s.ports, t.ports, port)
        && port in t.ports && t.ports[port] == s.ports[port].(notInPool := t.ports[port].notInPool)
        && (t.ports[port].notInPool <==> value == 0)
  {
  }

  // ----- VLANs -----

  lemma VlanCreateDoes(s: State, v: int)
    requires Inv(s)
    ensures var r := VlanCreate(s, v); var t := r.state;
      if v < 1 || v > 4093 then r == Outcome(s, EINVAL)
      else if v in s.member then r == Outcome(s, EEXIST)
      else
        && r.code == OK && t == s.(member := t.member, blocked := t.blocked)
        && t.member.Keys == s.member.Keys + {v} == t.blocked.Keys && t.member[v] == t.blocked[v] == {}
        && forall w :: w in s.member ==> t.member[w] == s.member[w] && t.blocked[w] == s.blocked[w]
  {
  }

  lemma VlanRemoveDoes(s: State, v: int)
    requires Inv(s)
    ensures var r := VlanRemove(s, v); var t := r.state;
      if v < 0 || v > 4094 then r == Outcome(s, EINVAL)
      else if v !in s.member then r == Outcome(s, ENXIO)
      else if exists p :: p in s.member[v] then r == Outcome(s, EADDRINUSE)
      else
        && r.code == OK && t == s.(member := t.member, blocked := t.blocked)
        && t.member.Keys == s.member.Keys - {v} == t.blocked.Keys
        && forall w :: w in t.member ==> t.member[w] == s.member[w] && t.blocked[w] == s.blocked[w]
  {
    if v in s.member && s.member[v] != {} {
      var p :| p in s.member[v];
    }
  }

  lemma VlanAddPortDoes(s: State, v: int, p: int)
    requires Inv(s)
    ensures var r := VlanAddPort(s, v, p); var t := r.state;
      if v < 0 || v > 4093 || p < 0 || p >= s.numports then r == Outcome(s, EINVAL)
      else if v !in s.member || p !in s.ports then r == Outcome(s, ENXIO)
      else
        && r.code == OK && t == s.(member := t.member)
        && OthersSame(s.member, t.member, v, p) && p in t.member[v]
        && (p in TagSet(t, v) <==> Active(s, p) && s.ports[p].vlanuntag != v)
  {
  }

  /** The port has left the VLAN, its tagged and untagged broadcasts included, and its
      addresses are flushed; the VLAN that it takes untagged it cannot leave. */
  lemma VlanDelPortDoes(s: State, v: int, p: int)
    requires Inv(s)
    ensures var r := VlanDelPort(s, v, p); var t := r.state;
      if v < 0 || v > 4093 || p < 0 || p >= s.numports then r == Outcome(s, EINVAL)
      else if v !in s.member || p !in s.ports then r == Outcome(s, ENXIO)
      else if s.ports[p].vlanuntag == v then r == Outcome(s, EADDRINUSE)
      else
        && r.code == OK && t == s.(member := t.member, learned := t.learned)
        && OthersSame(s.member, t.member, v, p)
        && p !in t.member[v] && p !in TagSet(t, v) && p !in UntagSet(t, v)
        && OnlyFlushed(s.learned, t.learned, p)
  {
  }

  /** Every other port is flooded the VLANs that it was, and this one the other VLANs. */
  lemma DelPortBroadcasts(s: State, v: int, p: int)
    requires Inv(s) && VlanDelPort(s, v, p).code == OK
    ensures var t := VlanDelPort(s, v, p).state;
      && UntagSet(t, v) == UntagSet(s, v) && TagSet(t, v) == TagSet(s, v) - {p}
      && forall w :: w in s.member && w != v ==> TagSet(t, w) == TagSet(s, w) && UntagSet(t, w) == UntagSet(s, w)
  {
    var t := VlanDelPort(s, v, p).state;
    VlanDelPortDoes(s, v, p);
    forall w | w in s.member
      ensures UntagSet(t, w) == UntagSet(s, w)
      ensures TagSet(t, w) == if w == v then TagSet(s, w) - {p} else TagSet(s, w)
    {
    }
  }

  /** Adding a port to a VLAN that it is not in and deleting it again leaves the members as
      they were. */
  lemma AddThenDel(s: State, v: int, p: int)
    requires Inv(s) && VlanAddPort(s, v, p).code == OK && p !in s.member[v]
    ensures var r := VlanDelPort(VlanAddPort(s, v, p).state, v, p);
      r.code == OK && r.state == s.(learned := r.state.learned)
  {
    var t := VlanAddPort(s, v, p).state;
    assert s.member[v] + {p} - {p} == s.member[v];
    assert VlanDelPort(t, v, p).state.member == s.member;
  }

  // ----- endpoints -----

  /** An endpoint is let in for the user that has the port, or at an idle port when access is
      permitted. It becomes the first endpoint of the port; a refusal changes nothing. */
  lemma SetupAtDoes(s: State, p: nat, ep: Endpoint, user: nat, permitted: bool)
    requires Inv(s) && NothingBlocked(s) && p in s.ports
    ensures var r := SetupAt(s, p, ep, user, permitted); var t := r.state; var port := s.ports[p];
      if port.curuser == user || (port.eps == [] && permitted) then
        && r.code == OK && t == s.(ports := t.ports) && OtherPortsSame(s.ports, t.ports, p)
        && p in t.ports && t.ports[p] == port.(eps := [ep] + port.eps, curuser := user)
      else r == Outcome(s, EADDRINUSE)
  {
    var port := s.ports[p];
    assert s.ports[p := port] == s.ports;
    if port.vlanuntag in s.blocked {
      assert s.blocked[port.vlanuntag] - {p} == s.blocked[port.vlanuntag];
      assert s.blocked[port.vlanuntag := s.blocked[port.vlanuntag]] == s.blocked;
    }
  }

  /** Attaching is that at the port which alloc_port names, made first if need be. */
  lemma SetupDoes(s: State, portno: nat, ep: Endpoint, user: nat, permitted: bool)
    requires Inv(s) && NothingBlocked(s) && Resolvable(s, portno)
    ensures var (a, p) := AllocPort(s, portno);
      var r := SetupEp(s, portno, ep, user, permitted); var t := r.state;
      && p in a.ports
      && var port := a.ports[p];
         if port.curuser == user || (port.eps == [] && permitted) then
           && r.code == OK && t == a.(ports := t.ports) && OtherPortsSame(a.ports, t.ports, p)
           && p in t.ports && t.ports[p] == port.(eps := [ep] + port.eps, curuser := user)
         else r == Outcome(a, EADDRINUSE)
  {
    AllocKeeps(s, portno);
    var (a, p) := AllocPort(s, portno);
    SetupAtDoes(a, p, ep, user, permitted);
  }

  lemma {:induction false} RemoveEpAt(eps: seq<Endpoint>, fd: int, i: nat)
    requires i < |eps| && eps[i].fdCtl == fd && forall j :: 0 <= j < i ==> eps[j].fdCtl != fd
    ensures RemoveEp(eps, fd) == eps[..i] + eps[i + 1..]
  {
    if i > 0 { RemoveEpAt(eps[1..], fd, i - 1); }
  }

  lemma {:induction false} RemoveEpNone(eps: seq<Endpoint>, fd: int)
    requires forall j :: 0 <= j < |eps| ==> eps[j].fdCtl != fd
    ensures RemoveEp(eps, fd) == eps
  {
    if eps != [] { RemoveEpNone(eps[1..], fd); }
  }

  /** The first endpoint with the descriptor goes, and no other. */
  lemma CloseDoes(s: State, portno: nat, fd: int, i: nat)
    requires Inv(s) && portno in s.ports && i < |s.ports[portno].eps|
    requires s.ports[portno].eps[i].fdCtl == fd
    requires forall j :: 0 <= j < i ==> s.ports[portno].eps[j].fdCtl != fd
    ensures var r := CloseEp(s, portno, fd); var t := r.state;
      var port := s.ports[portno]; var left := port.eps[..i] + port.eps[i + 1..];
      && r.code == OK && t == s.(ports := t.ports, learned := t.learned)
      && OtherPortsSame(s.ports, t.ports, portno) && portno in t.ports
      && if left == [] then
           t.ports[portno] == port.(eps := [], curuser := 0xffff_ffff) && OnlyFlushed(s.learned, t.learned, portno)
         else t.ports[portno] == port.(eps := left) && t.learned == s.learned
  {
    var port := s.ports[portno];
    RemoveEpAt(port.eps, fd, i);
    assert HasEp(port.eps, fd);
  }

  /** Without such an endpoint, or such a port, the answer is an error; an active port, and
      every other, is as it was. */
  lemma CloseMisses(s: State, portno: nat, fd: int)
    requires Inv(s) && (portno in s.ports ==> forall e :: e in s.ports[portno].eps ==> e.fdCtl != fd)
    ensures var r := CloseEp(s, portno, fd);
      && r.code == (if portno >= s.numports then EINVAL else ENXIO)
      && (!Active(s, portno) && portno in s.ports ==>
            r.state == s.(ports := s.ports[portno := s.ports[portno].(curuser := 0xffff_ffff)]))
      && (Active(s, portno) || portno !in s.ports ==> r.state == s)
  {
    if portno in s.ports {
      var port := s.ports[portno];
      RemoveEpNone(port.eps, fd);
      assert s.ports[portno := port] == s.ports;
      if port.eps == [] {
        forall k | k in s.learned
          ensures s.learned[k].port != portno
        {
          assert Reachable(s, VlanOf(k), s.learned[k].port);
        }
        assert Without(s.learned, DeletePort(portno)) == s.learned;
      }
    }
  }

  // ----- time, and the table as a whole -----

  lemma TimeDoes(s: State, n: int)
    requires Inv(s)
    ensures Step(s, Tick) == s.(now := s.now + 1)
    ensures Step(s, MinPersistence(n)) == s.(minPersistence := n)
    ensures Step(s, HashFlush) == s.(learned := map[])
  {
  }

  /** The collection removes exactly the addresses last seen more than `expire` ago. */
  lemma ExpireDoes(s: State, expire: int)
    requires Inv(s)
    ensures var t := Step(s, Expire(expire));
      && t == s.(learned := t.learned)
      && (forall k :: k in t.learned <==> k in s.learned && s.now - s.learned[k].lastSeen <= expire)
      && (forall k :: k in t.learned ==> t.learned[k] == s.learned[k])
  {
    WithoutIs(s.learned, 0, s.now, expire);
  }
}
