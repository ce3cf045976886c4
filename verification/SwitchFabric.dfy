/** The running switch: port structures, per-VLAN bit arrays and the learning table, updated
    in place. Each method performs the steps of a command and is tied to what the command
    means on the abstract switch, whose invariant it keeps. */
module SwitchFabric {
  import opened Words
  import opened KeyPacking
  import opened Learning
  import opened Frames
  import opened SwitchSpec
  import opened VlanTables
  import opened FabricTables
  import opened SwitchSafety
  import BitArray
  import ChainedHash
  import opened Maybes

  class Switch {
    var numports: nat
    var portv: map<nat, Port>     // an index that is not in the map is a NULL pointer
    var vlant: Tables
    var validvlan: seq<Word>
    var hub: bool
    var qtime: int
    var minPersistence: int
    const hash: ChainedHash.HashTable
    ghost var member: map<nat, set<nat>>     // what the bit arrays say
    ghost var blocked: map<nat, set<nat>>

    ghost function Repr(): set<object>
      reads hash`head, hash`nodes
    {
      {this} + hash.Footprint()
    }

    /** The abstract switch that this one represents. */
    ghost function Abs(): State
      reads `numports, `portv, `member, `blocked, `hub, `qtime, `minPersistence, hash`table
    {
      State(numports, portv, member, blocked, hash.table, hub, qtime, minPersistence)
    }

    ghost predicate Valid()
      reads this, hash, hash.Footprint()
    {
      && hash.Valid()
      && 0 < numports <= 0xffff
      && Inv(Abs())
      && TablesOk(vlant, validvlan, numports, Abs())
    }

    /** port_init, with a port count that the command line accepts, beside a learning table
        that HASH_INIT has just emptied. */
    constructor (init: nat, table: ChainedHash.HashTable)
      requires 0 < init <= 0xffff && table.Valid() && table.table == map[]
      ensures Valid() && hash == table && Abs() == Init(init)
    {
      numports, portv := init, map[];
      vlant := Create(map[], init, 0);
      validvlan := FirstVlan();
      hub, qtime, minPersistence := false, 0, 3;
      hash := table;
      member, blocked := map[0 := {}], map[0 := {}];
      new;
      FirstTables(init);
      InitKeeps(init);
    }

    lemma Sound(next: State)
      requires hash.Valid() && 0 < numports <= 0xffff && Abs() == next
      requires Inv(next) && TablesOk(vlant, validvlan, numports, next)
      ensures Valid()
    {
    }

    /** The bit arrays do not depend on what has been learned. */
    lemma TablesStay(next: State)
      requires Valid() && next == Abs().(learned := next.learned)
      ensures TablesOk(vlant, validvlan, numports, next)
    {
      SameTables(vlant, validvlan, numports, Abs(), next);
    }

    /** The switch's own tables are written: what they say of the next state is in order, and
        the learning table is not disturbed. */
    method Install(t: Tables, valid: seq<Word>, ports: Ports, ghost next: State)
      requires hash.Valid() && 0 < numports <= 0xffff
      requires next == Abs().(ports := ports, member := next.member, blocked := next.blocked)
      requires Inv(next) && TablesOk(t, valid, numports, next)
      modifies `vlant, `validvlan, `portv, `member, `blocked
      ensures Valid() && Abs() == next
    {
      Store(t, valid, ports, next.member, next.blocked);
      hash.Undisturbed();
      Sound(next);
    }

    method Store(t: Tables, valid: seq<Word>, ports: Ports,
                 ghost member: map<nat, set<nat>>, ghost blocked: map<nat, set<nat>>)
      modifies `vlant, `validvlan, `portv, `member, `blocked
      ensures vlant == t && validvlan == valid && portv == ports
      ensures this.member == member && this.blocked == blocked
    {
      vlant, validvlan, portv, this.member, this.blocked := t, valid, ports, member, blocked;
    }

    /** The same when the learning table is yet to be flushed of the port concerned. */
    method InstallAndFlush(t: Tables, port: nat, ghost next: State)
      requires hash.Valid() && 0 < numports <= 0xffff
      requires next == Abs().(member := next.member, learned := Without(Abs().learned, DeletePort(port)))
      requires Inv(next) && TablesOk(t, validvlan, numports, next)
      modifies Repr()
      ensures Valid() && Repr() == old(Repr()) && Abs() == next
    {
      vlant, member := t, next.member;
      hash.Undisturbed();
      FlushPort(port);
    }

    /** hash_delete_port does not disturb the switch's own fields. */
    method FlushPort(port: nat)
      requires hash.Valid()
      modifies hash.Footprint()
      ensures hash.Valid() && hash.Footprint() == old(hash.Footprint())
      ensures Abs() == old(Abs()).(learned := Without(old(Abs()).learned, DeletePort(port)))
      ensures unchanged(this)
    {
      hash.DeletePort(port);
    }

    method PortSetVlan(port: int, vlan: int) returns (code: Code)
      requires Valid()
      modifies Repr()
      ensures Valid() && Repr() == old(Repr())
      ensures Outcome(Abs(), code) == SetVlan(old(Abs()), port, vlan)
    {
      if vlan < 0 || vlan > NUMOFVLAN || port < 0 || port >= numports { return EINVAL; }
      ValidVlanIs(vlant, validvlan, numports, Abs(), vlan);
      if (vlan != NOVLAN && !BitArray.Check(validvlan, vlan)) || port !in portv { return ENXIO; }
      MoveToVlan(port, vlan);
      code := OK;
    }

    method MoveToVlan(port: nat, vlan: nat)
      requires Valid() && port in portv && (vlan == NOVLAN || vlan in member)
      modifies Repr()
      ensures Valid() && Repr() == old(Repr())
      ensures Abs() == Moved(old(Abs()), port, vlan)
    {
      ghost var next := Moved(Abs(), port, vlan);
      var t := Detach(port, vlan, next);
      Install(t, validvlan, SetUntag(portv, port, vlan), next);
    }

    /** The flush of the port's addresses, and the bit arrays that follow. */
    method Detach(port: nat, vlan: nat, ghost next: State) returns (t: Tables)
      requires Valid() && port in portv && (vlan == NOVLAN || vlan in member) && next == Moved(Abs(), port, vlan)
      modifies hash.Footprint()
      ensures hash.Valid() && hash.Footprint() == old(hash.Footprint()) && unchanged(this)
      ensures Inv(next) && TablesOk(t, validvlan, numports, next)
      ensures next == Abs().(ports := SetUntag(portv, port, vlan), member := next.member, blocked := next.blocked)
    {
      ghost var s := Abs();
      MovedKeeps(s, port, vlan);
      FlushPort(port);
      t := MovedTables(port, vlan, s, next);
    }

    /** The bit operations of portsetvlan. */
    method MovedTables(port: nat, vlan: nat, ghost s: State, ghost next: State) returns (t: Tables)
      requires Inv(s) && TablesOk(vlant, validvlan, numports, s) && portv == s.ports && port < numports
      requires port in s.ports && (vlan == NOVLAN || vlan in s.member) && next == Moved(s, port, vlan)
      requires hash.Valid()
      ensures TablesOk(t, validvlan, numports, next)
      ensures hash.Valid() && hash.Footprint() == old(hash.Footprint()) && Abs() == old(Abs())
    {
      var rec := portv[port];
      t := SetVlanTables(vlant, validvlan, numports, rec.eps != [], rec.vlanuntag, vlan, port, s);
    }

    /** portsetnumports. Reallocation stays inside the old and new blocks when the new one
        has at least as many words. */
    method PortSetNumPorts(n: int, mask: Word) returns (code: Code)
      requires Valid() && n <= 0xffff
      requires n > 0 ==> BitArray.Round(numports) <= BitArray.Round(n)
      requires forall j: nat :: j <= (numports - 1) % 32 ==> Bit(mask, j)
      requires n > 0 ==> forall v, p :: v in blocked && p in blocked[v] ==> p < n
      modifies `vlant, `numports
      ensures Valid() && Repr() == old(Repr())
      ensures Outcome(Abs(), code) == SetNumPorts(old(Abs()), n)
    {
      if n <= 0 { return EINVAL; }
      var index := n;
      while index < numports
        invariant n <= index
        invariant forall p :: n <= p < index ==> p !in portv
      {
        if index in portv { return EADDRINUSE; }
        index := index + 1;
      }
      Renumbered(Abs(), n);
      ResizeTo(n, mask);
      code := OK;
    }

    method ResizeTo(n: nat, mask: Word)
      requires Valid() && 0 < n <= 0xffff && Inv(Abs().(numports := n))
      requires BitArray.Round(numports) <= BitArray.Round(n)
      requires forall j: nat :: j <= (numports - 1) % 32 ==> Bit(mask, j)
      requires forall v, p :: v in blocked && p in blocked[v] ==> p < n
      modifies `vlant, `numports
      ensures Valid() && Repr() == old(Repr()) && Abs() == old(Abs()).(numports := n)
    {
      var t := ResizeTables(vlant, validvlan, numports, n, mask, Abs());
      Renumber(t, n);
    }

    method Renumber(t: Tables, n: nat)
      requires hash.Valid() && 0 < n <= 0xffff
      requires Inv(Abs().(numports := n)) && TablesOk(t, validvlan, n, Abs().(numports := n))
      modifies `vlant, `numports
      ensures Valid() && Repr() == old(Repr()) && Abs() == old(Abs()).(numports := n)
    {
      vlant, numports := t, n;
      hash.Undisturbed();
    }

    method PortSetHub(n: int) returns (code: Code)
      requires Valid()
      modifies `hub
      ensures Valid() && Repr() == old(Repr())
      ensures Outcome(Abs(), code) == SetHub(old(Abs()), n)
    {
      ghost var s := Abs();
      ghost var next := SetHub(s, n).state;
      SameReach(s, next);
      SameTables(vlant, validvlan, numports, s, next);
      hub := n != 0;
      hash.Undisturbed();
      Sound(next);
      code := OK;
    }

    /** alloc_port: its result, and a new port structure in VLAN 0 if there was none. */
    method Alloc(portno: nat) returns (index: nat)
      requires Valid()
      modifies `vlant, `validvlan, `portv, `member, `blocked
      ensures Valid() && Repr() == old(Repr())
      ensures (Abs(), index) == AllocPort(old(Abs()), portno)
    {
      ghost var s := Abs();
      index := portno;
      if index == 0 {
        index := 1;
        while index < numports && index in portv && (portv[index].eps != [] || portv[index].notInPool)
          invariant FirstFree(s, 1) == FirstFree(s, index)
          decreases numports - index
        {
          index := index + 1;
        }
      }
      if index >= numports { return 1; }
      if index !in portv {
        AllocKeeps(s, portno);
        Enter(index);
      }
    }

    method Enter(p: nat)
      requires Valid() && p < numports && p !in portv
      requires Inv(Abs().(ports := NewPort(portv, p), member := Join(member, 0, p)))
      modifies `vlant, `validvlan, `portv, `member, `blocked
      ensures Valid() && Repr() == old(Repr())
      ensures Abs() == old(Abs()).(ports := NewPort(old(portv), p), member := Join(old(member), 0, p))
    {
      ghost var s := Abs();
      ghost var next := s.(ports := NewPort(portv, p), member := Join(member, 0, p));
      var t := NewPortTables(vlant, validvlan, numports, p, s, next);
      hash.Undisturbed();
      Install(t, validvlan, NewPort(portv, p), next);
    }

    /** A change to a port structure that the bit arrays do not depend on. */
    method SetPorts(ports: Ports, ghost next: State)
      requires Valid() && next == Abs().(ports := ports) && Inv(next) && SameView(Abs(), next)
      modifies `vlant, `validvlan, `portv, `member, `blocked
      ensures Valid() && Repr() == old(Repr()) && Abs() == next
    {
      SameTables(vlant, validvlan, numports, Abs(), next);
      Install(vlant, validvlan, ports, next);
    }

    method PortCreate(n: int) returns (code: Code)
      requires Valid() && (n >= 0 ==> Resolvable(Abs(), n))
      modifies `vlant, `validvlan, `portv, `member, `blocked
      ensures Valid() && Repr() == old(Repr())
      ensures Outcome(Abs(), code) == SwitchSpec.PortCreate(old(Abs()), n)
    {
      if n < 0 || n >= numports { return EINVAL; }
      if n in portv { return EEXIST; }
      Reserve(n);
      code := OK;
    }

    /** portcreateauto is Reserve(0). */
    method Reserve(portno: nat)
      requires Valid() && Resolvable(Abs(), portno)
      modifies `vlant, `validvlan, `portv, `member, `blocked
      ensures Valid() && Repr() == old(Repr())
      ensures Abs() == PortReserve(old(Abs()), portno).state
    {
      ghost var s := Abs();
      AllocKeeps(s, portno);
      ReserveKeeps(s, portno);
      var p := Alloc(portno);
      PoolView(Abs(), p, true);
      SetPorts(SetPool(portv, p, true), PortReserve(s, portno).state);
    }

    method PortAllocatable(port: int, value: int) returns (code: Code)
      requires Valid()
      modifies `vlant, `validvlan, `portv, `member, `blocked
      ensures Valid() && Repr() == old(Repr())
      ensures Outcome(Abs(), code) == SwitchSpec.PortAllocatable(old(Abs()), port, value)
    {
      if port < 0 || port >= numports { return EINVAL; }
      if port !in portv { return ENXIO; }
      AllocatableKeeps(Abs(), port, value);
      PoolView(Abs(), port, value == 0);
      SetPorts(SetPool(portv, port, value == 0), SwitchSpec.PortAllocatable(Abs(), port, value).state);
      code := OK;
    }

    method FreePort(p: nat)
      requires Valid()
      modifies `vlant, `validvlan, `portv, `member, `blocked
      ensures Valid() && Repr() == old(Repr())
      ensures Abs() == SwitchSpec.FreePort(old(Abs()), p)
    {
      if p < numports && p in portv && portv[p].eps == [] {
        ghost var s := Abs();
        ghost var next := SwitchSpec.FreePort(s, p);
        FreeKeeps(s, p);
        var t := FreeTables(vlant, validvlan, numports, p, s);
        hash.Undisturbed();
        Install(t, validvlan, portv - {p}, next);
      }
    }

    method VlanCreate(v: int) returns (code: Code)
      requires Valid()
      modifies `vlant, `validvlan, `portv, `member, `blocked
      ensures Valid() && Repr() == old(Repr())
      ensures Outcome(Abs(), code) == SwitchSpec.VlanCreate(old(Abs()), v)
    {
      if v <= 0 || v >= NUMOFVLAN - 1 { return EINVAL; }
      ghost var s := Abs();
      ValidVlanIs(vlant, validvlan, numports, s, v);
      if BitArray.Check(validvlan, v) { return EEXIST; }
      NewVlan(v);
      code := OK;
    }

    method NewVlan(v: nat)
      requires Valid() && 0 < v < NUMOFVLAN - 1 && v !in member
      modifies `vlant, `validvlan, `portv, `member, `blocked
      ensures Valid() && Repr() == old(Repr())
      ensures Abs() == SwitchSpec.VlanCreate(old(Abs()), v).state
    {
      ghost var s := Abs();
      ghost var next := SwitchSpec.VlanCreate(s, v).state;
      VlanCreateKeeps(s, v);
      var t, valid := CreateTables(vlant, validvlan, numports, v, s);
      hash.Undisturbed();
      Install(t, valid, portv, next);
    }

    method VlanRemove(v: int) returns (code: Code)
      requires Valid() && v != 0
      modifies `vlant, `validvlan, `portv, `member, `blocked
      ensures Valid() && Repr() == old(Repr())
      ensures Outcome(Abs(), code) == SwitchSpec.VlanRemove(old(Abs()), v)
    {
      if v < 0 || v >= NUMOFVLAN { return EINVAL; }
      ghost var s := Abs();
      ValidVlanIs(vlant, validvlan, numports, s, v);
      if !BitArray.Check(validvlan, v) { return ENXIO; }
      var used := InUse(vlant, validvlan, numports, v, s);
      if used { return EADDRINUSE; }
      DropVlan(v);
      code := OK;
    }

    method DropVlan(v: nat)
      requires Valid() && 0 < v < NUMOFVLAN && v in member && member[v] == {}
      modifies `vlant, `validvlan, `portv, `member, `blocked
      ensures Valid()
      ensures Abs() == old(Abs()).(member := old(Abs()).member - {v}, blocked := old(Abs()).blocked - {v})
    {
      ghost var s := Abs();
      ghost var next := s.(member := s.member - {v}, blocked := s.blocked - {v});
      VlanGone(s, v, next);
      assert next == Abs().(ports := portv, member := next.member, blocked := next.blocked);
      var t, valid := RemoveTables(vlant, validvlan, numports, v, s);
      hash.Undisturbed();
      Install(t, valid, portv, next);
    }

    method VlanAddPort(vlan: int, port: int) returns (code: Code)
      requires Valid()
      modifies `vlant, `validvlan, `portv, `member, `blocked
      ensures Valid() && Repr() == old(Repr())
      ensures Outcome(Abs(), code) == SwitchSpec.VlanAddPort(old(Abs()), vlan, port)
    {
      if vlan < 0 || vlan >= NUMOFVLAN - 1 || port < 0 || port >= numports { return EINVAL; }
      ghost var s := Abs();
      ValidVlanIs(vlant, validvlan, numports, s, vlan);
      if !BitArray.Check(validvlan, vlan) || port !in portv { return ENXIO; }
      AddMember(vlan, port);
      code := OK;
    }

    method AddMember(vlan: nat, port: nat)
      requires Valid() && vlan < NUMOFVLAN - 1 && vlan in member && port in portv
      modifies `vlant, `validvlan, `portv, `member, `blocked
      ensures Valid()
      ensures Abs() == old(Abs()).(member := Join(old(member), vlan, port))
    {
      ghost var s := Abs();
      ghost var next := s.(member := Join(s.member, vlan, port));
      PortAdded(s, vlan, port, next);
      var tagged := portv[port].eps != [] && portv[port].vlanuntag != vlan;
      assert next == Abs().(ports := portv, member := next.member, blocked := next.blocked);
      var t := AddPortTables(vlant, validvlan, numports, tagged, vlan, port, s, next);
      hash.Undisturbed();
      Install(t, validvlan, portv, next);
    }

    method VlanDelPort(vlan: int, port: int) returns (code: Code)
      requires Valid()
      modifies Repr()
      ensures Valid() && Repr() == old(Repr())
      ensures Outcome(Abs(), code) == SwitchSpec.VlanDelPort(old(Abs()), vlan, port)
    {
      if vlan < 0 || vlan >= NUMOFVLAN - 1 || port < 0 || port >= numports { return EINVAL; }
      ghost var s := Abs();
      ValidVlanIs(vlant, validvlan, numports, s, vlan);
      if !BitArray.Check(validvlan, vlan) || port !in portv { return ENXIO; }
      if portv[port].vlanuntag == vlan { return EADDRINUSE; }
      ghost var next := SwitchSpec.VlanDelPort(s, vlan, port).state;
      VlanDelPortKeeps(s, vlan, port);
      var t := DelPortTables(vlant, validvlan, numports, portv[port].eps != [], vlan, port, s, next);
      hash.Undisturbed();
      InstallAndFlush(t, port, next);
      code := OK;
    }

    // ----- endpoints -----

    /** setup_ep. `permitted` is the answer of checkport_ac. */
    method Attach(portno: nat, ep: Endpoint, user: nat, permitted: bool) returns (code: Code)
      requires Valid() && Resolvable(Abs(), portno)
      modifies `vlant, `validvlan, `portv, `member, `blocked
      ensures Valid() && Repr() == old(Repr())
      ensures Outcome(Abs(), code) == SetupEp(old(Abs()), portno, ep, user, permitted)
    {
      AllocKeeps(Abs(), portno);
      var p := Alloc(portno);
      code := AttachAt(p, ep, user, permitted);
    }

    method AttachAt(p: nat, ep: Endpoint, user: nat, permitted: bool) returns (code: Code)
      requires Valid() && p in portv
      modifies `vlant, `validvlan, `portv, `member, `blocked
      ensures Valid() && Repr() == old(Repr())
      ensures Outcome(Abs(), code) == SetupAt(old(Abs()), p, ep, user, permitted)
    {
      ghost var s := Abs();
      ghost var next := SetupAt(s, p, ep, user, permitted).state;
      SetupAtKeeps(s, p, ep, user, permitted);
      SetupView(s, p, ep, user, permitted);
      var port := portv[p];
      var curuser := if port.eps == [] && permitted then user else port.curuser;
      if curuser != user {
        SetPorts(SetEps(portv, p, port.eps, curuser), next);
        return EADDRINUSE;
      }
      if port.eps == [] {
        OpenPort(p, SetEps(portv, p, [ep] + port.eps, curuser), next);
      } else {
        SetPorts(SetEps(portv, p, [ep] + port.eps, curuser), next);
      }
      code := OK;
    }

    /** The port was inactive: it enters the broadcast sets of its VLANs. */
    method OpenPort(p: nat, ports: Ports, ghost next: State)
      requires Valid() && Opened(Abs(), next, p) && Inv(next)
      requires next == Abs().(ports := ports, blocked := next.blocked)
      modifies `vlant, `validvlan, `portv, `member, `blocked
      ensures Valid() && Repr() == old(Repr()) && Abs() == next
    {
      var t := OpenTables(vlant, validvlan, numports, portv[p].vlanuntag, p, Abs(), next);
      hash.Undisturbed();
      Install(t, validvlan, ports, next);
    }

    /** close_ep_port_fd */
    method Close(portno: nat, fd: int) returns (code: Code)
      requires Valid()
      modifies Repr()
      ensures Valid() && Repr() == old(Repr())
      ensures Outcome(Abs(), code) == CloseEp(old(Abs()), portno, fd)
    {
      if portno >= numports { return EINVAL; }
      if portno !in portv { return ENXIO; }
      ghost var s := Abs();
      ghost var next := CloseEp(s, portno, fd).state;
      CloseKeeps(s, portno, fd);
      var port := portv[portno];
      var eps := RemoveEp(port.eps, fd);
      if eps == [] {
        ShutPort(portno, next);
      } else {
        SetPorts(SetEps(portv, portno, eps, port.curuser), next);
      }
      code := if HasEp(port.eps, fd) then OK else ENXIO;
    }

    /** The port turns inactive: its learned addresses go, and it leaves the broadcast sets. */
    method ShutPort(p: nat, ghost next: State)
      requires Valid() && p in portv && Inv(next)
      requires next == Abs().(ports := SetEps(portv, p, [], NOBODY),
                              learned := Without(Abs().learned, DeletePort(p)))
      modifies Repr()
      ensures Valid() && Repr() == old(Repr()) && Abs() == next
    {
      ghost var s := Abs();
      FlushPort(p);
      var t := ShutTables(vlant, validvlan, numports, portv[p].vlanuntag, p, s, next);
      Install(t, validvlan, SetEps(portv, p, [], NOBODY), next);
    }

    // ----- time, and the learning table as a whole -----

    method Tick()
      requires Valid()
      modifies `qtime, `minPersistence
      ensures Valid() && Repr() == old(Repr()) && Abs() == Step(old(Abs()), Command.Tick)
    {
      Retime(qtime + 1, minPersistence);
    }

    method SetMinPersistence(n: int)
      requires Valid()
      modifies `qtime, `minPersistence
      ensures Valid() && Repr() == old(Repr()) && Abs() == Step(old(Abs()), Command.MinPersistence(n))
    {
      Retime(qtime, n);
    }

    method Retime(time: int, persistence: int)
      requires Valid()
      modifies `qtime, `minPersistence
      ensures Valid() && Repr() == old(Repr())
      ensures Abs() == old(Abs()).(now := time, minPersistence := persistence)
    {
      ghost var s := Abs();
      ghost var next := s.(now := time, minPersistence := persistence);
      SameReach(s, next);
      SameTables(vlant, validvlan, numports, s, next);
      qtime, minPersistence := time, persistence;
      hash.Undisturbed();
      Sound(next);
    }

    /** The garbage collection of winvde_gc.c, as it is meant: entries silent for longer
        than `expire` go. */
    method Gc(expire: int)
      requires Valid()
      modifies hash.Footprint()
      ensures Valid() && Repr() == old(Repr()) && Abs() == Step(old(Abs()), Command.Expire(expire))
    {
      ghost var s := Abs();
      ghost var next := s.(learned := Without(s.learned, Collect(qtime, expire)));
      Expired(s, expire, next);
      TablesStay(next);
      var _ := hash.ForAllHash(Collect(qtime, expire));
      assert Abs() == next;
      Sound(next);
    }

    /** hash_resize: with a positive size the table is emptied. */
    method HashResize(size: int) returns (code: Code)
      requires Valid() && size <= 0x4000_0000
      modifies hash.Footprint()
      ensures Valid() && fresh(Repr() - old(Repr()))
      ensures if size > 0 then code == OK && Abs() == old(Abs()).(learned := map[])
              else code == EINVAL && Abs() == old(Abs())
    {
      if size <= 0 { return EINVAL; }
      Rehash(size);
      code := OK;
    }

    method Rehash(size: nat)
      requires Valid() && 0 < size <= 0x4000_0000
      modifies hash.Footprint()
      ensures Valid() && fresh(Repr() - old(Repr())) && Abs() == old(Abs()).(learned := map[])
    {
      ghost var s := Abs();
      ghost var next := s.(learned := map[]);
      assert next == Step(s, Command.HashFlush);
      StepKeeps(s, Command.HashFlush);
      TablesStay(next);
      hash.Resize(size);
      assert Abs() == next;
      Sound(next);
    }

    // ----- the data path -----

    /** handle_in_packet. The packet lies after the filler of a bipacket buffer. The calls of
        send_packet_port are recorded, in order, with the bytes handed to each. */
    method HandlePacket(p: nat, buf: array<Byte>, len: nat) returns (sends: seq<Send>)
      requires Valid() && Active(Abs(), p)
      requires buf.Length == FILLER + PACKET && len <= PACKET && buf !in Repr()
      modifies Repr(), buf
      ensures Valid() && hash.head == old(hash.head) && fresh(hash.nodes - old(hash.nodes))
      ensures Handled(Abs(), sends) == HandleIn(old(Abs()), p, Padded(old(View(buf, FILLER, PACKET)), len))
    {
      var n := Pad(buf, len);
      sends := Dispatch(p, buf, n);
    }

    /** As a hub or as a switch. */
    method Dispatch(p: nat, buf: array<Byte>, n: nat) returns (sends: seq<Send>)
      requires Valid() && Active(Abs(), p)
      requires MINFRAME <= n <= PACKET && buf.Length == FILLER + PACKET && buf !in Repr()
      modifies Repr(), buf
      ensures Valid() && hash.head == old(hash.head) && fresh(hash.nodes - old(hash.nodes))
      ensures Handled(Abs(), sends) == HandleIn(old(Abs()), p, old(View(buf, FILLER, n)))
    {
      if hub {
        sends := RepeatAll(p, View(buf, FILLER, n));
      } else {
        sends := Switched(p, buf, n);
      }
    }

    /** The packet buffer is no part of the switch. */
    method Pad(buf: array<Byte>, len: nat) returns (n: nat)
      requires Valid() && buf.Length == FILLER + PACKET && len <= PACKET && buf !in Repr()
      modifies buf
      ensures Valid() && MINFRAME <= n <= PACKET
      ensures unchanged(this) && unchanged(hash) && Abs() == old(Abs()) && Repr() == old(Repr())
      ensures View(buf, FILLER, n) == Padded(old(View(buf, FILLER, PACKET)), len)
    {
      n := PadShort(buf, FILLER, len);
    }

    /** The hub loop over the ports from 1. */
    method RepeatAll(p: nat, frame: Frame) returns (sends: seq<Send>)
      requires Valid()
      ensures sends == Repeat(Abs(), p, frame)
    {
      ghost var to := portv.Keys - {0, p};
      sends := [];
      for index := 1 to numports
        invariant sends == Copies(Ascending(to, index), frame)
      {
        if index != p && index in portv {
          CopiesAppend(Ascending(to, index), index, frame);
          sends := sends + [Send(index, frame)];
        }
      }
    }

    /** ba_check on table[v] and on notlearning[v]. */
    method InTable(v: nat, p: nat) returns (r: bool)
      requires Valid() && p < numports
      ensures r <==> v in member && p in member[v]
    {
      ghost var s := Abs();
      HoldsIs(vlant, validvlan, numports, s, Cell(Table, v), p);
      r := InCell(vlant, Cell(Table, v), p);
    }

    method NotLearningOn(v: nat, p: nat) returns (r: bool)
      requires Valid() && p < numports
      ensures r <==> v in blocked && p in blocked[v]
    {
      ghost var s := Abs();
      NotLearningIs(s, v, p);
      HoldsIs(vlant, validvlan, numports, s, Cell(NotLearning, v), p);
      r := InCell(vlant, Cell(NotLearning, v), p);
    }

    /** The ingress checks. */
    method Admit(p: nat, frame: Frame) returns (v: Maybe<nat>)
      requires Valid() && p in portv && |frame| >= MINFRAME
      ensures v == Ingress(Abs(), p, frame)
    {
      var vlan;
      if Tagged(frame) {
        vlan := Vid(frame);
        var r := InTable(vlan, p);
        if !r { return None; }
      } else {
        vlan := portv[p].vlanuntag;
        if vlan == NOVLAN { return None; }
      }
      var r := NotLearningOn(vlan, p);
      v := if r then None else Some(vlan);
    }

    /** Ingress, learning, forwarding. */
    method Switched(p: nat, buf: array<Byte>, n: nat) returns (sends: seq<Send>)
      requires Valid() && !hub && Active(Abs(), p)
      requires MINFRAME <= n <= PACKET && buf.Length == FILLER + PACKET && buf !in Repr()
      modifies Repr(), buf
      ensures Valid() && hash.head == old(hash.head) && fresh(hash.nodes - old(hash.nodes))
      ensures Handled(Abs(), sends) == HandleIn(old(Abs()), p, old(View(buf, FILLER, n)))
    {
      var frame := View(buf, FILLER, n);
      var v := Accept(p, frame);
      if v == None { return []; }
      sends := Deliver(p, v.value, buf, n);
    }

    /** Admission, after which the source address is learned. */
    method Accept(p: nat, frame: Frame) returns (v: Maybe<nat>)
      requires Valid() && Active(Abs(), p) && |frame| >= MINFRAME
      modifies Repr()
      ensures Valid() && hash.head == old(hash.head) && fresh(hash.nodes - old(hash.nodes))
      ensures v == Ingress(old(Abs()), p, frame)
      ensures v == None ==> Abs() == old(Abs())
      ensures v != None ==> v.value in member && Abs() == LearnSource(old(Abs()), p, v.value, frame)
    {
      v := Admit(p, frame);
      if v != None {
        IngressReachable(Abs(), p, frame);
        LearnFrom(p, v.value, frame);
      }
    }

    method LearnFrom(p: nat, v: nat, frame: Frame)
      requires Valid() && Reachable(Abs(), v, p) && |frame| >= MINFRAME
      modifies hash.Footprint()
      ensures Valid() && hash.head == old(hash.head) && fresh(hash.nodes - old(hash.nodes))
      ensures Abs() == LearnSource(old(Abs()), p, v, frame)
    {
      ghost var s := Abs();
      LearnKeeps(s, p, v, frame);
      if !IsBroadcast(Source(frame)) {
        TablesStay(LearnSource(s, p, v, frame));
        var last := hash.FindUpdate(ExtMac(Source(frame), v), p, qtime, minPersistence);
      }
    }

    /** Forwarding changes the packet buffer and nothing else. */
    method Deliver(p: nat, v: nat, buf: array<Byte>, n: nat) returns (sends: seq<Send>)
      requires Valid() && v in member
      requires MINFRAME <= n <= PACKET && buf.Length == FILLER + PACKET && buf !in Repr()
      modifies buf
      ensures Valid() && Repr() == old(Repr()) && Abs() == old(Abs())
      ensures sends == Forward(old(Abs()), p, v, old(View(buf, FILLER, n)))
    {
      sends := ForwardFrom(p, v, buf, n);
    }

    method ForwardFrom(p: nat, v: nat, buf: array<Byte>, n: nat) returns (sends: seq<Send>)
      requires Valid() && v in member
      requires MINFRAME <= n <= PACKET && buf.Length == FILLER + PACKET && buf !in Repr()
      modifies buf
      ensures sends == Forward(old(Abs()), p, v, old(View(buf, FILLER, n)))
    {
      var frame := View(buf, FILLER, n);
      var tarport := -1;
      if !IsBroadcast(Dest(frame)) {
        tarport := hash.FindInHash(ExtMac(Dest(frame), v));
      }
      if tarport < 0 {
        sends := FloodFrom(p, v, buf, n);
      } else if tarport == p {
        sends := [];
      } else {
        EntryReachable(Abs(), ExtMac(Dest(frame), v));
        sends := UnicastFrom(tarport, v, buf, n);
      }
    }

    /** The two scans of a flood, the packet being stripped in between. */
    method FloodFrom(p: nat, v: nat, buf: array<Byte>, n: nat) returns (sends: seq<Send>)
      requires Valid() && v in member
      requires MINFRAME <= n <= PACKET && buf.Length == FILLER + PACKET && buf !in Repr()
      modifies buf
      ensures sends == Flood(old(Abs()), p, v, old(View(buf, FILLER, n)))
    {
      ghost var s := Abs();
      var frame := View(buf, FILLER, n);
      var tag := Scan(vlant, validvlan, numports, Cell(BcTag, v), s);
      var untag := Scan(vlant, validvlan, numports, Cell(BcUntag, v), s);
      FloodOrder(s, v, p, tag, untag);
      if Tagged(frame) {
        sends := FloodBoth(tag, untag, p, buf, n);
      } else {
        sends := FloodBoth(untag, tag, p, buf, n);
      }
    }

    /** The untouched packet to one list of ports, the stripped one to the other. */
    static method FloodBoth(same: seq<nat>, other: seq<nat>, p: nat, buf: array<Byte>, n: nat)
      returns (sends: seq<Send>)
      requires MINFRAME <= n <= PACKET && buf.Length == FILLER + PACKET
      modifies buf
      ensures var f := old(View(buf, FILLER, n));
        sends == Copies(Skip(same, p), f) + Copies(Skip(other, p), Strip(f))
    {
      sends := SendEach(same, p, View(buf, FILLER, n));
      var at, m := Tag2Untag(buf, FILLER, n);
      var more := SendEach(other, p, View(buf, at, m));
      sends := sends + more;
    }

    /** Sending to a known port, in the form its untagged VLAN asks for. */
    method UnicastFrom(t: nat, v: nat, buf: array<Byte>, n: nat) returns (sends: seq<Send>)
      requires t in portv
      requires MINFRAME <= n <= PACKET && buf.Length == FILLER + PACKET && buf !in Repr()
      modifies buf
      ensures sends == [Unicast(old(Abs()), t, v, old(View(buf, FILLER, n)))]
    {
      var at, m := FILLER, n;
      if Tagged(View(buf, at, m)) {
        if portv[t].vlanuntag == v {
          at, m := Tag2Untag(buf, at, m);
        }
      } else {
        if portv[t].vlanuntag != v {
          at, m := Untag2Tag(buf, at, v, m);
        }
      }
      sends := [Send(t, View(buf, at, m))];
    }
  }

  lemma Renumbered(s: State, n: nat)
    requires Inv(s) && 0 < n <= 0xffff && forall p :: n <= p < s.numports ==> p !in s.ports
    ensures SetNumPorts(s, n) == Outcome(s.(numports := n), OK) && Inv(s.(numports := n))
  {
    SetNumPortsKeeps(s, n);
  }

  lemma Expired(s: State, expire: int, next: State)
    requires Inv(s) && next == s.(learned := Without(s.learned, Collect(s.now, expire)))
    ensures Step(s, Command.Expire(expire)) == next && Inv(next)
  {
    StepKeeps(s, Command.Expire(expire));
  }

  lemma VlanGone(s: State, v: nat, next: State)
    requires Inv(s) && 0 < v < NUMOFVLAN && v in s.member && s.member[v] == {}
    requires next == s.(member := s.member - {v}, blocked := s.blocked - {v})
    ensures VlanRemove(s, v).state == next && Inv(next)
  {
    VlanRemoveKeeps(s, v);
  }

  lemma PortAdded(s: State, v: nat, p: nat, next: State)
    requires Inv(s) && v < NUMOFVLAN - 1 && v in s.member && p in s.ports
    requires next == s.(member := Join(s.member, v, p))
    ensures Inv(next)
  {
    VlanAddPortKeeps(s, v, p);
  }

  /** Only the endpoint that makes its port active changes what the bit arrays hold. */
  lemma SetupView(s: State, p: nat, ep: Endpoint, user: nat, permitted: bool)
    requires p in s.ports
    ensures var u := SetupAt(s, p, ep, user, permitted);
      if u.code == OK && s.ports[p].eps == [] then Opened(s, u.state, p) else SameView(s, u.state)
  {
  }

  lemma PoolView(s: State, p: nat, notInPool: bool)
    requires p in s.ports
    ensures SameView(s, s.(ports := SetPool(s.ports, p, notInPool)))
  {
  }

  lemma NotLearningIs(s: State, v: nat, p: nat)
    requires Inv(s)
    ensures v in s.blocked && p in s.blocked[v] <==> v in s.member && p in Value(s, Cell(NotLearning, v))
  {
  }

  // ----- the order of a scan -----

  /** The ports of a list but p. */
  function Skip(order: seq<nat>, p: nat): seq<nat> {
    if order == [] then []
    else Skip(order[..|order| - 1], p) + if order[|order| - 1] == p then [] else [order[|order| - 1]]
  }

  lemma CopiesAppend(to: seq<nat>, q: nat, f: Frame)
    ensures Copies(to + [q], f) == Copies(to, f) + [Send(q, f)]
  {
  }

  /** The body of a flood loop: every port but the sender is sent the packet. */
  method SendEach(order: seq<nat>, p: nat, frame: Frame) returns (sends: seq<Send>)
    ensures sends == Copies(Skip(order, p), frame)
  {
    sends := [];
    for i := 0 to |order|
      invariant sends == Copies(Skip(order[..i], p), frame)
    {
      assert order[..i + 1][..i] == order[..i];
      if order[i] != p {
        CopiesAppend(Skip(order[..i], p), order[i], frame);
        sends := sends + [Send(order[i], frame)];
      }
    }
    assert order[..|order|] == order;
  }

  lemma {:induction false} SkipEnumerates(order: seq<nat>, s: set<nat>, p: nat)
    requires BitArray.Enumerates(order, s)
    ensures BitArray.Enumerates(Skip(order, p), s - {p})
    decreases |order|
  {
    if order == [] {
      assert forall x :: x in s ==> x in order;
      assert s == {};
    } else {
      var front, last := order[..|order| - 1], order[|order| - 1];
      assert forall k :: k in order <==> k in front || k == last;
      SkipEnumerates(front, s - {last}, p);
      var r := Skip(front, p);
      forall i | 0 <= i < |r| ensures r[i] < last { assert r[i] in r; }
    }
  }

  /** A scan that skips p meets the other members in increasing order. */
  lemma SkipAscending(order: seq<nat>, s: set<nat>, p: nat, n: nat)
    requires BitArray.Enumerates(order, s) && forall q :: q in s ==> q < n
    ensures Skip(order, p) == Ascending(s - {p}, n)
  {
    SkipEnumerates(order, s, p);
    AscendingOrder(s - {p}, n);
    BitArray.EnumerationUnique(Skip(order, p), Ascending(s - {p}, n), s - {p});
  }

  lemma FloodOrder(s: State, v: nat, p: nat, tag: seq<nat>, untag: seq<nat>)
    requires Inv(s) && v in s.member
    requires BitArray.Enumerates(tag, Value(s, Cell(BcTag, v)))
    requires BitArray.Enumerates(untag, Value(s, Cell(BcUntag, v)))
    ensures Skip(tag, p) == Ascending(TagSet(s, v) - {p}, s.numports)
    ensures Skip(untag, p) == Ascending(UntagSet(s, v) - {p}, s.numports)
  {
    SkipAscending(tag, TagSet(s, v), p, s.numports);
    SkipAscending(untag, UntagSet(s, v), p, s.numports);
  }

  /** validvlan once vlancreate_nocheck(0) has run. */
  function FirstVlan(): seq<Word> {
    NoVlan();
    BitArray.BacSetIn(BitArray.Zeros(BitArray.Round(NUMOFVLAN) + 1), NUMOFVLAN, 0)
  }

  lemma NoVlan()
    ensures Listed(map[], BitArray.Zeros(BitArray.Round(NUMOFVLAN) + 1), {})
  {
    BitArray.ZeroMembers(BitArray.Zeros(BitArray.Round(NUMOFVLAN) + 1)[..BitArray.Round(NUMOFVLAN)]);
  }

  lemma FirstTables(n: nat)
    ensures TablesOk(Create(map[], n, 0), FirstVlan(), n, Init(n))
  {
    NoVlan();
    CreateStands(map[], map[], n, 0);
    CreatedListed(map[], BitArray.Zeros(BitArray.Round(NUMOFVLAN) + 1), n, 0, {}, Init(n).member.Keys);
    FirstMeans(n);
  }

  lemma FirstMeans(n: nat)
    ensures Means(Created(map[], 0), Init(n))
  {
    var s, sets := Init(n), Created(map[], 0);
    forall c | c in sets
      ensures c.vlan == 0 && sets[c] == Value(s, c)
    {
      CellsOfIs(0, c);
      assert UntagSet(s, 0) == {} && TagSet(s, 0) == {};
    }
  }
}
