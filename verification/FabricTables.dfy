/** The bit arrays of the VLANs, command by command: after each the arrays hold just the
    sets that the abstract switch computes from its ports and VLAN tables. */
module FabricTables {
  import opened Words
  import opened Frames
  import opened SwitchSpec
  import opened VlanTables
  import BitArray

  /** What the array of a cell is to hold in a given state. */
  ghost function Value(s: State, c: Cell): set<nat>
    requires c.vlan in s.member && c.vlan in s.blocked
  {
    match c.kind
    case Table => s.member[c.vlan]
    case BcTag => TagSet(s, c.vlan)
    case BcUntag => UntagSet(s, c.vlan)
    case NotLearning => s.blocked[c.vlan]
  }

  ghost predicate Means(sets: Sets, s: State) {
    forall c :: c in sets ==> c.vlan in s.member && c.vlan in s.blocked && sets[c] == Value(s, c)
  }

  /** The bit arrays are those of state s. In particular bctag[v] holds the active tagged
      members of v, and bcuntag[v] the active ports whose untagged VLAN is v. */
  ghost predicate TablesOk(t: Tables, validvlan: seq<Word>, n: nat, s: State) {
    Listed(t, validvlan, s.member.Keys) && exists sets :: Stand(t, sets, n) && Means(sets, s)
  }

  lemma StillOk(t: Tables, r: Tables, validvlan: seq<Word>, n: nat, s: State, u: State, sets: Sets, now: Sets)
    requires Listed(t, validvlan, s.member.Keys) && Stand(t, sets, n)
    requires u.member.Keys == s.member.Keys
    requires now.Keys == sets.Keys && Stand(r, now, n) && Means(now, u)
    ensures TablesOk(r, validvlan, n, u)
  {
  }

  lemma TablesHold(t: Tables, validvlan: seq<Word>, n: nat, s: State, c: Cell)
    requires Inv(s) && TablesOk(t, validvlan, n, s) && c.vlan in s.member
    ensures c in t && |t[c]| == BitArray.Round(n) && BitArray.Members(t[c]) == Value(s, c)
  {
  }

  lemma HoldsIs(t: Tables, validvlan: seq<Word>, n: nat, s: State, c: Cell, p: nat)
    requires Inv(s) && TablesOk(t, validvlan, n, s) && p < n
    ensures c in t ==> p / 32 < |t[c]|
    ensures InCell(t, c, p) <==> c.vlan in s.member && p in Value(s, c)
  {
    var sets :| Stand(t, sets, n) && Means(sets, s);
    HoldsStands(t, sets, n, c, p);
  }

  /** The ports of a cell in increasing order, as ba_FORALL meets them. */
  method Scan(t: Tables, validvlan: seq<Word>, n: nat, c: Cell, ghost s: State) returns (order: seq<nat>)
    requires Inv(s) && TablesOk(t, validvlan, n, s) && c.vlan in s.member
    ensures BitArray.Enumerates(order, Value(s, c))
  {
    TablesHold(t, validvlan, n, s, c);
    order := BitArray.ForAll(t[c], n);
    assert t[c][..BitArray.Round(n)] == t[c];
  }

  lemma ValidVlanIs(t: Tables, validvlan: seq<Word>, n: nat, s: State, v: nat)
    requires v <= NUMOFVLAN && TablesOk(t, validvlan, n, s)
    ensures v / 32 < |validvlan| && (BitArray.Check(validvlan, v) <==> v in s.member)
  {
    BitArray.CheckMembers(validvlan[..BitArray.Round(NUMOFVLAN)], v);
  }

  // ----- portsetvlan -----

  ghost function SetVlanSets(sets: Sets, active: bool, oldvlan: nat, vlan: nat, p: nat): Sets
    requires oldvlan == NOVLAN || forall k :: Cell(k, oldvlan) in sets
    requires vlan == NOVLAN || forall k :: Cell(k, vlan) in sets
  {
    var a := if active && oldvlan != NOVLAN then But(sets, Cell(BcUntag, oldvlan), p) else sets;
    var b := if active && vlan != NOVLAN then But(With(a, Cell(BcUntag, vlan), p), Cell(BcTag, vlan), p) else a;
    var c := if oldvlan != NOVLAN then But(b, Cell(Table, oldvlan), p) else b;
    if vlan != NOVLAN then With(c, Cell(Table, vlan), p) else c
  }

  lemma SetVlanMeans(s: State, sets: Sets, p: nat, vlan: nat)
    requires Inv(s) && Means(sets, s) && forall c: Cell :: c in sets <==> c.vlan in s.member
    requires p in s.ports && (vlan == NOVLAN || vlan in s.member)
    ensures var t := SetVlanSets(sets, Active(s, p), s.ports[p].vlanuntag, vlan, p);
      t.Keys == sets.Keys && Means(t, Moved(s, p, vlan))
    ensures Moved(s, p, vlan).member.Keys == s.member.Keys
  {
    forall c: Cell | c in sets
      ensures SetVlanSets(sets, Active(s, p), s.ports[p].vlanuntag, vlan, p)[c] == Value(Moved(s, p, vlan), c)
    {
      SetVlanCell(s, sets, p, vlan, c);
    }
  }

  lemma SetVlanCell(s: State, sets: Sets, p: nat, vlan: nat, c: Cell)
    requires Inv(s) && Means(sets, s) && c in sets && forall c: Cell :: c in sets <==> c.vlan in s.member
    requires p in s.ports && (vlan == NOVLAN || vlan in s.member)
    ensures SetVlanSets(sets, Active(s, p), s.ports[p].vlanuntag, vlan, p)[c] == Value(Moved(s, p, vlan), c)
  {
    assert sets[c] == Value(s, c);
    SetVlanSetsAt(sets, Active(s, p), s.ports[p].vlanuntag, vlan, p, c);
    match c.kind
    case Table => SetVlanTable(s, p, vlan, c.vlan);
    case BcTag => SetVlanTag(s, Moved(s, p, vlan), p, vlan, c.vlan);
    case BcUntag => SetVlanUntag(s, Moved(s, p, vlan), p, vlan, c.vlan);
    case NotLearning =>
  }

  lemma SetVlanTable(s: State, p: nat, vlan: nat, v: nat)
    requires p in s.ports && v in s.member
    ensures Moved(s, p, vlan).member[v] ==
      if v == vlan then s.member[v] + {p} else if v == s.ports[p].vlanuntag then s.member[v] - {p} else s.member[v]
  {
    if v == vlan { assert s.member[v] - {p} + {p} == s.member[v] + {p}; }
  }

  /** The four writes, seen from one cell. */
  lemma SetVlanSetsAt(sets: Sets, active: bool, oldvlan: nat, vlan: nat, p: nat, c: Cell)
    requires oldvlan == NOVLAN || forall k :: Cell(k, oldvlan) in sets
    requires vlan == NOVLAN || forall k :: Cell(k, vlan) in sets
    requires c in sets && c.vlan != NOVLAN
    ensures SetVlanSets(sets, active, oldvlan, vlan, p)[c] ==
      match c.kind
      case Table => if c.vlan == vlan then sets[c] + {p} else if c.vlan == oldvlan then sets[c] - {p} else sets[c]
      case BcTag => if active && c.vlan == vlan then sets[c] - {p} else sets[c]
      case BcUntag =>
        if !active then sets[c]
        else if c.vlan == vlan then sets[c] + {p} else if c.vlan == oldvlan then sets[c] - {p} else sets[c]
      case NotLearning => sets[c]
  {
    if c.vlan == vlan { assert sets[c] - {p} + {p} == sets[c] + {p}; }
  }

  lemma SetVlanTag(s: State, u: State, p: nat, vlan: nat, v: nat)
    requires Inv(s) && v in s.member && p in s.ports && (vlan == NOVLAN || vlan in s.member)
    requires u == Moved(s, p, vlan)
    ensures TagSet(u, v) == if v == vlan && Active(s, p) then TagSet(s, v) - {p} else TagSet(s, v)
  {
    forall q
      ensures q in TagSet(u, v) <==> q in TagSet(s, v) && !(q == p && v == vlan && Active(s, p))
    {
    }
  }

  lemma SetVlanUntag(s: State, u: State, p: nat, vlan: nat, v: nat)
    requires Inv(s) && v in s.member && p in s.ports && (vlan == NOVLAN || vlan in s.member)
    requires u == Moved(s, p, vlan)
    ensures UntagSet(u, v) ==
      if Active(s, p) then (if v == vlan then UntagSet(s, v) + {p} else UntagSet(s, v) - {p}) else UntagSet(s, v)
  {
    forall q
      ensures q in UntagSet(u, v) <==> if q == p then Active(s, p) && v == vlan else q in UntagSet(s, v)
    {
    }
  }

  method SetVlanBits(t: Tables, n: nat, active: bool, oldvlan: nat, vlan: nat, p: nat, ghost sets: Sets)
    returns (r: Tables)
    requires Stand(t, sets, n) && p < n
    requires oldvlan == NOVLAN || forall k :: Cell(k, oldvlan) in sets
    requires vlan == NOVLAN || forall k :: Cell(k, vlan) in sets
    ensures Stand(r, SetVlanSets(sets, active, oldvlan, vlan, p), n)
  {
    ghost var now := sets;
    r := t;
    if active {
      if oldvlan != NOVLAN { r, now := ClrBit(r, now, n, Cell(BcUntag, oldvlan), p); }
      if vlan != NOVLAN {
        r, now := SetBit(r, now, n, Cell(BcUntag, vlan), p);
        r, now := ClrBit(r, now, n, Cell(BcTag, vlan), p);
      }
    }
    if oldvlan != NOVLAN { r, now := ClrBit(r, now, n, Cell(Table, oldvlan), p); }
    if vlan != NOVLAN { r, now := SetBit(r, now, n, Cell(Table, vlan), p); }
  }

  /** The bit operations of portsetvlan on port p. */
  method SetVlanTables(t: Tables, validvlan: seq<Word>, n: nat, active: bool, oldvlan: nat, vlan: nat, p: nat,
                       ghost s: State) returns (r: Tables)
    requires Inv(s) && TablesOk(t, validvlan, n, s) && p < n
    requires p in s.ports && active == Active(s, p) && oldvlan == s.ports[p].vlanuntag
    requires vlan == NOVLAN || vlan in s.member
    ensures TablesOk(r, validvlan, n, Moved(s, p, vlan))
  {
    ghost var sets :| Stand(t, sets, n) && Means(sets, s);
    SetVlanMeans(s, sets, p, vlan);
    r := SetVlanBits(t, n, active, oldvlan, vlan, p, sets);
    StillOk(t, r, validvlan, n, s, Moved(s, p, vlan), sets, SetVlanSets(sets, active, oldvlan, vlan, p));
  }

  method SetBit(t: Tables, ghost sets: Sets, n: nat, c: Cell, p: nat) returns (r: Tables, ghost now: Sets)
    requires Stand(t, sets, n) && c in t && p < n
    ensures Stand(r, now, n) && now == With(sets, c, p)
  {
    PutStands(t, sets, n, c, p);
    r, now := Put(t, c, p), With(sets, c, p);
  }

  method ClrBit(t: Tables, ghost sets: Sets, n: nat, c: Cell, p: nat) returns (r: Tables, ghost now: Sets)
    requires Stand(t, sets, n) && c in t && p < n
    ensures Stand(r, now, n) && now == But(sets, c, p)
  {
    TakeStands(t, sets, n, c, p);
    r, now := Take(t, c, p), But(sets, c, p);
  }

  // ----- states with the same broadcast sets -----

  /** Nothing that the bit arrays depend on differs. */
  ghost predicate SameView(s: State, u: State) {
    && u.member == s.member && u.blocked == s.blocked
    && u.ports.Keys == s.ports.Keys
    && forall p :: p in s.ports ==>
         (u.ports[p].eps == [] <==> s.ports[p].eps == []) && u.ports[p].vlanuntag == s.ports[p].vlanuntag
  }

  lemma SameTables(t: Tables, validvlan: seq<Word>, n: nat, s: State, u: State)
    requires TablesOk(t, validvlan, n, s) && SameView(s, u)
    ensures TablesOk(t, validvlan, n, u)
  {
    var sets :| Stand(t, sets, n) && Means(sets, s);
    forall c | c in sets
      ensures sets[c] == Value(u, c)
    {
      assert sets[c] == Value(s, c);
      if c.kind == BcTag { assert TagSet(u, c.vlan) == TagSet(s, c.vlan); }
      if c.kind == BcUntag { assert UntagSet(u, c.vlan) == UntagSet(s, c.vlan); }
    }
  }

  // ----- vlancreate, vlanremove -----

  lemma CreateMeans(s: State, sets: Sets, v: nat)
    requires Inv(s) && Means(sets, s) && v !in s.member && 0 < v < NUMOFVLAN - 1
    ensures Means(Created(sets, v), VlanCreate(s, v).state)
    ensures VlanCreate(s, v).state.member.Keys == s.member.Keys + {v}
  {
    var t, u := Created(sets, v), VlanCreate(s, v).state;
    forall c | c in t
      ensures c.vlan in u.member && c.vlan in u.blocked && t[c] == Value(u, c)
    {
      CellsOfIs(v, c);
      if c.vlan == v {
        assert UntagSet(u, v) == {} && TagSet(u, v) == {};
      } else {
        assert sets[c] == Value(s, c);
        assert UntagSet(u, c.vlan) == UntagSet(s, c.vlan) && TagSet(u, c.vlan) == TagSet(s, c.vlan);
      }
    }
  }

  lemma CreatedOk(t: Tables, validvlan: seq<Word>, n: nat, v: nat, s: State, u: State)
    requires Inv(s) && TablesOk(t, validvlan, n, s) && v !in s.member && 0 < v < NUMOFVLAN - 1
    requires u == VlanCreate(s, v).state
    ensures TablesOk(Create(t, n, v), BitArray.BacSetIn(validvlan, NUMOFVLAN, v), n, u)
  {
    var sets :| Stand(t, sets, n) && Means(sets, s);
    CreateStands(t, sets, n, v);
    CreateMeans(s, sets, v);
    BitArray.BacSetKeeps(validvlan, NUMOFVLAN, v);
    CreatedListed(t, validvlan, n, v, s.member.Keys, u.member.Keys);
  }

  lemma CreatedListed(t: Tables, validvlan: seq<Word>, n: nat, v: nat, vlans: set<nat>, now: set<nat>)
    requires Listed(t, validvlan, vlans) && v < NUMOFVLAN && now == vlans + {v}
    requires forall c :: c in Create(t, n, v) <==> c in t || c.vlan == v
    ensures Listed(Create(t, n, v), BitArray.BacSetIn(validvlan, NUMOFVLAN, v), now)
  {
    BitArray.BacSetKeeps(validvlan, NUMOFVLAN, v);
  }

  /** The allocations of vlancreate_nocheck, and the bit that makes the VLAN valid. */
  method CreateTables(t: Tables, validvlan: seq<Word>, n: nat, v: nat, ghost s: State)
    returns (r: Tables, valid: seq<Word>)
    requires Inv(s) && TablesOk(t, validvlan, n, s) && v !in s.member && 0 < v < NUMOFVLAN - 1
    ensures TablesOk(r, valid, n, VlanCreate(s, v).state)
  {
    CreatedOk(t, validvlan, n, v, s, VlanCreate(s, v).state);
    r, valid := Create(t, n, v), BitArray.BacSetIn(validvlan, NUMOFVLAN, v);
  }

  lemma RemoveMeans(s: State, sets: Sets, v: nat)
    requires Inv(s) && Means(sets, s) && v in s.member && s.member[v] == {}
    ensures Means(Removed(sets, v), VlanRemove(s, v).state)
  {
    var t, u := Removed(sets, v), VlanRemove(s, v).state;
    forall c | c in t
      ensures c.vlan in u.member && c.vlan in u.blocked && t[c] == Value(u, c)
    {
      assert sets[c] == Value(s, c);
      assert UntagSet(u, c.vlan) == UntagSet(s, c.vlan) && TagSet(u, c.vlan) == TagSet(s, c.vlan);
    }
  }

  method RemoveTables(t: Tables, validvlan: seq<Word>, n: nat, v: nat, ghost s: State)
    returns (r: Tables, valid: seq<Word>)
    requires Inv(s) && TablesOk(t, validvlan, n, s) && v in s.member && s.member[v] == {}
    ensures TablesOk(r, valid, n, VlanRemove(s, v).state)
  {
    ghost var sets :| Stand(t, sets, n) && Means(sets, s);
    RemoveStands(t, sets, n, v);
    RemoveMeans(s, sets, v);
    BitArray.BacClearKeeps(validvlan, NUMOFVLAN, v);
    r, valid := Remove(t, v), BitArray.BacClearIn(validvlan, NUMOFVLAN, v);
    assert VlanRemove(s, v).state.member.Keys == s.member.Keys - {v};
  }

  /** Counting the bits of table[v]. */
  method InUse(t: Tables, validvlan: seq<Word>, n: nat, v: nat, ghost s: State) returns (used: bool)
    requires Inv(s) && TablesOk(t, validvlan, n, s) && v in s.member
    ensures used <==> s.member[v] != {}
  {
    TablesHold(t, validvlan, n, s, Cell(Table, v));
    var count := BitArray.Card(t[Cell(Table, v)], n);
    assert t[Cell(Table, v)][..BitArray.Round(n)] == t[Cell(Table, v)];
    used := count > 0;
  }

  // ----- vlanaddport, vlandelport -----

  ghost function AddSets(sets: Sets, tagged: bool, v: nat, p: nat): Sets
    requires Cell(Table, v) in sets && Cell(BcTag, v) in sets
  {
    With(if tagged then With(sets, Cell(BcTag, v), p) else sets, Cell(Table, v), p)
  }

  lemma AddMeans(s: State, u: State, sets: Sets, v: nat, p: nat)
    requires Inv(s) && Means(sets, s) && v in s.member && p in s.ports
    requires Cell(Table, v) in sets && Cell(BcTag, v) in sets
    requires u == s.(member := Join(s.member, v, p))
    ensures var t := AddSets(sets, Active(s, p) && s.ports[p].vlanuntag != v, v, p);
      t.Keys == sets.Keys && Means(t, u)
    ensures u.member.Keys == s.member.Keys
  {
    var t := AddSets(sets, Active(s, p) && s.ports[p].vlanuntag != v, v, p);
    forall c | c in t
      ensures t[c] == Value(u, c)
    {
      assert sets[c] == Value(s, c);
      assert UntagSet(u, c.vlan) == UntagSet(s, c.vlan);
      if c.kind == BcTag {
        forall q ensures q in t[c] <==> q in TagSet(u, c.vlan) {}
      }
    }
  }

  method AddPortBits(t: Tables, n: nat, tagged: bool, v: nat, p: nat, ghost sets: Sets) returns (r: Tables)
    requires Stand(t, sets, n) && p < n && Cell(Table, v) in sets && Cell(BcTag, v) in sets
    ensures Stand(r, AddSets(sets, tagged, v, p), n)
  {
    ghost var now := sets;
    r := t;
    if tagged { r, now := SetBit(r, now, n, Cell(BcTag, v), p); }
    r, now := SetBit(r, now, n, Cell(Table, v), p);
  }

  method AddPortTables(t: Tables, validvlan: seq<Word>, n: nat, tagged: bool, v: nat, p: nat,
                       ghost s: State, ghost u: State) returns (r: Tables)
    requires Inv(s) && TablesOk(t, validvlan, n, s) && p < n && v in s.member && p in s.ports
    requires tagged == (Active(s, p) && s.ports[p].vlanuntag != v)
    requires u == s.(member := Join(s.member, v, p))
    ensures TablesOk(r, validvlan, n, u)
  {
    ghost var sets :| Stand(t, sets, n) && Means(sets, s);
    AddMeans(s, u, sets, v, p);
    r := AddPortBits(t, n, tagged, v, p, sets);
    StillOk(t, r, validvlan, n, s, u, sets, AddSets(sets, tagged, v, p));
  }

  ghost function DelSets(sets: Sets, active: bool, v: nat, p: nat): Sets
    requires Cell(Table, v) in sets && Cell(BcTag, v) in sets
  {
    But(if active then But(sets, Cell(BcTag, v), p) else sets, Cell(Table, v), p)
  }

  lemma DelMeans(s: State, u: State, sets: Sets, v: nat, p: nat)
    requires Inv(s) && Means(sets, s) && v in s.member && p in s.ports && s.ports[p].vlanuntag != v
    requires Cell(Table, v) in sets && Cell(BcTag, v) in sets
    requires u == s.(member := Leave(s.member, v, p), learned := u.learned)
    ensures Means(DelSets(sets, Active(s, p), v, p), u) && u.member.Keys == s.member.Keys
    ensures DelSets(sets, Active(s, p), v, p).Keys == sets.Keys
  {
    var t := DelSets(sets, Active(s, p), v, p);
    forall c | c in t
      ensures t[c] == Value(u, c)
    {
      assert sets[c] == Value(s, c);
      assert UntagSet(u, c.vlan) == UntagSet(s, c.vlan);
      if c.kind == BcTag {
        forall q ensures q in t[c] <==> q in TagSet(u, c.vlan) {}
      }
    }
  }

  method DelPortBits(t: Tables, n: nat, active: bool, v: nat, p: nat, ghost sets: Sets) returns (r: Tables)
    requires Stand(t, sets, n) && p < n && Cell(Table, v) in sets && Cell(BcTag, v) in sets
    ensures Stand(r, DelSets(sets, active, v, p), n)
  {
    ghost var now := sets;
    r := t;
    if active { r, now := ClrBit(r, now, n, Cell(BcTag, v), p); }
    r, now := ClrBit(r, now, n, Cell(Table, v), p);
  }

  method DelPortTables(t: Tables, validvlan: seq<Word>, n: nat, active: bool, v: nat, p: nat,
                       ghost s: State, ghost u: State) returns (r: Tables)
    requires Inv(s) && TablesOk(t, validvlan, n, s) && p < n && v in s.member && p in s.ports
    requires active == Active(s, p) && s.ports[p].vlanuntag != v
    requires u == s.(member := Leave(s.member, v, p), learned := u.learned)
    ensures TablesOk(r, validvlan, n, u)
  {
    ghost var sets :| Stand(t, sets, n) && Means(sets, s);
    DelMeans(s, u, sets, v, p);
    r := DelPortBits(t, n, active, v, p, sets);
    StillOk(t, r, validvlan, n, s, u, sets, DelSets(sets, active, v, p));
  }

  // ----- alloc_port, free_port -----

  /** The state after alloc_port has made a new port p. */
  ghost predicate Allocated(s: State, u: State, p: nat) {
    && p !in s.ports
    && u == s.(ports := NewPort(s.ports, p), member := Join(s.member, 0, p))
  }

  lemma NewPortMeans(s: State, u: State, sets: Sets, p: nat)
    requires Inv(s) && Means(sets, s) && Cell(Table, 0) in sets && Allocated(s, u, p)
    ensures Means(With(sets, Cell(Table, 0), p), u) && u.member.Keys == s.member.Keys
    ensures With(sets, Cell(Table, 0), p).Keys == sets.Keys
  {
    var t := With(sets, Cell(Table, 0), p);
    forall c | c in t
      ensures t[c] == Value(u, c)
    {
      assert sets[c] == Value(s, c);
      assert UntagSet(u, c.vlan) == UntagSet(s, c.vlan);
      assert TagSet(u, c.vlan) == TagSet(s, c.vlan);
    }
  }

  method NewPortTables(t: Tables, validvlan: seq<Word>, n: nat, p: nat, ghost s: State, ghost u: State)
    returns (r: Tables)
    requires Inv(s) && TablesOk(t, validvlan, n, s) && p < n && Allocated(s, u, p)
    ensures TablesOk(r, validvlan, n, u)
  {
    ghost var sets :| Stand(t, sets, n) && Means(sets, s);
    NewPortMeans(s, u, sets, p);
    ghost var now;
    r, now := SetBit(t, sets, n, Cell(Table, 0), p);
    StillOk(t, r, validvlan, n, s, u, sets, now);
  }

  lemma FreeMeans(s: State, sets: Sets, p: nat)
    requires Inv(s) && Means(sets, s) && p in s.ports && !Active(s, p)
    ensures Means(Cleared(sets, Table, p, s.member.Keys), FreePort(s, p))
    ensures FreePort(s, p).member.Keys == s.member.Keys
  {
    var t, u := Cleared(sets, Table, p, s.member.Keys), FreePort(s, p);
    forall c | c in t
      ensures t[c] == Value(u, c)
    {
      assert sets[c] == Value(s, c);
      assert UntagSet(u, c.vlan) == UntagSet(s, c.vlan);
      assert TagSet(u, c.vlan) == TagSet(s, c.vlan);
    }
  }

  method FreeTables(t: Tables, validvlan: seq<Word>, n: nat, p: nat, ghost s: State) returns (r: Tables)
    requires Inv(s) && TablesOk(t, validvlan, n, s) && p < n && p in s.ports && !Active(s, p)
    ensures TablesOk(r, validvlan, n, FreePort(s, p))
  {
    ghost var sets :| Stand(t, sets, n) && Means(sets, s);
    FreeMeans(s, sets, p);
    r := ClearAll(t, validvlan, Table, p, n, sets, s.member.Keys);
    StillOk(t, r, validvlan, n, s, FreePort(s, p), sets, Cleared(sets, Table, p, s.member.Keys));
  }

  // ----- attach, close -----

  ghost function OpenSets(sets: Sets, vlans: set<nat>, vlanuntag: nat, p: nat): Sets
    requires vlanuntag == NOVLAN || forall k :: Cell(k, vlanuntag) in sets
  {
    var a := Enabled(sets, p, vlans);
    if vlanuntag == NOVLAN then a
    else But(But(With(a, Cell(BcUntag, vlanuntag), p), Cell(BcTag, vlanuntag), p), Cell(NotLearning, vlanuntag), p)
  }

  /** The state after the first endpoint of an idle port is attached. */
  ghost predicate Opened(s: State, u: State, p: nat) {
    && p in s.ports && !Active(s, p) && Active(u, p) && u.ports[p].vlanuntag == s.ports[p].vlanuntag
    && u.member == s.member && u.blocked == Leave(s.blocked, s.ports[p].vlanuntag, p)
    && u.ports == s.ports[p := u.ports[p]]
  }

  lemma OpenMeans(s: State, u: State, sets: Sets, p: nat)
    requires Inv(s) && Means(sets, s) && Opened(s, u, p) && forall c: Cell :: c in sets <==> c.vlan in s.member
    ensures var t := OpenSets(sets, s.member.Keys, s.ports[p].vlanuntag, p); t.Keys == sets.Keys && Means(t, u)
  {
    var w := s.ports[p].vlanuntag;
    var t := OpenSets(sets, s.member.Keys, w, p);
    forall c | c in t
      ensures t[c] == Value(u, c)
    {
      assert sets[c] == Value(s, c);
      match c.kind
      case Table =>
      case BcTag =>
        assert sets[Cell(Table, c.vlan)] == s.member[c.vlan];
        OpenTag(s, u, p, c.vlan);
      case BcUntag => OpenUntag(s, u, p, c.vlan);
      case NotLearning =>
    }
  }

  lemma OpenTag(s: State, u: State, p: nat, v: nat)
    requires Inv(s) && Opened(s, u, p) && v in s.member
    ensures TagSet(u, v) ==
      if v == s.ports[p].vlanuntag then TagSet(s, v)
      else if p in s.member[v] then TagSet(s, v) + {p} else TagSet(s, v)
    ensures p !in TagSet(s, v)
  {
    forall q
      ensures q in TagSet(u, v) <==> if q == p then p in s.member[v] && v != s.ports[p].vlanuntag else q in TagSet(s, v)
    {
    }
  }

  lemma OpenUntag(s: State, u: State, p: nat, v: nat)
    requires Inv(s) && Opened(s, u, p) && v in s.member
    ensures UntagSet(u, v) == if v == s.ports[p].vlanuntag then UntagSet(s, v) + {p} else UntagSet(s, v)
  {
    forall q
      ensures q in UntagSet(u, v) <==> if q == p then v == s.ports[p].vlanuntag else q in UntagSet(s, v)
    {
    }
  }

  method OpenTables(t: Tables, validvlan: seq<Word>, n: nat, vlanuntag: nat, p: nat, ghost s: State, ghost u: State)
    returns (r: Tables)
    requires Inv(s) && TablesOk(t, validvlan, n, s) && p < n && Opened(s, u, p)
    requires vlanuntag == s.ports[p].vlanuntag
    ensures TablesOk(r, validvlan, n, u)
  {
    ghost var sets :| Stand(t, sets, n) && Means(sets, s);
    ghost var now := Enabled(sets, p, s.member.Keys);
    OpenMeans(s, u, sets, p);
    r := EnableAll(t, validvlan, p, n, sets, s.member.Keys);
    if vlanuntag != NOVLAN {
      r, now := SetBit(r, now, n, Cell(BcUntag, vlanuntag), p);
      r, now := ClrBit(r, now, n, Cell(BcTag, vlanuntag), p);
      r, now := ClrBit(r, now, n, Cell(NotLearning, vlanuntag), p);
    }
    StillOk(t, r, validvlan, n, s, u, sets, now);
  }

  ghost function ShutSets(sets: Sets, vlans: set<nat>, vlanuntag: nat, p: nat): Sets
    requires vlanuntag == NOVLAN || Cell(BcUntag, vlanuntag) in sets
  {
    var a := Cleared(sets, BcTag, p, vlans);
    if vlanuntag == NOVLAN then a else But(a, Cell(BcUntag, vlanuntag), p)
  }

  /** The state after a port has lost its last endpoint. */
  ghost predicate Shut(s: State, u: State, p: nat) {
    && p in s.ports && p in u.ports && !Active(u, p) && u.ports[p].vlanuntag == s.ports[p].vlanuntag
    && u.member == s.member && u.blocked == s.blocked
    && u.ports == s.ports[p := u.ports[p]]
  }

  lemma ShutMeans(s: State, u: State, sets: Sets, p: nat)
    requires Inv(s) && Means(sets, s) && Shut(s, u, p) && forall c: Cell :: c in sets <==> c.vlan in s.member
    ensures var t := ShutSets(sets, s.member.Keys, s.ports[p].vlanuntag, p); t.Keys == sets.Keys && Means(t, u)
  {
    var t := ShutSets(sets, s.member.Keys, s.ports[p].vlanuntag, p);
    forall c | c in t
      ensures t[c] == Value(u, c)
    {
      assert sets[c] == Value(s, c);
      if c.kind == BcTag {
        forall q ensures q in TagSet(u, c.vlan) <==> q in TagSet(s, c.vlan) && q != p {}
      } else if c.kind == BcUntag {
        forall q ensures q in UntagSet(u, c.vlan) <==> q in UntagSet(s, c.vlan) && q != p {}
      }
    }
  }

  method ShutTables(t: Tables, validvlan: seq<Word>, n: nat, vlanuntag: nat, p: nat, ghost s: State, ghost u: State)
    returns (r: Tables)
    requires Inv(s) && TablesOk(t, validvlan, n, s) && p < n && Shut(s, u, p)
    requires vlanuntag == s.ports[p].vlanuntag
    ensures TablesOk(r, validvlan, n, u)
  {
    ghost var sets :| Stand(t, sets, n) && Means(sets, s);
    ghost var now := Cleared(sets, BcTag, p, s.member.Keys);
    ShutMeans(s, u, sets, p);
    r := ClearAll(t, validvlan, BcTag, p, n, sets, s.member.Keys);
    if vlanuntag < NOVLAN { r, now := ClrBit(r, now, n, Cell(BcUntag, vlanuntag), p); }
    StillOk(t, r, validvlan, n, s, u, sets, now);
  }

  // ----- portsetnumports -----

  method ResizeTables(t: Tables, validvlan: seq<Word>, n: nat, m: nat, mask: Word, ghost s: State)
    returns (r: Tables)
    requires Inv(s) && TablesOk(t, validvlan, n, s) && 0 < n && 0 < m
    requires BitArray.Round(n) <= BitArray.Round(m)
    requires forall p :: p in s.ports ==> p < m
    requires forall v :: v in s.blocked ==> forall p :: p in s.blocked[v] ==> p < m
    requires forall j: nat :: j <= (n - 1) % 32 ==> Bit(mask, j)
    ensures TablesOk(r, validvlan, m, s.(numports := m))
  {
    ghost var sets :| Stand(t, sets, n) && Means(sets, s);
    ResizeMeans(s, s.(numports := m), sets);
    r := Resize(t, n, m, mask, sets);
  }

  lemma ResizeMeans(s: State, u: State, sets: Sets)
    requires Inv(s) && Means(sets, s) && u == s.(numports := u.numports)
    requires forall p :: p in s.ports ==> p < u.numports
    requires forall v :: v in s.blocked ==> forall p :: p in s.blocked[v] ==> p < u.numports
    ensures Means(sets, u)
    ensures forall c, p :: c in sets && p in sets[c] ==> p < u.numports
    ensures forall c :: c in sets ==> c.vlan < NUMOFVLAN
  {
    forall c | c in sets
      ensures sets[c] == Value(u, c) && forall p :: p in sets[c] ==> p < u.numports
    {
      assert sets[c] == Value(s, c);
      assert TagSet(u, c.vlan) == TagSet(s, c.vlan) && UntagSet(u, c.vlan) == UntagSet(s, c.vlan);
    }
  }
}
