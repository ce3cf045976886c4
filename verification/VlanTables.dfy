/** The globals vlant[] and validvlan: four bit arrays per valid VLAN, and the counted bit
    array of the valid VLANs. No two pointers in vlant[] share an array, so the arrays are
    kept by value: a write to one of them is an update of its cell. */
module VlanTables {
  import opened Words
  import BitArray
  import opened Frames

  datatype Kind = Table | BcTag | BcUntag | NotLearning

  /** vlant[vlan].kind */
  datatype Cell = Cell(kind: Kind, vlan: nat)

  /** A cell that is not in the map is a NULL pointer. */
  type Tables = map<Cell, seq<Word>>

  type Sets = map<Cell, set<nat>>

  /** The arrays, each of n bits, stand for the sets. */
  ghost predicate Stand(t: Tables, sets: Sets, n: nat) {
    && t.Keys == sets.Keys
    && forall c :: c in t ==>
         && |t[c]| == BitArray.Round(n)
         && BitArray.Members(t[c]) == sets[c]
         && (forall p :: p in sets[c] ==> p < n)
  }

  /** ba_set on a cell. */
  function Put(t: Tables, c: Cell, p: nat): Tables
    requires c in t && p / 32 < |t[c]|
  {
    t[c := BitArray.SetIn(t[c], p)]
  }

  /** ba_clr on a cell. */
  function Take(t: Tables, c: Cell, p: nat): Tables
    requires c in t && p / 32 < |t[c]|
  {
    t[c := BitArray.ClearIn(t[c], p)]
  }

  /** ba_check; a NULL array has no members. */
  predicate InCell(t: Tables, c: Cell, p: nat)
    requires c in t ==> p / 32 < |t[c]|
  {
    c in t && BitArray.Check(t[c], p)
  }

  ghost function With(sets: Sets, c: Cell, p: nat): (r: Sets)
    requires c in sets
    ensures r.Keys == sets.Keys
  {
    sets[c := sets[c] + {p}]
  }

  ghost function But(sets: Sets, c: Cell, p: nat): (r: Sets)
    requires c in sets
    ensures r.Keys == sets.Keys
  {
    sets[c := sets[c] - {p}]
  }

  lemma PutStands(t: Tables, sets: Sets, n: nat, c: Cell, p: nat)
    requires Stand(t, sets, n) && c in t && p < n
    ensures p / 32 < |t[c]| && Stand(Put(t, c, p), With(sets, c, p), n)
  {
    BitArray.SetMembers(t[c], p);
  }

  lemma TakeStands(t: Tables, sets: Sets, n: nat, c: Cell, p: nat)
    requires Stand(t, sets, n) && c in t && p < n
    ensures p / 32 < |t[c]| && Stand(Take(t, c, p), But(sets, c, p), n)
  {
    BitArray.ClearMembers(t[c], p);
  }

  lemma HoldsStands(t: Tables, sets: Sets, n: nat, c: Cell, p: nat)
    requires Stand(t, sets, n) && p < n
    ensures c in t ==> p / 32 < |t[c]|
    ensures InCell(t, c, p) <==> c in sets && p in sets[c]
  {
    if c in t { BitArray.CheckMembers(t[c], p); }
  }

  // ----- one VLAN comes or goes -----

  function CellsOf(v: nat): set<Cell> {
    {Cell(Table, v), Cell(BcTag, v), Cell(BcUntag, v), Cell(NotLearning, v)}
  }

  lemma CellsOfIs(v: nat, c: Cell)
    ensures c in CellsOf(v) <==> c.vlan == v
  {
    match c.kind
    case Table =>
    case BcTag =>
    case BcUntag =>
    case NotLearning =>
  }

  /** The four allocations of vlancreate_nocheck. */
  function Create(t: Tables, n: nat, v: nat): Tables {
    var zeros := BitArray.Zeros(BitArray.Round(n));
    t[Cell(Table, v) := zeros][Cell(BcTag, v) := zeros][Cell(BcUntag, v) := zeros][Cell(NotLearning, v) := zeros]
  }

  ghost function Created(sets: Sets, v: nat): Sets {
    map c | c in sets.Keys + CellsOf(v) :: if c.vlan == v then {} else sets[c]
  }

  lemma CreateStands(t: Tables, sets: Sets, n: nat, v: nat)
    requires Stand(t, sets, n)
    ensures Stand(Create(t, n, v), Created(sets, v), n)
    ensures forall c :: c in Create(t, n, v) <==> c in t || c.vlan == v
  {
    BitArray.ZeroMembers(BitArray.Zeros(BitArray.Round(n)));
    var u := Create(t, n, v);
    forall c: Cell
      ensures c in u <==> c in t || c.vlan == v
      ensures c in u <==> c in Created(sets, v)
      ensures c in u ==> u[c] == if c.vlan == v then BitArray.Zeros(BitArray.Round(n)) else t[c]
    {
      CellsOfIs(v, c);
    }
  }

  /** The four releases of vlanremove. */
  function Remove(t: Tables, v: nat): Tables {
    map c | c in t && c.vlan != v :: t[c]
  }

  ghost function Removed(sets: Sets, v: nat): Sets {
    map c | c in sets && c.vlan != v :: sets[c]
  }

  lemma RemoveStands(t: Tables, sets: Sets, n: nat, v: nat)
    requires Stand(t, sets, n)
    ensures Stand(Remove(t, v), Removed(sets, v), n)
  {
  }

  // ----- all VLANs at once -----

  ghost function Cleared(sets: Sets, kind: Kind, p: nat, vs: set<nat>): (r: Sets)
    ensures r.Keys == sets.Keys
  {
    map c | c in sets :: if c.kind == kind && c.vlan in vs then sets[c] - {p} else sets[c]
  }

  ghost function Enabled(sets: Sets, p: nat, vs: set<nat>): (r: Sets)
    ensures r.Keys == sets.Keys
  {
    map c | c in sets ::
      if c.kind == BcTag && c.vlan in vs && Cell(Table, c.vlan) in sets && p in sets[Cell(Table, c.vlan)]
      then sets[c] + {p} else sets[c]
  }

  /** The valid VLANs, and the cells that they have. */
  ghost predicate Listed(t: Tables, validvlan: seq<Word>, vlans: set<nat>) {
    && BitArray.Counted(validvlan, NUMOFVLAN)
    && BitArray.Members(validvlan[..BitArray.Round(NUMOFVLAN)]) == vlans
    && (forall c: Cell :: c in t <==> c.vlan in vlans)
  }

  /** bac_FORALL(validvlan, ba_clr(vlant[v].kind, p)) */
  method ClearAll(t: Tables, validvlan: seq<Word>, kind: Kind, p: nat,
                  n: nat, ghost sets: Sets, ghost vlans: set<nat>) returns (r: Tables)
    requires Stand(t, sets, n) && Listed(t, validvlan, vlans) && p < n
    ensures Stand(r, Cleared(sets, kind, p, vlans), n)
  {
    var order := BitArray.BacForAll(validvlan, NUMOFVLAN);
    r := t;
    NoneYet(sets, kind, p);
    for i := 0 to |order|
      invariant Stand(r, Cleared(sets, kind, p, Elems(order, i)), n)
    {
      assert order[i] in order;
      var c := Cell(kind, order[i]);
      TakeStands(r, Cleared(sets, kind, p, Elems(order, i)), n, c, p);
      ClearedStep(sets, kind, p, Elems(order, i), order[i]);
      r := Take(r, c, p);
    }
    ElemsAll(order, vlans);
  }

  /** bac_FORALL(validvlan, p enters bctag[v] if it is in table[v]) */
  method EnableAll(t: Tables, validvlan: seq<Word>, p: nat,
                   n: nat, ghost sets: Sets, ghost vlans: set<nat>) returns (r: Tables)
    requires Stand(t, sets, n) && Listed(t, validvlan, vlans) && p < n
    ensures Stand(r, Enabled(sets, p, vlans), n)
  {
    var order := BitArray.BacForAll(validvlan, NUMOFVLAN);
    r := t;
    NoneYet(sets, BcTag, p);
    for i := 0 to |order|
      invariant Stand(r, Enabled(sets, p, Elems(order, i)), n)
    {
      assert order[i] in order;
      var c := Cell(BcTag, order[i]);
      HoldsStands(r, Enabled(sets, p, Elems(order, i)), n, Cell(Table, order[i]), p);
      PutStands(r, Enabled(sets, p, Elems(order, i)), n, c, p);
      EnabledStep(sets, p, Elems(order, i), order[i]);
      if InCell(r, Cell(Table, order[i]), p) {
        r := Put(r, c, p);
      }
    }
    ElemsAll(order, vlans);
  }

  lemma NoneYet(sets: Sets, kind: Kind, p: nat)
    ensures Cleared(sets, kind, p, {}) == sets && Enabled(sets, p, {}) == sets
  {
  }

  lemma ClearedStep(sets: Sets, kind: Kind, p: nat, vs: set<nat>, v: nat)
    requires Cell(kind, v) in sets
    ensures Cleared(sets, kind, p, vs + {v}) == But(Cleared(sets, kind, p, vs), Cell(kind, v), p)
  {
    var a, b := Cleared(sets, kind, p, vs + {v}), But(Cleared(sets, kind, p, vs), Cell(kind, v), p);
    forall c | c in sets ensures a[c] == b[c] {}
    assert a.Keys == b.Keys;
  }

  lemma EnabledAt(sets: Sets, p: nat, vs: set<nat>, v: nat, c: Cell)
    requires c in sets && Cell(Table, v) in sets
    ensures var u := Enabled(sets, p, vs);
      Enabled(sets, p, vs + {v})[c]
      == if c == Cell(BcTag, v) && p in sets[Cell(Table, v)] then u[c] + {p} else u[c]
  {
    if c == Cell(BcTag, v) { assert sets[c] + {p} + {p} == sets[c] + {p}; }
  }

  lemma EnabledStep(sets: Sets, p: nat, vs: set<nat>, v: nat)
    requires Cell(BcTag, v) in sets && Cell(Table, v) in sets
    ensures var u := Enabled(sets, p, vs);
      && u[Cell(Table, v)] == sets[Cell(Table, v)]
      && Enabled(sets, p, vs + {v}) == if p in sets[Cell(Table, v)] then With(u, Cell(BcTag, v), p) else u
  {
    var u, a := Enabled(sets, p, vs), Enabled(sets, p, vs + {v});
    var b := if p in sets[Cell(Table, v)] then With(u, Cell(BcTag, v), p) else u;
    forall c | c in sets ensures a[c] == b[c] { EnabledAt(sets, p, vs, v, c); }
    assert a.Keys == b.Keys;
  }

  /** The first i elements. */
  ghost function Elems(s: seq<nat>, i: nat): set<nat>
    requires i <= |s|
  {
    if i == 0 then {} else Elems(s, i - 1) + {s[i - 1]}
  }

  lemma {:induction false} ElemsAre(s: seq<nat>, i: nat)
    requires i <= |s|
    ensures forall v :: v in Elems(s, i) <==> exists j :: 0 <= j < i && s[j] == v
  {
    if i > 0 { ElemsAre(s, i - 1); }
  }

  lemma ElemsAll(order: seq<nat>, vs: set<nat>)
    requires BitArray.Enumerates(order, vs)
    ensures Elems(order, |order|) == vs
  {
    ElemsAre(order, |order|);
  }

  /** portsetnumports: every array is reallocated, in VLAN order. */
  method Resize(t: Tables, n: nat, m: nat, mask: Word, ghost sets: Sets) returns (r: Tables)
    requires Stand(t, sets, n) && 0 < n && 0 < m && BitArray.Round(n) <= BitArray.Round(m)
    requires forall c :: c in t ==> c.vlan < NUMOFVLAN
    requires forall c, p :: c in sets && p in sets[c] ==> p < m
    requires forall j: nat :: j <= (n - 1) % 32 ==> Bit(mask, j)
    ensures Stand(r, sets, m)
  {
    r := t;
    for v := 0 to NUMOFVLAN
      invariant Resized(r, t, n, m, mask, v)
    {
      ResizedStep(r, t, n, m, mask, v);
      r := ResizeVlan(r, v, n, m, mask);
    }
    forall c | c in t
      ensures BitArray.Members(r[c]) == sets[c]
    {
      BitArray.GrownMembers(t[c], n, m, mask);
    }
  }

  ghost predicate Resized(r: Tables, t: Tables, n: nat, m: nat, mask: Word, v: nat)
    requires 0 < n && BitArray.Round(n) <= BitArray.Round(m)
  {
    && r.Keys == t.Keys
    && forall c :: c in t ==>
         && |t[c]| == BitArray.Round(n)
         && r[c] == if c.vlan < v then BitArray.Grown(t[c], n, m, mask) else t[c]
  }

  function ResizeCell(t: Tables, c: Cell, n: nat, m: nat, mask: Word): (r: Tables)
    requires 0 < n && BitArray.Round(n) <= BitArray.Round(m)
    requires c in t ==> |t[c]| == BitArray.Round(n)
    ensures r.Keys == t.Keys
    ensures forall d :: d in t ==> r[d] == if d == c then BitArray.Grown(t[d], n, m, mask) else t[d]
  {
    if c in t then t[c := BitArray.Grown(t[c], n, m, mask)] else t
  }

  function ResizeVlan(t: Tables, v: nat, n: nat, m: nat, mask: Word): (r: Tables)
    requires 0 < n && BitArray.Round(n) <= BitArray.Round(m)
    requires forall c :: c in t && c.vlan == v ==> |t[c]| == BitArray.Round(n)
  {
    var r1 := ResizeCell(t, Cell(Table, v), n, m, mask);
    var r2 := ResizeCell(r1, Cell(BcTag, v), n, m, mask);
    var r3 := ResizeCell(r2, Cell(BcUntag, v), n, m, mask);
    ResizeCell(r3, Cell(NotLearning, v), n, m, mask)
  }

  lemma ResizedStep(r: Tables, t: Tables, n: nat, m: nat, mask: Word, v: nat)
    requires 0 < n && BitArray.Round(n) <= BitArray.Round(m) && Resized(r, t, n, m, mask, v)
    ensures Resized(ResizeVlan(r, v, n, m, mask), t, n, m, mask, v + 1)
  {
    var u := ResizeVlan(r, v, n, m, mask);
    forall c | c in t
      ensures u[c] == if c.vlan == v then BitArray.Grown(r[c], n, m, mask) else r[c]
    {
      CellsOfIs(v, c);
    }
  }
}
