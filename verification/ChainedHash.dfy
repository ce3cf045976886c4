/** The learning table as it is stored: an array of buckets, each the head of a chain of
    entries. An entry's `prev` designates the cell that points at it, which is a bucket or
    the `next` field of the entry before it. */
module ChainedHash {
  import opened Words
  import opened KeyPacking
  import opened Learning

  datatype Cell = Bucket(k: nat) | NextOf(e: Entry)

  class Entry {
    var next: Entry?
    var prev: Cell
    var lastSeen: int
    var port: nat
    const dst: nat

    constructor (dst: nat, port: nat)
      ensures this.dst == dst && this.port == port
    {
      this.dst, this.port := dst, port;
      next, prev := null, Bucket(0);
    }
  }

  ghost function At(c: seq<Entry>, i: nat): Entry? {
    if i < |c| then c[i] else null
  }

  /** The keys of a chain, and of several chains one after the other. */
  ghost function Dsts(c: seq<Entry>): (r: seq<nat>)
    ensures |r| == |c| && forall i :: 0 <= i < |c| ==> r[i] == c[i].dst
  {
    if c == [] then [] else Dsts(c[..|c| - 1]) + [c[|c| - 1].dst]
  }

  ghost function Keys(cs: seq<seq<Entry>>): seq<nat> {
    if cs == [] then [] else Keys(cs[..|cs| - 1]) + Dsts(cs[|cs| - 1])
  }

  lemma KeysStep(cs: seq<seq<Entry>>, k: nat)
    requires k < |cs|
    ensures Keys(cs[..k + 1]) == Keys(cs[..k]) + Dsts(cs[k])
  {
    assert cs[..k + 1][..k] == cs[..k];
  }

  /** Each key of the table occurs in the list, and occurs once. */
  ghost predicate ShownOnce(visited: seq<nat>, t: Table) {
    && (forall i, j :: 0 <= i < j < |visited| ==> visited[i] != visited[j])
    && (forall d: nat :: d in visited <==> d in t)
  }

  ghost predicate Bucketed(cs: seq<seq<Entry>>, hash: nat -> nat) {
    && (forall k, i :: 0 <= k < |cs| && 0 <= i < |cs[k]| ==> hash(cs[k][i].dst) == k)
    && (forall k, i, j :: 0 <= k < |cs| && 0 <= i < j < |cs[k]| ==> cs[k][i].dst != cs[k][j].dst)
  }

  /** A table without the entries, among those visited, that the visitor chooses. */
  ghost function Spared(t: Table, v: Visitor, visited: seq<nat>): Table {
    map d | d in t && !(v.Chooses(t[d]) && d in visited) :: t[d]
  }

  lemma {:induction false} KeysOnce(cs: seq<seq<Entry>>, hash: nat -> nat, n: nat)
    requires Bucketed(cs, hash) && n <= |cs|
    ensures var r := Keys(cs[..n]);
      && (forall d :: d in r ==> hash(d) < n)
      && (forall i, j :: 0 <= i < j < |r| ==> r[i] != r[j])
      && (forall k, i :: 0 <= k < n && 0 <= i < |cs[k]| ==> cs[k][i].dst in r)
  {
    if n > 0 {
      KeysOnce(cs, hash, n - 1);
      assert cs[..n][..n - 1] == cs[..n - 1];
      var front, last := Keys(cs[..n - 1]), Dsts(cs[n - 1]);
      assert Keys(cs[..n]) == front + last;
      forall d | d in last
        ensures hash(d) == n - 1
      {
        var i :| 0 <= i < |last| && last[i] == d;
        assert cs[n - 1][i].dst == d;
      }
      forall k, i | 0 <= k < n && 0 <= i < |cs[k]|
        ensures cs[k][i].dst in front + last
      {
        if k == n - 1 { assert last[i] in last; }
      }
      forall i, j | 0 <= i < j < |front + last|
        ensures (front + last)[i] != (front + last)[j]
      {
        if i < |front| <= j {
          assert front[i] in front && last[j - |front|] in last;
        }
      }
    }
  }

  ghost function Removed(c: seq<Entry>, i: nat): seq<Entry>
    requires i < |c|
  {
    c[..i] + c[i + 1..]
  }

  class HashTable {
    var head: array<Entry?>
    var hash: nat -> nat    // calc_hash with the current mask
    ghost var chains: seq<seq<Entry>>
    ghost var nodes: set<Entry>
    ghost var table: Table

    ghost function Footprint(): set<object>
      reads `head, `nodes
    {
      {this, head} + nodes
    }

    ghost predicate Valid()
      reads this, head, nodes
    {
      && head.Length == |chains|
      && (forall d: nat :: hash(d) < |chains|)
      && (forall k :: 0 <= k < |chains| ==> ChainOk(k))
      && (forall d :: d in table ==> exists i :: Holds(d, i))
    }

    ghost predicate ChainOk(k: nat)
      requires k < |chains| && k < head.Length
      reads this, head, nodes
    {
      var c := chains[k];
      && head[k] == At(c, 0)
      && (forall i :: 0 <= i < |c| ==> EntryOk(k, i))
      && (forall i, j :: 0 <= i < j < |c| ==> c[i].dst != c[j].dst)
    }

    /** What the entry at position i of chain k looks like. */
    ghost predicate EntryOk(k: nat, i: nat)
      requires k < |chains| && i < |chains[k]|
      reads this, nodes
    {
      var c := chains[k];
      && c[i] in nodes
      && c[i].next == At(c, i + 1)
      && c[i].prev == (if i == 0 then Bucket(k) else NextOf(c[i - 1]))
      && hash(c[i].dst) == k
      && c[i].dst in table
      && table[c[i].dst] == Learned(c[i].port, c[i].lastSeen)
    }

    /** Key d is at position i of its chain. */
    ghost predicate Holds(d: nat, i: nat)
      requires hash(d) < |chains|
      reads this
    {
      var c := chains[hash(d)];
      i < |c| && c[i].dst == d
    }

    constructor (bits: nat)
      ensures Valid() && table == map[] && fresh(Footprint())
      ensures head.Length == Pow2(bits) && hash == ((d: nat) => CalcHash(d, bits))
    {
      hash := (d: nat) => CalcHash(d, bits);
      head := new Entry?[Pow2(bits)](_ => null);
      chains := seq(Pow2(bits), _ => []);
      nodes := {};
      table := map[];
    }

    twostate lemma Undisturbed()
      requires old(Valid()) && unchanged(this) && unchanged(head) && unchanged(nodes)
      ensures Valid() && Footprint() == old(Footprint())
    {
    }

    /** Lookup as it is meant: walk the bucket's chain until the key is met. */
    method Find(key: nat) returns (e: Entry?, ghost i: nat)
      requires Valid()
      ensures e == null <==> key !in table
      ensures e != null ==> e in nodes && e.dst == key && table[key] == Learned(e.port, e.lastSeen)
      ensures e != null ==> Holds(key, i) && chains[hash(key)][i] == e
    {
      ghost var c := chains[hash(key)];
      assert ChainOk(hash(key));
      e := head[hash(key)];
      i := 0;
      while e != null && e.dst != key
        invariant i <= |c| && e == At(c, i)
        invariant forall j: nat :: j < i ==> !Holds(key, j)
        decreases |c| - i
      {
        assert EntryOk(hash(key), i);
        e := e.next;
        i := i + 1;
      }
      if e != null {
        assert EntryOk(hash(key), i);
      }
    }

    method FindInHash(key: nat) returns (port: int)
      requires Valid()
      ensures port == if key in table then table[key].port else -1
    {
      var e, _ := Find(key);
      port := if e == null then -1 else e.port;
    }

    /** The entry of a key, which is made if there is none. */
    method FindOrInsert(key: nat, port: nat) returns (e: Entry, ghost i: nat)
      requires Valid()
      modifies this`chains, this`nodes, this`table, head, nodes
      ensures Valid() && fresh(nodes - old(nodes))
      ensures e in nodes && e.dst == key && Holds(key, i) && chains[hash(key)][i] == e
      ensures if key in old(table) then table == old(table) && table[key] == Learned(e.port, e.lastSeen)
              else e.port == port && table == old(table)[key := Learned(port, e.lastSeen)]
    {
      var found;
      found, i := Find(key);
      if found != null {
        e := found;
      } else {
        e := Insert(key, port);
        i := 0;
      }
    }

    /** find_in_hash_update */
    method FindUpdate(key: nat, port: nat, now: int, minPersistence: int) returns (oldPort: nat)
      requires Valid()
      modifies this`chains, this`nodes, this`table, head, nodes
      ensures Valid() && fresh(nodes - old(nodes))
      ensures table == Learn(old(table), key, port, now, minPersistence)
      ensures oldPort == if key in old(table) then old(table)[key].port else port
    {
      var e, i := FindOrInsert(key, port);
      oldPort := e.port;
      if oldPort != port {
        if now - e.lastSeen > minPersistence {
          Stamp(e, i, port, now);
        }
      } else {
        Stamp(e, i, port, now);
      }
    }

    /** Chains other than k are still in order when no cell, entry or table row of theirs
        has changed. */
    twostate lemma OthersKept(k: nat)
      requires old(Valid()) && head == old(head) && hash == old(hash) && old(nodes) <= nodes
      requires |chains| == old(|chains|)
      requires forall b :: 0 <= b < |chains| && b != k
                 ==> chains[b] == old(chains[b]) && head[b] == old(head[b])
      requires forall n :: n in old(nodes) && hash(n.dst) != k
                 ==> && n.next == old(n.next) && n.prev == old(n.prev)
                     && n.port == old(n.port) && n.lastSeen == old(n.lastSeen)
      requires forall d :: d in old(table) && hash(d) != k ==> d in table && table[d] == old(table[d])
      ensures forall b :: 0 <= b < |chains| && b != k ==> ChainOk(b)
    {
      forall b: nat | b < |chains| && b != k
        ensures ChainOk(b)
      {
        assert old(ChainOk(b));
        forall j: nat | j < |chains[b]|
          ensures EntryOk(b, j)
        {
          assert old(EntryOk(b, j));
        }
      }
    }

    /** The pointer writes that make a new entry the head of its chain. */
    method LinkFront(key: nat, port: nat) returns (e: Entry)
      requires Valid()
      modifies head, nodes
      ensures fresh(e) && e.dst == key && e.port == port
      ensures e.next == old(head[hash(key)]) && e.prev == Bucket(hash(key))
      ensures forall b :: 0 <= b < head.Length ==> head[b] == if b == hash(key) then e else old(head[b])
      ensures forall n :: n in nodes
                ==> n.port == old(n.port) && n.lastSeen == old(n.lastSeen) && n.next == old(n.next)
      ensures forall n :: n in nodes
                ==> n.prev == if n == old(head[hash(key)]) then NextOf(e) else old(n.prev)
    {
      var k := hash(key);
      assert ChainOk(k);
      if chains[k] != [] { assert EntryOk(k, 0); }
      e := new Entry(key, port);
      if head[k] != null {
        head[k].prev := NextOf(e);
      }
      e.next := head[k];
      e.prev := Bucket(k);
      head[k] := e;
    }

    /** A new entry becomes the head of its chain. Its time stamp is still unset. */
    method Insert(key: nat, port: nat) returns (e: Entry)
      requires Valid() && key !in table
      modifies this`chains, this`nodes, this`table, head, nodes
      ensures Valid()
      ensures fresh(e) && nodes == old(nodes) + {e}
      ensures e.dst == key && e.port == port
      ensures table == old(table)[key := Learned(port, e.lastSeen)]
      ensures Holds(key, 0) && chains[hash(key)][0] == e
    {
      ghost var k := hash(key);
      ghost var c := chains[k];
      assert ChainOk(k);
      e := LinkFront(key, port);
      chains := chains[k := [e] + c];
      nodes := nodes + {e};
      table := table[key := Learned(port, e.lastSeen)];
      if c != [] { assert old(EntryOk(k, 0)); }
      FrontOk(k, e);
      OthersKept(k);
      FrontHolds(k, e);
    }

    twostate lemma FrontHolds(k: nat, new e: Entry)
      requires old(Valid()) && hash == old(hash) && hash(e.dst) == k < |old(chains)|
      requires chains == old(chains)[k := [e] + old(chains[k])]
      requires table.Keys == old(table.Keys) + {e.dst}
      ensures forall d :: d in table ==> exists i :: Holds(d, i)
    {
      forall d | d in table
        ensures exists i :: Holds(d, i)
      {
        if d == e.dst {
          assert Holds(d, 0);
        } else {
          var i: nat :| old(Holds(d, i));
          assert Holds(d, if hash(d) == k then i + 1 else i);
        }
      }
    }

    twostate lemma FrontOk(k: nat, new e: Entry)
      requires old(Valid()) && head == old(head) && hash == old(hash) && hash(e.dst) == k
      requires k < |chains| == old(|chains|) && chains[k] == [e] + old(chains[k])
      requires head[k] == e && e in nodes && e !in old(nodes) && old(nodes) <= nodes
      requires e.next == old(head[k]) && e.prev == Bucket(k)
      requires forall n :: n in old(nodes)
                 ==> n.port == old(n.port) && n.lastSeen == old(n.lastSeen) && n.next == old(n.next)
      requires forall n :: n in old(nodes) ==> n.prev == if n == old(head[k]) then NextOf(e) else old(n.prev)
      requires e.dst !in old(table) && table == old(table)[e.dst := Learned(e.port, e.lastSeen)]
      ensures ChainOk(k)
    {
      ghost var c := old(chains[k]);
      assert old(ChainOk(k));
      forall j: nat | j < |c|
        ensures EntryOk(k, j + 1) && c[j].dst != e.dst
      {
        assert old(EntryOk(k, j));
        if j > 0 { assert old(EntryOk(k, 0)) && c[j] != c[0]; }
      }
      assert EntryOk(k, 0);
      forall j: nat | j < |chains[k]| ensures EntryOk(k, j) {
        if j > 0 { assert EntryOk(k, j - 1 + 1); }
      }
    }

    /** Writing the port and time stamp of the entry at position i of its chain. */
    method Stamp(e: Entry, ghost i: nat, port: nat, now: int)
      requires Valid() && e in nodes && Holds(e.dst, i) && chains[hash(e.dst)][i] == e
      modifies this`table, e
      ensures Valid()
      ensures table == old(table)[e.dst := Learned(port, now)]
    {
      assert ChainOk(hash(e.dst)) && EntryOk(hash(e.dst), i);
      e.port := port;
      e.lastSeen := now;
      table := table[e.dst := Learned(port, now)];
      forall b | 0 <= b < |chains|
        ensures ChainOk(b)
      {
        assert old(ChainOk(b));
        forall j | 0 <= j < |chains[b]| ensures EntryOk(b, j) { assert old(EntryOk(b, j)); }
      }
      forall d | d in table
        ensures exists j :: Holds(d, j)
      {
        var j: nat :| old(Holds(d, j));
        assert Holds(d, j);
      }
    }

    /** The two pointer writes of delete_hash_entry: the cell that pointed at the entry is
        made to skip it, and the entry after it is told of that cell. */
    method Unlink(e: Entry, ghost i: nat)
      requires Valid() && Holds(e.dst, i) && chains[hash(e.dst)][i] == e
      modifies head, nodes
      ensures forall b :: 0 <= b < head.Length
                ==> head[b] == if b == hash(e.dst) && i == 0 then old(e.next) else old(head[b])
      ensures forall n :: n in nodes
                ==> n.port == old(n.port) && n.lastSeen == old(n.lastSeen)
      ensures forall n :: n in nodes
                ==> n.next == if i > 0 && n == chains[hash(e.dst)][i - 1] then old(e.next) else old(n.next)
      ensures forall n :: n in nodes
                ==> n.prev == if n == At(chains[hash(e.dst)], i + 1) then old(e.prev) else old(n.prev)
    {
      ghost var k := hash(e.dst);
      ghost var c := chains[k];
      assert ChainOk(k) && EntryOk(k, i);
      if i > 0 { assert EntryOk(k, i - 1); }
      if i + 1 < |c| { assert EntryOk(k, i + 1); }
      match e.prev {
        case Bucket(b) => head[b] := e.next;
        case NextOf(p) => p.next := e.next;
      }
      if e.next != null {
        e.next.prev := e.prev;
      }
    }

    /** delete_hash_entry */
    method Delete(e: Entry, ghost i: nat)
      requires Valid() && Holds(e.dst, i) && chains[hash(e.dst)][i] == e
      modifies this`chains, this`table, head, nodes
      ensures Valid()
      ensures chains == old(chains)[hash(e.dst) := Removed(old(chains)[hash(e.dst)], i)]
      ensures table == old(table) - {e.dst}
    {
      ghost var k := hash(e.dst);
      ghost var c := chains[k];
      assert ChainOk(k) && EntryOk(k, i);
      if i > 0 { assert EntryOk(k, i - 1); }
      if i + 1 < |c| { assert EntryOk(k, i + 1); }
      Unlink(e, i);
      chains := chains[k := Removed(c, i)];
      table := table - {e.dst};
      GapOk(k, i);
      OthersKept(k);
      GapHolds(k, i);
    }

    twostate lemma GapHolds(k: nat, new i: nat)
      requires old(Valid()) && hash == old(hash) && k < |old(chains)| && i < |old(chains[k])|
      requires chains == old(chains)[k := Removed(old(chains[k]), i)]
      requires table.Keys == old(table.Keys) - {old(chains[k])[i].dst}
      ensures forall d :: d in table ==> exists j :: Holds(d, j)
    {
      forall d | d in table
        ensures exists j :: Holds(d, j)
      {
        var j: nat :| old(Holds(d, j));
        assert Holds(d, if hash(d) == k && j > i then j - 1 else j);
      }
    }

    twostate lemma GapOk(k: nat, new i: nat)
      requires old(Valid()) && head == old(head) && hash == old(hash) && nodes == old(nodes)
      requires k < |chains| == old(|chains|) && i < |old(chains[k])|
      requires chains[k] == Removed(old(chains[k]), i)
      requires head[k] == if i == 0 then At(old(chains[k]), 1) else old(head[k])
      requires forall n :: n in nodes ==> n.port == old(n.port) && n.lastSeen == old(n.lastSeen)
      requires forall n :: n in nodes
                 ==> n.next == if i > 0 && n == old(chains[k])[i - 1] then At(old(chains[k]), i + 1) else old(n.next)
      requires forall n :: n in nodes
                 ==> n.prev == if n == At(old(chains[k]), i + 1) then old(chains[k][i].prev) else old(n.prev)
      requires table == old(table) - {old(chains[k])[i].dst}
      ensures ChainOk(k)
    {
      ghost var c := old(chains[k]);
      assert old(ChainOk(k)) && old(EntryOk(k, i));
      forall j: nat | j < |chains[k]|
        ensures EntryOk(k, j)
      {
        var j' := if j < i then j else j + 1;
        assert old(EntryOk(k, j'));
        assert chains[k][j] == c[j'] && c[j'].dst != c[i].dst;
        if i + 1 < |c| && j' != i + 1 { assert c[j'].dst != c[i + 1].dst; }
        if i > 0 && j' != i - 1 { assert c[j'].dst != c[i - 1].dst; }
      }
    }

    lemma BucketedNow()
      requires Valid()
      ensures Bucketed(chains, hash)
    {
      forall k, i | 0 <= k < |chains| && 0 <= i < |chains[k]|
        ensures hash(chains[k][i].dst) == k
      {
        assert ChainOk(k) && EntryOk(k, i);
      }
      forall k, i, j | 0 <= k < |chains| && 0 <= i < j < |chains[k]|
        ensures chains[k][i].dst != chains[k][j].dst
      {
        assert ChainOk(k);
      }
    }

    lemma ShownOnceNow()
      requires Valid()
      ensures ShownOnce(Keys(chains), table)
    {
      BucketedNow();
      KeysOnce(chains, hash, |chains|);
      assert chains[..|chains|] == chains;
      forall d: nat
        ensures d in Keys(chains) <==> d in table
      {
        if d in table {
          var i: nat :| Holds(d, i);
        }
        if d in Keys(chains) { KeyPlace(|chains|, d); }
      }
    }

    lemma {:induction false} KeyPlace(n: nat, d: nat)
      requires Valid() && n <= |chains| && d in Keys(chains[..n])
      ensures d in table
    {
      assert chains[..n][..n - 1] == chains[..n - 1];
      if d in Keys(chains[..n - 1]) {
        KeyPlace(n - 1, d);
      } else {
        var i :| 0 <= i < |Dsts(chains[n - 1])| && Dsts(chains[n - 1])[i] == d;
        assert ChainOk(n - 1) && EntryOk(n - 1, i);
      }
    }

    /** One call of the visitor. */
    method Visit(v: Visitor, e: Entry, ghost i: nat)
      requires Valid() && e.dst in table && Holds(e.dst, i) && chains[hash(e.dst)][i] == e
      modifies this`chains, this`table, head, nodes
      ensures Valid()
      ensures chains == if v.Chooses(old(table[e.dst]))
                        then old(chains)[hash(e.dst) := Removed(old(chains)[hash(e.dst)], i)]
                        else old(chains)
      ensures table == Spared(old(table), v, [e.dst])
    {
      assert ChainOk(hash(e.dst)) && EntryOk(hash(e.dst), i);
      if v.Chooses(Learned(e.port, e.lastSeen)) {
        Delete(e, i);
      }
    }

    /** One turn of the inner loop of for_all_hash: a visitor may delete the entry it is
        shown, so the entry after it is read first. */
    method VisitNext(k: nat, v: Visitor, e: Entry, ghost kept: seq<Entry>, ghost rest: seq<Entry>)
      returns (next: Entry?, ghost nowKept: seq<Entry>)
      requires Valid() && k < |chains| && chains[k] == kept + rest && rest != [] && e == rest[0]
      modifies this`chains, this`table, head, nodes
      ensures Valid() && |chains| == old(|chains|) && chains[k] == nowKept + rest[1..]
      ensures forall b :: 0 <= b < |chains| && b != k ==> chains[b] == old(chains[b])
      ensures table == Spared(old(table), v, [e.dst])
      ensures next == At(rest[1..], 0)
    {
      assert ChainOk(k) && EntryOk(k, |kept|) && Holds(e.dst, |kept|);
      ChainStep(kept, rest);
      next := e.next;
      nowKept := if v.Chooses(table[e.dst]) then kept else kept + [e];
      Visit(v, e, |kept|);
    }

    method VisitChain(k: nat, v: Visitor) returns (visited: seq<nat>)
      requires Valid() && k < head.Length
      modifies this`chains, this`table, head, nodes
      ensures Valid() && |chains| == old(|chains|)
      ensures forall b :: 0 <= b < |chains| && b != k ==> chains[b] == old(chains[b])
      ensures visited == Dsts(old(chains[k]))
      ensures table == Spared(old(table), v, visited)
    {
      ghost var t := table;
      ghost var done: seq<Entry>, kept: seq<Entry>, rest: seq<Entry> := [], [], chains[k];
      var e := head[k];
      visited := [];
      assert ChainOk(k);
      while e != null
        invariant Valid() && e == At(rest, 0)
        invariant |chains| == old(|chains|)
        invariant forall b :: 0 <= b < |chains| && b != k ==> chains[b] == old(chains[b])
        invariant chains[k] == kept + rest && old(chains[k]) == done + rest
        invariant visited == Dsts(done)
        invariant table == Spared(t, v, visited)
        decreases |rest|
      {
        DoneStep(done, rest);
        SparedTwice(t, v, visited, [e.dst]);
        visited, done := visited + [e.dst], done + [rest[0]];
        e, kept := VisitNext(k, v, e, kept, rest);
        rest := rest[1..];
      }
    }

    /** for_all_hash: every key of the table is shown to the visitor exactly once, and
        exactly the entries it chooses are gone afterwards. */
    method ForAllHash(v: Visitor) returns (visited: seq<nat>)
      requires Valid()
      modifies this`chains, this`table, head, nodes
      ensures Valid() && Footprint() == old(Footprint())
      ensures table == Without(old(table), v)
      ensures ShownOnce(visited, old(table))
    {
      ghost var before, t := chains, table;
      visited := [];
      ShownOnceNow();
      SparedNone(t, v);
      SparedAll(t, v, Keys(before));
      assert before[..0] == [];
      for k := 0 to head.Length
        invariant Valid() && |chains| == |before|
        invariant forall b :: k <= b < |chains| ==> chains[b] == before[b]
        invariant visited == Keys(before[..k])
        invariant table == Spared(t, v, visited)
      {
        var shown := VisitChain(k, v);
        SparedTwice(t, v, visited, shown);
        KeysStep(before, k);
        visited := visited + shown;
      }
      assert before[..|before|] == before;
    }

    /** hash_delete_port */
    method DeletePort(port: nat)
      requires Valid()
      modifies this`chains, this`table, head, nodes
      ensures Valid() && table == Without(old(table), Visitor.DeletePort(port))
      ensures Footprint() == old(Footprint())
    {
      var _ := ForAllHash(Visitor.DeletePort(port));
    }

    /** hash_resize with a positive size: flush, then a new bucket array. */
    method Resize(size: nat)
      requires Valid() && 0 < size <= 0x4000_0000
      modifies this, head, nodes
      ensures Valid() && table == map[]
      ensures fresh(head) && size <= head.Length < 2 * size
      ensures nodes == {}
    {
      var _ := ForAllHash(Flush);
      var b := Po2Round(size);
      head := new Entry?[Pow2(b)](_ => null);
      hash := (d: nat) => CalcHash(d, b);
      chains := seq(Pow2(b), _ => []);
      nodes := {};
      table := map[];
    }
  }

  lemma ChainStep(kept: seq<Entry>, rest: seq<Entry>)
    requires rest != []
    ensures kept + rest == kept + [rest[0]] + rest[1..]
    ensures Removed(kept + rest, |kept|) == kept + rest[1..]
    ensures At(kept + rest, |kept| + 1) == At(rest[1..], 0)
  {
  }

  lemma DoneStep(done: seq<Entry>, rest: seq<Entry>)
    requires rest != []
    ensures done + rest == done + [rest[0]] + rest[1..]
    ensures Dsts(done + [rest[0]]) == Dsts(done) + [rest[0].dst]
  {
    assert (done + [rest[0]])[..|done|] == done;
  }

  lemma SparedNone(t: Table, v: Visitor)
    ensures Spared(t, v, []) == t
  {
  }

  lemma SparedAll(t: Table, v: Visitor, visited: seq<nat>)
    requires ShownOnce(visited, t)
    ensures Spared(t, v, visited) == Without(t, v)
  {
  }

  lemma SparedTwice(t: Table, v: Visitor, a: seq<nat>, b: seq<nat>)
    ensures Spared(Spared(t, v, a), v, b) == Spared(t, v, a + b)
  {
  }

  /** po2round: the number of bits that make a table of at least vx buckets. */
  method Po2Round(vx: nat) returns (index: nat)
    requires vx < 0x8000_0000
    ensures if vx == 0 then index == 0 else vx <= Pow2(index) < 2 * vx
    ensures index < 32
  {
    index := 0;
    if vx == 0 { return; }
    var shift := vx - 1;
    Pow2Values();
    assert Bracket(shift, Pow2(index), vx - 1) by { assert shift * 1 == shift; }
    while shift > 0
      invariant 0 <= shift && Bracket(shift, Pow2(index), vx - 1)
      invariant vx == 1 ==> index == 0
      invariant vx > 1 && shift == 0 ==> Pow2(index) <= 2 * (vx - 1)
      invariant shift == 0 ==> Pow2(index) >= vx
      decreases shift
    {
      Halve(shift, Pow2(index), vx - 1);
      shift := shift / 2;
      index := index + 1;
    }
    if index >= 32 { Pow2Mono(32, index); }
  }

  ghost predicate Bracket(shift: nat, p: nat, x: nat) {
    shift * p <= x < (shift + 1) * p
  }

  lemma Halve(shift: nat, p: nat, x: nat)
    requires shift > 0 && Bracket(shift, p, x)
    ensures Bracket(shift / 2, 2 * p, x)
    ensures shift == 1 ==> 2 * p <= 2 * x && x < 2 * p
  {
    var q := shift / 2;
    assert q * (2 * p) == 2 * q * p;
    assert (q + 1) * (2 * p) == (2 * q + 2) * p;
    if shift == 2 * q {
      assert (2 * q + 1) * p + p == (2 * q + 2) * p;
    } else {
      assert shift == 2 * q + 1;
      assert 2 * q * p + p == (2 * q + 1) * p;
    }
  }
}
