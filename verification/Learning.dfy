/** What the learning table means: a map from packed (address, VLAN) keys to the port
    an address was last seen on, and when. */
module Learning {

  datatype Learned = Learned(port: nat, lastSeen: int)

  type Table = map<nat, Learned>

  /** One more sighting of a known address. A sighting on another port wins only when the
      entry has been silent for more than `minPersistence`. */
  function Refresh(e: Learned, port: nat, now: int, minPersistence: int): Learned {
    if e.port != port then
      if now - e.lastSeen > minPersistence then Learned(port, now) else e
    else
      Learned(port, now)
  }

  function Learn(t: Table, key: nat, port: nat, now: int, minPersistence: int): Table {
    t[key := if key in t then Refresh(t[key], port, now, minPersistence) else Learned(port, now)]
  }

  /** One row of the table changes: it is new, or a sighting in the same place, or in another
      after a silence longer than `minPersistence`, and then it is stamped; or it stays. */
  lemma LearnDoes(t: Table, key: nat, port: nat, now: int, minPersistence: int)
    ensures var u := Learn(t, key, port, now, minPersistence);
      && u.Keys == t.Keys + {key}
      && (forall k :: k in t && k != key ==> u[k] == t[k])
      && if key in t && t[key].port != port && now - t[key].lastSeen <= minPersistence then u[key] == t[key]
         else u[key].port == port && u[key].lastSeen == now
  {
  }

  /** The callbacks that for_all_hash is given. */
  datatype Visitor = Flush | DeletePort(port: nat) | Collect(now: int, expire: int)
  {
    predicate Chooses(e: Learned) {
      match this
      case Flush => true
      case DeletePort(port) => e.port == port
      case Collect(now, expire) => e.lastSeen + expire < now
    }
  }

  /** The table without the entries a visitor chooses. */
  function Without(t: Table, v: Visitor): Table {
    map d | d in t && !v.Chooses(t[d]) :: t[d]
  }

  /** What each of the visitors leaves in the table. */
  lemma WithoutIs(t: Table, port: nat, now: int, expire: int)
    ensures Without(t, Flush) == map[]
    ensures forall k :: k in Without(t, DeletePort(port)) <==> k in t && t[k].port != port
    ensures forall k :: k in Without(t, Collect(now, expire)) <==> k in t && now - t[k].lastSeen <= expire
    ensures forall v: Visitor, k :: k in Without(t, v) ==> Without(t, v)[k] == t[k]
  {
  }

  // ----- stability of one entry while it stays in the table -----

  datatype Sighting = Sighting(port: nat, now: int)

  /** The entry after each sighting; element i is the state before sighting i. */
  function Trace(e: Learned, s: seq<Sighting>, minPersistence: int): (t: seq<Learned>)
    ensures |t| == |s| + 1 && t[0] == e
    decreases |s|
  {
    if s == [] then [e]
    else [e] + Trace(Refresh(e, s[0].port, s[0].now, minPersistence), s[1..], minPersistence)
  }

  ghost predicate Timely(e: Learned, s: seq<Sighting>) {
    && (forall i :: 0 <= i < |s| ==> e.lastSeen <= s[i].now)
    && (forall i, j :: 0 <= i < j < |s| ==> s[i].now <= s[j].now)
  }

  lemma {:induction false} TraceStep(e: Learned, s: seq<Sighting>, minPersistence: int, i: nat)
    requires i < |s|
    ensures Trace(e, s, minPersistence)[i + 1]
         == Refresh(Trace(e, s, minPersistence)[i], s[i].port, s[i].now, minPersistence)
    decreases i
  {
    if i > 0 {
      TraceStep(Refresh(e, s[0].port, s[0].now, minPersistence), s[1..], minPersistence, i - 1);
    }
  }

  /** An entry never claims to have been seen later than the sightings fed to it, and once
      its time stamp has reached some value it keeps at least that value. */
  lemma {:induction false} StampGrows(e: Learned, s: seq<Sighting>, minPersistence: int, i: nat, j: nat)
    requires Timely(e, s) && i <= j <= |s|
    ensures var t := Trace(e, s, minPersistence);
      && t[i].lastSeen <= t[j].lastSeen
      && (j > 0 ==> t[j].lastSeen <= s[j - 1].now)
      && (forall k :: j <= k < |s| ==> t[j].lastSeen <= s[k].now)
    decreases j
  {
    if j > 0 {
      TraceStep(e, s, minPersistence, j - 1);
      if i < j {
        StampGrows(e, s, minPersistence, i, j - 1);
      } else {
        StampGrows(e, s, minPersistence, 0, j - 1);
      }
    }
  }

  /** Two changes of port are more than minPersistence apart. */
  lemma ChangesApart(e: Learned, s: seq<Sighting>, minPersistence: int, i: nat, j: nat)
    requires Timely(e, s) && i < j < |s|
    requires var t := Trace(e, s, minPersistence);
      t[i + 1].port != t[i].port && t[j + 1].port != t[j].port
    ensures s[j].now - s[i].now > minPersistence
  {
    TraceStep(e, s, minPersistence, i);
    TraceStep(e, s, minPersistence, j);
    StampGrows(e, s, minPersistence, i + 1, j);
  }

  /** Sighting i comes no later than minPersistence after the owner was last seen. */
  ghost predicate Covered(e: Learned, s: seq<Sighting>, minPersistence: int, i: nat)
    requires i < |s|
  {
    || s[i].port == e.port
    || s[i].now - e.lastSeen <= minPersistence
    || exists k :: 0 <= k < i && s[k].port == e.port && s[i].now - s[k].now <= minPersistence
  }

  ghost predicate AllCovered(e: Learned, s: seq<Sighting>, minPersistence: int) {
    forall i :: 0 <= i < |s| ==> Covered(e, s, minPersistence, i)
  }

  ghost predicate NeverMoves(e: Learned, s: seq<Sighting>, minPersistence: int) {
    forall i :: 0 <= i <= |s| ==> Trace(e, s, minPersistence)[i].port == e.port
  }

  /** A port that keeps refreshing its address within the window never loses it: the entry
      stays with its port throughout a run exactly when every sighting is covered. */
  lemma RefreshedKeeps(e: Learned, s: seq<Sighting>, minPersistence: int)
    requires Timely(e, s)
    ensures NeverMoves(e, s, minPersistence) <==> AllCovered(e, s, minPersistence)
  {
    if AllCovered(e, s, minPersistence) { OwnerStays(e, s, minPersistence, |s|); }
    if NeverMoves(e, s, minPersistence) { CoveredAll(e, s, minPersistence); }
  }

  lemma CoveredAll(e: Learned, s: seq<Sighting>, minPersistence: int)
    requires Timely(e, s) && NeverMoves(e, s, minPersistence)
    ensures AllCovered(e, s, minPersistence)
  {
    var t := Trace(e, s, minPersistence);
    forall i | 0 <= i < |s|
      ensures Covered(e, s, minPersistence, i)
    {
      Stamp(e, s, minPersistence, i);
      TraceStep(e, s, minPersistence, i);
      assert t[i + 1].port == e.port && t[i].port == e.port;
    }
  }

  /** While the port is unchanged the stamp is that of the owner's latest sighting. */
  lemma {:induction false} Stamp(e: Learned, s: seq<Sighting>, minPersistence: int, i: nat)
    requires Timely(e, s) && i <= |s|
    requires forall k :: 0 <= k <= i ==> Trace(e, s, minPersistence)[k].port == e.port
    ensures var t := Trace(e, s, minPersistence);
      || t[i].lastSeen == e.lastSeen
      || exists k :: 0 <= k < i && s[k].port == e.port && t[i].lastSeen == s[k].now
    ensures forall k :: 0 <= k < i && s[k].port == e.port
              ==> s[k].now <= Trace(e, s, minPersistence)[i].lastSeen
    ensures e.lastSeen <= Trace(e, s, minPersistence)[i].lastSeen
  {
    if i > 0 {
      Stamp(e, s, minPersistence, i - 1);
      TraceStep(e, s, minPersistence, i - 1);
    }
  }

  lemma {:induction false} OwnerStays(e: Learned, s: seq<Sighting>, minPersistence: int, i: nat)
    requires Timely(e, s) && i <= |s|
    requires forall k :: 0 <= k < |s| ==> Covered(e, s, minPersistence, k)
    ensures forall k :: 0 <= k <= i ==> Trace(e, s, minPersistence)[k].port == e.port
  {
    if i > 0 {
      OwnerStays(e, s, minPersistence, i - 1);
      Stamp(e, s, minPersistence, i - 1);
      TraceStep(e, s, minPersistence, i - 1);
      assert Covered(e, s, minPersistence, i - 1);
    }
  }
}
