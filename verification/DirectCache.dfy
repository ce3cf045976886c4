/** The library's address cache: a table in which each key has one slot, shared with every
    other key of the same hash and overwritten by it. */
module DirectCache {
  import opened KeyPacking
  import opened Maybes

  datatype Slot<T> = Slot(edst: nat, lastSeen: int, payload: T)

  /** One call of winvde_find_in_hash_update. */
  datatype Update<T> = Update(src: Mac, vlan: nat, payload: T, now: int)

  predicate Multicast(m: Mac) {
    m[0] % 2 == 1
  }

  class Cache<T> {
    const slots: array<Slot<T>>
    const hash: nat -> nat      // calculate_hash with the table's mask and seed
    ghost var updates: seq<Update<T>>
    ghost const zero: T

    ghost predicate Valid()
      reads this, slots
    {
      && (forall k: nat :: hash(k) < slots.Length)
      && (forall i :: 0 <= i < slots.Length ==> slots[i] == SlotAfter(updates, hash, i, zero))
    }

    /** A table of zeros. */
    constructor (size: nat, hash: nat -> nat, zero: T)
      requires forall k: nat :: hash(k) < size
      ensures Valid() && this.hash == hash && this.zero == zero && updates == []
    {
      slots := new Slot<T>[size](_ => Slot(0, 0, zero));
      this.hash, this.zero, updates := hash, zero, [];
    }

    /** winvde_find_in_hash */
    method Find(dst: Mac, vlan: nat, tooOld: int) returns (r: Maybe<T>)
      requires Valid()
      ensures r == Lookup(updates, hash, zero, dst, vlan, tooOld)
    {
      var edst := ExtMac(dst, vlan);
      var entry := slots[hash(edst)];
      r := if entry.edst == edst && entry.lastSeen > tooOld then Some(entry.payload) else None;
    }

    /** winvde_find_in_hash_update */
    method FindUpdate(src: Mac, vlan: nat, payload: T, now: int)
      requires Valid()
      modifies this`updates, slots
      ensures Valid() && updates == old(updates) + [Update(src, vlan, payload, now)]
    {
      ghost var u := Update(src, vlan, payload, now);
      assert (updates + [u])[..|updates|] == updates;
      updates := updates + [u];
      if Multicast(src) { return; }
      var esrc := ExtMac(src, vlan);
      slots[hash(esrc)] := Slot(esrc, now, payload);
    }
  }

  // ----- what a history of updates leaves behind -----

  function KeyOf<T>(u: Update<T>): nat {
    ExtMac(u.src, u.vlan)
  }

  /** The last update that wrote slot i. */
  function LastIn<T>(us: seq<Update<T>>, hash: nat -> nat, i: nat): Maybe<Update<T>> {
    if us == [] then None
    else
      var u := us[|us| - 1];
      if !Multicast(u.src) && hash(KeyOf(u)) == i then Some(u) else LastIn(us[..|us| - 1], hash, i)
  }

  function SlotAfter<T>(us: seq<Update<T>>, hash: nat -> nat, i: nat, zero: T): Slot<T> {
    match LastIn(us, hash, i)
    case None => Slot(0, 0, zero)
    case Some(u) => Slot(KeyOf(u), u.now, u.payload)
  }

  function Lookup<T>(us: seq<Update<T>>, hash: nat -> nat, zero: T, dst: Mac, vlan: nat, tooOld: int): Maybe<T> {
    var key := ExtMac(dst, vlan);
    var entry := SlotAfter(us, hash, hash(key), zero);
    if entry.edst == key && entry.lastSeen > tooOld then Some(entry.payload) else None
  }

  /** The last update for this very address and VLAN, group addresses aside. */
  function LastFor<T>(us: seq<Update<T>>, dst: Mac, vlan: nat): Maybe<Update<T>> {
    if us == [] then None
    else
      var u := us[|us| - 1];
      if !Multicast(u.src) && u.src == dst && u.vlan % 0x1_0000 == vlan % 0x1_0000 then Some(u)
      else LastFor(us[..|us| - 1], dst, vlan)
  }

  lemma {:induction false} LastInFor<T>(us: seq<Update<T>>, hash: nat -> nat, dst: Mac, vlan: nat)
    ensures var key := ExtMac(dst, vlan); var a := LastIn(us, hash, hash(key));
      && (a == None ==> LastFor(us, dst, vlan) == None)
      && (a != None && KeyOf(a.value) == key ==> LastFor(us, dst, vlan) == a)
  {
    if us != [] {
      var u := us[|us| - 1];
      KeysCollide(u.src, u.vlan, dst, vlan);
      LastInFor(us[..|us| - 1], hash, dst, vlan);
    }
  }

  /** Soundness. What is found is the payload of the last update for that address and VLAN,
      and that update is recent enough: collisions only hide entries. A hit in a slot that was
      never written is possible for a negative `too_old` only. */
  lemma FoundIsLast<T>(us: seq<Update<T>>, hash: nat -> nat, zero: T, dst: Mac, vlan: nat, tooOld: int)
    ensures var r := Lookup(us, hash, zero, dst, vlan, tooOld);
      var last := LastFor(us, dst, vlan);
      var slot := LastIn(us, hash, hash(ExtMac(dst, vlan)));
      && (tooOld >= 0 || slot != None ==>
            (r != None <==> last != None && slot == last && last.value.now > tooOld)
            && (r != None ==> r == Some(last.value.payload)))
      && (tooOld < 0 && slot == None ==>
            (r != None <==> ExtMac(dst, vlan) == 0) && last == None)
  {
    LastInFor(us, hash, dst, vlan);
    if LastFor(us, dst, vlan) != None { LastForKey(us, dst, vlan); }
  }

  /** A group address changes no lookup; any other update is found from then on by whoever
      takes it for recent, until its slot is written again. */
  lemma UpdateDoes<T>(us: seq<Update<T>>, hash: nat -> nat, zero: T, u: Update<T>, dst: Mac, vlan: nat, tooOld: int)
    ensures var r := Lookup(us + [u], hash, zero, dst, vlan, tooOld);
      if u.src[0] % 2 == 1 || hash(ExtMac(u.src, u.vlan)) != hash(ExtMac(dst, vlan))
      then r == Lookup(us, hash, zero, dst, vlan, tooOld)
      else if u.src == dst && u.vlan % 0x1_0000 == vlan % 0x1_0000 && u.now > tooOld then r == Some(u.payload)
      else r == None
  {
    assert (us + [u])[..|us|] == us;
    KeysCollide(u.src, u.vlan, dst, vlan);
  }

  /** A lookup in a fresh cache, with an age limit of -1, finds the zeros that fill it. */
  lemma PhantomHit<T>(hash: nat -> nat, zero: T)
    ensures Lookup([], hash, zero, [0, 0, 0, 0, 0, 0], 0, -1) == Some(zero)
  {
    var mac: Mac := [0, 0, 0, 0, 0, 0];
    assert ExtMac(mac, 0) == 0;
    assert SlotAfter<T>([], hash, hash(0), zero) == Slot(0, 0, zero);
  }

  lemma {:induction false} LastForKey<T>(us: seq<Update<T>>, dst: Mac, vlan: nat)
    requires LastFor(us, dst, vlan) != None
    ensures KeyOf(LastFor(us, dst, vlan).value) == ExtMac(dst, vlan)
  {
    var u := us[|us| - 1];
    if !Multicast(u.src) && u.src == dst && u.vlan % 0x1_0000 == vlan % 0x1_0000 {
      KeysCollide(u.src, u.vlan, dst, vlan);
    } else {
      LastForKey(us[..|us| - 1], dst, vlan);
    }
  }

  /** Without collisions nothing is hidden. */
  lemma {:induction false} NothingHidden<T>(us: seq<Update<T>>, hash: nat -> nat, dst: Mac, vlan: nat)
    requires forall u :: u in us && !Multicast(u.src) && hash(KeyOf(u)) == hash(ExtMac(dst, vlan))
               ==> KeyOf(u) == ExtMac(dst, vlan)
    ensures LastIn(us, hash, hash(ExtMac(dst, vlan))) == LastFor(us, dst, vlan)
  {
    if us != [] {
      var u := us[|us| - 1];
      assert u in us;
      KeysCollide(u.src, u.vlan, dst, vlan);
      NothingHidden(us[..|us| - 1], hash, dst, vlan);
    }
  }
}
