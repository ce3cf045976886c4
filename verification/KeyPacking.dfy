/** The 64-bit key of the learning table: six address bytes, then the VLAN. */
module KeyPacking {
  import opened Words

  type Byte = b: nat | b < 256
  type Mac = m: seq<Byte> | |m| == 6 witness [0, 0, 0, 0, 0, 0]

  const TWO32: nat := 0x1_0000_0000
  const TWO48: nat := 0x1_0000_0000_0000
  const TWO64: nat := 0x1_0000_0000_0000_0000

  /** Little-endian loads through a uint16_t or uint32_t pointer to byte `at`. */
  function Load16(m: Mac, at: nat): (r: nat)
    requires at + 2 <= 6
    ensures r < 0x1_0000
  {
    var lo: nat, hi: nat := m[at], m[at + 1];
    lo + 256 * hi
  }

  function Load32(m: Mac, at: nat): (r: nat)
    requires at + 4 <= 6
    ensures r < TWO32
  {
    Load16(m, at) + 0x1_0000 * Load16(m, at + 2)
  }

  /** extmac: the sums are taken modulo 2^64, so VLAN bits above the 16th are shifted out. */
  function ExtMac(mac: Mac, vlan: nat): (key: nat)
    ensures key < TWO64
  {
    (Load32(mac, 0) + (Load16(mac, 4) + vlan * 0x1_0000) % TWO64 * TWO32) % TWO64
  }

  /** EMAC2MAC6: byte k is (key >> 8k) & 0xff. */
  function Mac6(key: nat): Mac {
    [key % 256, key / 0x100 % 256, key / 0x1_0000 % 256, key / 0x100_0000 % 256,
     key / 0x1_0000_0000 % 256, key / 0x100_0000_0000 % 256]
  }

  /** EMAC2VLAN */
  function VlanOf(key: nat): (v: nat)
    ensures v < 0x1_0000
  {
    key / TWO48 % 0x1_0000
  }

  /** Six bytes below a 16-bit number, little end first. */
  function Spell(b0: nat, b1: nat, b2: nat, b3: nat, b4: nat, b5: nat, v: nat): nat {
    b0 + 256 * (b1 + 256 * (b2 + 256 * (b3 + 256 * (b4 + 256 * (b5 + 256 * v)))))
  }

  /** Shifting by 8k is shifting by 8 k times. */
  lemma Shifts(x: nat)
    ensures x / 0x1_0000 == x / 0x100 / 0x100
    ensures x / 0x100_0000 == x / 0x100 / 0x100 / 0x100
  {
    assert x / 0x100_0000 == x / 0x1_0000 / 0x100;
  }

  lemma Digits(b0: nat, b1: nat, b2: nat, b3: nat, b4: nat, b5: nat, v: nat)
    requires b0 < 256 && b1 < 256 && b2 < 256 && b3 < 256 && b4 < 256 && b5 < 256 && v < 0x1_0000
    ensures var x := Spell(b0, b1, b2, b3, b4, b5, v);
      x < TWO64 && VlanOf(x) == v && Mac6(x) == [b0, b1, b2, b3, b4, b5]
  {
    var x := Spell(b0, b1, b2, b3, b4, b5, v);
    var top := b3 + 256 * (b4 + 256 * (b5 + 256 * v));
    Shifts(x);
    assert x / 0x100 == b1 + 256 * (b2 + 256 * top);
    assert x / 0x1_0000 == b2 + 256 * top;
    assert x / 0x100_0000 == top;
    Shifts(top);
    assert x / 0x1_0000_0000 == top / 0x100;
    assert x / 0x100_0000_0000 == top / 0x1_0000;
    assert x / TWO48 == top / 0x100_0000;
    assert top / 0x100 == b4 + 256 * (b5 + 256 * v);
    assert top / 0x1_0000 == b5 + 256 * v;
  }

  /** Any number is spelled by its base-256 digits. */
  lemma Spelled(x: nat)
    requires x < TWO64
    ensures var m := Mac6(x); x == Spell(m[0], m[1], m[2], m[3], m[4], m[5], VlanOf(x))
  {
    var top := x / 0x100_0000;
    Shifts(x);
    Shifts(top);
    assert x / 0x1_0000_0000 == top / 0x100;
    assert x / 0x100_0000_0000 == top / 0x1_0000;
    assert x / TWO48 == top / 0x100_0000;
  }

  /** A carry out of the inner 64-bit sum is a multiple of 2^64 after the shift by 32. */
  lemma DropCarry(low: nat, sum: nat)
    ensures (low + sum % TWO64 * TWO32) % TWO64 == (low + sum * TWO32) % TWO64
  {
    var q, r := sum / TWO64, sum % TWO64;
    assert sum == r + q * TWO64;
    assert low + sum * TWO32 == low + r * TWO32 + q * TWO32 * TWO64;
    ModDrop(low + r * TWO32, q * TWO32);
  }

  lemma {:induction false} ModDrop(r: nat, k: nat)
    ensures (r + k * TWO64) % TWO64 == r % TWO64
  {
    if k > 0 {
      ModDrop(r, k - 1);
      assert r + k * TWO64 == r + (k - 1) * TWO64 + TWO64;
    }
  }

  lemma Address(mac: Mac)
    ensures Load32(mac, 0) + Load16(mac, 4) * TWO32
         == Spell(mac[0], mac[1], mac[2], mac[3], mac[4], mac[5], 0)
  {
  }

  lemma Packed(mac: Mac, vlan: nat)
    ensures ExtMac(mac, vlan)
         == Spell(mac[0], mac[1], mac[2], mac[3], mac[4], mac[5], vlan % 0x1_0000)
  {
    var low, high := Load32(mac, 0), Load16(mac, 4);
    var q, v := vlan / 0x1_0000, vlan % 0x1_0000;
    var address := low + high * TWO32;
    Address(mac);
    assert address < TWO48;
    DropCarry(low, high + vlan * 0x1_0000);
    assert low + (high + vlan * 0x1_0000) * TWO32 == address + v * TWO48 + q * TWO64;
    ModDrop(address + v * TWO48, q);
    assert address + v * TWO48 < TWO64;
  }

  /** Numbers that split alike at the low byte have the same parts. */
  lemma SameSplit(b: nat, q: nat, c: nat, r: nat)
    requires b < 256 && c < 256 && b + 256 * q == c + 256 * r
    ensures b == c && q == r
  {
  }

  lemma SpellInjective(a: Mac, v: nat, b: Mac, w: nat)
    requires Spell(a[0], a[1], a[2], a[3], a[4], a[5], v) == Spell(b[0], b[1], b[2], b[3], b[4], b[5], w)
    ensures a == b && v == w
  {
    var a5, b5 := a[5] + 256 * v, b[5] + 256 * w;
    var a4, b4 := a[4] + 256 * a5, b[4] + 256 * b5;
    var a3, b3 := a[3] + 256 * a4, b[3] + 256 * b4;
    var a2, b2 := a[2] + 256 * a3, b[2] + 256 * b3;
    var a1, b1 := a[1] + 256 * a2, b[1] + 256 * b2;
    SameSplit(a[0], a1, b[0], b1);
    SameSplit(a[1], a2, b[1], b2);
    SameSplit(a[2], a3, b[2], b3);
    SameSplit(a[3], a4, b[3], b4);
    SameSplit(a[4], a5, b[4], b5);
    SameSplit(a[5], v, b[5], w);
  }

  /** The address survives whatever the VLAN; the VLAN survives as its low 16 bits. */
  lemma PackUnpack(mac: Mac, vlan: nat)
    ensures Mac6(ExtMac(mac, vlan)) == mac
    ensures VlanOf(ExtMac(mac, vlan)) == vlan % 0x1_0000
  {
    Packed(mac, vlan);
    Digits(mac[0], mac[1], mac[2], mac[3], mac[4], mac[5], vlan % 0x1_0000);
  }

  lemma KeyVlan(mac: Mac, vlan: nat)
    requires vlan < 0x1_0000
    ensures VlanOf(ExtMac(mac, vlan)) == vlan
  {
    PackUnpack(mac, vlan);
  }

  lemma PackSpelled(m: Mac, v: nat, key: nat)
    requires v < 0x1_0000 && key == Spell(m[0], m[1], m[2], m[3], m[4], m[5], v)
    ensures ExtMac(m, v) == key
  {
    Packed(m, v);
  }

  /** Every 64-bit key is the packing of what it unpacks to. */
  lemma UnpackPack(key: nat)
    requires key < TWO64
    ensures ExtMac(Mac6(key), VlanOf(key)) == key
  {
    Spelled(key);
    PackSpelled(Mac6(key), VlanOf(key), key);
  }

  /** Two addresses in two VLANs share a key exactly when the addresses are the same and
      the VLANs agree in their low 16 bits. */
  lemma KeysCollide(a: Mac, v: nat, b: Mac, w: nat)
    ensures ExtMac(a, v) == ExtMac(b, w) <==> a == b && v % 0x1_0000 == w % 0x1_0000
  {
    Packed(a, v);
    Packed(b, w);
    if ExtMac(a, v) == ExtMac(b, w) {
      SpellInjective(a, v % 0x1_0000, b, w % 0x1_0000);
    }
  }

  // ----- calc_hash -----

  function Mix(x: nat, factor: nat): nat {
    Xor(x, x / 0x2_0000_0000) * factor % TWO64
  }

  /** calc_hash: `& hash_mask` keeps the low `bits` bits. */
  function CalcHash(key: nat, bits: nat): (k: nat)
    ensures k < Pow2(bits)
  {
    Mix(Mix(key, 0xff51afd7ed558ccd), 0xc4ceb9fe1a85ec53) % Pow2(bits)
  }
}
