/**
 The 64-bit descriptors of kernel_core/src/memory/page_table.rs (VMSAv8-64, section D8.3 of the Arm
 Architecture Reference Manual DDI 0487) as natural numbers.
 */
module PageEntry {
  import opened Arithmetic
  import opened Bits

  datatype Shareability = Local | Cluster | Global
  datatype MemoryKind = Normal | Device
  datatype MemoryProperties = MemoryProperties(
    kind: MemoryKind, userSpaceAccess: bool, writable: bool, executable: bool, shareability: Shareability)

  /** A decoded entry; `Invalid` stands for the panic of `Entry::decode`. */
  datatype Decoded = Empty | Table(address: nat) | Block(address: nat) | Page(address: nat) | Invalid

  const ADDRESS_LIMIT: nat := 0x1_0000_0000_0000

  function Bit(b: bool): nat { if b then 1 else 0 }

  function EncodeShareability(s: Shareability): nat {
    match s case Local => 0 case Global => 2 case Cluster => 3
  }

  function EncodeKind(k: MemoryKind): nat { match k case Device => 0 case Normal => 1 }

  /** `MemoryProperties::encode`. */
  function EncodeProperties(p: MemoryProperties): nat {
    Or(Or(Or(Or(Or(
      Bit(!p.executable) * 0x40_0000_0000_0000,
      Bit(!p.executable) * 0x20_0000_0000_0000),
      EncodeShareability(p.shareability) * 0x100),
      Bit(!p.writable) * 0x80),
      Bit(p.userSpaceAccess) * 0x40),
      EncodeKind(p.kind) * 4)
  }

  lemma Powers()
    ensures Pow2(2) == 4 && Pow2(6) == 0x40 && Pow2(7) == 0x80 && Pow2(8) == 0x100
    ensures Pow2(10) == 0x400 && Pow2(11) == 0x800 && Pow2(12) == 0x1000 && Pow2(36) == 0x10_0000_0000
    ensures Pow2(48) == ADDRESS_LIMIT && Pow2(54) == 0x40_0000_0000_0000
  {
    assert Pow2(24) == 0x100_0000;
    assert Pow2(36) == 0x10_0000_0000;
    assert Pow2(48) == ADDRESS_LIMIT;
  }

  /** The encoding keeps bits 12 to 47 free. */
  lemma PropertiesValue(p: MemoryProperties)
    ensures EncodeProperties(p) == PropertiesHigh(p) * ADDRESS_LIMIT + PropertiesLow(p)
  {
    hide Or, Pow2;
    Powers();
    var x := Bit(!p.executable);
    OrAdd(x * 0x40_0000_0000_0000, x * 0x20_0000_0000_0000, 54);
    var a := x * 0x60_0000_0000_0000;
    var s := EncodeShareability(p.shareability) * 0x100;
    OrAdd(a, s, 10);
    OrAdd(a + s, Bit(!p.writable) * 0x80, 8);
    OrAdd(a + s + Bit(!p.writable) * 0x80, Bit(p.userSpaceAccess) * 0x40, 7);
    OrAdd(a + s + Bit(!p.writable) * 0x80 + Bit(p.userSpaceAccess) * 0x40, EncodeKind(p.kind) * 4, 6);
  }

  function PropertiesHigh(p: MemoryProperties): nat { Bit(!p.executable) * 0x60 }

  function PropertiesLow(p: MemoryProperties): (n: nat)
    ensures n < 0x400 && n % 4 == 0
  {
    EncodeShareability(p.shareability) * 0x100 + Bit(!p.writable) * 0x80
    + Bit(p.userSpaceAccess) * 0x40 + EncodeKind(p.kind) * 4
  }

  /** `word & 0x0000_ffff_ffff_f000`. */
  function AddressField(word: nat): nat { word % ADDRESS_LIMIT - word % 0x1000 }

  /** The bits of a leaf entry outside its address field. */
  datatype Attributes = Attributes(high: nat, low: nat)

  function AttributesOf(entry: nat): Attributes { Attributes(entry / ADDRESS_LIMIT, entry % 0x1000) }

  /** Those of a leaf of type `ty` with these properties. */
  function LeafAttributes(ty: nat, p: MemoryProperties): Attributes {
    Attributes(PropertiesHigh(p), ty + PropertiesLow(p) + 0x400)
  }

  /** `Entry::for_table`; the source asserts the alignment. */
  function ForTable(address: nat): nat
    requires address % 0x1000 == 0
  {
    Or(3, AddressField(address))
  }

  /** `Entry::for_block`. */
  function ForBlock(address: nat, p: MemoryProperties): nat
    requires address % 0x1000 == 0
  {
    Or(Or(Or(1, address), EncodeProperties(p)), 0x400)
  }

  /** `Entry::for_page`. */
  function ForPage(address: nat, p: MemoryProperties): nat
    requires address % 0x1000 == 0
  {
    Or(Or(Or(3, address), EncodeProperties(p)), 0x400)
  }

  /** `Entry::decode`. */
  function Decode(entry: nat, level: nat): Decoded {
    var address := AddressField(entry);
    if entry % 4 == 0 then Empty
    else if level == 3 && entry % 4 == 3 then Page(address)
    else if entry % 4 == 3 then Table(address)
    else if level <= 2 && entry % 4 == 1 then Block(address)
    else Invalid
  }

  /** `MemoryProperties::decode`: the properties a leaf entry stands for; other field values are refused. */
  predicate DecodesTo(entry: nat, p: MemoryProperties) {
    && p.executable == (entry / 0x40_0000_0000_0000 % 2 == 0)
    && EncodeShareability(p.shareability) == entry / 0x100 % 4
    && p.writable == (entry / 0x80 % 2 == 0)
    && p.userSpaceAccess == (entry / 0x40 % 2 == 1)
    && EncodeKind(p.kind) == entry / 4 % 8
  }

  /** The low 48 bits of a leaf entry: the address field, the attributes and the type are separate. */
  lemma LowHalf(ty: nat, mid: nat, low: nat)
    requires ty < 4 && mid % 0x1000 == 0 && low < 0x400 && low % 4 == 0
    ensures Or(Or(Or(ty, mid), low), 0x400) == mid + ty + low + 0x400
  {
    hide Or, Pow2;
    Powers();
    OrComm(ty, mid);
    OrAdd(mid, ty, 12);
    OrBelow(mid / 0x1000, ty, low, 12);
    OrComm(ty, low);
    OrAdd(low, ty, 2);
    OrBelow(mid / 0x1000, low + ty, 0x400, 12);
    OrComm(low + ty, 0x400);
    OrAdd(0x400, low + ty, 10);
  }

  /** A leaf entry field by field, for every aligned address. */
  lemma LeafValue(ty: nat, address: nat, p: MemoryProperties)
    requires ty < 4 && address % 0x1000 == 0
    ensures Or(Or(Or(ty, address), EncodeProperties(p)), 0x400)
            == Or(address / ADDRESS_LIMIT, PropertiesHigh(p)) * ADDRESS_LIMIT
               + address % ADDRESS_LIMIT + ty + PropertiesLow(p) + 0x400
  {
    hide Or, Pow2, High, Low;
    Powers();
    var e := EncodeProperties(p);
    PropertiesValue(p);
    var w1 := Or(ty, address);
    var w2 := Or(w1, e);
    var w3 := Or(w2, 0x400);
    OrSplit(ty, address, 48);
    OrSplit(w1, e, 48);
    OrSplit(w2, 0x400, 48);
    HighLow(ty, 48);
    HighLow(address, 48);
    HighLow(e, 48);
    HighLow(0x400, 48);
    HighLow(w3, 48);
    OrZero(High(address, 48));
    OrZero(Or(High(address, 48), PropertiesHigh(p)));
    LowHalf(ty, address % ADDRESS_LIMIT, PropertiesLow(p));
  }

  /** Cutting a word of three fields apart again. */
  lemma WordFields(h: nat, mid: nat, x: nat)
    requires mid % 0x1000 == 0 && mid < ADDRESS_LIMIT && x < 0x1000
    ensures var w := h * ADDRESS_LIMIT + mid + x;
            AddressField(w) == mid && w % 0x1000 == x && w % 4 == x % 4 && w / ADDRESS_LIMIT == h
  {
    var w := h * ADDRESS_LIMIT + mid + x;
    DivModUnique(w, ADDRESS_LIMIT, h, mid + x);
    DivModUnique(w, 0x1000, h * 0x10_0000_0000 + mid / 0x1000, x);
    DivModUnique(w, 4, h * 0x4000_0000_0000 + mid / 4 + x / 4, x % 4);
  }

  lemma LeafDecodes(ty: nat, address: nat, p: MemoryProperties)
    requires ty < 4 && address % 0x1000 == 0
    ensures var w := Or(Or(Or(ty, address), EncodeProperties(p)), 0x400);
            && AddressField(w) == address % ADDRESS_LIMIT && w % 4 == ty
            && w % 0x1000 == ty + PropertiesLow(p) + 0x400
            && w / ADDRESS_LIMIT == Or(address / ADDRESS_LIMIT, PropertiesHigh(p))
  {
    hide Or;
    LeafValue(ty, address, p);
    WordFields(Or(address / ADDRESS_LIMIT, PropertiesHigh(p)), address % ADDRESS_LIMIT,
               ty + PropertiesLow(p) + 0x400);
  }

  /** A page entry decodes to the address it was made for exactly when that address has 48 bits. */
  lemma PageRoundTrip(address: nat, p: MemoryProperties)
    requires address % 0x1000 == 0
    ensures Decode(ForPage(address, p), 3) == Page(address % ADDRESS_LIMIT)
    ensures Decode(ForPage(address, p), 3) == Page(address) <==> address < ADDRESS_LIMIT
  {
    hide Or, AddressField;
    LeafDecodes(3, address, p);
  }

  lemma BlockRoundTrip(address: nat, level: nat, p: MemoryProperties)
    requires address % 0x1000 == 0 && level <= 2
    ensures Decode(ForBlock(address, p), level) == Block(address % ADDRESS_LIMIT)
    ensures Decode(ForBlock(address, p), level) == Block(address) <==> address < ADDRESS_LIMIT
  {
    hide Or, AddressField;
    LeafDecodes(1, address, p);
  }

  lemma AlignedField(address: nat)
    requires address % 0x1000 == 0
    ensures AddressField(address) == address % ADDRESS_LIMIT && AddressField(address) % 0x1000 == 0
    ensures address < ADDRESS_LIMIT ==> AddressField(address) == address
  {
    var h := address / ADDRESS_LIMIT;
    assert address == ADDRESS_LIMIT * h + address % ADDRESS_LIMIT;
    DivModUnique(address % ADDRESS_LIMIT, 0x1000, address / 0x1000 - 0x10_0000_0000 * h, 0);
  }

  lemma TableRoundTrip(address: nat, level: nat)
    requires address % 0x1000 == 0 && level <= 2
    ensures Decode(ForTable(address), level) == Table(address % ADDRESS_LIMIT)
  {
    hide Or, Pow2;
    Powers();
    var mid := AddressField(address);
    AlignedField(address);
    OrComm(3, mid);
    OrAdd(mid, 3, 12);
    WordFields(0, mid, 3);
  }

  lemma MulRegroup(c: nat, m: nat, k: nat, y: nat, z: nat)
    ensures c * (m * k) * y + c * z == c * (m * (k * y) + z)
  {
    assert c * (m * k) * y == c * (m * (k * y));
  }

  /** A bit field that lies in the low twelve bits of a word. */
  lemma FieldInLow(w: nat, c: nat, m: nat, k: nat)
    requires c > 0 && m > 0 && 0x1000 == c * (m * k)
    ensures w / c % m == w % 0x1000 / c % m
  {
    var y, x := w / 0x1000, w % 0x1000;
    assert x == c * (x / c) + x % c;
    MulRegroup(c, m, k, y, x / c);
    DivModUnique(w, c, m * (k * y) + x / c, x % c);
    DivModUnique(m * (k * y) + x / c, m, k * y + x / c / m, x / c % m);
  }

  lemma LowFields(p: MemoryProperties, ty: nat, x: nat)
    requires ty < 4 && x == ty + PropertiesLow(p) + 0x400
    ensures x / 0x100 % 4 == EncodeShareability(p.shareability)
    ensures x / 0x80 % 2 == Bit(!p.writable) && x / 0x40 % 2 == Bit(p.userSpaceAccess)
    ensures x / 4 % 8 == EncodeKind(p.kind)
  {
    var r := Bit(!p.writable) * 0x80 + Bit(p.userSpaceAccess) * 0x40 + EncodeKind(p.kind) * 4 + ty;
    DivModUnique(x, 0x100, 4 + EncodeShareability(p.shareability), r);
    DivModUnique(x, 0x80, 8 + EncodeShareability(p.shareability) * 2 + Bit(!p.writable),
                 Bit(p.userSpaceAccess) * 0x40 + EncodeKind(p.kind) * 4 + ty);
    DivModUnique(x, 0x40, 16 + EncodeShareability(p.shareability) * 4 + Bit(!p.writable) * 2 + Bit(p.userSpaceAccess),
                 EncodeKind(p.kind) * 4 + ty);
    DivModUnique(x, 4, x / 0x40 * 16 + EncodeKind(p.kind), ty);
  }

  lemma TopBit(w: nat, h: nat)
    requires w / ADDRESS_LIMIT == h
    ensures w / 0x40_0000_0000_0000 == h / 0x40
  {
    DivModUnique(w, 0x40_0000_0000_0000, h / 0x40, h % 0x40 * ADDRESS_LIMIT + w % ADDRESS_LIMIT);
  }

  /** An entry with these attributes stands for these properties. */
  lemma WordDecodes(w: nat, ty: nat, p: MemoryProperties)
    requires ty < 4 && AttributesOf(w) == LeafAttributes(ty, p)
    ensures DecodesTo(w, p)
  {
    LowFields(p, ty, w % 0x1000);
    TopBit(w, PropertiesHigh(p));
    hide PropertiesLow;
    FieldInLow(w, 0x100, 4, 4);
    FieldInLow(w, 0x80, 2, 16);
    FieldInLow(w, 0x40, 2, 32);
    FieldInLow(w, 4, 8, 128);
  }

  /** The properties of a leaf for a 48-bit address are read back as they were given. */
  lemma PropertiesRoundTrip(ty: nat, address: nat, p: MemoryProperties)
    requires ty < 4 && address % 0x1000 == 0 && address < ADDRESS_LIMIT
    ensures DecodesTo(Or(Or(Or(ty, address), EncodeProperties(p)), 0x400), p)
  {
    OrZero(PropertiesHigh(p));
    hide Or, DecodesTo, EncodeProperties, AddressField;
    LeafDecodes(ty, address, p);
    WordDecodes(Or(Or(Or(ty, address), EncodeProperties(p)), 0x400), ty, p);
  }
}
