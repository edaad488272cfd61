/**
 Device trees and their flattened form: section 5.4 of the Devicetree Specification, read by
 kernel_core/src/platform/device_tree.
 */
module DeviceTree {
  import opened Common

  type Bytes = seq<Byte>

  datatype Prop = Prop(name: Bytes, data: Bytes)

  /** A node with its properties before its children. */
  datatype Tree = Node(name: Bytes, props: seq<Prop>, children: Forest)
  datatype Forest = Leaf | More(first: Tree, rest: Forest)

  /** A tree structural item: what the iterator yields. */
  datatype Token = Start(name: Bytes) | End | Property(name: Bytes, data: Bytes)

  /** The tokens of a node's properties. */
  function PropTokens(props: seq<Prop>): (ts: seq<Token>)
    ensures |ts| == |props| && forall i :: 0 <= i < |props| ==> ts[i] == Property(props[i].name, props[i].data)
  {
    seq(|props|, i requires 0 <= i < |props| => Property(props[i].name, props[i].data))
  }

  /** What comes between the start and the end of a node. */
  function Body(t: Tree): seq<Token>
    decreases t, 0
  {
    PropTokens(t.props) + Tokens(t.children)
  }

  /** The preorder token list of a node. */
  function Preorder(t: Tree): seq<Token>
    decreases t, 1
  {
    [Start(t.name)] + Body(t) + [End]
  }

  function Tokens(f: Forest): seq<Token>
    decreases f, 2
  {
    match f case Leaf => [] case More(t, rest) => Preorder(t) + Tokens(rest)
  }

  // ---------------------------------------------------------------- bytes

  /** Big-endian 32 bits. */
  function Be32(n: nat): (r: Bytes)
    requires n < 0x1_0000_0000
    ensures |r| == 4
  {
    [n / 0x100 / 0x100 / 0x100, n / 0x100 / 0x100 % 0x100, n / 0x100 % 0x100, n % 0x100]
  }

  function ReadU32(s: Bytes, o: nat): (r: Option<nat>)
    ensures r.Some? ==> o + 4 <= |s| && r.value < 0x1_0000_0000
  {
    if o + 4 <= |s| then
      var a: int, b: int, c: int, d: int := s[o], s[o + 1], s[o + 2], s[o + 3];
      Some(((a * 0x100 + b) * 0x100 + c) * 0x100 + d)
    else None
  }

  lemma ReadBe32(s: Bytes, o: nat, n: nat)
    requires n < 0x1_0000_0000 && o + 4 <= |s| && forall k :: 0 <= k < 4 ==> s[o + k] == Be32(n)[k]
    ensures ReadU32(s, o) == Some(n)
  {
    var e := Be32(n);
    assert s[o + 0] == e[0] && s[o + 1] == e[1] && s[o + 2] == e[2] && s[o + 3] == e[3];
    var h := n / 0x100;
    var g := h / 0x100;
    assert n == h * 0x100 + n % 0x100 && h == g * 0x100 + h % 0x100 && g == g / 0x100 * 0x100 + g % 0x100;
  }

  /** `pad_end_4b`. */
  function Pad4(n: nat): (r: nat)
    ensures n <= r < n + 4 && r % 4 == 0
  {
    n + if n % 4 == 0 then 0 else 4 - n % 4
  }

  function Zeros(n: nat): (r: Bytes)
    ensures |r| == n
  {
    seq(n, _ => 0)
  }

  /** The items of the structure block; a property names its offset in the strings block. */
  datatype Raw = BeginNode(name: Bytes) | EndNode | Attribute(nameOffset: nat, data: Bytes) | Nop

  const BEGIN_NODE: nat := 1
  const END_NODE: nat := 2
  const PROP: nat := 3
  const NOP: nat := 4
  const END: nat := 9

  /** Items that can be written: names without zero bytes, 32-bit lengths and offsets into the strings. */
  predicate RawOk(r: Raw, strings: Bytes) {
    match r
    case BeginNode(name) => 0 !in name
    case Attribute(off, data) => off <= |strings| && off < 0x1_0000_0000 && |data| < 0x1_0000_0000
    case _ => true
  }

  function Encode(r: Raw, strings: Bytes): (b: Bytes)
    requires RawOk(r, strings)
    ensures |b| % 4 == 0 && |b| >= 4
  {
    match r
    case BeginNode(name) => Be32(BEGIN_NODE) + name + [0] + Zeros(Pad4(|name| + 1) - (|name| + 1))
    case EndNode => Be32(END_NODE)
    case Attribute(off, data) => Be32(PROP) + Be32(|data|) + Be32(off) + data + Zeros(Pad4(|data|) - |data|)
    case Nop => Be32(NOP)
  }

  predicate AllOk(rs: seq<Raw>, strings: Bytes) { forall i :: 0 <= i < |rs| ==> RawOk(rs[i], strings) }

  /** The structure block. */
  function Flatten(rs: seq<Raw>, strings: Bytes): Bytes
    requires AllOk(rs, strings)
  {
    if rs == [] then Be32(END) else Encode(rs[0], strings) + Flatten(rs[1..], strings)
  }

  /** The end of the zero-terminated string at `i`. */
  function NameEnd(s: Bytes, i: nat): (e: nat)
    requires i <= |s|
    ensures i <= e <= |s| && (forall k :: i <= k < e ==> s[k] != 0) && (e < |s| ==> s[e] == 0)
    decreases |s| - i
  {
    if i < |s| && s[i] != 0 then NameEnd(s, i + 1) else i
  }

  /** The tokens an item stands for. */
  function Meaning(r: Raw, strings: Bytes): seq<Token>
    requires RawOk(r, strings)
  {
    match r
    case BeginNode(name) => [Start(name)]
    case EndNode => [End]
    case Attribute(off, data) => [Property(strings[off..NameEnd(strings, off)], data)]
    case Nop => []
  }

  function Strip(rs: seq<Raw>, strings: Bytes): seq<Token>
    requires AllOk(rs, strings)
  {
    if rs == [] then [] else Meaning(rs[0], strings) + Strip(rs[1..], strings)
  }
}
