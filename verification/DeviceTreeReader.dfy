/** The token iterator of kernel_core/src/platform/device_tree/iter.rs. */
module DeviceTreeReader {
  import opened Common
  import opened DeviceTree

  datatype Blob = Blob(structure: Bytes, strings: Bytes)

  /** One read of the structure block: a token, a NOP, the end, or a panic. */
  datatype Step = Got(token: Token, next: nat) | Skipped(next: nat) | Done(next: nat) | Panic

  /** The property whose token is at `o`. */
  function PropertyAt(b: Blob, o: nat): (r: Step)
    ensures r.Panic? || (r.Got? && r.next >= o + 4 && o + 4 <= |b.structure| && (o % 4 == 0 ==> r.next % 4 == 0))
  {
    var length, off := ReadU32(b.structure, o + 4), ReadU32(b.structure, o + 8);
    if length.None? || off.None? || off.value > |b.strings| || o + 12 + length.value > |b.structure| then Panic
    else
      Got(Property(b.strings[off.value..NameEnd(b.strings, off.value)], b.structure[o + 12..o + 12 + length.value]),
          o + 12 + Pad4(length.value))
  }

  function ReadStep(b: Blob, o: nat): (r: Step)
    ensures !r.Panic? ==> o + 4 <= |b.structure| && r.next >= o + 4 && (o % 4 == 0 ==> r.next % 4 == 0)
  {
    var kind := ReadU32(b.structure, o);
    if kind.None? then Panic
    else if kind.value == BEGIN_NODE then
      var e := NameEnd(b.structure, o + 4);
      Got(Start(b.structure[o + 4..e]), Pad4(e + 1))
    else if kind.value == END_NODE then Got(End, o + 4)
    else if kind.value == PROP then PropertyAt(b, o)
    else if kind.value == NOP then Skipped(o + 4)
    else if kind.value == END then Done(o + 4)
    else Panic
  }

  /** The next token from offset `o` on, for any blob. Offsets stay aligned and always increase. */
  function ReadToken(b: Blob, o: nat): (r: Step)
    ensures !r.Skipped?
    ensures !r.Panic? ==> o + 4 <= |b.structure| && r.next >= o + 4 && (o % 4 == 0 ==> r.next % 4 == 0)
    decreases |b.structure| - o
  {
    var s := ReadStep(b, o);
    if s.Skipped? then ReadToken(b, s.next) else s
  }

  /** The iterator. */
  class FlattenedTreeIter {
    const blob: Blob
    var currentOffset: nat

    constructor (blob: Blob, offset: nat)
      ensures this.blob == blob && currentOffset == offset
    {
      this.blob, currentOffset := blob, offset;
    }

    /** The loops that look for the end of a name. */
    method FindNameEnd(s: Bytes, start: nat) returns (e: nat)
      requires start <= |s|
      ensures e == NameEnd(s, start)
    {
      e := start;
      while e < |s| && s[e] != 0
        invariant start <= e <= |s| && NameEnd(s, e) == NameEnd(s, start)
      {
        e := e + 1;
      }
    }

    /** One round of the loop of `next`. */
    method ReadOne() returns (r: Step)
      modifies this`currentOffset
      ensures r == ReadStep(blob, old(currentOffset))
      ensures !r.Panic? ==> currentOffset == r.next
    {
      var kind := ReadU32(blob.structure, currentOffset);
      if kind.None? { return Panic; }
      currentOffset := currentOffset + 4;
      match kind.value {
        case 1 =>
          var e := FindNameEnd(blob.structure, currentOffset);
          var name := blob.structure[currentOffset..e];
          currentOffset := Pad4(e + 1);
          r := Got(Start(name), currentOffset);
        case 2 => r := Got(End, currentOffset);
        case 3 => r := ReadProperty();
        case 4 => r := Skipped(currentOffset);
        case 9 => r := Done(currentOffset);
        case _ => r := Panic;
      }
    }

    /** The rest of a property, after its token. */
    method ReadProperty() returns (r: Step)
      requires currentOffset >= 4
      modifies this`currentOffset
      ensures r == PropertyAt(blob, old(currentOffset) - 4)
      ensures !r.Panic? ==> currentOffset == r.next
    {
      var length := ReadU32(blob.structure, currentOffset);
      if length.None? { return Panic; }
      currentOffset := currentOffset + 4;
      var off := ReadU32(blob.structure, currentOffset);
      if off.None? { return Panic; }
      currentOffset := currentOffset + 4;
      if off.value > |blob.strings| { return Panic; }
      var e := FindNameEnd(blob.strings, off.value);
      if currentOffset + length.value > |blob.structure| { return Panic; }
      var data := blob.structure[currentOffset..currentOffset + length.value];
      currentOffset := currentOffset + Pad4(length.value);
      r := Got(Property(blob.strings[off.value..e], data), currentOffset);
    }

    /** `next`. */
    method Next() returns (r: Step)
      modifies this`currentOffset
      ensures r == ReadToken(blob, old(currentOffset))
      ensures !r.Panic? ==> currentOffset == r.next
    {
      hide ReadStep;
      while true
        invariant ReadToken(blob, currentOffset) == ReadToken(blob, old(currentOffset))
        decreases |blob.structure| - currentOffset
      {
        r := ReadOne();
        if !r.Skipped? { return; }
      }
    }

    /** `skip_node`: false if it panics. */
    method SkipNode() returns (ok: bool)
      modifies this`currentOffset
      ensures match SkipFrom(blob, old(currentOffset), 1)
              case At(o) => ok && currentOffset == o
              case Crash => !ok
    {
      var depth: nat := 1;
      while true
        invariant depth >= 1 && SkipFrom(blob, currentOffset, depth) == SkipFrom(blob, old(currentOffset), 1)
        decreases |blob.structure| - currentOffset
      {
        var item := Next();
        match item {
          case Panic => return false;
          case Done(_) => return true;
          case Got(Start(_), _) => depth := depth + 1;
          case Got(End, _) =>
            depth := depth - 1;
            if depth == 0 { return true; }
          case Got(Property(_, _), _) =>
        }
      }
    }
  }

  datatype Position = At(offset: nat) | Crash

  /** Where `skip_node` ends up, for any blob. */
  function SkipFrom(b: Blob, o: nat, depth: nat): (p: Position)
    requires depth > 0
    ensures p.At? ==> p.offset >= o + 4 && (o % 4 == 0 ==> p.offset % 4 == 0)
    decreases |b.structure| - o
  {
    match ReadToken(b, o)
    case Panic => Crash
    case Done(n) => At(n)
    case Got(Start(_), n) => SkipFrom(b, n, depth + 1)
    case Got(End, n) => if depth == 1 then At(n) else SkipFrom(b, n, depth - 1)
    case Got(Property(_, _), n) => SkipFrom(b, n, depth)
  }

  // ---------------------------------------------------------------- reading what was flattened

  /** From `o` on the iterator yields exactly these tokens and then stops. */
  ghost predicate Yields(b: Blob, o: nat, ts: seq<Token>)
    decreases |ts|
  {
    match ReadToken(b, o)
    case Panic => false
    case Done(_) => ts == []
    case Got(t, n) => ts != [] && ts[0] == t && Yields(b, n, ts[1..])
  }

  /** The bytes of `e` are at `o`. */
  ghost predicate Holds(s: Bytes, o: nat, e: Bytes) {
    o + |e| <= |s| && forall k :: 0 <= k < |e| ==> s[o + k] == e[k]
  }

  /** Reading one item where its bytes are. */
  lemma ReadItem(b: Blob, o: nat, r: Raw)
    requires RawOk(r, b.strings) && o % 4 == 0 && Holds(b.structure, o, Encode(r, b.strings))
    ensures ReadStep(b, o) == match r
                              case Nop => Skipped(o + 4)
                              case _ => Got(Meaning(r, b.strings)[0], o + |Encode(r, b.strings)|)
  {
    hide Be32, ReadU32;
    match r
    case BeginNode(name) => ReadBegin(b, o, name);
    case EndNode => ReadAt(b.structure, o, Encode(r, b.strings), 0, END_NODE);
    case Attribute(off, data) => ReadAttribute(b, o, off, data);
    case Nop => ReadAt(b.structure, o, Encode(r, b.strings), 0, NOP);
  }

  /** A number at position `at` of known bytes. */
  lemma ReadAt(s: Bytes, o: nat, e: Bytes, at: nat, n: nat)
    requires Holds(s, o, e) && at + 4 <= |e| && n < 0x1_0000_0000 && e[at..at + 4] == Be32(n)
    ensures ReadU32(s, o + at) == Some(n)
  {
    hide Be32, ReadU32;
    forall k | 0 <= k < 4 ensures s[o + at + k] == Be32(n)[k] {
      assert s[o + (at + k)] == e[at + k] && e[at..at + 4][k] == e[at + k];
    }
    ReadBe32(s, o + at, n);
  }

  /** A part of known bytes. */
  lemma SliceAt(s: Bytes, o: nat, e: Bytes, at: nat, n: nat)
    requires Holds(s, o, e) && at + n <= |e|
    ensures s[o + at..o + at + n] == e[at..at + n]
  {
    var x, y := s[o + at..o + at + n], e[at..at + n];
    forall k | 0 <= k < n ensures x[k] == y[k] { assert s[o + (at + k)] == e[at + k]; }
  }

  lemma ReadBegin(b: Blob, o: nat, name: Bytes)
    requires 0 !in name && o % 4 == 0 && Holds(b.structure, o, Encode(BeginNode(name), b.strings))
    ensures ReadStep(b, o) == Got(Start(name), o + |Encode(BeginNode(name), b.strings)|)
  {
    hide Be32, ReadU32, NameEnd, Pad4, Encode;
    var s, e, n := b.structure, Encode(BeginNode(name), b.strings), |name|;
    EncodedBegin(name, b.strings);
    ReadAt(s, o, e, 0, BEGIN_NODE);
    SliceAt(s, o, e, 4, n);
    assert s[o + (4 + n)] == e[4 + n];
    NameEndIs(s, o + 4, o + 4 + n);
    PadFrom(o + 4, n + 1);
  }

  lemma EncodedBegin(name: Bytes, strings: Bytes)
    requires 0 !in name
    ensures var e, n := Encode(BeginNode(name), strings), |name|;
            && |e| == 4 + Pad4(n + 1) && e[0..4] == Be32(BEGIN_NODE) && e[4..4 + n] == name && e[4 + n] == 0
  {
    hide Be32;
  }

  lemma PadFrom(o: nat, n: nat)
    requires o % 4 == 0
    ensures Pad4(o + n) == o + Pad4(n)
  {}

  lemma NameEndIs(s: Bytes, i: nat, e: nat)
    requires i <= e < |s| && s[e] == 0 && 0 !in s[i..e]
    ensures NameEnd(s, i) == e
  {
    forall k | i <= k < e ensures s[k] != 0 { assert s[i..e][k - i] == s[k]; }
  }

  lemma ReadAttribute(b: Blob, o: nat, off: nat, data: Bytes)
    requires RawOk(Attribute(off, data), b.strings) && o % 4 == 0
    requires Holds(b.structure, o, Encode(Attribute(off, data), b.strings))
    ensures ReadStep(b, o) == Got(Property(b.strings[off..NameEnd(b.strings, off)], data),
                                  o + |Encode(Attribute(off, data), b.strings)|)
  {
    hide Be32, ReadU32, NameEnd, Pad4, Encode;
    var s, e, n := b.structure, Encode(Attribute(off, data), b.strings), |data|;
    EncodedAttribute(off, data, b.strings);
    ReadAt(s, o, e, 0, PROP);
    ReadAt(s, o, e, 4, n);
    ReadAt(s, o, e, 8, off);
    SliceAt(s, o, e, 12, n);
  }

  lemma EncodedAttribute(off: nat, data: Bytes, strings: Bytes)
    requires RawOk(Attribute(off, data), strings)
    ensures var e, n := Encode(Attribute(off, data), strings), |data|;
            && |e| == 12 + Pad4(n) && e[0..4] == Be32(PROP) && e[4..8] == Be32(n) && e[8..12] == Be32(off)
            && e[12..12 + n] == data
  {
    hide Be32;
  }

  lemma YieldsAfterNop(b: Blob, o: nat, n: nat, ts: seq<Token>)
    requires ReadStep(b, o) == Skipped(n) && Yields(b, n, ts)
    ensures Yields(b, o, ts)
  {}

  lemma YieldsAfter(b: Blob, o: nat, n: nat, t: Token, ts: seq<Token>)
    requires ReadStep(b, o) == Got(t, n) && Yields(b, n, ts)
    ensures Yields(b, o, [t] + ts)
  {
    hide ReadStep;
    assert ([t] + ts)[1..] == ts;
  }

  /** Reading undoes flattening: for all items, wherever NOPs are among them, and whatever follows the end. */
  lemma {:induction false} FlattenYields(before: Bytes, rs: seq<Raw>, strings: Bytes, after: Bytes)
    requires AllOk(rs, strings) && |before| % 4 == 0
    ensures Yields(Blob(before + Flatten(rs, strings) + after, strings), |before|, Strip(rs, strings))
    decreases |rs|
  {
    hide ReadStep, Encode, Be32, ReadU32, Meaning, Pad4;
    var s, o := before + Flatten(rs, strings) + after, |before|;
    var b := Blob(s, strings);
    if rs == [] {
      ReadEnd(b, o);
    } else {
      var e, rest := Encode(rs[0], strings), rs[1..];
      assert s == (before + e) + Flatten(rest, strings) + after;
      assert Holds(s, o, e);
      ReadItem(b, o, rs[0]);
      FlattenYields(before + e, rest, strings, after);
      assert |before + e| == o + |e|;
      MeaningLength(rs[0], strings);
      if rs[0].Nop? {
        YieldsAfterNop(b, o, o + 4, Strip(rest, strings));
        assert Strip(rs, strings) == Strip(rest, strings);
      } else {
        YieldsAfter(b, o, o + |e|, Meaning(rs[0], strings)[0], Strip(rest, strings));
        assert Strip(rs, strings) == [Meaning(rs[0], strings)[0]] + Strip(rest, strings);
      }
    }
  }

  lemma MeaningLength(r: Raw, strings: Bytes)
    requires RawOk(r, strings)
    ensures if r.Nop? then |Encode(r, strings)| == 4 && Meaning(r, strings) == [] else |Meaning(r, strings)| == 1
  {}

  lemma ReadEnd(b: Blob, o: nat)
    requires Holds(b.structure, o, Be32(END))
    ensures ReadStep(b, o) == Done(o + 4)
  {
    hide Be32, ReadU32;
    assert Be32(END)[0..4] == Be32(END);
    ReadAt(b.structure, o, Be32(END), 0, END);
  }
}
