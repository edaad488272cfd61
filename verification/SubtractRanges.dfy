/** Interval subtraction: kernel_core/src/memory/subtract_ranges.rs. */
module SubtractRanges {
  import opened Common

  /** The largest address: `usize::MAX`. */
  const MAX: nat := 0xffff_ffff_ffff_ffff

  /** A start address and a length. */
  datatype Range = Range(start: nat, len: nat)

  /** `start.saturating_add(len)`. */
  function EndOf(r: Range): nat { if r.start + r.len < MAX then r.start + r.len else MAX }

  predicate In(r: Range, a: nat) { r.start <= a < EndOf(r) }

  ghost predicate Covered(rs: seq<Range>, a: nat) { exists i :: 0 <= i < |rs| && In(rs[i], a) }

  /** Ordered by start; overlapping and nested ranges are allowed. */
  predicate Sorted(rs: seq<Range>) { forall i, j :: 0 <= i < j < |rs| ==> rs[i].start <= rs[j].start }

  predicate Addresses(rs: seq<Range>) { forall i :: 0 <= i < |rs| ==> rs[i].start <= MAX }

  /** Non-empty, in order, and with something between any two. */
  ghost predicate Separate(out: seq<Range>) {
    && (forall i :: 0 <= i < |out| ==> out[i].len > 0)
    && (forall i, j :: 0 <= i < j < |out| ==> out[i].start + out[i].len < out[j].start)
  }

  /** Of the addresses in `[lo, hi)` the ranges yielded have exactly those not covered. */
  ghost predicate Exact(out: seq<Range>, subs: seq<Range>, lo: nat, hi: nat) {
    && (forall a :: lo <= a < hi ==> (Covered(out, a) <==> !Covered(subs, a)))
    && (forall i :: 0 <= i < |out| ==> lo <= out[i].start && out[i].start + out[i].len <= hi)
  }

  class Iter {
    const wholeStart: nat
    const wholeEnd: nat
    var currentPos: nat
    var ranges: seq<Range>
    var currentSubrange: Option<(nat, nat)>
    /** All sub-ranges, and what was yielded so far. */
    ghost const subs: seq<Range>
    ghost var out: seq<Range>

    /** How many sub-ranges were taken from the iterator. */
    ghost function Taken(): int
      reads this
    {
      |subs| - |ranges|
    }

    /** Sub-ranges before position `k` do not reach beyond the current position. */
    ghost predicate Past(k: int)
      reads this
    {
      forall i :: 0 <= i < k && i < |subs| ==> forall a :: currentPos <= a < wholeEnd ==> !In(subs[i], a)
    }

    /** The end of the last range that was yielded. */
    ghost function LastEnd(): nat
      reads this
    {
      if out == [] then 0 else out[|out| - 1].start + out[|out| - 1].len
    }

    ghost predicate Valid()
      reads this
    {
      && wholeStart <= currentPos <= wholeEnd <= MAX && Sorted(subs) && Addresses(subs)
      && 0 <= Taken() && ranges == subs[Taken()..]
      && Separate(out) && Exact(out, subs, wholeStart, currentPos)
      && (currentSubrange.None? ==>
            Past(Taken()) && (out != [] ==> LastEnd() < currentPos || currentPos == wholeEnd))
      && (currentSubrange.Some? ==>
            var (s, e) := currentSubrange.value;
            && 0 < Taken() && Past(Taken() - 1) && s < e && currentPos < e
            && s == Max(subs[Taken() - 1].start, wholeStart) && e == Min(EndOf(subs[Taken() - 1]), wholeEnd)
            && (out != [] ==> LastEnd() < currentPos || (s <= currentPos && LastEnd() == currentPos)))
    }

    /** `subtract_ranges`. */
    constructor (whole: Range, subs: seq<Range>)
      requires whole.start <= MAX && Sorted(subs) && Addresses(subs)
      ensures Valid() && wholeStart == whole.start && wholeEnd == EndOf(whole) && this.subs == subs && out == []
    {
      wholeStart, wholeEnd, currentPos := whole.start, EndOf(whole), whole.start;
      ranges, currentSubrange := subs, None;
      this.subs, out := subs, [];
    }

    /** The inner `find_map`: the next sub-range that reaches beyond the current position. */
    method LoadSubrange()
      requires Valid() && currentSubrange == None
      modifies this`ranges, this`currentSubrange
      ensures Valid() && (currentSubrange == None ==> ranges == [])
    {
      hide Covered, Separate, Exact;
      while ranges != []
        invariant Valid() && currentSubrange == None
        decreases |ranges|
      {
        var r := ranges[0];
        assert r == subs[Taken()];
        ranges := ranges[1..];
        var subStart, subEnd := Max(r.start, wholeStart), Min(EndOf(r), wholeEnd);
        if subStart < subEnd && currentPos < subEnd {
          currentSubrange := Some((subStart, subEnd));
          return;
        }
      }
    }

    /** `next`. */
    method Next() returns (r: Option<Range>)
      requires Valid()
      modifies this`currentPos, this`ranges, this`currentSubrange, this`out
      ensures Valid()
      ensures r.Some? ==> out == old(out) + [r.value] && currentPos > old(currentPos)
      ensures r.None? ==> out == old(out) && currentPos == wholeEnd
    {
      hide Covered, Separate, Exact, Past, Max, Min, EndOf;
      while currentPos < wholeEnd
        invariant Valid() && out == old(out) && currentPos >= old(currentPos)
        decreases wholeEnd - currentPos
      {
        if currentSubrange == None { LoadSubrange(); }
        if currentSubrange != None {
          var (subStart, subEnd) := currentSubrange.value;
          if currentPos < subStart {
            var found := YieldUpTo(subStart);
            return Some(found);
          }
          SkipTo(subEnd);
        } else {
          var found := YieldUpTo(wholeEnd);
          return Some(found);
        }
      }
      r := None;
    }

    /** Yield what lies before the sub-range, or before the end if there is none. */
    method YieldUpTo(end: nat) returns (r: Range)
      requires Valid() && currentPos < end
      requires if currentSubrange == None then end == wholeEnd && ranges == [] else end == currentSubrange.value.0
      modifies this`currentPos, this`out
      ensures Valid() && r == Range(old(currentPos), end - old(currentPos)) && out == old(out) + [r]
              && currentPos == end
    {
      hide Covered, Separate, Exact;
      r := Range(currentPos, end - currentPos);
      if currentSubrange == None { Rest(); } else { Gap(end); }
      out := out + [r];
      currentPos := end;
    }

    /** Go on behind the sub-range. */
    method SkipTo(end: nat)
      requires Valid() && currentSubrange.Some? && end == currentSubrange.value.1
               && currentSubrange.value.0 <= currentPos
      modifies this`currentPos, this`currentSubrange
      ensures Valid() && currentPos == end > old(currentPos)
    {
      hide Covered, Separate, Exact;
      Inside(end);
      currentPos := end;
      currentSubrange := None;
    }

    /** Nothing is covered before the sub-range begins. */
    lemma Gap(s: nat)
      requires Valid() && currentSubrange.Some? && s == currentSubrange.value.0 && currentPos < s
      ensures var more := out + [Range(currentPos, s - currentPos)];
              Separate(more) && Exact(more, subs, wholeStart, s)
    {
      forall a | currentPos <= a < s ensures !Covered(subs, a) {
        var k := Taken() - 1;
        assert subs[k].start == s;
        forall i | 0 <= i < |subs| ensures !In(subs[i], a) {
          if i > k { assert subs[k].start <= subs[i].start; }
        }
      }
      Yielded(out, subs, wholeStart, currentPos, s);
    }

    /** Everything is covered in the sub-range. */
    lemma Inside(e: nat)
      requires Valid() && currentSubrange.Some? && e == currentSubrange.value.1 && currentSubrange.value.0 <= currentPos
      ensures Exact(out, subs, wholeStart, e)
    {
      forall a | currentPos <= a < e ensures Covered(subs, a) { assert In(subs[Taken() - 1], a); }
      Skipped(out, subs, wholeStart, currentPos, e);
    }

    /** Nothing is covered after the last sub-range. */
    lemma Rest()
      requires Valid() && currentSubrange == None && ranges == [] && currentPos < wholeEnd
      ensures var more := out + [Range(currentPos, wholeEnd - currentPos)];
              Separate(more) && Exact(more, subs, wholeStart, wholeEnd)
    {
      forall a | currentPos <= a < wholeEnd ensures !Covered(subs, a) {}
      Yielded(out, subs, wholeStart, currentPos, wholeEnd);
    }
  }

  function Max(a: nat, b: nat): nat { if a < b then b else a }
  function Min(a: nat, b: nat): nat { if a < b then a else b }

  lemma Yielded(out: seq<Range>, subs: seq<Range>, lo: nat, pos: nat, s: nat)
    requires Separate(out) && Exact(out, subs, lo, pos) && lo <= pos < s <= MAX
    requires out != [] ==> out[|out| - 1].start + out[|out| - 1].len < pos
    requires forall a :: pos <= a < s ==> !Covered(subs, a)
    ensures var more := out + [Range(pos, s - pos)];
            Separate(more) && Exact(more, subs, lo, s)
  {
    var r := Range(pos, s - pos);
    var more := out + [r];
    forall a | lo <= a < s ensures Covered(more, a) <==> !Covered(subs, a) {
      assert In(r, a) <==> pos <= a;
      CoveredSnoc(out, r, a);
      if pos <= a { NotYet(out, lo, pos, subs, a); }
    }
  }

  lemma CoveredSnoc(out: seq<Range>, r: Range, a: nat)
    ensures Covered(out + [r], a) <==> Covered(out, a) || In(r, a)
  {
    if Covered(out, a) {
      var i :| 0 <= i < |out| && In(out[i], a);
      assert (out + [r])[i] == out[i];
    }
    if In(r, a) { assert (out + [r])[|out|] == r; }
  }

  lemma NotYet(out: seq<Range>, lo: nat, pos: nat, subs: seq<Range>, a: nat)
    requires Exact(out, subs, lo, pos) && pos <= a
    ensures !Covered(out, a)
  {}

  lemma Skipped(out: seq<Range>, subs: seq<Range>, lo: nat, pos: nat, e: nat)
    requires Exact(out, subs, lo, pos) && lo <= pos <= e
    requires forall a :: pos <= a < e ==> Covered(subs, a)
    ensures Exact(out, subs, lo, e)
  {
    forall a | lo <= a < e ensures Covered(out, a) <==> !Covered(subs, a) {
      if pos <= a { NotYet(out, lo, pos, subs, a); }
    }
  }

  /** Repeated `next` gives exactly the whole range without the sub-ranges. */
  method Subtract(whole: Range, subs: seq<Range>) returns (out: seq<Range>)
    requires whole.start <= MAX && Sorted(subs) && Addresses(subs)
    ensures Separate(out) && Exact(out, subs, whole.start, EndOf(whole))
  {
    hide Separate, Exact;
    var iter := new Iter(whole, subs);
    out := [];
    while true
      invariant iter.Valid() && fresh(iter) && out == iter.out
      decreases iter.wholeEnd - iter.currentPos
    {
      var r := iter.Next();
      if r.None? { return; }
      out := out + [r.value];
    }
  }
}
