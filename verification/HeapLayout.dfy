/** Sizes and alignments of kernel_core/src/memory/heap.rs. */
module HeapLayout {
  import opened Arithmetic
  import opened Bits

  /** Both kinds of header are two words. */
  const HEADER: nat := 16

  /** `align_up(n, 8)`. */
  function Round(n: nat): (r: nat)
    ensures n <= r < n + 8 && r % 8 == 0
  {
    (n + 7) / 8 * 8
  }

  /** The distance to the next multiple of `align`: `align_offset`. */
  function AlignOffset(a: nat, align: nat): (n: nat)
    requires align > 0
    ensures n < align
  {
    if a % align == 0 then 0 else align - a % align
  }

  /** A size and a power-of-two alignment. */
  datatype Layout = Layout(size: nat, align: nat) {
    ghost predicate Ok() { exists k :: align == Pow2(k) }
  }

  /** `header_padding_max`. */
  function PaddingMax(layout: Layout): nat {
    if layout.align <= 8 then 0 else if layout.align == 16 then 8
    else if layout.align < HEADER then 0 else layout.align - HEADER
  }

  /** `required_block_size`. */
  function Required(layout: Layout): nat { HEADER + PaddingMax(layout) + layout.size }

  function Padding(block: nat, layout: Layout): nat
    requires layout.align > 0
  {
    AlignOffset(block + HEADER, layout.align)
  }

  /** What alignments there are: the divisors of eight, sixteen, and larger multiples of eight. */
  lemma Alignments(layout: Layout)
    requires layout.Ok()
    ensures layout.align in {1, 2, 4, 8, 16} || (layout.align > 16 && layout.align % 8 == 0)
  {
    var k :| layout.align == Pow2(k);
    SmallPowers();
    if k > 4 { Power8(k); }
  }

  lemma SmallPowers()
    ensures Pow2(0) == 1 && Pow2(1) == 2 && Pow2(2) == 4 && Pow2(3) == 8 && Pow2(4) == 16
  {}

  lemma {:induction false} Power8(k: nat)
    requires k > 4
    ensures Pow2(k) > 16 && Pow2(k) % 8 == 0
  {
    if k > 5 { Power8(k - 1); } else { SmallPowers(); }
  }

  /** The padding puts the data on its alignment and keeps headers on words. */
  lemma PaddingAligns(block: nat, layout: Layout)
    requires layout.Ok() && block % 8 == 0
    ensures layout.align > 0 && (block + HEADER + Padding(block, layout)) % layout.align == 0
    ensures Padding(block, layout) % 8 == 0
  {
    hide AlignOffset;
    Alignments(layout);
    assert (block + HEADER) % 8 == 0;
    hide Layout.Ok;
    OffsetAligns(block + HEADER, layout.align);
    if layout.align > 8 {
      OffsetOfWords(block + HEADER, layout.align);
    } else {
      SmallOffset(block + HEADER, layout.align);
    }
  }

  /** Words are aligned to the divisors of eight. */
  lemma SmallOffset(x: nat, a: nat)
    requires a in {1, 2, 4, 8} && x % 8 == 0
    ensures AlignOffset(x, a) == 0
  {
    Digits(x, 8 / a, a, 8);
  }

  lemma OffsetAligns(x: nat, a: nat)
    requires a > 0
    ensures (x + AlignOffset(x, a)) % a == 0
  {
    var q := x / a;
    assert x == a * q + x % a && a * (q + 1) == a * q + a;
    DivModUnique(x + AlignOffset(x, a), a, if x % a == 0 then q else q + 1, 0);
  }

  lemma OffsetOfWords(x: nat, a: nat)
    requires a > 0 && a % 8 == 0 && x % 8 == 0
    ensures x % a % 8 == 0 && AlignOffset(x, a) % 8 == 0
  {
    Digits(x, a / 8, 8, a);
    var r := x % a;
    assert r % 8 == 0;
    DivModUnique(a - r, 8, a / 8 - r / 8, 0);
  }

  /** The padding fits the bound that was reserved for it, except in one residue class of large alignments. */
  lemma PaddingFits(block: nat, layout: Layout)
    requires layout.Ok() && block % 8 == 0
    ensures layout.align > 0
    ensures Padding(block, layout) <= PaddingMax(layout)
            <==> layout.align <= 16 || block % layout.align != layout.align - 8
  {
    Alignments(layout);
    assert (block + HEADER) % 8 == 0;
    hide Layout.Ok;
    var a := layout.align;
    if a > 8 {
      OffsetOfWords(block + HEADER, a);
      if a > 16 { ResidueOf(block, a); }
    } else {
      SmallOffset(block + HEADER, a);
    }
  }

  lemma ResidueOf(block: nat, a: nat)
    requires a > 16
    ensures (block + 16) % a == 8 <==> block % a == a - 8
  {
    var q, t := block / a, block % a;
    assert block == a * q + t && a * (q + 1) == a * q + a;
    if t + 16 < a { DivModUnique(block + 16, a, q, t + 16); } else { DivModUnique(block + 16, a, q + 1, t + 16 - a); }
  }
}
