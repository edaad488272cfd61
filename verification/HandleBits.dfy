/** The atomic bit set of kernel_core/src/collections/handle_allocator.rs. A word is its 64 bits, lowest first. */
module HandleBits {
  import opened Common

  const WORD: nat := 64
  const U32_LIMIT: nat := 0x1_0000_0000

  type Word = seq<bool>

  /** `max_handle.div_ceil(64)`. */
  function WordCount(max: nat): (n: nat)
    ensures 64 * n >= max && 64 * n < max + 64
  {
    (max + 63) / 64
  }

  predicate Shaped(words: seq<Word>, max: nat) {
    && max < U32_LIMIT && |words| == WordCount(max)
    && forall w :: 0 <= w < |words| ==> |words[w]| == WORD
  }

  /** Whether the handle's bit is set. */
  predicate Bit(words: seq<Word>, h: nat) {
    h / 64 < |words| && h % 64 < |words[h / 64]| && words[h / 64][h % 64]
  }

  /** The position of the first clear bit, or the length: `(!word).trailing_zeros()`. */
  function FirstZero(w: Word): (z: nat)
    ensures z <= |w| && (z < |w| ==> !w[z]) && forall k :: 0 <= k < z ==> w[k]
  {
    if w == [] || !w[0] then 0 else
      assert w == [w[0]] + w[1..];
      var z := FirstZero(w[1..]);
      assert forall k :: 0 < k < z + 1 ==> w[k] == w[1..][k - 1];
      z + 1
  }

  function SetBit(words: seq<Word>, h: nat, b: bool): seq<Word>
    requires h / 64 < |words| && h % 64 < |words[h / 64]|
  {
    var word: Word := words[h / 64][h % 64 := b];
    words[h / 64 := word]
  }

  lemma SetBitIs(words: seq<Word>, h: nat, b: bool, k: nat)
    requires h / 64 < |words| && h % 64 < |words[h / 64]|
    ensures Bit(SetBit(words, h, b), k) == if k == h then b else Bit(words, k)
  {
    if k / 64 == h / 64 && k % 64 == h % 64 { assert k == h; }
  }

  lemma SetBitShaped(words: seq<Word>, max: nat, h: nat, b: bool)
    requires Shaped(words, max) && h < max
    ensures h / 64 < |words| && Shaped(SetBit(words, h, b), max)
  {}

  lemma HandleWord(max: nat, w: nat, z: nat)
    requires w < WordCount(max) && z < 64 && max < U32_LIMIT
    ensures w * 64 + z < U32_LIMIT
    ensures (w * 64 + z) / 64 == w && (w * 64 + z) % 64 == z
  {}

  datatype FreeError = OutOfBounds | NotAllocated

  /** `HandleAllocator`, used by one thread. */
  class Allocator {
    const max: nat
    var words: seq<Word>

    ghost predicate Valid()
      reads this
    {
      Shaped(words, max)
    }

    /** `HandleAllocator::new`. */
    constructor (max: nat)
      requires max < U32_LIMIT
      ensures Valid() && this.max == max && forall h: nat :: !Bit(words, h)
    {
      this.max := max;
      words := [];
      new;
      for i := 0 to WordCount(max)
        invariant |words| == i && forall w :: 0 <= w < i ==> words[w] == seq(64, _ => false)
      {
        words := words + [seq(64, _ => false)];
      }
    }

    /** `next_handle`: the least free handle. */
    method NextHandle() returns (r: Option<nat>)
      requires Valid()
      modifies this`words
      ensures Valid()
      ensures r.None? <==> forall h :: 0 <= h < max ==> Bit(old(words), h)
      ensures r.None? ==> words == old(words)
      ensures r.Some? ==>
                && r.value < max && !Bit(old(words), r.value) && (forall h :: 0 <= h < r.value ==> Bit(old(words), h))
                && forall h: nat :: Bit(words, h) == if h == r.value then true else Bit(old(words), h)
    {
      var wordIndex := 0;
      while wordIndex < |words|
        invariant 0 <= wordIndex <= |words| && words == old(words)
        invariant forall h: nat :: h < max && h < 64 * wordIndex ==> Bit(words, h)
      {
        var current := words[wordIndex];
        var zero := FirstZero(current);
        if zero < 64 {
          HandleWord(max, wordIndex, zero);
          var bitIndex := wordIndex * 64 + zero;
          assert bitIndex < U32_LIMIT;
          if bitIndex < max {
            words := words[wordIndex := current[zero := true]];
            assert words == SetBit(old(words), bitIndex, true);
            forall h: nat ensures Bit(words, h) == if h == bitIndex then true else Bit(old(words), h) {
              SetBitIs(old(words), bitIndex, true, h);
            }
            Below(old(words), wordIndex, zero);
            assert !Bit(old(words), bitIndex);
            return Some(bitIndex);
          }
        }
        Below(words, wordIndex, zero);
        wordIndex := wordIndex + 1;
      }
      r := None;
    }

    /** `free_handle`. */
    method FreeHandle(handle: nat) returns (r: Option<FreeError>)
      requires Valid() && handle < U32_LIMIT
      modifies this`words
      ensures Valid()
      ensures r == if handle >= max then Some(OutOfBounds)
                   else if !Bit(old(words), handle) then Some(NotAllocated) else None
      ensures r.Some? ==> words == old(words)
      ensures r.None? ==> forall h: nat :: Bit(words, h) == if h == handle then false else Bit(old(words), h)
    {
      if handle >= max { return Some(OutOfBounds); }
      var wordIndex, bitIndex := handle / 64, handle % 64;
      SetBitShaped(words, max, handle, false);
      var current := words[wordIndex];
      if !current[bitIndex] { return Some(NotAllocated); }
      words := words[wordIndex := current[bitIndex := false]];
      assert words == SetBit(old(words), handle, false);
      forall h: nat ensures Bit(words, h) == if h == handle then false else Bit(old(words), h) {
        SetBitIs(old(words), handle, false, h);
      }
      r := None;
    }
  }

  /** The handles of a word below its first clear bit are taken. */
  lemma Below(words: seq<Word>, w: nat, zero: nat)
    requires w < |words| && |words[w]| == 64 && zero == FirstZero(words[w])
    ensures forall h: nat :: 64 * w <= h < 64 * w + zero ==> Bit(words, h)
  {
    forall h: nat | 64 * w <= h < 64 * w + zero ensures Bit(words, h) {
      assert h / 64 == w && h % 64 == h - 64 * w;
    }
  }
}
