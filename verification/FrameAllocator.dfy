/**
 The physical frame allocator: a bitmap of 64 words of 64 bits, one bit for each 4 KiB frame
 above the kernel image.  Frames are named by their frame number (physical address / 4096).
 */
module FrameAllocator {
  import opened Basics

  const WORDS: nat := 64
  const WORD_BITS: nat := 64
  const POOL: nat := 4096

  type Frame = nat

  /** A 64-bit machine word, as its bits, least significant first. */
  type Word = w: seq<bool> | |w| == 64 witness seq(64, _ => false)

  /** Bit `k` of the whole bitmap. */
  predicate Marked(words: seq<Word>, k: nat)
    requires |words| == WORDS && k < POOL
  {
    words[k / WORD_BITS][k % WORD_BITS]
  }

  /** The frames a bitmap marks, when frame `start` is its first. */
  ghost function MarkedFrames(words: seq<Word>, start: Frame): (s: set<Frame>)
    requires |words| == WORDS
    ensures forall f: Frame :: f in s <==> start <= f < start + POOL && Marked(words, f - start)
  {
    set k: nat {:trigger Marked(words, k)} | 0 <= k < POOL && Marked(words, k) :: start + k
  }

  lemma MarkedIs(words: seq<Word>, w: nat, i: nat)
    requires |words| == WORDS && w < WORDS && i < WORD_BITS
    ensures w * WORD_BITS + i < POOL && Marked(words, w * WORD_BITS + i) == words[w][i]
  {}

  /** Setting or clearing bit `i` of word `w` marks or unmarks exactly that frame. */
  lemma MarkOne(words: seq<Word>, start: Frame, w: nat, i: nat, on: bool)
    requires |words| == WORDS && w < WORDS && i < WORD_BITS
    ensures
      var f := start + (w * WORD_BITS + i);
      var s := MarkedFrames(words, start);
      MarkedFrames(words[w := words[w][i := on]], start) == if on then s + {f} else s - {f}
  {}

  lemma MarkedBelow(words: seq<Word>, start: Frame, k: nat)
    requires |words| == WORDS && k <= POOL && forall j | 0 <= j < k :: Marked(words, j)
    ensures forall f: Frame | start <= f < start + k :: f in MarkedFrames(words, start)
  {}

  class Allocator {
    const start: Frame
    const pages: array<Word>

    constructor (start: Frame)
      ensures Valid() && fresh(pages) && this.start == start && Used() == {}
    {
      this.start := start;
      pages := new Word[WORDS](_ => seq(64, _ => false));
    }

    ghost predicate Valid()
      reads this
    {
      pages.Length == WORDS
    }

    /** Every frame the allocator manages. */
    ghost predicate InPool(f: Frame)
      reads this
    {
      start <= f < start + POOL
    }

    /** No frame is left. */
    ghost predicate Full()
      requires Valid()
      reads this, pages
    {
      forall f: Frame | InPool(f) :: f in Used()
    }

    /** The frames currently handed out. */
    ghost function Used(): (s: set<Frame>)
      requires Valid()
      reads this, pages
    {
      MarkedFrames(pages[..], start)
    }

    /** Hands out the lowest free frame; fails exactly when every frame is in use. */
    method Alloc() returns (r: Option<Frame>)
      requires Valid()
      modifies pages
      ensures r.None? ==> Used() == old(Used()) && Full()
      ensures r.Some? ==>
                && InPool(r.value) && r.value !in old(Used())
                && Used() == old(Used()) + {r.value}
                && forall f: Frame | InPool(f) && f < r.value :: f in old(Used())
    {
      hide Marked;
      var w := 0;
      while w < WORDS
        invariant 0 <= w <= WORDS
        invariant pages[..] == old(pages[..])
        invariant forall k | 0 <= k < w * WORD_BITS :: Marked(pages[..], k)
      {
        var i := 0;
        while i < WORD_BITS
          invariant 0 <= i <= WORD_BITS
          invariant pages[..] == old(pages[..])
          invariant forall k | 0 <= k < w * WORD_BITS + i :: Marked(pages[..], k)
        {
          MarkedIs(pages[..], w, i);
          if !pages[w][i] {
            ghost var k := w * WORD_BITS + i;
            MarkOne(pages[..], start, w, i, true);
            MarkedBelow(pages[..], start, k);
            pages[w] := pages[w][i := true];
            assert pages[..] == old(pages[..])[w := old(pages[..])[w][i := true]];
            return Some(start + (w * WORD_BITS + i));
          }
          i := i + 1;
        }
        w := w + 1;
      }
      MarkedBelow(pages[..], start, POOL);
      r := None;
    }

    /** Returns one frame to the pool and leaves every other frame as it was. */
    method Free(f: Frame)
      requires Valid() && InPool(f)
      modifies pages
      ensures Used() == old(Used()) - {f}
    {
      var x := f - start;
      var w, i := x / WORD_BITS, x % WORD_BITS;
      MarkOne(pages[..], start, w, i, false);
      pages[w] := pages[w][i := false];
      assert pages[..] == old(pages[..])[w := old(pages[..])[w][i := false]];
    }
  }
}
