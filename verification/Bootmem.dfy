/** The boot-time bump allocator, in 32-bit arithmetic. */
module Bootmem {
  import opened Config
  import opened BitOps
  import opened BuddyState
  import opened Wrappers

  /** ALIGN_UP(x, a) on 32-bit words: (x + a - 1) & ~(a - 1), whatever a is. */
  function AlignUp(x: nat, a: nat): nat {
    Clear((x + a + (WORD - 1)) % WORD, (a + (WORD - 1)) % WORD)
  }

  /** The region that a request of `size` bytes gets when neither bound wraps. */
  predicate Fits(free: nat, size: nat) {
    size >= 1 && free + size - 1 < WORD && AlignUp(free, size) + size < WORD
  }

  /** Rounding up never goes below its argument, powers of two or not, exactly when the alignment
      is not zero and the sum does not wrap. */
  lemma AlignUpNeverBelowIff(x: nat, a: nat)
    requires x < WORD && a < WORD
    ensures x >= 1 ==> (AlignUp(x, a) >= x <==> a >= 1 && x + a - 1 < WORD)
    ensures a >= 1 && x + a - 1 < WORD ==> AlignUp(x, a) <= x + a - 1
  {
    hide Clear, And;
    var y, m := (x + a + (WORD - 1)) % WORD, (a + (WORD - 1)) % WORD;
    ClearIsSubtraction(y, m);
    if a == 0 {
      ModUnique(WORD - 1, 0, WORD - 1, WORD);
      WordIsPow2();
      ClearAll(y, 32);
    } else {
      ModUnique(a + (WORD - 1), 1, a - 1, WORD);
      if x + a - 1 < WORD {
        ModUnique(x + a + (WORD - 1), 1, x + a - 1, WORD);
      } else {
        ModUnique(x + a + (WORD - 1), 2, x + a - 1 - WORD, WORD);
      }
    }
  }

  lemma WordIsPow2()
    ensures Pow2(32) == WORD
  {
    EightMore(0);
    EightMore(8);
    EightMore(16);
    EightMore(24);
  }

  lemma EightMore(k: nat)
    ensures Pow2(k + 8) == 256 * Pow2(k)
  {
    assert Pow2(k + 2) == 4 * Pow2(k);
    assert Pow2(k + 4) == 4 * Pow2(k + 2);
    assert Pow2(k + 6) == 4 * Pow2(k + 4);
    assert Pow2(k + 8) == 4 * Pow2(k + 6);
  }

  /** Masking with all ones clears everything: a request of size zero rounds to address zero. */
  lemma {:induction false} ClearAll(y: nat, k: nat)
    requires y < Pow2(k)
    ensures Clear(y, Pow2(k) - 1) == 0
  {
    if k > 0 {
      ClearAll(y / 2, k - 1);
      assert (Pow2(k) - 1) % 2 == 1 && (Pow2(k) - 1) / 2 == Pow2(k - 1) - 1;
    }
  }

  /** For a power of two the result is the least multiple that is not below x. */
  lemma AlignUpPowerOfTwo(x: nat, k: nat)
    requires x + Pow2(k) - 1 < WORD
    ensures AlignUp(x, Pow2(k)) % Pow2(k) == 0
    ensures x <= AlignUp(x, Pow2(k)) < x + Pow2(k)
  {
    hide Clear, Pow2, And, AlignUp;
    var a := Pow2(k);
    UnwrappedAlignUp(x, a);
    MaskIsRemainder(x + a - 1, k);
    RoundedDown(x + a - 1, a);
  }

  lemma UnwrappedAlignUp(x: nat, a: nat)
    requires a >= 1 && x + a - 1 < WORD
    ensures AlignUp(x, a) == Clear(x + a - 1, a - 1)
  {
    hide Clear;
    if a - 1 < WORD {
      ModUnique(x + a + (WORD - 1), 1, x + a - 1, WORD);
      ModUnique(a + (WORD - 1), 1, a - 1, WORD);
    }
  }

  lemma RoundedDown(y: nat, a: nat)
    requires a > 0
    ensures y % a < a && (y - y % a) % a == 0
  {
    assert y - y % a == a * (y / a);
    ModUnique(a * (y / a), y / a, 0, a);
  }

  predicate LowBitsSet(m: nat, k: nat) {
    k == 0 || (m % 2 == 1 && LowBitsSet(m / 2, k - 1))
  }

  lemma {:induction false} ClearLowBits(y: nat, m: nat, k: nat)
    requires LowBitsSet(m, k)
    ensures Aligned(Clear(y, m), k)
  {
    if k > 0 {
      ClearLowBits(y / 2, m / 2, k - 1);
      if y == 0 {
        AlignedZero(k);
      }
    }
  }

  lemma {:induction false} BelowMultipleLowBits(n: nat, k: nat)
    requires n >= 1
    ensures LowBitsSet(Pow2(k) * n - 1, k)
  {
    if k > 0 {
      BelowMultipleLowBits(n, k - 1);
      assert Pow2(k) * n == 2 * (Pow2(k - 1) * n);
      MulAtLeast(Pow2(k - 1), n);
      assert (Pow2(k) * n - 1) / 2 == Pow2(k - 1) * n - 1;
    }
  }

  /** A request for whole pages gets page-aligned memory even when the number of pages is not a
      power of two. */
  lemma WholePagesArePageAligned(x: nat, n: nat)
    requires n >= 1 && n * PAGE_SIZE < WORD && x + n * PAGE_SIZE - 1 < WORD
    ensures AlignUp(x, n * PAGE_SIZE) % PAGE_SIZE == 0
  {
    assert Pow2(12) == PAGE_SIZE;
    BelowMultipleLowBits(n, 12);
    var a := n * PAGE_SIZE;
    assert (x + a + (WORD - 1)) % WORD == x + a - 1 && (a + (WORD - 1)) % WORD == a - 1;
    ClearLowBits(x + a - 1, a - 1, 12);
    AlignedIsDivisible(AlignUp(x, a), 12);
  }

  /** The bump pointer after a request, wrapped or not. */
  function NextFree(free: nat, size: nat): (r: nat)
    ensures r < WORD
  {
    (AlignUp(free, size) + size) % WORD
  }

  lemma FittingStep(free: nat, size: nat)
    requires Fits(free, size)
    ensures NextFree(free, size) == AlignUp(free, size) + size
  {
    hide AlignUp;
  }

  /** The bump pointer after a sequence of requests. */
  function FreeAfter(free: nat, sizes: seq<nat>): nat {
    if sizes == [] then free else NextFree(FreeAfter(free, sizes[..|sizes| - 1]), sizes[|sizes| - 1])
  }

  class BootMem {
    var freeMem: nat
    var memEnd: nat

    /** init_bootmem: memory below the end of the kernel is not used. */
    constructor (kernelEnd: nat, memSize: nat)
      ensures freeMem == kernelEnd && memEnd == memSize
    {
      freeMem, memEnd := kernelEnd, memSize;
    }

    /** bootmem_alloc: the physical address of the region, or nothing where the kernel panics.

        The region lies above everything handed out before, exactly when the request fits. */
    method Alloc(size: nat) returns (r: Option<nat>)
      requires freeMem < WORD && size < WORD
      modifies this`freeMem
      ensures freeMem == NextFree(old(freeMem), size) && (r.Some? <==> freeMem <= memEnd)
      ensures r.Some? ==> freeMem == (r.value + size) % WORD
      ensures r.Some? && old(freeMem) >= 1 ==>
                (Fits(old(freeMem), size) <==> old(freeMem) <= r.value && freeMem == r.value + size)
      ensures Fits(old(freeMem), size) ==>
                && old(freeMem) <= AlignUp(old(freeMem), size) && freeMem == AlignUp(old(freeMem), size) + size
                && (r.Some? ==> r.value == AlignUp(old(freeMem), size))
    {
      AlignUpNeverBelowIff(freeMem, size);
      var base := AlignUp(freeMem, size);
      freeMem := (base + size) % WORD;
      if freeMem > memEnd {
        return None;
      }
      r := Some(base);
    }

    /** bootmem_pre_init_pages: reserve every page from the kernel's first to the last one used. */
    method PreInitPages(pages: array<Page>)
      requires pages.Length < 0x10_0000
      modifies pages
      ensures forall p :: 0 <= p < pages.Length ==>
                pages[p] == old(pages[p]).(reserved :=
                  old(pages[p].reserved) || (BOOT_KERNEL_START / PAGE_SIZE <= p && p * PAGE_SIZE < freeMem))
    {
      var addr := BOOT_KERNEL_START;
      while addr < freeMem
        invariant BOOT_KERNEL_START <= addr && addr % PAGE_SIZE == 0
                    && (addr == BOOT_KERNEL_START || addr < freeMem + PAGE_SIZE)
        invariant addr / PAGE_SIZE <= pages.Length || addr == BOOT_KERNEL_START
        invariant forall p :: 0 <= p < pages.Length ==>
                    pages[p] == old(pages[p]).(reserved :=
                      old(pages[p].reserved) || (BOOT_KERNEL_START / PAGE_SIZE <= p && p * PAGE_SIZE < addr))
      {
        var index := addr / PAGE_SIZE;
        if index >= pages.Length {
          break;
        }
        pages[index] := pages[index].(reserved := true);
        addr := addr + PAGE_SIZE;
      }
    }
  }

  // ----- runs of requests

  /** The bump pointer before each request and after the last one. */
  ghost predicate Run(free: seq<nat>, sizes: seq<nat>) {
    && |free| == |sizes| + 1 && free[0] >= 1
    && forall i :: 0 <= i < |sizes| ==> Fits(free[i], sizes[i]) && free[i + 1] == AlignUp(free[i], sizes[i]) + sizes[i]
  }

  lemma {:induction false} PointerOnlyRises(free: seq<nat>, sizes: seq<nat>, i: nat, j: nat)
    requires Run(free, sizes) && i <= j < |free|
    ensures free[i] <= free[j] && (i < j ==> free[i] <= AlignUp(free[i], sizes[i]) && free[i + 1] <= free[j])
    ensures free[j] >= 1
    decreases j - i
  {
    PointerPositive(free, sizes, i);
    if i < j {
      AlignUpNeverBelowIff(free[i], sizes[i]);
      PointerOnlyRises(free, sizes, i + 1, j);
    }
  }

  lemma {:induction false} PointerPositive(free: seq<nat>, sizes: seq<nat>, i: nat)
    requires Run(free, sizes) && i < |free|
    ensures 1 <= free[i]
  {
    if i > 0 {
      assert Fits(free[i - 1], sizes[i - 1]) && free[i] == AlignUp(free[i - 1], sizes[i - 1]) + sizes[i - 1];
    }
  }

  /** The regions of any run of requests are disjoint, start at or above the end of the kernel and end
      at or below the final pointer. */
  lemma RegionsAreDisjoint(free: seq<nat>, sizes: seq<nat>, i: nat, j: nat)
    requires Run(free, sizes) && i < j < |sizes|
    ensures free[0] <= AlignUp(free[i], sizes[i])
    ensures AlignUp(free[i], sizes[i]) + sizes[i] <= AlignUp(free[j], sizes[j])
    ensures AlignUp(free[j], sizes[j]) + sizes[j] <= free[|sizes|]
  {
    PointerOnlyRises(free, sizes, 0, i);
    PointerOnlyRises(free, sizes, i, j);
    PointerOnlyRises(free, sizes, j, |sizes|);
  }
}
