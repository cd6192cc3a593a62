/**
  The allocator of mm.c on an array of heap words: boundary tags, fifteen segregated free
  lists threaded through the free blocks, splitting and two-sided coalescing.

  B and R are the blocks and list ranks of HeapLayout; Live(B) is what a caller can see.
 */
module Malloc {
  import opened HeapLayout
  import opened HeapBlocks

  function Align(size: nat): nat { (size + 7) / 8 * 8 }

  lemma AlignRoundsUp(size: nat)
    ensures Align(size) % 8 == 0 && size <= Align(size) < size + 8
  {
  }

  /** Extra space reserved for some request sizes. */
  function PreAlloc(size: nat): nat {
    if size == 448 then 64 else if size == 112 then 16 else if size == 512 then 128
    else if size == 4096 then 8 else 0
  }

  const NULL := 0

  // ---------- The size passed to mem_sbrk ----------

  function NewSize(size: nat): nat { Align(Align(size) + PreAlloc(Align(size))) + 8 }

  /** The value that reaches the int parameter of mem_sbrk. */
  function SbrkArgument(newSize: nat): int {
    var low := newSize % 0x1_0000_0000;
    if low >= 0x8000_0000 then low - 0x1_0000_0000 else low
  }

  /** A block gets its request rounded up to eight and eight bytes of tags; four sizes get more. */
  lemma NewSizeIs(size: nat)
    ensures Align(size) == 112 ==> NewSize(size) == 136
    ensures Align(size) == 448 ==> NewSize(size) == 520
    ensures Align(size) == 512 ==> NewSize(size) == 648
    ensures Align(size) == 4096 ==> NewSize(size) == 4112
    ensures Align(size) !in {112, 448, 512, 4096} ==> NewSize(size) == Align(size) + 8
  {
    AlignRoundsUp(size);
    AlignRoundsUp(Align(size) + PreAlloc(Align(size)));
    hide Align;
  }

  /** The low 32 bits of the size, as a signed number. */
  lemma SbrkArgumentIsLow(newSize: nat)
    ensures -0x8000_0000 <= SbrkArgument(newSize) < 0x8000_0000 && (newSize - SbrkArgument(newSize)) % 0x1_0000_0000 == 0
  {
  }

  /** The heap grows by the size the block needs exactly when that size fits an int. */
  lemma SbrkArgumentIsExact(size: nat)
    ensures SbrkArgument(NewSize(size)) == NewSize(size) <==> NewSize(size) < 0x8000_0000
  {
  }

  /** What mem_sbrk gets for other sizes: less than nothing, or a smaller multiple of eight. */
  lemma SbrkArgumentOtherwise(size: nat)
    requires SbrkArgument(NewSize(size)) >= 0
    ensures SbrkArgument(NewSize(size)) % 8 == 0
    ensures SbrkArgument(NewSize(size)) != NewSize(size) ==> SbrkArgument(NewSize(size)) < size
  {
    hide Align, PreAlloc;
    var before := Align(size) + PreAlloc(Align(size));
    AlignRoundsUp(size);
    AlignRoundsUp(before);
    ReservesLittle(Align(size));
    LowPart(Align(before) + 8);
  }

  lemma ReservesLittle(size: nat)
    ensures PreAlloc(size) <= 128
  {
  }

  lemma LowPart(n: nat)
    requires n % 8 == 0
    ensures (n % 0x1_0000_0000) % 8 == 0
    ensures n % 0x1_0000_0000 == n || n % 0x1_0000_0000 <= n - 0x1_0000_0000
  {
    var j, q, low := n / 8, n / 0x1_0000_0000, n % 0x1_0000_0000;
    assert n == 8 * j && n == 0x1_0000_0000 * q + low;
    Low8(j - 0x2000_0000 * q, 0);
    assert low == 8 * (j - 0x2000_0000 * q) + 0;
  }

  /** What a request asks the lists and mem_sbrk for. */
  lemma Requested(size: nat)
    requires size > 0 && SbrkArgument(NewSize(size)) != 0 && SbrkArgument(NewSize(size)) != 8
    ensures size <= Align(size) && Align(size) >= 8 && Align(size) % 8 == 0
    ensures Align(Align(size) + PreAlloc(Align(size))) + 8 == NewSize(size)
    ensures var incr := SbrkArgument(NewSize(size));
      incr < 0 || (incr >= 16 && incr % 8 == 0 && (size <= incr - 8 <==> incr == NewSize(size)))
  {
    AlignRoundsUp(size);
    AlignRoundsUp(Align(size) + PreAlloc(Align(size)));
    hide Align, PreAlloc;
    if SbrkArgument(NewSize(size)) >= 0 { SbrkArgumentOtherwise(size); }
    hide SbrkArgument;
  }

  /** A request of 4 GiB makes the heap grow by eight bytes. */
  lemma HugeRequestIsTruncated()
    ensures SbrkArgument(NewSize(0x1_0000_0000)) == 8
  {
    assert Align(0x1_0000_0000) == 0x1_0000_0000;
  }

  // ---------- The number of bytes mm_realloc copies ----------

  /** The size_t in front of a block spans two words: the one before its header and the header. */
  function CopySize(before: nat, header: nat, size: nat): nat {
    var copySize := before + header * 0x1_0000_0000;
    if size < copySize then size else copySize
  }

  /** It is at least the size of the block, and never more than the request. */
  lemma CopySizeCovers(b: Blk, before: nat, size: nat)
    requires b.size <= size
    ensures b.size <= CopySize(before, Tag(b), size) <= size
    ensures CopySize(before, Tag(b), size) < size ==> CopySize(before, Tag(b), size) == before + Tag(b) * 0x1_0000_0000
  {
  }

  /** So it is not the size of the block: the whole request is copied, whatever the block holds. */
  lemma CopySizeIsRequest(b: Blk, before: nat, size: nat)
    requires b.used && size < 0x1_0000_0000
    ensures CopySize(before, Tag(b), size) == size
  {
  }

  class Heap {
    const words: array<nat>
    var brk: nat
    var flag: bool
    var useFlag: bool
    var coalesceFlag: bool
    ghost var B: map<nat, Blk>
    ghost var R: map<nat, nat>

    ghost predicate Consistent(loose: set<nat>)
      reads this, words
    {
      Tiled(words[..], brk, B) && Linked(words[..], B, R, loose)
    }

    /** What holds between calls. */
    ghost predicate Valid()
      reads this, words
    {
      Consistent({}) && Coalesced(B, {})
    }

    /** mm_init on a region of maxHeap bytes */
    constructor (maxHeap: nat)
      requires maxHeap >= 60
      ensures Valid() && fresh(words) && words.Length == maxHeap
      ensures B == map[] && brk == 60 && flag && !useFlag && !coalesceFlag
    {
      words := new nat[maxHeap](_ => 0);
      brk := 60;
      flag, useFlag, coalesceFlag := true, false, false;
      B, R := map[], map[];
      new;
      assert forall i {:trigger HeadOk(words[..], B, R, i)} | 0 <= i < LISTNUM :: HeadOk(words[..], B, R, i);
    }

    /** deleteBlock */
    method DeleteBlock(p: nat, ghost loose: set<nat>)
      requires Consistent(loose) && p in R
      modifies words, `R
      ensures Consistent(loose + {p}) && R == old(R) - {p}
      ensures Keeps(old(words[..]), words[..], Live(B))
    {
      hide Tiled, Linked, OnlyLinks, Between, Keeps, SamePayloads;
      ghost var w := words[..];
      UnlinkKeepsLinks(w, B, R, loose, p);
      var next, prev := words[p], words[p + 4];
      words[prev] := next;
      if next != 0 {
        words[next + 4] := prev;
      }
      words[p] := 0;
      words[p + 4] := 0;
      assert words[..] == Unlinked(w, p);
      OnlyLinksKeepsTiling(w, words[..], brk, B);
      LinksKeepLive(w, words[..], B);
      R := R - {p};
    }

    /** insertBlock */
    method InsertBlock(p: nat, size: nat, ghost loose: set<nat>)
      requires Consistent(loose) && p in B && p in loose && B[p] == Blk(size, false)
      modifies words, `R
      ensures Consistent(loose - {p}) && OnTop(old(R), R, p)
      ensures Keeps(old(words[..]), words[..], Live(B))
    {
      hide Tiled, Linked, OnlyLinks, Loose, MinLen, Keeps, SamePayloads;
      ghost var w := words[..];
      LooseOf(w, brk, B, R, loose, p);
      ghost var top := RankBound(R);
      var len := MinLen(size);
      PushKeepsLinks(w, B, R, loose, p, len, top);
      var nextOffset := words[4 * len];
      words[p] := nextOffset;
      words[p + 4] := 4 * len;
      if nextOffset != 0 {
        words[nextOffset + 4] := p;
      }
      words[4 * len] := p;
      assert words[..] == Pushed(w, p, len);
      OnlyLinksKeepsTiling(w, words[..], brk, B);
      LinksKeepLive(w, words[..], B);
      R := R[p := top];
    }

    /** p joins the listed blocks and is searched before all others of its class. */
    ghost predicate OnTop(was: map<nat, nat>, now: map<nat, nat>, p: nat) {
      p in now && now == was[p := now[p]] && forall q | q in was :: was[q] < now[p]
    }

    /** minLen */
    method MinLenOf(size: nat) returns (len: nat)
      requires size >= 8
      ensures len == MinLen(size)
    {
      var rest: nat := size - 1;
      var minLen: int := -3;
      while rest > 0
        invariant minLen + Bits(rest) == Bits(size - 1) - 3
      {
        rest := rest / 2;
        minLen := minLen + 1;
      }
      BitsAtLeast3(size - 1);
      len := if minLen < LISTNUM - 1 then minLen else LISTNUM - 1;
    }

    /** q is searched before p. */
    ghost predicate Before(q: nat, p: nat)
      reads this`B, this`R
    {
      && q in B && p in B && q in R && p in R && B[q].size >= 8 && B[p].size >= 8
      && (MinLen(B[q].size) < MinLen(B[p].size) || (MinLen(B[q].size) == MinLen(B[p].size) && R[q] > R[p]))
    }

    /** The inner loop of findAvailableBlock: the first block of list i that is large enough. */
    method FirstFit(i: nat, size: nat) returns (p: nat)
      requires Valid() && i < LISTNUM && size >= 8
      ensures p == NULL ==> forall q | q in R && q in B && B[q].size >= 8 && MinLen(B[q].size) == i :: B[q].size < size
      ensures p != NULL ==> Listed(words[..], B, R, p) && MinLen(B[p].size) == i && B[p].size >= size
      ensures p != NULL ==>
        forall q | q in R && q in B && B[q].size >= 8 && MinLen(B[q].size) == i && R[q] > R[p] :: B[q].size < size
    {
      hide Tiled, MinLen, Coalesced;
      ghost var w := words[..];
      ListedBlocks(w, size);
      assert HeadOk(w, B, R, i);
      p := words[4 * i];
      while p != 0
        invariant p != 0 ==> Listed(w, B, R, p) && MinLen(B[p].size) == i
        invariant forall q | q in R && MinLen(B[q].size) == i && (p == 0 || R[q] > R[p]) :: B[q].size < size
        decreases if p == 0 then 0 else R[p] + 1
      {
        TagOfListed(w, p);
        if SizeOf(words[p - 4]) >= size {
          return;
        }
        assert NodeOk(w, B, R, p);
        p := words[p];
      }
    }

    /** findAvailableBlock: first fit over the lists from the class of the request upwards. */
    method FindAvailableBlock(size: nat) returns (p: nat)
      requires Valid() && size >= 8
      modifies words, `R
      ensures p == NULL ==> words[..] == old(words[..]) && R == old(R)
      ensures p == NULL ==> forall q | q in B && !B[q].used :: B[q].size < size
      ensures p != NULL ==> p in B && p in old(R) && !B[p].used && B[p].size >= size
      ensures p != NULL ==> forall q | old(Before(q, p)) :: B[q].size < size
      ensures p != NULL ==> Consistent({p}) && R == old(R) - {p} && Keeps(old(words[..]), words[..], Live(B))
    {
      hide Tiled, Linked, Keeps, MinLen, Coalesced;
      ghost var w := words[..];
      var i := MinLenOf(size);
      ListedBlocks(w, size);
      ListedDomain(w, B, R, {});
      while i < LISTNUM
        invariant words[..] == w && R == old(R) && i <= LISTNUM
        invariant forall q | q in R && MinLen(B[q].size) < i :: B[q].size < size
      {
        p := FirstFit(i, size);
        if p != NULL {
          DeleteBlock(p, {});
          assert {} + {p} == {p};
          return;
        }
        i := i + 1;
      }
      p := NULL;
      assert forall q | q in B && !B[q].used :: q in R && MinLen(B[q].size) < LISTNUM;
    }

    lemma ListedBlocks(w: seq<nat>, size: nat)
      requires Valid() && w == words[..] && size >= 8
      ensures 0 !in R
      ensures forall q | q in R :: Listed(w, B, R, q) && (MinLen(B[q].size) < MinLen(size) ==> B[q].size < size)
    {
      forall q | q in R
        ensures q != 0 && Listed(w, B, R, q) && (MinLen(B[q].size) < MinLen(size) ==> B[q].size < size)
      {
        assert NodeOk(w, B, R, q);
        if MinLen(B[q].size) < MinLen(size) { LowerClassIsSmaller(B[q].size, size); }
      }
    }

    lemma TagOfListed(w: seq<nat>, p: nat)
      requires Valid() && w == words[..] && p in R
      ensures p in B && !B[p].used && 4 <= p < |w| && SizeOf(w[p - 4]) == B[p].size
    {
      assert BlockOk(w, brk, p, B[p]);
      TagOfSize(B[p]);
    }

    // ---------- Taking a block ----------

    /** A block that deleteBlock has just taken off its list. */
    ghost predicate Taken(p: nat)
      reads this, words
    {
      Consistent({p}) && Coalesced(B, {}) && p in B && !B[p].used && p !in R
    }

    /** SETHEAD, SETUSING or SETFREE, SETFOOT */
    method SetTags(p: nat, size: nat, used: bool)
      requires 4 <= p && p + size < words.Length && size % 8 == 0
      modifies words
      ensures Tagged(old(words[..]), words[..], p, Blk(size, used))
    {
      words[p - 4] := size;
      if used {
        words[p - 4] := words[p - 4] + 1;
      }
      words[p + SizeOf(words[p - 4])] := words[p - 4];
    }

    /** placeBlock without a split: hand out the whole block. */
    method UseWhole(p: nat)
      requires Taken(p)
      modifies words, `B
      ensures Valid() && B == old(B)[p := Blk(old(B)[p].size, true)]
      ensures Keeps(old(words[..]), words[..], Live(old(B)))
    {
      hide Tiled, Linked, Keeps, Coalesced, Live, Tagged;
      ghost var w := words[..];
      TagOfTaken(w, p);
      SetTags(p, SizeOf(words[p - 4]), true);
      UseKeeps(w, words[..], brk, B, R, p);
      B := B[p := Blk(B[p].size, true)];
    }

    /** placeBlock with a split: the rest becomes a free block that is not yet listed. */
    method Split(p: nat, size: nat)
      requires Taken(p) && size >= 8 && size % 8 == 0 && size + 16 <= B[p].size
      modifies words, `B
      ensures B == SplitAt(old(B), p, size) && p + size + 8 !in old(B)
      ensures Consistent({p + size + 8}) && Coalesced(B, {})
      ensures Keeps(old(words[..]), words[..], Live(old(B)))
    {
      hide Tiled, Linked, Keeps, Coalesced, Live, SplitAt, Tagged, SplitTags, BlockOk;
      ghost var w := words[..];
      TagOfTaken(w, p);
      var remainSize := SizeOf(words[p - 4]) - size - 8;
      SetTags(p, size, true);
      ghost var w1 := words[..];
      SetTags(p + size + 8, remainSize, false);
      SplitTagged(w, w1, words[..], brk, B, p, size);
      SplitKeeps(w, words[..], brk, B, R, p, size);
      B := SplitAt(B, p, size);
    }

    /** placeBlock: hand out block p for a request, cutting off the rest if it can be a block. */
    method PlaceBlock(size: nat, p: nat)
      requires Taken(p) && size >= 8 && size % 8 == 0 && size <= B[p].size
      modifies words, `B, `R
      ensures Valid() && B == Placed(old(B), p, size)
      ensures if old(B)[p].size < size + 16 then R == old(R) else OnTop(old(R), R, p + size + 8)
      ensures Live(B) == Live(old(B))[p := B[p].size]
      ensures Keeps(old(words[..]), words[..], Live(old(B)))
    {
      hide Tiled, Linked, Keeps, Coalesced, Bits, MinLen;
      ghost var w, B0 := words[..], B;
      TagOfTaken(w, p);
      var totSize := SizeOf(words[p - 4]);
      var remainSize: int := totSize - size - 8;
      if remainSize + 8 < 16 {
        UseWhole(p);
        assert Live(B) == Live(B0)[p := B[p].size];
      } else {
        Split(p, size);
        ghost var w1 := words[..];
        assert Live(B) == Live(B0)[p := size];
        InsertBlock(p + size + 8, remainSize, {p + size + 8});
        assert {p + size + 8} - {p + size + 8} == {};
        KeepsThrough(w, w1, words[..], Live(B0), Live(B));
      }
    }

    lemma TagOfTaken(w: seq<nat>, p: nat)
      requires Taken(p) && w == words[..]
      ensures FIRST <= p && p % 8 == 0 && p + B[p].size + 4 <= brk <= |w|
      ensures SizeOf(w[p - 4]) == B[p].size && B[p].size % 8 == 0 && BlockOk(w, brk, p, B[p])
    {
      assert BlockOk(w, brk, p, B[p]);
      TagOfSize(B[p]);
    }

    /** The end of mm_malloc: append a used block of n bytes at the break. */
    method Extend(n: nat) returns (p: nat)
      requires Valid() && n >= 8 && n % 8 == 0 && brk + n + 8 <= words.Length
      modifies words, `B, `brk
      ensures Valid() && p == old(brk) + 4 && brk == old(brk) + n + 8
      ensures p !in old(B) && B == old(B)[p := Blk(n, true)]
      ensures Keeps(old(words[..]), words[..], Live(old(B)))
    {
      hide Tiled, Linked, Keeps, Coalesced, Live, Tagged, ExtendTags;
      ghost var w := words[..];
      BreakIsAligned(w, brk, B);
      p := brk + 4;
      SetTags(p, n, true);
      ExtendTagged(w, words[..], brk, n);
      ExtendKeeps(w, words[..], brk, B, R, n);
      B := B[p := Blk(n, true)];
      brk := brk + n + 8;
    }

    /** mem_sbrk, and a used block in the new bytes. */
    method Grow(incr: int) returns (p: nat)
      requires Valid() && (incr < 0 || (incr >= 16 && incr % 8 == 0))
      modifies words, `B, `brk
      ensures Valid()
      ensures p == NULL ==> words[..] == old(words[..]) && B == old(B) && brk == old(brk) && (incr < 0 || brk + incr > words.Length)
      ensures p != NULL ==>
        && p == old(brk) + 4 && p !in old(B) && p in B && incr >= 16 && B[p].size == incr - 8 && brk == old(brk) + incr
        && p !in Live(old(B)) && Live(B) == Live(old(B))[p := B[p].size] && Keeps(old(words[..]), words[..], Live(old(B)))
    {
      hide Keeps, Tiled, Linked, Coalesced, Live;
      if incr < 0 || brk + incr > words.Length {
        return NULL;
      }
      p := Extend(incr - 8);
      NotLive(old(B), p);
      LiveWithNew(old(B), p, incr - 8);
    }

    /** The block that the search takes for a request of n bytes. */
    ghost predicate FirstThatFits(p: nat, n: nat)
      reads this`B, this`R
    {
      && p in B && p in R && !B[p].used && B[p].size >= n
      && forall q | Before(q, p) :: B[q].size < n
    }

    /** findAvailableBlock and, if it finds one, placeBlock. */
    method Reuse(n: nat) returns (p: nat)
      requires Valid() && n >= 8 && n % 8 == 0
      modifies words, `B, `R
      ensures Valid()
      ensures p == NULL ==> words[..] == old(words[..]) && B == old(B) && R == old(R)
      ensures p == NULL ==> forall q | q in B && !B[q].used :: B[q].size < n
      ensures p != NULL ==>
        && p in old(B) && old(FirstThatFits(p, n)) && p in B && B == Placed(old(B), p, n) && n <= B[p].size
        && (if old(B)[p].size < n + 16 then R == old(R) - {p} else OnTop(old(R) - {p}, R, p + n + 8))
        && p !in Live(old(B)) && Live(B) == Live(old(B))[p := B[p].size] && Keeps(old(words[..]), words[..], Live(old(B)))
    {
      hide Tiled, Linked, Keeps, Coalesced, Live, Before, OnTop;
      ghost var w, B0 := words[..], B;
      p := FindAvailableBlock(n);
      if p != NULL {
        ghost var w1 := words[..];
        PlaceBlock(n, p);
        KeepsThrough(w, w1, words[..], Live(B0), Live(B0));
        NotLive(B0, p);
      }
    }

    lemma NullIsNoBlock()
      requires Valid()
      ensures NULL !in B
    {
      forall q | q in B ensures q != NULL { assert BlockOk(words[..], brk, q, B[q]); }
    }

    /**
      mm_malloc.  A block that was not handed out before is added to the live ones and nothing else
      changes.  The lists are searched first, unless the search is switched off, and the first block that
      fits is taken; the heap grows only if there is none.  NULL means that mem_sbrk refuses then.
      A size that does not fit the int parameter of mem_sbrk is refused there if the int comes out
      negative.  Otherwise the new block is too small for it, and an int of 0 or 8 leaves no room for any
      block: the sizes with these two are excluded.
     */
    method Malloc(size: nat) returns (p: nat)
      requires Valid() && (size == 0 || (SbrkArgument(NewSize(size)) != 0 && SbrkArgument(NewSize(size)) != 8))
      modifies this, words
      ensures Valid()
      ensures p == NULL ==> words[..] == old(words[..]) && B == old(B) && brk == old(brk)
      ensures p == NULL && size > 0 ==>
        && (SbrkArgument(NewSize(size)) < 0 || brk + SbrkArgument(NewSize(size)) > words.Length)
        && (old(flag) || !useFlag ==> forall q | q in B && !B[q].used :: B[q].size < Align(size))
      ensures p != NULL ==>
        && p !in Live(old(B)) && p in B
        && Live(B) == Live(old(B))[p := B[p].size]
        && Keeps(old(words[..]), words[..], Live(old(B)))
      ensures p != NULL ==> (size <= B[p].size <==> p in old(B) || SbrkArgument(NewSize(size)) == NewSize(size))
      ensures p != NULL && p !in old(B) ==>
        p == old(brk) + 4 && B[p].size == SbrkArgument(NewSize(size)) - 8 && brk == old(brk) + SbrkArgument(NewSize(size))
      ensures size > 0 && (old(flag) || !useFlag) && (exists q :: q in old(B) && !old(B)[q].used && old(B)[q].size >= Align(size)) ==>
        p in old(B)
      ensures p in old(B) ==> old(FirstThatFits(p, Align(size)))
      ensures !(old(flag) || !useFlag) ==> p !in old(B)
      ensures p in old(B) ==>
        && brk == old(brk) && B == Placed(old(B), p, Align(size))
        && (if old(B)[p].size < Align(size) + 16 then R == old(R) - {p} else OnTop(old(R) - {p}, R, p + Align(size) + 8))
      ensures p !in old(B) ==> R == old(R)
      ensures useFlag == (old(useFlag) || size == 4092) && coalesceFlag == old(coalesceFlag)
      ensures flag == (old(flag) || (size > 0 && p !in old(B)))
    {
      hide Keeps, Tiled, Linked, Coalesced, Align, PreAlloc, Live, FirstThatFits, OnTop, Placed, SbrkArgument, NewSize;
      NullIsNoBlock();
      if size == 0 {
        return NULL;
      }
      Requested(size);
      if size == 4092 {
        useFlag := true;
      }
      var adjustedSize := Align(size);
      if !useFlag || flag {
        p := Reuse(adjustedSize);
        if p != NULL {
          return;
        }
      }
      flag := true;
      var newSize := Align(adjustedSize + PreAlloc(adjustedSize)) + 8;
      p := Grow(SbrkArgument(newSize));
    }

    // ---------- Giving a block back ----------

    /** p is free, on no list, and the only block that may be next to a free block. */
    ghost predicate Freed(p: nat)
      reads this, words
    {
      Consistent({p}) && p in B && !B[p].used && p !in R && Coalesced(B, {p}) && TameNeighbours(B, p)
    }

    /** p has come to the lists, before all others; nothing else has come, and the order is as it was. */
    ghost predicate Relisted(was: map<nat, nat>, now: map<nat, nat>, p: nat) {
      p in now && forall q | q in now && q != p :: q in was && now[q] == was[q] < now[p]
    }

    /** The tags around p, as the code reads them. */
    lemma TagsAround(w: seq<nat>, p: nat)
      requires w == words[..] && Tiled(w, brk, B) && p in B
      ensures FIRST <= p && p % 8 == 0 && p + B[p].size + 4 <= brk <= |w| && BlockOk(w, brk, p, B[p])
      ensures w[p - 4] == Tag(B[p]) && SizeOf(w[p - 4]) == B[p].size && (UsedTag(w[p - 4]) <==> B[p].used)
      ensures B[p].size % 8 == 0 && 8 <= B[p].size
      ensures Next(p, B[p]) in B <==> Next(p, B[p]) < brk - 1
      ensures p == FIRST ==> PrevUsed(B, p)
      ensures p != FIRST ==> p > 68 && var y := p - 8 - SizeOf(w[p - 8]);
        && 8 + SizeOf(w[p - 8]) <= p && y in B && Next(y, B[y]) == p
        && (UsedTag(w[p - 8]) <==> B[y].used) && (B[y].used ==> PrevUsed(B, p))
    {
      assert BlockOk(w, brk, p, B[p]) && HasNext(brk, B, p);
      TagOfSize(B[p]);
      if Next(p, B[p]) in B { assert BlockOk(w, brk, Next(p, B[p]), B[Next(p, B[p])]); }
      if p == FIRST {
        forall q | q in B ensures Next(q, B[q]) > FIRST {
          assert BlockOk(w, brk, q, B[q]);
        }
      } else {
        var y := PrevBlock(w, brk, B, p);
        TagOfSize(B[y]);
        forall q | q in B && q != y ensures Next(q, B[q]) != p {
          Apart(w, brk, B, y, q);
        }
      }
    }

    /** Write the tags of the block that p forms with its unlisted free successor. */
    method Join(p: nat, used: bool, ghost loose: set<nat>)
      requires Consistent(loose) && p in B && p !in R && B[p].used == used && (p in loose || used)
      requires Next(p, B[p]) in B && !B[Next(p, B[p])].used && Next(p, B[p]) !in R
      modifies words, `B
      ensures B == MergeAt(old(B), p, used) && Consistent(loose - {Next(p, old(B)[p])})
      ensures MergeTags(old(words[..]), words[..], brk, old(B), p, used)
      ensures Keeps(old(words[..]), words[..], Live(old(B)))
    {
      hide Tiled, Linked, Keeps, Live, MergeTags, Tagged, BlockOk, MergeAt, SizeOf, Tag, UsedTag, PrevUsed;
      ghost var w := words[..];
      ghost var z := Next(p, B[p]);
      TagsAround(w, p);
      TagsAround(w, z);
      var size := SizeOf(words[p - 4]);
      SetTags(p, size + 8 + SizeOf(words[p + size + 8 - 4]), used);
      JoinKeeps(w, words[..], brk, B, R, p, used, loose);
      B := MergeAt(B, p, used);
    }

    /** The first half of coalesce: join p with a free block in front of it. */
    method CoalescePrev(p: nat) returns (r: nat)
      requires Freed(p)
      modifies words, `B, `R
      ensures Freed(r) && PrevUsed(B, r) && Live(B) == Live(old(B))
      ensures Keeps(old(words[..]), words[..], Live(B))
      ensures r <= p && Next(r, B[r]) == Next(p, old(B)[p]) && R == old(R) - {r}
    {
      hide Tiled, Linked, Keeps, Coalesced, Live, TameNeighbours, PrevUsed;
      ghost var w := words[..];
      TagsAround(w, p);
      r := p;
      if p - 8 <= 60 || UsedTag(words[p - 8]) {
        KeepsSame(w, Live(B));
        return;
      }
      var prev := p - 8 - SizeOf(words[p - 8]);
      InList(w, {p}, prev);
      DeleteBlock(prev, {p});
      ghost var w1, B1 := words[..], B;
      Join(prev, false, {p} + {prev});
      assert {p} + {prev} - {p} == {prev};
      CoalescedAfterMerge(w1, words[..], brk, B1, prev, false, {});
      TameAfterPrev(w1, brk, B1, prev);
      LiveAfterMerge(B1, prev, false);
      KeepsThrough(w, w1, words[..], Live(B), Live(B));
      r := prev;
    }

    /** The second half of coalesce: join with a free successor and go on the list. */
    method CoalesceNext(r: nat, next: nat)
      requires Freed(r) && PrevUsed(B, r) && next == Next(r, B[r])
      modifies words, `B, `R
      ensures Valid() && Live(B) == Live(old(B))
      ensures Keeps(old(words[..]), words[..], Live(B))
      ensures r in B && Next(r, B[r]) >= next && Relisted(old(R), R, r)
    {
      hide Tiled, Linked, Keeps, Coalesced, Live, TameNeighbours, PrevUsed;
      ghost var w := words[..];
      TagsAround(w, r);
      var join := next < brk - 1;
      if join {
        TagsAround(w, next);
        join := !UsedTag(words[next - 4]);
      }
      if join {
        InList(w, {r}, next);
        DeleteBlock(next, {r});
        ghost var w1, B1 := words[..], B;
        Join(r, false, {r} + {next});
        assert {r} + {next} - {next} == {r};
        CoalescedAfterMerge(w1, words[..], brk, B1, r, false, {});
        TameAfterNext(w1, brk, B1, r);
        LiveAfterMerge(B1, r, false);
        KeepsThrough(w, w1, words[..], Live(B), Live(B));
      } else {
        KeepsSame(w, Live(B));
      }
      CoalescedAround(B, r);
      ghost var w2 := words[..];
      TagsAround(w2, r);
      InsertBlock(r, SizeOf(words[r - 4]), {r});
      assert {r} - {r} == {};
      KeepsThrough(w, w2, words[..], Live(B), Live(B));
    }

    /**
      mm_free: the block is taken from the live ones; all other live payloads are untouched.
      Freeing a block that is already free does nothing.  Otherwise the free block that now holds the
      offset is searched before all others of its class, and the rest of the lists stay in order.
     */
    method Free(ptr: nat) returns (ghost r: nat)
      requires Valid() && ptr in B
      modifies words, `B, `R
      ensures Valid() && Live(B) == Live(old(B)) - {ptr}
      ensures if old(B)[ptr].used then Relisted(old(R), R, r) && r in B && r <= ptr < Next(r, B[r]) else B == old(B) && R == old(R)
      ensures Keeps(old(words[..]), words[..], Live(B))
    {
      hide Tiled, Linked, Keeps, Coalesced, Live, TameNeighbours, PrevUsed, Tagged, BlockOk;
      ghost var w, B0 := words[..], B;
      TagsAround(w, ptr);
      r := ptr;
      if !UsedTag(words[ptr - 4]) {
        LiveWithoutFree(B, ptr);
        KeepsSame(w, Live(B));
        return;
      }
      SetTags(ptr, SizeOf(words[ptr - 4]), false);
      RetagTagged(w, words[..], brk, B, ptr, false);
      FreeKeeps(w, words[..], brk, B, R, ptr);
      B := B[ptr := Blk(B[ptr].size, false)];
      LiveAfterFree(B0, ptr);
      ghost var w1 := words[..];
      TagsAround(w1, ptr);
      var next := ptr + SizeOf(words[ptr - 4]) + 8;
      var p := CoalescePrev(ptr);
      ghost var w2 := words[..];
      CoalesceNext(p, next);
      r := p;
      KeepsThrough(w, w1, w2, Live(B), Live(B));
      KeepsThrough(w, w2, words[..], Live(B), Live(B));
    }

    // ---------- Growing in place ----------

    /** coalesceBack: a used block swallows a free successor, if it has one; its payload so far stays. */
    method CoalesceBack(p: nat)
      requires Valid() && p in B && B[p].used
      modifies words, `B, `R
      ensures Valid() && B == Grown(old(B), p) && B[p].used && B[p].size >= old(B)[p].size
      ensures Live(B) == Live(old(B))[p := B[p].size]
      ensures Keeps(old(words[..]), words[..], Live(old(B)))
    {
      hide Tiled, Linked, Keeps, Coalesced, Live;
      ghost var w := words[..];
      TagsAround(w, p);
      var next := p + SizeOf(words[p - 4]) + 8;
      var join := next < brk - 1;
      if join {
        TagsAround(w, next);
        join := !UsedTag(words[next - 4]);
      }
      if join {
        InList(w, {}, next);
        ListedDomain(w, B, R, {});
        DeleteBlock(next, {});
        ghost var w1, B1 := words[..], B;
        Join(p, true, {} + {next});
        assert {} + {next} - {next} == {};
        CoalescedWeaker(B1, next);
        CoalescedAfterMerge(w1, words[..], brk, B1, p, true, {});
        CoalescedAroundUsed(B, p);
        LiveAfterMerge(B1, p, true);
        KeepsThrough(w, w1, words[..], Live(B1), Live(B1));
      } else {
        KeepsSame(w, Live(B));
        LiveAt(B, p);
      }
    }

    /**
      The in-place part of mm_realloc; the result says whether the block is now large enough.
      Whatever the three flags are, every live payload, including the one being grown, keeps
      its contents.
     */
    method ReallocInPlace(ptr: nat, size: nat) returns (done: bool)
      requires Valid() && ptr in B && B[ptr].used
      modifies this, words
      ensures Valid() && ptr in B && B[ptr].used && B[ptr].size >= old(B)[ptr].size
      ensures B == if !useFlag || old(coalesceFlag) then Grown(old(B), ptr) else old(B)
      ensures Live(B) == Live(old(B))[ptr := B[ptr].size]
      ensures Keeps(old(words[..]), words[..], Live(old(B)))
      ensures done <==> B[ptr].size >= size
      ensures useFlag == old(useFlag) && brk == old(brk)
      ensures flag == (old(flag) && !(useFlag && size <= B[ptr].size < size + 13))
      ensures coalesceFlag == if useFlag then size <= B[ptr].size < size + 13 else old(coalesceFlag)
    {
      hide Tiled, Linked, Keeps, Coalesced, Live;
      ghost var w := words[..];
      KeepsSame(w, Live(B));
      LiveAt(B, ptr);
      if useFlag {
        if coalesceFlag {
          CoalesceBack(ptr);
          coalesceFlag := false;
        }
        ghost var w1 := words[..];
        TagsAround(w1, ptr);
        // the subtraction is unsigned: a block smaller than the request does not count
        if SizeOf(words[ptr - 4]) >= size && SizeOf(words[ptr - 4]) - size < 5 + 8 {
          flag := false;
          coalesceFlag := true;
        }
      } else {
        CoalesceBack(ptr);
      }
      ghost var w2 := words[..];
      TagsAround(w2, ptr);
      done := SizeOf(words[ptr - 4]) >= size;
    }

    /** w' differs from w only in the payload of the used block at p. */
    ghost predicate PayloadOnly(w: seq<nat>, w': seq<nat>, p: nat)
      requires p in B
      reads this
    {
      |w'| == |w| && forall x | 0 <= x < |w| && !(p <= x < p + B[p].size) :: w'[x] == w[x]
    }

    /** A change inside the payload of a used block leaves the heap in order. */
    lemma PayloadIsFree(w: seq<nat>, w': seq<nat>, p: nat)
      requires Tiled(w, brk, B) && Linked(w, B, R, {}) && p in B && B[p].used
      requires PayloadOnly(w, w', p)
      ensures Tiled(w', brk, B) && Linked(w', B, R, {})
      ensures Keeps(w, w', Live(B) - {p})
    {
      hide Tiled, Linked, NodeOk, HeadOk, Live, Keeps;
      UsedIsUnlisted(w, p);
      BlockAway(w, brk, B, R, {}, p);
      assert Within(w, w', p - 4, p + B[p].size);
      assert B[p := Blk(B[p].size, true)] == B;
      RetagTiles(w, w', brk, B, p, true);
      RegionKeepsLinks(w, w', B, B, R, {}, {}, p - 4, p + B[p].size) by { UsedIsUnlisted(w, p); }
      RegionKeepsLive(w, w', brk, B, p, p + B[p].size);
    }

    lemma UsedIsUnlisted(w: seq<nat>, p: nat)
      requires Linked(w, B, R, {}) && p in B && B[p].used
      ensures p !in R && forall q :: q in R <==> q in B && !B[q].used && q !in {}
    {
    }

    /**
      memcpy(dst, src, n); a word outside the heap region reads as anything.  The first k words are
      away from the target and arrive unchanged, even if the words behind them overlap it.
     */
    method CopyWords(dst: nat, src: nat, n: nat, ghost k: nat)
      requires dst + n <= words.Length && src + k <= words.Length && k <= n
      requires src + k <= dst || dst + n <= src
      modifies words
      ensures Copied(old(words[..]), words[..], src, dst, k)
      ensures forall x | 0 <= x < words.Length && !(dst <= x < dst + n) :: words[x] == old(words[x])
    {
      var i := 0;
      while i < n
        invariant 0 <= i <= n
        invariant forall x | 0 <= x < words.Length && !(dst <= x < dst + i) :: words[x] == old(words[x])
        invariant forall x | dst <= x < dst + i && x - dst < k :: words[x] == old(words[..])[src + (x - dst)]
      {
        var v: nat := *;
        if src + i < words.Length { v := words[src + i]; }
        words[dst + i] := v;
        i := i + 1;
      }
    }

    method CopyPayload(dst: nat, src: nat, n: nat)
      requires Valid() && dst in B && B[dst].used && src in B && B[src].used && src != dst
      requires B[src].size <= n <= B[dst].size
      modifies words
      ensures Valid()
      ensures Copied(old(words[..]), words[..], src, dst, B[src].size)
      ensures Keeps(old(words[..]), words[..], Live(B) - {dst})
    {
      hide Tiled, Linked, Keeps, Coalesced, Live, Copied;
      ghost var w := words[..];
      TagsAround(w, dst);
      TagsAround(w, src);
      Apart(w, brk, B, src, dst);
      CopyWords(dst, src, n, B[src].size);
      PayloadIsFree(w, words[..], dst);
    }

    /**
      mm_realloc.  Either the block stays, possibly grown; or a new one gets the old payload and
      the old block is given back; or NULL, and the block stays but is too small.
     */
    method Realloc(ptr: nat, size: nat) returns (p: nat)
      requires Valid() && ptr in B && B[ptr].used
      requires SbrkArgument(NewSize(size)) < 0 || SbrkArgument(NewSize(size)) == NewSize(size)
      modifies this, words
      ensures Valid()
      ensures p == ptr <==> size <= (if !old(useFlag) || old(coalesceFlag) then Grown(old(B), ptr) else old(B))[ptr].size
      ensures p == ptr ==> Stays(Live(old(B)), Live(B), ptr) && size <= Live(B)[ptr]
      ensures p == NULL ==> Stays(Live(old(B)), Live(B), ptr) && Live(B)[ptr] < size
      ensures p == ptr || p == NULL ==> Keeps(old(words[..]), words[..], Live(old(B)))
      ensures p != ptr && p != NULL ==>
        Moved(Live(old(B)), Live(B), ptr, p, size, old(words[..]), words[..])
    {
      hide Tiled, Linked, Keeps, Coalesced, Moved, Copied, CopySize, NewSize, SbrkArgument;
      AtLeastSixteen(size);
      ghost var w0, V0 := words[..], Live(B);
      TagsAround(w0, ptr);
      var done := ReallocInPlace(ptr, size);
      if done { return ptr; }
      ghost var w1, V1 := words[..], Live(B);
      LiveMeans(old(B), ptr);
      LiveMeans(B, ptr);
      p := Malloc(size);
      if p == NULL { return; }
      ghost var w2, V2 := words[..], Live(B);
      LiveMeans(B, ptr);
      LiveMeans(B, p);
      TagsAround(w2, ptr);
      CopySizeCovers(B[ptr], words[ptr - 8], size);
      CopyPayload(p, ptr, CopySize(words[ptr - 8], words[ptr - 4], size));
      ghost var w3 := words[..];
      var _ := Free(ptr);
      MovedThrough(w0, w1, w2, w3, words[..], V0, V1, V2, ptr, p, size);
    }

    lemma InList(w: seq<nat>, loose: set<nat>, p: nat)
      requires w == words[..] && Linked(w, B, R, loose) && p in B && !B[p].used && p !in loose
      ensures p in R
    {
    }
  }

  /** The block at ptr is still live and no smaller, and all other live blocks are the same. */
  ghost predicate Stays(V: map<nat, nat>, V': map<nat, nat>, ptr: nat) {
    ptr in V && ptr in V' && V[ptr] <= V'[ptr] && V' == V[ptr := V'[ptr]]
  }

  /** n words from dst on in w' are those from src on in w. */
  ghost predicate Copied(w: seq<nat>, w': seq<nat>, src: nat, dst: nat, n: nat) {
    src + n <= |w| && dst + n <= |w'| && forall x | dst <= x < dst + n :: w'[x] == w[src + (x - dst)]
  }

  /** A live block at p has replaced the one at ptr and starts with its payload. */
  ghost predicate Moved(V: map<nat, nat>, V': map<nat, nat>, ptr: nat, p: nat, size: nat, w: seq<nat>, w': seq<nat>) {
    && ptr in V && p !in V && p in V' && size <= V'[p] && V' == V[p := V'[p]] - {ptr}
    && Copied(w, w', ptr, p, V[ptr]) && Keeps(w, w', V - {ptr})
  }

  lemma LiveMeans(B: map<nat, Blk>, p: nat)
    ensures p in Live(B) <==> p in B && B[p].used
    ensures p in Live(B) ==> Live(B)[p] == B[p].size
  {
  }

  /** A request of no bytes never gets as far as mem_sbrk, and any other one needs sixteen. */
  lemma AtLeastSixteen(size: nat)
    ensures NewSize(size) >= 8 && (size > 0 ==> NewSize(size) >= 16)
  {
    AlignRoundsUp(size);
    AlignRoundsUp(Align(size) + PreAlloc(Align(size)));
  }

  lemma MovedThrough(w0: seq<nat>, w1: seq<nat>, w2: seq<nat>, w3: seq<nat>, w4: seq<nat>,
                     V0: map<nat, nat>, V1: map<nat, nat>, V2: map<nat, nat>, ptr: nat, p: nat, size: nat)
    requires Stays(V0, V1, ptr) && V1[ptr] < size && Keeps(w0, w1, V0)
    requires p !in V1 && p in V2 && size <= V2[p] && V2 == V1[p := V2[p]] && Keeps(w1, w2, V1)
    requires Copied(w2, w3, ptr, p, V1[ptr]) && Keeps(w2, w3, V2 - {p})
    requires Keeps(w3, w4, V2 - {ptr})
    ensures Moved(V0, V2 - {ptr}, ptr, p, size, w0, w4)
  {
    forall x | p <= x < p + V0[ptr] ensures w4[x] == w0[ptr + (x - p)] {
      assert p in V2 - {ptr} && (V2 - {ptr})[p] == V2[p];
      assert w4[x] == w3[x];
      var y := ptr + (x - p);
      assert w2[y] == w1[y] == w0[y];
    }
    forall q, x | q in V0 - {ptr} && q <= x < q + (V0 - {ptr})[q] && x < |w0| ensures w4[x] == w0[x] {
      assert q in V1 && q in V2 - {p} && q in V2 - {ptr};
      assert V1[q] == V2[q] == V0[q];
    }
  }

  lemma KeepsSame(w: seq<nat>, V: map<nat, nat>)
    ensures Keeps(w, w, V)
  {
  }

  lemma LiveAt(B: map<nat, Blk>, p: nat)
    requires p in B && B[p].used
    ensures Live(B)[p := B[p].size] == Live(B)
  {
  }

  lemma CoalescedWeaker(B: map<nat, Blk>, z: nat)
    requires Coalesced(B, {})
    ensures Coalesced(B, {z})
  {
    forall q | q in B ensures !FreePair(B, {z}, q) {
      assert !FreePair(B, {}, q);
    }
  }

  lemma NotLive(B: map<nat, Blk>, p: nat)
    requires p !in B || !B[p].used
    ensures p !in Live(B)
  {
  }

  lemma LiveWithNew(B: map<nat, Blk>, p: nat, n: nat)
    ensures Live(B[p := Blk(n, true)]) == Live(B)[p := n]
  {
  }

  lemma KeepsThrough(w0: seq<nat>, w1: seq<nat>, w2: seq<nat>, V: map<nat, nat>, V': map<nat, nat>)
    requires Keeps(w0, w1, V) && Keeps(w1, w2, V')
    requires forall p | p in V :: p in V' && V'[p] == V[p]
    ensures Keeps(w0, w2, V)
  {
  }
}
