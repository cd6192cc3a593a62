/**
  What the words of mm.c's heap mean.

  An offset counts bytes from the heap bottom; word[o] is the 32-bit word at offset o.  Tags, links
  and list heads are at offsets divisible by four; an entry at another offset stands for a byte of a
  payload, which only the copying of mm_realloc moves.  Words 0..56 are the fifteen list
  heads.  A block with payload offset p and size s has its header at p - 4, its footer at
  p + s, and while it is free its next and prev offsets at p and p + 4.
 */
module HeapLayout {
  import opened Powers

  const LISTNUM := 15
  const FIRST := 64

  datatype Blk = Blk(size: nat, used: bool)

  function Tag(b: Blk): nat { b.size + (if b.used then 1 else 0) }
  function SizeOf(tag: nat): nat { tag - tag % 8 }
  predicate UsedTag(tag: nat) { tag % 2 == 1 }

  function Next(p: nat, b: Blk): nat { p + b.size + 8 }

  // ---------- Size classes ----------

  function Bits(n: nat): nat { if n == 0 then 0 else 1 + Bits(n / 2) }

  lemma BitsAtLeast3(n: nat)
    requires n >= 7
    ensures Bits(n) >= 3
  {
    assert Bits(7) == 3;
    BitsGrow(7, n);
  }

  function MinLen(size: nat): (i: nat)
    requires size >= 8
    ensures i < LISTNUM
  {
    BitsAtLeast3(size - 1);
    if Bits(size - 1) - 3 < LISTNUM - 1 then Bits(size - 1) - 3 else LISTNUM - 1
  }

  lemma {:induction false} BitsBound(n: nat)
    ensures n < Pow2(Bits(n)) && (n > 0 ==> Bits(n) > 0 && Pow2(Bits(n) - 1) <= n)
  {
    if n > 0 { BitsBound(n / 2); }
  }

  /** The classes: 8, 16, 24 to 32, 40 to 64 and so on; the last one has no bound. */
  lemma ClassIsRange(size: nat)
    requires size >= 8 && size % 8 == 0
    ensures MinLen(size) == 0 <==> size == 8
    ensures MinLen(size) > 0 ==> 4 * Pow2(MinLen(size)) < size
    ensures MinLen(size) < 14 ==> size <= 8 * Pow2(MinLen(size))
  {
    hide Bits, Pow2;
    BitsBound(size - 1);
    BitsAtLeast3(size - 1);
    EightTimes(Bits(size - 1));
    if Bits(size - 1) > 17 { LongerThan17(Bits(size - 1)); }
  }

  lemma EightTimes(b: nat)
    requires b >= 3
    ensures Pow2(b) == 8 * Pow2(b - 3) && Pow2(b - 1) == 4 * Pow2(b - 3) && Pow2(14) > 1
    ensures if b == 3 then Pow2(b - 3) == 1 else Pow2(b - 3) >= 2
  {
    assert Pow2(b) == 2 * Pow2(b - 1) && Pow2(b - 1) == 2 * Pow2(b - 2) && Pow2(b - 2) == 2 * Pow2(b - 3);
    assert Pow2(0) == 1 && Pow2(14) == 2 * Pow2(13) && (b > 3 ==> Pow2(b - 3) == 2 * Pow2(b - 4));
  }

  lemma LongerThan17(b: nat)
    requires b > 17
    ensures 8 * Pow2(14) <= Pow2(b - 1)
  {
    Pow2Monotone(17, b - 1);
    assert Pow2(17) == 2 * Pow2(16) && Pow2(16) == 2 * Pow2(15) && Pow2(15) == 2 * Pow2(14);
  }

  lemma {:induction false} BitsGrow(m: nat, n: nat)
    requires m <= n
    ensures Bits(m) <= Bits(n)
  {
    if m > 0 { BitsGrow(m / 2, n / 2); }
  }

  /** A block in a lower size class than the request is too small for it. */
  lemma LowerClassIsSmaller(size: nat, request: nat)
    requires size >= 8 && request >= 8 && MinLen(size) < MinLen(request)
    ensures size < request
  {
    if request <= size { BitsGrow(request - 1, size - 1); }
  }

  // ---------- Tiling ----------

  ghost predicate BlockOk(w: seq<nat>, brk: nat, p: nat, b: Blk) {
    && FIRST <= p && p % 8 == 0 && 8 <= b.size && b.size % 8 == 0
    && p + b.size + 4 <= brk <= |w|
    && w[p - 4] == w[p + b.size] == Tag(b)
  }

  /** The footer before p belongs to a block that ends there. */
  ghost predicate HasPrev(w: seq<nat>, B: map<nat, Blk>, p: nat) {
    && 8 <= p < |w| + 8 && SizeOf(w[p - 8]) + 8 <= p
    && var q := p - 8 - SizeOf(w[p - 8]);
       q in B && B[q].size == SizeOf(w[p - 8])
  }

  /** The block at p ends at the break or is followed by another block. */
  ghost predicate HasNext(brk: nat, B: map<nat, Blk>, p: nat)
    requires p in B
  {
    Next(p, B[p]) in B || Next(p, B[p]) == brk + 4
  }

  /** Offset p ends a block: a later block starts there, or it is where the next one would. */
  ghost predicate Boundary(brk: nat, B: map<nat, Blk>, p: nat) {
    p != FIRST && (p in B || p == brk + 4)
  }

  /** The blocks of B tile the heap from the list heads to the break. */
  ghost predicate Tiled(w: seq<nat>, brk: nat, B: map<nat, Blk>) {
    && 60 <= brk <= |w| && brk % 8 == 4
    && (FIRST in B || brk == 60)
    && (forall p | p in B :: BlockOk(w, brk, p, B[p]))
    && (forall p {:trigger HasNext(brk, B, p)} | p in B :: HasNext(brk, B, p))
    && (forall p {:trigger HasPrev(w, B, p)} | Boundary(brk, B, p) :: HasPrev(w, B, p))
    && (forall p, q | p in B && q in B && p < q :: Next(p, B[p]) <= q)
  }

  lemma BreakIsAligned(w: seq<nat>, brk: nat, B: map<nat, Blk>)
    requires Tiled(w, brk, B)
    ensures 60 <= brk <= |w| && brk % 8 == 4
  {
  }

  /** The block at p and the block after it are both free and neither is in `loose`. */
  ghost predicate FreePair(B: map<nat, Blk>, loose: set<nat>, p: nat)
    requires p in B
  {
    && !B[p].used && p !in loose
    && Next(p, B[p]) in B && !B[Next(p, B[p])].used && Next(p, B[p]) !in loose
  }

  ghost predicate Coalesced(B: map<nat, Blk>, loose: set<nat>) {
    forall p {:trigger FreePair(B, loose, p)} | p in B :: !FreePair(B, loose, p)
  }

  // ---------- Free lists ----------

  // R ranks the listed free blocks: within a size class every next offset leads to the block
  // with the next lower rank, so the lists are acyclic and complete by construction.

  predicate SameClass(B: map<nat, Blk>, p: nat, q: nat)
    requires p in B && q in B && B[p].size >= 8 && B[q].size >= 8
  {
    MinLen(B[p].size) == MinLen(B[q].size)
  }

  /** p is a listed free block. */
  ghost predicate Listed(w: seq<nat>, B: map<nat, Blk>, R: map<nat, nat>, p: nat) {
    p in R && p in B && !B[p].used && FIRST <= p && p % 8 == 0 && B[p].size >= 8 && p + 8 < |w|
  }

  ghost predicate NextOk(w: seq<nat>, B: map<nat, Blk>, R: map<nat, nat>, p: nat)
    requires Listed(w, B, R, p)
  {
    w[p] == 0 ||
    (Listed(w, B, R, w[p]) && SameClass(B, p, w[p]) && w[w[p] + 4] == p && R[w[p]] < R[p])
  }

  ghost predicate PrevOk(w: seq<nat>, B: map<nat, Blk>, R: map<nat, nat>, p: nat)
    requires Listed(w, B, R, p)
  {
    if w[p + 4] < 60 then w[p + 4] == 4 * MinLen(B[p].size) && w[w[p + 4]] == p
    else Listed(w, B, R, w[p + 4]) && SameClass(B, p, w[p + 4]) && w[w[p + 4]] == p
  }

  /** No listed block of the class ranks between p and its successor. */
  ghost predicate Dense(w: seq<nat>, B: map<nat, Blk>, R: map<nat, nat>, p: nat)
    requires Listed(w, B, R, p)
  {
    forall q | q in R && Listed(w, B, R, q) && SameClass(B, p, q) && R[q] < R[p] ::
      w[p] in R && R[q] <= R[w[p]]
  }

  ghost predicate NodeOk(w: seq<nat>, B: map<nat, Blk>, R: map<nat, nat>, p: nat) {
    Listed(w, B, R, p) && NextOk(w, B, R, p) && PrevOk(w, B, R, p) && Dense(w, B, R, p)
  }

  ghost predicate HeadOk(w: seq<nat>, B: map<nat, Blk>, R: map<nat, nat>, i: nat) {
    && 4 * i < |w|
    && (w[4 * i] == 0 || (Listed(w, B, R, w[4 * i]) && MinLen(B[w[4 * i]].size) == i && w[w[4 * i] + 4] == 4 * i))
    && forall q | q in R && Listed(w, B, R, q) && MinLen(B[q].size) == i ::
         w[4 * i] in R && R[q] <= R[w[4 * i]]
  }

  /** The free blocks outside `loose` are exactly the listed ones, each list in rank order. */
  ghost predicate Linked(w: seq<nat>, B: map<nat, Blk>, R: map<nat, nat>, loose: set<nat>) {
    && (forall p :: p in R <==> p in B && !B[p].used && p !in loose)
    && (forall p {:trigger NodeOk(w, B, R, p)} | p in R :: NodeOk(w, B, R, p))
    && (forall i {:trigger HeadOk(w, B, R, i)} | 0 <= i < LISTNUM :: HeadOk(w, B, R, i))
    && (forall p, q | p in R && q in R && p != q :: R[p] != R[q])
  }

  /** Payloads of used blocks hold the same words in w and w'. */
  ghost predicate SamePayloads(w: seq<nat>, w': seq<nat>, B: map<nat, Blk>) {
    && |w| == |w'|
    && forall p, x | p in B && B[p].used && p <= x < p + B[p].size && x < |w| :: w'[x] == w[x]
  }

  /** Offset x is a list head or a link word of a free block. */
  ghost predicate LinkCell(B: map<nat, Blk>, x: nat) {
    x < 60 || (x in B && !B[x].used) || (x >= 4 && x - 4 in B && !B[x - 4].used)
  }

  ghost predicate OnlyLinks(w: seq<nat>, w': seq<nat>, B: map<nat, Blk>) {
    |w| == |w'| && forall x | 0 <= x < |w| && !LinkCell(B, x) :: w'[x] == w[x]
  }

  lemma LinksAreInside(w: seq<nat>, brk: nat, B: map<nat, Blk>, p: nat)
    requires Tiled(w, brk, B) && p in B
    ensures !LinkCell(B, p - 4) && !LinkCell(B, p + B[p].size)
    ensures B[p].used ==> forall x :: p <= x < p + B[p].size ==> !LinkCell(B, x)
  {
    assert BlockOk(w, brk, p, B[p]);
    forall x | p - 4 <= x <= p + B[p].size && LinkCell(B, x)
      ensures p <= x < p + B[p].size && !B[p].used
    {
      var q := if x in B && !B[x].used then x else x - 4;
      assert BlockOk(w, brk, q, B[q]);
      assert q == p;
    }
  }

  lemma OnlyLinksKeepsBlock(w: seq<nat>, w': seq<nat>, brk: nat, B: map<nat, Blk>, p: nat)
    requires Tiled(w, brk, B) && OnlyLinks(w, w', B) && p in B
    ensures BlockOk(w', brk, p, B[p])
  {
    assert BlockOk(w, brk, p, B[p]);
    LinksAreInside(w, brk, B, p);
  }

  lemma OnlyLinksKeepsPrev(w: seq<nat>, w': seq<nat>, brk: nat, B: map<nat, Blk>, p: nat)
    requires Tiled(w, brk, B) && OnlyLinks(w, w', B) && Boundary(brk, B, p)
    ensures HasPrev(w', B, p)
  {
    assert HasPrev(w, B, p);
    var q := p - 8 - SizeOf(w[p - 8]);
    assert BlockOk(w, brk, q, B[q]);
    LinksAreInside(w, brk, B, q);
    hide Tiled, BlockOk, LinkCell;
    assert w'[q + B[q].size] == w[q + B[q].size];
    assert q + B[q].size == p - 8;
  }

  lemma OnlyLinksKeepsTiling(w: seq<nat>, w': seq<nat>, brk: nat, B: map<nat, Blk>)
    requires Tiled(w, brk, B) && OnlyLinks(w, w', B)
    ensures Tiled(w', brk, B) && SamePayloads(w, w', B)
  {
    hide BlockOk, HasPrev, LinkCell;
    forall p | p in B ensures BlockOk(w', brk, p, B[p]) {
      OnlyLinksKeepsBlock(w, w', brk, B, p);
    }
    forall p | Boundary(brk, B, p) ensures HasPrev(w', B, p) {
      OnlyLinksKeepsPrev(w, w', brk, B, p);
    }
    forall p, x | p in B && B[p].used && p <= x < p + B[p].size && x < |w| ensures w'[x] == w[x] {
      LinksAreInside(w, brk, B, p);
    }
  }

  lemma ListedDomain(w: seq<nat>, B: map<nat, Blk>, R: map<nat, nat>, loose: set<nat>)
    requires Linked(w, B, R, loose)
    ensures forall p :: p in R <==> p in B && !B[p].used && p !in loose
  {
  }

  // ---------- Unlinking ----------

  /** The words after deleteBlock(p). */
  function Unlinked(w: seq<nat>, p: nat): (w': seq<nat>)
    requires p + 4 < |w| && w[p + 4] < |w| && (w[p] != 0 ==> w[p] + 4 < |w|)
    ensures |w'| == |w|
  {
    var next, prev := w[p], w[p + 4];
    var w1 := w[prev := next];
    var w2 := if next != 0 then w1[next + 4 := prev] else w1;
    w2[p := 0][p + 4 := 0]
  }

  lemma UnlinkedAt(w: seq<nat>, p: nat, x: nat)
    requires p + 4 < |w| && w[p + 4] < |w| && (w[p] != 0 ==> w[p] + 4 < |w|) && x < |w|
    ensures Unlinked(w, p)[x] ==
      if x == p || x == p + 4 then 0
      else if w[p] != 0 && x == w[p] + 4 then w[p + 4]
      else if x == w[p + 4] then w[p]
      else w[x]
  {
  }

  /** p is a listed block whose two neighbours in its list are in order. */
  ghost predicate Between(w: seq<nat>, B: map<nat, Blk>, R: map<nat, nat>, p: nat) {
    && NodeOk(w, B, R, p) && 60 <= |w|
    && (w[p] != 0 ==> NodeOk(w, B, R, w[p]))
    && (w[p + 4] >= 60 ==> NodeOk(w, B, R, w[p + 4]))
  }

  lemma UnlinkKeepsNext(w: seq<nat>, B: map<nat, Blk>, R: map<nat, nat>, p: nat, q: nat)
    requires Between(w, B, R, p) && NodeOk(w, B, R, q) && q != p
    ensures Listed(Unlinked(w, p), B, R - {p}, q) && NextOk(Unlinked(w, p), B, R - {p}, q)
  {
    hide Unlinked, MinLen, Dense;
    var w' := Unlinked(w, p);
    UnlinkedAt(w, p, q);
    if w'[q] != 0 { UnlinkedAt(w, p, w'[q] + 4); }
  }

  lemma UnlinkKeepsPrev(w: seq<nat>, B: map<nat, Blk>, R: map<nat, nat>, p: nat, q: nat)
    requires Between(w, B, R, p) && NodeOk(w, B, R, q) && q != p
    ensures Listed(Unlinked(w, p), B, R - {p}, q) && PrevOk(Unlinked(w, p), B, R - {p}, q)
  {
    hide Unlinked, MinLen, Dense;
    var w' := Unlinked(w, p);
    UnlinkedAt(w, p, q + 4);
    UnlinkedAt(w, p, w'[q + 4]);
  }

  /** Only the predecessor of p gets a new next offset. */
  lemma UnlinkedNext(w: seq<nat>, B: map<nat, Blk>, R: map<nat, nat>, p: nat, q: nat)
    requires Between(w, B, R, p) && NodeOk(w, B, R, q) && q != p
    ensures Unlinked(w, p)[q] == if w[q] == p then w[p] else w[q]
  {
    hide Unlinked, MinLen, Dense;
    UnlinkedAt(w, p, q);
  }

  lemma UnlinkKeepsDense(w: seq<nat>, B: map<nat, Blk>, R: map<nat, nat>, p: nat, q: nat)
    requires Between(w, B, R, p) && NodeOk(w, B, R, q) && q != p
    requires forall x, y | x in R && y in R && x != y :: R[x] != R[y]
    ensures Listed(Unlinked(w, p), B, R - {p}, q) && Dense(Unlinked(w, p), B, R - {p}, q)
  {
    UnlinkedNext(w, B, R, p, q);
    hide Unlinked, MinLen, PrevOk, Between;
    assert NodeOk(w, B, R, p) by { BetweenNode(w, B, R, p); }
    var w', R' := Unlinked(w, p), R - {p};
    forall x | x in R' && Listed(w', B, R', x) && SameClass(B, q, x) && R'[x] < R'[q]
      ensures w'[q] in R' && R'[x] <= R'[w'[q]]
    {
      assert Listed(w, B, R, x);
      assert R[x] <= R[w[q]];
      if w[q] == p { assert R[x] < R[p] && SameClass(B, p, x); }
    }
  }

  lemma BetweenNode(w: seq<nat>, B: map<nat, Blk>, R: map<nat, nat>, p: nat)
    requires Between(w, B, R, p)
    ensures NodeOk(w, B, R, p)
  {
    hide NodeOk;
  }

  /** The list head changes only if p was first. */
  lemma UnlinkedHead(w: seq<nat>, B: map<nat, Blk>, R: map<nat, nat>, p: nat, i: nat)
    requires Between(w, B, R, p) && HeadOk(w, B, R, i) && i < LISTNUM
    ensures Unlinked(w, p)[4 * i] == if w[4 * i] == p then w[p] else w[4 * i]
    ensures var h := Unlinked(w, p)[4 * i];
      h == 0 || (Listed(w, B, R - {p}, h) && MinLen(B[h].size) == i && Unlinked(w, p)[h + 4] == 4 * i)
  {
    hide Unlinked, Dense;
    UnlinkedAt(w, p, 4 * i);
    var h := Unlinked(w, p)[4 * i];
    if h != 0 { UnlinkedAt(w, p, h + 4); }
  }

  lemma UnlinkKeepsHead(w: seq<nat>, B: map<nat, Blk>, R: map<nat, nat>, p: nat, i: nat)
    requires Between(w, B, R, p) && HeadOk(w, B, R, i) && i < LISTNUM
    requires forall x, y | x in R && y in R && x != y :: R[x] != R[y]
    ensures HeadOk(Unlinked(w, p), B, R - {p}, i)
  {
    UnlinkedHead(w, B, R, p, i);
    hide Unlinked, MinLen, PrevOk, Between;
    assert NodeOk(w, B, R, p) by { BetweenNode(w, B, R, p); }
    var w', R' := Unlinked(w, p), R - {p};
    forall x | x in R' && Listed(w', B, R', x) && MinLen(B[x].size) == i
      ensures w'[4 * i] in R' && R'[x] <= R'[w'[4 * i]]
    {
      assert Listed(w, B, R, x);
      assert R[x] <= R[w[4 * i]];
      if w[4 * i] == p { assert R[x] < R[p] && SameClass(B, p, x); }
    }
  }

  lemma BetweenOf(w: seq<nat>, B: map<nat, Blk>, R: map<nat, nat>, loose: set<nat>, p: nat)
    requires Linked(w, B, R, loose) && p in R
    ensures Between(w, B, R, p)
    ensures p + 4 < |w| && w[p + 4] < |w| && (w[p] != 0 ==> w[p] + 4 < |w|)
  {
    assert NodeOk(w, B, R, p) && HeadOk(w, B, R, LISTNUM - 1);
    if w[p] != 0 { assert NodeOk(w, B, R, w[p]); }
    if w[p + 4] >= 60 { assert NodeOk(w, B, R, w[p + 4]); }
  }

  /** deleteBlock takes p off its list and leaves every list in order. */
  lemma UnlinkKeepsLinks(w: seq<nat>, B: map<nat, Blk>, R: map<nat, nat>, loose: set<nat>, p: nat)
    requires Linked(w, B, R, loose) && p in R
    ensures Between(w, B, R, p)
    ensures p + 4 < |w| && w[p + 4] < |w| && (w[p] != 0 ==> w[p] + 4 < |w|)
    ensures Linked(Unlinked(w, p), B, R - {p}, loose + {p})
    ensures OnlyLinks(w, Unlinked(w, p), B)
  {
    BetweenOf(w, B, R, loose, p);
    hide Unlinked, Between;
    var w', R' := Unlinked(w, p), R - {p};
    forall q | q in R' ensures NodeOk(w', B, R', q) {
      assert NodeOk(w, B, R, q);
      UnlinkKeepsNext(w, B, R, p, q);
      UnlinkKeepsPrev(w, B, R, p, q);
      UnlinkKeepsDense(w, B, R, p, q);
    }
    forall i | 0 <= i < LISTNUM ensures HeadOk(w', B, R', i) {
      assert HeadOk(w, B, R, i);
      UnlinkKeepsHead(w, B, R, p, i);
    }
    UnlinkIsInside(w, B, R, p);
  }

  lemma UnlinkIsInside(w: seq<nat>, B: map<nat, Blk>, R: map<nat, nat>, p: nat)
    requires Between(w, B, R, p)
    ensures OnlyLinks(w, Unlinked(w, p), B)
  {
    hide Unlinked, MinLen, Dense;
    forall x | 0 <= x < |w| && !LinkCell(B, x) ensures Unlinked(w, p)[x] == w[x] {
      UnlinkedAt(w, p, x);
    }
  }

  // ---------- Linking ----------

  /** The words after insertBlock puts p on list i. */
  function Pushed(w: seq<nat>, p: nat, i: nat): (w': seq<nat>)
    requires p + 4 < |w| && 4 * i < |w| && (w[4 * i] != 0 ==> w[4 * i] + 4 < |w|)
    ensures |w'| == |w|
  {
    var next := w[4 * i];
    var w1 := w[p := next][p + 4 := 4 * i];
    var w2 := if next != 0 then w1[next + 4 := p] else w1;
    w2[4 * i := p]
  }

  lemma PushedAt(w: seq<nat>, p: nat, i: nat, x: nat)
    requires p + 4 < |w| && 4 * i < |w| && (w[4 * i] != 0 ==> w[4 * i] + 4 < |w|) && x < |w|
    ensures Pushed(w, p, i)[x] ==
      if x == 4 * i then p
      else if w[4 * i] != 0 && x == w[4 * i] + 4 then p
      else if x == p + 4 then 4 * i
      else if x == p then w[4 * i]
      else w[x]
  {
  }

  lemma {:induction false} RankBound(R: map<nat, nat>) returns (top: nat)
    ensures forall p | p in R :: R[p] < top
    decreases |R|
  {
    if R == map[] {
      top := 0;
    } else {
      var p :| p in R;
      var rest := R - {p};
      assert rest.Keys == R.Keys - {p};
      var below := RankBound(rest);
      top := if R[p] < below then below else R[p] + 1;
      assert forall q | q in R :: q == p || q in rest;
    }
  }

  /** A free block that is not yet listed and may go on list i. */
  ghost predicate Loose(w: seq<nat>, B: map<nat, Blk>, R: map<nat, nat>, p: nat, i: nat) {
    && p in B && !B[p].used && p !in R && FIRST <= p && p % 8 == 0 && B[p].size >= 8 && p + 8 < |w|
    && i < LISTNUM && i == MinLen(B[p].size)
    && HeadOk(w, B, R, i)
  }

  lemma PushKeepsNext(w: seq<nat>, B: map<nat, Blk>, R: map<nat, nat>, p: nat, i: nat, top: nat, q: nat)
    requires Loose(w, B, R, p, i) && q in R && NodeOk(w, B, R, q)
    ensures Listed(Pushed(w, p, i), B, R[p := top], q) && NextOk(Pushed(w, p, i), B, R[p := top], q)
    ensures Pushed(w, p, i)[q] == w[q]
  {
    hide Pushed, MinLen, Dense, PrevOk;
    var w' := Pushed(w, p, i);
    PushedAt(w, p, i, q);
    if w'[q] != 0 { PushedAt(w, p, i, w'[q] + 4); }
  }

  lemma PushKeepsPrev(w: seq<nat>, B: map<nat, Blk>, R: map<nat, nat>, p: nat, i: nat, top: nat, q: nat)
    requires Loose(w, B, R, p, i) && q in R && NodeOk(w, B, R, q)
    ensures Listed(Pushed(w, p, i), B, R[p := top], q) && PrevOk(Pushed(w, p, i), B, R[p := top], q)
  {
    hide Pushed, MinLen, Dense, NextOk;
    var w' := Pushed(w, p, i);
    PushedAt(w, p, i, q + 4);
    PushedAt(w, p, i, w'[q + 4]);
  }

  lemma PushKeepsNode(w: seq<nat>, B: map<nat, Blk>, R: map<nat, nat>, p: nat, i: nat, top: nat, q: nat)
    requires Loose(w, B, R, p, i) && q in R && NodeOk(w, B, R, q)
    requires forall x | x in R :: R[x] < top
    ensures NodeOk(Pushed(w, p, i), B, R[p := top], q)
  {
    var w', R' := Pushed(w, p, i), R[p := top];
    PushKeepsNext(w, B, R, p, i, top, q);
    PushKeepsPrev(w, B, R, p, i, top, q);
    hide Pushed, MinLen, NextOk, PrevOk, HeadOk;
    forall x | x in R' && Listed(w', B, R', x) && SameClass(B, q, x) && R'[x] < R'[q]
      ensures w'[q] in R' && R'[x] <= R'[w'[q]]
    {
      assert Listed(w, B, R, x);
    }
  }

  lemma PushedNodeOk(w: seq<nat>, B: map<nat, Blk>, R: map<nat, nat>, p: nat, i: nat, top: nat)
    requires Loose(w, B, R, p, i)
    requires forall x | x in R :: R[x] < top
    ensures NodeOk(Pushed(w, p, i), B, R[p := top], p)
  {
    hide Pushed, MinLen;
    var w', R' := Pushed(w, p, i), R[p := top];
    PushedAt(w, p, i, p);
    PushedAt(w, p, i, p + 4);
    PushedAt(w, p, i, 4 * i);
    if w'[p] != 0 { PushedAt(w, p, i, w'[p] + 4); }
    forall x | x in R' && Listed(w', B, R', x) && SameClass(B, p, x) && R'[x] < R'[p]
      ensures w'[p] in R' && R'[x] <= R'[w'[p]]
    {
      assert Listed(w, B, R, x);
    }
  }

  lemma PushKeepsHead(w: seq<nat>, B: map<nat, Blk>, R: map<nat, nat>, p: nat, i: nat, top: nat, k: nat)
    requires Loose(w, B, R, p, i) && k < LISTNUM && HeadOk(w, B, R, k)
    requires forall x | x in R :: R[x] < top
    ensures HeadOk(Pushed(w, p, i), B, R[p := top], k)
  {
    hide Pushed, MinLen;
    var w', R' := Pushed(w, p, i), R[p := top];
    PushedAt(w, p, i, 4 * k);
    if w'[4 * k] != 0 { PushedAt(w, p, i, w'[4 * k] + 4); }
    forall x | x in R' && Listed(w', B, R', x) && MinLen(B[x].size) == k
      ensures w'[4 * k] in R' && R'[x] <= R'[w'[4 * k]]
    {
      if x != p { assert Listed(w, B, R, x); }
    }
  }

  /** insertBlock puts the loose block p at the head of its list. */
  lemma PushKeepsLinks(w: seq<nat>, B: map<nat, Blk>, R: map<nat, nat>, loose: set<nat>, p: nat, i: nat, top: nat)
    requires Linked(w, B, R, loose) && Loose(w, B, R, p, i)
    requires forall x | x in R :: R[x] < top
    ensures Linked(Pushed(w, p, i), B, R[p := top], loose - {p})
    ensures OnlyLinks(w, Pushed(w, p, i), B)
  {
    hide Pushed, NodeOk;
    var w', R' := Pushed(w, p, i), R[p := top];
    PushedNodeOk(w, B, R, p, i, top);
    forall q | q in R' ensures NodeOk(w', B, R', q) {
      if q != p {
        assert NodeOk(w, B, R, q);
        PushKeepsNode(w, B, R, p, i, top, q);
      }
    }
    forall k | 0 <= k < LISTNUM ensures HeadOk(w', B, R', k) {
      assert HeadOk(w, B, R, k);
      PushKeepsHead(w, B, R, p, i, top, k);
    }
    hide HeadOk;
    PushIsInside(w, B, R, p, i);
  }

  lemma LooseOf(w: seq<nat>, brk: nat, B: map<nat, Blk>, R: map<nat, nat>, loose: set<nat>, p: nat)
    requires Tiled(w, brk, B) && Linked(w, B, R, loose) && p in B && p in loose && !B[p].used
    ensures B[p].size >= 8 && Loose(w, B, R, p, MinLen(B[p].size))
    ensures var i := MinLen(B[p].size);
      p + 4 < |w| && 4 * i < |w| && (w[4 * i] != 0 ==> w[4 * i] + 4 < |w|)
  {
    assert BlockOk(w, brk, p, B[p]);
    assert HeadOk(w, B, R, MinLen(B[p].size));
  }

  lemma PushIsInside(w: seq<nat>, B: map<nat, Blk>, R: map<nat, nat>, p: nat, i: nat)
    requires Loose(w, B, R, p, i)
    ensures OnlyLinks(w, Pushed(w, p, i), B)
  {
    hide Pushed, MinLen;
    forall x | 0 <= x < |w| && !LinkCell(B, x) ensures Pushed(w, p, i)[x] == w[x] {
      PushedAt(w, p, i, x);
    }
  }

  // ---------- Walking a list ----------

  /** The n-th offset met when list i is followed from its head; 0 once the list has ended. */
  function Nth(w: seq<nat>, i: nat, n: nat): nat {
    if n == 0 then (if 4 * i < |w| then w[4 * i] else 0)
    else
      var o := Nth(w, i, n - 1);
      if o == 0 || o >= |w| then 0 else w[o]
  }

  lemma {:induction false} NthIsListed(w: seq<nat>, B: map<nat, Blk>, R: map<nat, nat>, loose: set<nat>, i: nat, n: nat)
    requires Linked(w, B, R, loose) && i < LISTNUM && Nth(w, i, n) != 0
    ensures var p := Nth(w, i, n); Listed(w, B, R, p) && MinLen(B[p].size) == i
  {
    hide MinLen;
    if n == 0 {
      assert HeadOk(w, B, R, i);
    } else {
      NthIsListed(w, B, R, loose, i, n - 1);
      assert NodeOk(w, B, R, Nth(w, i, n - 1));
    }
  }

  lemma {:induction false} NthDescends(w: seq<nat>, B: map<nat, Blk>, R: map<nat, nat>, loose: set<nat>, i: nat, m: nat, n: nat)
    requires Linked(w, B, R, loose) && i < LISTNUM && m < n && Nth(w, i, n) != 0
    ensures Nth(w, i, m) in R && Nth(w, i, n) in R && R[Nth(w, i, n)] < R[Nth(w, i, m)]
    decreases n
  {
    hide MinLen;
    NthIsListed(w, B, R, loose, i, n);
    NthIsListed(w, B, R, loose, i, n - 1);
    assert NodeOk(w, B, R, Nth(w, i, n - 1));
    if m < n - 1 { NthDescends(w, B, R, loose, i, m, n - 1); }
  }

  lemma {:induction false} ListedIsNth(w: seq<nat>, B: map<nat, Blk>, R: map<nat, nat>, loose: set<nat>, p: nat, top: nat)
    returns (n: nat)
    requires Linked(w, B, R, loose) && p in R && forall q | q in R :: R[q] < top
    ensures p in B && B[p].size >= 8 && Nth(w, MinLen(B[p].size), n) == p && p != 0
    decreases top - R[p]
  {
    hide MinLen;
    assert NodeOk(w, B, R, p);
    var prev := w[p + 4];
    if prev < 60 {
      n := 0;
    } else {
      assert NodeOk(w, B, R, prev);
      var m := ListedIsNth(w, B, R, loose, prev, top);
      n := m + 1;
    }
  }

  /** Following list i from its head leads to p. */
  ghost predicate OnList(w: seq<nat>, i: nat, p: nat) {
    p != 0 && exists n: nat :: Nth(w, i, n) == p
  }

  /**
    Every free block is met exactly once when the list of its size class is followed from its
    head, and nothing but free blocks of that class is met.
   */
  lemma FreeListsAreExact(w: seq<nat>, B: map<nat, Blk>, R: map<nat, nat>, i: nat)
    requires Linked(w, B, R, {}) && i < LISTNUM
    ensures forall p | p in B && !B[p].used :: B[p].size >= 8
    ensures forall p | p in B && !B[p].used && MinLen(B[p].size) == i :: OnList(w, i, p)
    ensures forall n: nat | Nth(w, i, n) != 0 ::
      var p := Nth(w, i, n); p in B && !B[p].used && MinLen(B[p].size) == i
    ensures forall m: nat, n: nat | m != n && Nth(w, i, n) != 0 :: Nth(w, i, m) != Nth(w, i, n)
  {
    hide MinLen;
    var top := RankBound(R);
    forall p | p in B && !B[p].used ensures B[p].size >= 8 {
      assert NodeOk(w, B, R, p);
    }
    forall p | p in B && !B[p].used && MinLen(B[p].size) == i ensures OnList(w, i, p) {
      var n := ListedIsNth(w, B, R, {}, p, top);
      assert Nth(w, i, n) == p;
    }
    forall n: nat | Nth(w, i, n) != 0
      ensures var p := Nth(w, i, n); p in B && !B[p].used && B[p].size >= 8 && MinLen(B[p].size) == i
    {
      NthIsListed(w, B, R, {}, i, n);
    }
    forall m: nat, n: nat | m != n && Nth(w, i, n) != 0 ensures Nth(w, i, m) != Nth(w, i, n) {
      if m < n {
        NthDescends(w, B, R, {}, i, m, n);
      } else if Nth(w, i, m) != 0 {
        NthDescends(w, B, R, {}, i, n, m);
      }
    }
  }
}
