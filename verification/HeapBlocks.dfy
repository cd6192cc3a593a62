/**
  Rewriting block boundaries: marking, splitting, merging and extending keep the tiling, the
  free lists and the payloads of all other blocks.
 */
module HeapBlocks {
  import opened HeapLayout

  /** w and w' differ at most between lo and hi. */
  ghost predicate Within(w: seq<nat>, w': seq<nat>, lo: nat, hi: nat) {
    |w| == |w'| && forall x | 0 <= x < |w| && !(lo <= x <= hi) :: w'[x] == w[x]
  }

  /** w' is w with the tag of b written as header and footer of a block at p. */
  ghost predicate Tagged(w: seq<nat>, w': seq<nat>, p: nat, b: Blk)
    requires p >= 4
  {
    |w'| == |w| && forall x | 0 <= x < |w| :: w'[x] == if x == p - 4 || x == p + b.size then Tag(b) else w[x]
  }

  lemma Low8(k: nat, d: nat)
    requires d <= 1
    ensures (8 * k + d) % 8 == d
  {
    var x := 8 * k + d;
    var q, r := x / 8, x % 8;
    assert x == 8 * q + r;
    assert q < k ==> 8 * q + r < 8 * k;
    assert q > k ==> 8 * q >= 8 * k + 8;
    assert q == k;
  }

  lemma Low2(k: nat, d: nat)
    requires d <= 1
    ensures (2 * k + d) % 2 == d
  {
    var x := 2 * k + d;
    var q, r := x / 2, x % 2;
    assert x == 2 * q + r;
    assert q < k ==> 2 * q + r < 2 * k;
    assert q > k ==> 2 * q >= 2 * k + 2;
    assert q == k;
  }

  lemma TagOfSize(b: Blk)
    requires b.size % 8 == 0
    ensures SizeOf(Tag(b)) == b.size && (UsedTag(Tag(b)) <==> b.used)
  {
    var k, d := b.size / 8, if b.used then 1 else 0;
    Low8(k, d);
    Low2(4 * k, d);
  }

  lemma BlockOf(w: seq<nat>, brk: nat, B: map<nat, Blk>, q: nat)
    requires Tiled(w, brk, B) && q in B
    ensures BlockOk(w, brk, q, B[q]) && HasNext(brk, B, q)
  {
    hide BlockOk, HasNext, HasPrev;
  }

  lemma Apart(w: seq<nat>, brk: nat, B: map<nat, Blk>, p: nat, q: nat)
    requires Tiled(w, brk, B) && p in B && q in B && p != q
    ensures BlockOk(w, brk, p, B[p]) && BlockOk(w, brk, q, B[q])
    ensures Next(p, B[p]) <= q || Next(q, B[q]) <= p
  {
  }

  // ---------- Free lists away from the changed region ----------

  /** No listed block has a link word between lo and hi, and listed blocks are the same in B'. */
  ghost predicate ListsAway(B: map<nat, Blk>, B': map<nat, Blk>, R: map<nat, nat>, lo: nat, hi: nat) {
    60 <= lo && forall q | q in R :: q in B && q in B' && B'[q] == B[q] && (q + 4 < lo || hi < q)
  }

  lemma RegionKeepsNode(w: seq<nat>, w': seq<nat>, B: map<nat, Blk>, B': map<nat, Blk>, R: map<nat, nat>,
                        lo: nat, hi: nat, q: nat)
    requires Within(w, w', lo, hi) && ListsAway(B, B', R, lo, hi)
    requires NodeOk(w, B, R, q)
    ensures NodeOk(w', B', R, q)
  {
    hide MinLen;
    forall x | x in R && Listed(w', B', R, x) && SameClass(B', q, x) && R[x] < R[q]
      ensures w'[q] in R && R[x] <= R[w'[q]]
    {
      assert Listed(w, B, R, x);
    }
  }

  lemma RegionKeepsHead(w: seq<nat>, w': seq<nat>, B: map<nat, Blk>, B': map<nat, Blk>, R: map<nat, nat>,
                        lo: nat, hi: nat, i: nat)
    requires Within(w, w', lo, hi) && ListsAway(B, B', R, lo, hi) && i < LISTNUM
    requires HeadOk(w, B, R, i)
    ensures HeadOk(w', B', R, i)
  {
    hide MinLen;
    forall x | x in R && Listed(w', B', R, x) && MinLen(B'[x].size) == i
      ensures w'[4 * i] in R && R[x] <= R[w'[4 * i]]
    {
      assert Listed(w, B, R, x);
    }
  }

  /** Changes inside a region that holds no listed block keep the lists. */
  lemma RegionKeepsLinks(w: seq<nat>, w': seq<nat>, B: map<nat, Blk>, B': map<nat, Blk>, R: map<nat, nat>,
                         loose: set<nat>, loose': set<nat>, lo: nat, hi: nat)
    requires Linked(w, B, R, loose) && Within(w, w', lo, hi) && ListsAway(B, B', R, lo, hi)
    requires forall q :: q in R <==> q in B' && !B'[q].used && q !in loose'
    ensures Linked(w', B', R, loose')
  {
    hide NodeOk, HeadOk, Within, ListsAway;
    forall q | q in R ensures NodeOk(w', B', R, q) {
      assert NodeOk(w, B, R, q);
      RegionKeepsNode(w, w', B, B', R, lo, hi, q);
    }
    forall i | 0 <= i < LISTNUM ensures HeadOk(w', B', R, i) {
      assert HeadOk(w, B, R, i);
      RegionKeepsHead(w, w', B, B', R, lo, hi, i);
    }
  }

  /** A block that is on no list is away from all listed blocks. */
  lemma BlockAway(w: seq<nat>, brk: nat, B: map<nat, Blk>, R: map<nat, nat>, loose: set<nat>, p: nat)
    requires Tiled(w, brk, B) && Linked(w, B, R, loose) && p in B && p !in R
    ensures BlockOk(w, brk, p, B[p])
    ensures forall q | q in R :: q in B && q != p && (q + 4 < p - 4 || p + B[p].size < q)
  {
    assert BlockOk(w, brk, p, B[p]);
    forall q | q in R ensures q in B && q != p && (q + 4 < p - 4 || p + B[p].size < q) {
      Apart(w, brk, B, p, q);
    }
  }

  // ---------- Blocks away from the changed region ----------

  lemma OutsideBlock(w: seq<nat>, w': seq<nat>, brk: nat, brk': nat, q: nat, b: Blk, lo: nat, hi: nat)
    requires BlockOk(w, brk, q, b) && Within(w, w', lo, hi) && brk <= brk' <= |w|
    requires q + b.size < lo || hi < q - 4
    ensures BlockOk(w', brk', q, b)
  {
  }

  /** The block that ends at the boundary q. */
  lemma PrevBlock(w: seq<nat>, brk: nat, B: map<nat, Blk>, q: nat) returns (y: nat)
    requires Tiled(w, brk, B) && Boundary(brk, B, q)
    ensures y in B && BlockOk(w, brk, y, B[y]) && Next(y, B[y]) == q && y < q
  {
    assert HasPrev(w, B, q);
    y := q - 8 - SizeOf(w[q - 8]);
    assert BlockOk(w, brk, y, B[y]);
  }

  lemma PrevFromBlock(w: seq<nat>, brk: nat, B: map<nat, Blk>, y: nat, q: nat)
    requires y in B && BlockOk(w, brk, y, B[y]) && Next(y, B[y]) == q
    ensures HasPrev(w, B, q)
  {
    TagOfSize(B[y]);
  }

  // ---------- Marking ----------

  lemma RetagBlock(w: seq<nat>, w': seq<nat>, brk: nat, B: map<nat, Blk>, p: nat, used: bool, q: nat)
    requires Tiled(w, brk, B) && p in B && q in B && p >= 4
    requires Within(w, w', p - 4, p + B[p].size) && BlockOk(w', brk, p, Blk(B[p].size, used))
    ensures BlockOk(w', brk, q, B[p := Blk(B[p].size, used)][q])
  {
    if q != p {
      Apart(w, brk, B, p, q);
      OutsideBlock(w, w', brk, brk, q, B[q], p - 4, p + B[p].size);
    }
  }

  lemma RetagPrev(w: seq<nat>, w': seq<nat>, brk: nat, B: map<nat, Blk>, p: nat, used: bool, q: nat)
    requires Tiled(w, brk, B) && p in B && Boundary(brk, B, q) && p >= 4
    requires Within(w, w', p - 4, p + B[p].size) && BlockOk(w', brk, p, Blk(B[p].size, used))
    ensures HasPrev(w', B[p := Blk(B[p].size, used)], q)
  {
    var y := PrevBlock(w, brk, B, q);
    RetagBlock(w, w', brk, B, p, used, y);
    hide Tiled, Within;
    PrevFromBlock(w', brk, B[p := Blk(B[p].size, used)], y, q);
  }

  lemma TilesOf(w: seq<nat>, brk: nat, B: map<nat, Blk>)
    requires 60 <= brk <= |w| && brk % 8 == 4 && (FIRST in B || brk == 60)
    requires forall p {:trigger BlockOk(w, brk, p, B[p])} | p in B :: BlockOk(w, brk, p, B[p])
    requires forall p {:trigger HasNext(brk, B, p)} | p in B :: HasNext(brk, B, p)
    requires forall p {:trigger HasPrev(w, B, p)} | Boundary(brk, B, p) :: HasPrev(w, B, p)
    requires forall p, q | p in B && q in B && p < q :: Next(p, B[p]) <= q
    ensures Tiled(w, brk, B)
  {
    hide BlockOk, HasPrev, HasNext;
  }

  lemma TileFacts(w: seq<nat>, brk: nat, B: map<nat, Blk>)
    requires Tiled(w, brk, B)
    ensures 60 <= brk <= |w| && brk % 8 == 4 && (FIRST in B || brk == 60)
    ensures forall p, q | p in B && q in B && p < q :: Next(p, B[p]) <= q
  {
    hide BlockOk, HasPrev, HasNext;
  }

  lemma RetagNext(brk: nat, B: map<nat, Blk>, p: nat, used: bool, q: nat)
    requires p in B && q in B && HasNext(brk, B, q)
    ensures HasNext(brk, B[p := Blk(B[p].size, used)], q)
  {
  }

  lemma SameSize(w: seq<nat>, w': seq<nat>, lo: nat, hi: nat)
    requires Within(w, w', lo, hi)
    ensures |w'| == |w|
  {
  }

  /** Rewriting header and footer of a block with a new status. */
  lemma {:induction false} RetagTiles(w: seq<nat>, w': seq<nat>, brk: nat, B: map<nat, Blk>, p: nat, used: bool)
    requires Tiled(w, brk, B) && p in B && p >= 4
    requires Within(w, w', p - 4, p + B[p].size) && BlockOk(w', brk, p, Blk(B[p].size, used))
    ensures Tiled(w', brk, B[p := Blk(B[p].size, used)])
  {
    hide BlockOk, HasPrev, HasNext, Within, Tiled;
    var B' := B[p := Blk(B[p].size, used)];
    SameSize(w, w', p - 4, p + B[p].size);
    TileFacts(w, brk, B);
    forall q | q in B' ensures BlockOk(w', brk, q, B'[q]) && HasNext(brk, B', q) {
      BlockOf(w, brk, B, q);
      RetagBlock(w, w', brk, B, p, used, q);
      RetagNext(brk, B, p, used, q);
    }
    forall q | Boundary(brk, B', q) ensures HasPrev(w', B', q) {
      RetagPrev(w, w', brk, B, p, used, q);
    }
    TilesOf(w', brk, B');
  }

  // ---------- Splitting ----------

  function SplitAt(B: map<nat, Blk>, p: nat, n: nat): map<nat, Blk>
    requires p in B && n + 8 <= B[p].size
  {
    B[p := Blk(n, true)][p + n + 8 := Blk(B[p].size - n - 8, false)]
  }

  /** Handing out block p for a request: whole, unless the rest can be a block. */
  function Placed(B: map<nat, Blk>, p: nat, n: nat): map<nat, Blk>
    requires p in B
  {
    if B[p].size < n + 16 then B[p := Blk(B[p].size, true)] else SplitAt(B, p, n)
  }

  /** The words hold the tags of both parts of block p. */
  ghost predicate SplitTags(w: seq<nat>, w': seq<nat>, brk: nat, B: map<nat, Blk>, p: nat, n: nat) {
    && p in B && p >= 4 && n + 16 <= B[p].size
    && Within(w, w', p - 4, p + B[p].size)
    && BlockOk(w', brk, p, Blk(n, true)) && BlockOk(w', brk, p + n + 8, Blk(B[p].size - n - 8, false))
  }

  lemma NoBlockInside(w: seq<nat>, brk: nat, B: map<nat, Blk>, p: nat, x: nat)
    requires Tiled(w, brk, B) && p in B && p < x < Next(p, B[p])
    ensures x !in B
  {
  }

  lemma SplitBlock(w: seq<nat>, w': seq<nat>, brk: nat, B: map<nat, Blk>, p: nat, n: nat, q: nat)
    requires Tiled(w, brk, B) && SplitTags(w, w', brk, B, p, n) && q in SplitAt(B, p, n)
    ensures p + n + 8 !in B
    ensures BlockOk(w', brk, q, SplitAt(B, p, n)[q])
  {
    BreakIsAligned(w, brk, B);
    hide Tiled, HasNext;
    NoBlockInside(w, brk, B, p, p + n + 8);
    if q != p && q != p + n + 8 {
      Apart(w, brk, B, p, q);
      BlockOf(w, brk, B, q);
      OutsideBlock(w, w', brk, brk, q, B[q], p - 4, p + B[p].size);
    }
  }

  lemma SplitPrev(w: seq<nat>, w': seq<nat>, brk: nat, B: map<nat, Blk>, p: nat, n: nat, q: nat)
    requires Tiled(w, brk, B) && SplitTags(w, w', brk, B, p, n) && Boundary(brk, SplitAt(B, p, n), q)
    ensures HasPrev(w', SplitAt(B, p, n), q)
  {
    SplitBlock(w, w', brk, B, p, n, p);
    if q == p + n + 8 {
      PrevFromBlock(w', brk, SplitAt(B, p, n), p, q);
    } else {
      var y := PrevBlock(w, brk, B, q);
      var y' := if y == p then p + n + 8 else y;
      SplitBlock(w, w', brk, B, p, n, y');
      hide Tiled, SplitTags;
      PrevFromBlock(w', brk, SplitAt(B, p, n), y', q);
    }
  }

  lemma {:induction false} SplitNext(w: seq<nat>, w': seq<nat>, brk: nat, B: map<nat, Blk>, p: nat, n: nat, q: nat)
    requires Tiled(w, brk, B) && SplitTags(w, w', brk, B, p, n) && q in SplitAt(B, p, n)
    ensures HasNext(brk, SplitAt(B, p, n), q)
  {
    hide Tiled, BlockOk, Within, Boundary;
    BlockOf(w, brk, B, p);
    if q in B { BlockOf(w, brk, B, q); }
  }

  lemma {:induction false} SplitOrder(w: seq<nat>, w': seq<nat>, brk: nat, B: map<nat, Blk>, p: nat, n: nat, q: nat)
    requires Tiled(w, brk, B) && SplitTags(w, w', brk, B, p, n) && q in SplitAt(B, p, n)
    ensures forall x | x in SplitAt(B, p, n) && q < x :: Next(q, SplitAt(B, p, n)[q]) <= x
  {
    hide Tiled, BlockOk, Within;
    forall x | x in SplitAt(B, p, n) && q < x ensures Next(q, SplitAt(B, p, n)[q]) <= x {
      if x in B && x != p { Apart(w, brk, B, p, x); }
      if q in B && q != p { Apart(w, brk, B, p, q); }
      if q in B && x in B { Apart(w, brk, B, q, x); }
    }
  }

  /** placeBlock cuts a block in two. */
  lemma SplitTiles(w: seq<nat>, w': seq<nat>, brk: nat, B: map<nat, Blk>, p: nat, n: nat)
    requires Tiled(w, brk, B) && SplitTags(w, w', brk, B, p, n)
    ensures Tiled(w', brk, SplitAt(B, p, n))
  {
    var B' := SplitAt(B, p, n);
    assert |w'| == |w| && (FIRST in B' || brk == 60);
    hide BlockOk, HasPrev, SplitTags, SplitAt, HasNext;
    forall q | q in B'
      ensures BlockOk(w', brk, q, B'[q]) && HasNext(brk, B', q)
      ensures forall x | x in B' && q < x :: Next(q, B'[q]) <= x
    {
      SplitBlock(w, w', brk, B, p, n, q);
      SplitNext(w, w', brk, B, p, n, q);
      SplitOrder(w, w', brk, B, p, n, q);
    }
    forall q | Boundary(brk, B', q) ensures HasPrev(w', B', q) {
      SplitPrev(w, w', brk, B, p, n, q);
    }
  }

  // ---------- Merging ----------

  /** Block p swallows the block that follows it. */
  function MergeAt(B: map<nat, Blk>, p: nat, used: bool): map<nat, Blk>
    requires p in B && Next(p, B[p]) in B
  {
    (B - {Next(p, B[p])})[p := Blk(B[p].size + 8 + B[Next(p, B[p])].size, used)]
  }

  /** A used block after it has swallowed a free successor, if there is one. */
  function Grown(B: map<nat, Blk>, p: nat): map<nat, Blk>
    requires p in B
  {
    if Next(p, B[p]) in B && !B[Next(p, B[p])].used then MergeAt(B, p, true) else B
  }

  ghost predicate MergeTags(w: seq<nat>, w': seq<nat>, brk: nat, B: map<nat, Blk>, p: nat, used: bool) {
    && p in B && p >= 4 && Next(p, B[p]) in B
    && var b := MergeAt(B, p, used)[p];
    && Within(w, w', p - 4, p + b.size) && BlockOk(w', brk, p, b)
  }

  lemma MergeBlock(w: seq<nat>, w': seq<nat>, brk: nat, B: map<nat, Blk>, p: nat, used: bool, q: nat)
    requires Tiled(w, brk, B) && MergeTags(w, w', brk, B, p, used) && q in MergeAt(B, p, used)
    ensures BlockOk(w', brk, q, MergeAt(B, p, used)[q])
  {
    if q != p {
      var z := Next(p, B[p]);
      Apart(w, brk, B, p, q);
      Apart(w, brk, B, z, q);
      OutsideBlock(w, w', brk, brk, q, B[q], p - 4, z + B[z].size);
    }
  }

  lemma {:induction false} MergePrev(w: seq<nat>, w': seq<nat>, brk: nat, B: map<nat, Blk>, p: nat, used: bool, q: nat)
    requires Tiled(w, brk, B) && MergeTags(w, w', brk, B, p, used) && Boundary(brk, MergeAt(B, p, used), q)
    ensures HasPrev(w', MergeAt(B, p, used), q)
  {
    var z := Next(p, B[p]);
    BlockOf(w, brk, B, z);
    hide Tiled, MergeTags, HasNext;
    var y := PrevBlock(w, brk, B, q);
    var y' := if y == z then p else y;
    MergeBlock(w, w', brk, B, p, used, y');
    PrevFromBlock(w', brk, MergeAt(B, p, used), y', q);
  }

  lemma MergeOrder(w: seq<nat>, w': seq<nat>, brk: nat, B: map<nat, Blk>, p: nat, used: bool, q: nat)
    requires Tiled(w, brk, B) && MergeTags(w, w', brk, B, p, used) && q in MergeAt(B, p, used)
    ensures HasNext(brk, MergeAt(B, p, used), q)
    ensures forall x | x in MergeAt(B, p, used) && q < x :: Next(q, MergeAt(B, p, used)[q]) <= x
  {
    var z := Next(p, B[p]);
    Apart(w, brk, B, p, z);
    assert HasNext(brk, B, q) && HasNext(brk, B, z);
    if q != p {
      Apart(w, brk, B, p, q);
      Apart(w, brk, B, z, q);
    }
    forall x | x in MergeAt(B, p, used) && q < x ensures Next(q, MergeAt(B, p, used)[q]) <= x {
      Apart(w, brk, B, z, x);
      Apart(w, brk, B, q, x);
    }
  }

  /** coalesce and coalesceBack join a block with its successor. */
  lemma MergeTiles(w: seq<nat>, w': seq<nat>, brk: nat, B: map<nat, Blk>, p: nat, used: bool)
    requires Tiled(w, brk, B) && MergeTags(w, w', brk, B, p, used)
    ensures Tiled(w', brk, MergeAt(B, p, used))
  {
    var B' := MergeAt(B, p, used);
    assert |w'| == |w|;
    assert FIRST in B' || brk == 60 by { Apart(w, brk, B, p, Next(p, B[p])); }
    hide BlockOk, HasPrev, MergeTags, MergeAt, HasNext;
    forall q | q in B'
      ensures BlockOk(w', brk, q, B'[q]) && HasNext(brk, B', q)
      ensures forall x | x in B' && q < x :: Next(q, B'[q]) <= x
    {
      MergeBlock(w, w', brk, B, p, used, q);
      MergeOrder(w, w', brk, B, p, used, q);
    }
    forall q | Boundary(brk, B', q) ensures HasPrev(w', B', q) {
      MergePrev(w, w', brk, B, p, used, q);
    }
  }

  // ---------- Extending ----------

  ghost predicate ExtendTags(w: seq<nat>, w': seq<nat>, brk: nat, n: nat) {
    && brk + n + 8 <= |w| && Within(w, w', brk, brk + 4 + n)
    && BlockOk(w', brk + n + 8, brk + 4, Blk(n, true))
  }

  lemma ExtendBlock(w: seq<nat>, w': seq<nat>, brk: nat, B: map<nat, Blk>, n: nat, q: nat)
    requires Tiled(w, brk, B) && ExtendTags(w, w', brk, n) && q in B
    ensures q != brk + 4
    ensures BlockOk(w', brk + n + 8, q, B[q])
    ensures HasNext(brk + n + 8, B[brk + 4 := Blk(n, true)], q)
    ensures Next(q, B[q]) <= brk + 4
  {
    assert BlockOk(w, brk, q, B[q]) && HasNext(brk, B, q);
    OutsideBlock(w, w', brk, brk + n + 8, q, B[q], brk, brk + 4 + n);
  }

  lemma ExtendPrev(w: seq<nat>, w': seq<nat>, brk: nat, B: map<nat, Blk>, n: nat, q: nat)
    requires Tiled(w, brk, B) && ExtendTags(w, w', brk, n)
    requires Boundary(brk + n + 8, B[brk + 4 := Blk(n, true)], q)
    ensures HasPrev(w', B[brk + 4 := Blk(n, true)], q)
  {
    var y;
    if q == brk + n + 12 {
      y := brk + 4;
    } else {
      y := PrevBlock(w, brk, B, q);
      ExtendBlock(w, w', brk, B, n, y);
    }
    PrevFromBlock(w', brk + n + 8, B[brk + 4 := Blk(n, true)], y, q);
  }

  lemma ExtendBasics(w: seq<nat>, w': seq<nat>, brk: nat, B: map<nat, Blk>, n: nat)
    requires Tiled(w, brk, B) && ExtendTags(w, w', brk, n)
    ensures brk + 4 !in B && (FIRST in B || brk + 4 == FIRST)
    ensures |w'| == |w| && 60 <= brk + n + 8 <= |w| && (brk + n + 8) % 8 == 4
    ensures BlockOk(w', brk + n + 8, brk + 4, Blk(n, true))
    ensures forall x, y | x in B && y in B && x < y :: Next(x, B[x]) <= y
  {
  }

  lemma ExtendNext(brk: nat, B: map<nat, Blk>, n: nat)
    ensures HasNext(brk + n + 8, B[brk + 4 := Blk(n, true)], brk + 4)
  {
  }

  /** mm_malloc appends a used block at the break. */
  lemma {:induction false} ExtendTiles(w: seq<nat>, w': seq<nat>, brk: nat, B: map<nat, Blk>, n: nat)
    requires Tiled(w, brk, B) && ExtendTags(w, w', brk, n)
    ensures brk + 4 !in B
    ensures Tiled(w', brk + n + 8, B[brk + 4 := Blk(n, true)])
  {
    hide BlockOk, HasPrev, ExtendTags, HasNext, Tiled;
    var B', p := B[brk + 4 := Blk(n, true)], brk + 4;
    ExtendBasics(w, w', brk, B, n);
    ExtendNext(brk, B, n);
    forall q | q in B'
      ensures BlockOk(w', brk + n + 8, q, B'[q]) && HasNext(brk + n + 8, B', q)
      ensures q != p ==> Next(q, B'[q]) <= p
    {
      if q != p { ExtendBlock(w, w', brk, B, n, q); }
    }
    forall q | Boundary(brk + n + 8, B', q) ensures HasPrev(w', B', q) {
      ExtendPrev(w, w', brk, B, n, q);
    }
    hide Boundary;
    TilesOf(w', brk + n + 8, B');
  }

  // ---------- Neighbouring free blocks ----------

  lemma CoalescedAfterUse(B: map<nat, Blk>, p: nat)
    requires Coalesced(B, {}) && p in B
    ensures Coalesced(B[p := Blk(B[p].size, true)], {})
  {
    var B' := B[p := Blk(B[p].size, true)];
    forall q | q in B' ensures !FreePair(B', {}, q) {
      assert !FreePair(B, {}, q);
    }
  }

  lemma CoalescedAfterSplit(w: seq<nat>, w': seq<nat>, brk: nat, B: map<nat, Blk>, p: nat, n: nat)
    requires Tiled(w, brk, B) && SplitTags(w, w', brk, B, p, n) && Coalesced(B, {}) && !B[p].used
    ensures Coalesced(SplitAt(B, p, n), {})
  {
    hide Tiled, FreePair, SplitAt;
    forall q | q in SplitAt(B, p, n) ensures !FreePair(SplitAt(B, p, n), {}, q) {
      assert !FreePair(B, {}, p);
      if q in B {
        assert !FreePair(B, {}, q);
        if q != p { Next2(w, brk, B, p, q); }
      }
      SplitPair(B, p, n, q);
    }
  }

  lemma SplitPair(B: map<nat, Blk>, p: nat, n: nat, q: nat)
    requires p in B && n + 8 <= B[p].size && q in SplitAt(B, p, n) && !B[p].used && !FreePair(B, {}, p)
    requires q in B ==> !FreePair(B, {}, q) && (q != p ==> !(p < Next(q, B[q]) < Next(p, B[p])))
    ensures !FreePair(SplitAt(B, p, n), {}, q)
  {
  }

  /** Only p itself is followed by a block that starts inside p. */
  lemma Next2(w: seq<nat>, brk: nat, B: map<nat, Blk>, p: nat, q: nat)
    requires Tiled(w, brk, B) && p in B && q in B && p != q
    ensures !(p < Next(q, B[q]) < Next(p, B[p]))
  {
    Apart(w, brk, B, p, q);
  }

  /** Removing the seam between a loose block and its neighbour removes a free pair. */
  lemma CoalescedAfterMerge(w: seq<nat>, w': seq<nat>, brk: nat, B: map<nat, Blk>, p: nat, used: bool, loose: set<nat>)
    requires Tiled(w, brk, B) && MergeTags(w, w', brk, B, p, used)
    requires Coalesced(B, {Next(p, B[p])}) || Coalesced(B, {p})
    ensures Coalesced(MergeAt(B, p, used), {p})
  {
    var B', z := MergeAt(B, p, used), Next(p, B[p]);
    forall q | q in B' ensures !FreePair(B', {p}, q) {
      if q != p {
        assert !FreePair(B, {z}, q) || !FreePair(B, {p}, q);
        Apart(w, brk, B, z, q);
        Apart(w, brk, B, p, q);
      }
    }
  }

  /** The block before p, if any, is in use; the block after p, if any, is in use. */
  ghost predicate PrevUsed(B: map<nat, Blk>, p: nat) {
    forall q | q in B && Next(q, B[q]) == p :: B[q].used
  }

  ghost predicate NextUsed(B: map<nat, Blk>, p: nat)
    requires p in B
  {
    Next(p, B[p]) in B ==> B[Next(p, B[p])].used
  }

  lemma CoalescedAround(B: map<nat, Blk>, p: nat)
    requires p in B && Coalesced(B, {p}) && PrevUsed(B, p) && NextUsed(B, p)
    ensures Coalesced(B, {})
  {
    forall q | q in B ensures !FreePair(B, {}, q) {
      assert !FreePair(B, {p}, q);
    }
  }

  lemma CoalescedAfterFree(B: map<nat, Blk>, p: nat)
    requires p in B && Coalesced(B, {})
    ensures Coalesced(B[p := Blk(B[p].size, false)], {p})
  {
    var B' := B[p := Blk(B[p].size, false)];
    forall q | q in B' ensures !FreePair(B', {p}, q) {
      assert !FreePair(B, {}, q);
    }
  }

  // ---------- Live payloads ----------

  /** The used blocks with their sizes: what the allocator has handed out. */
  ghost function Live(B: map<nat, Blk>): map<nat, nat> { map p | p in B && B[p].used :: B[p].size }

  /** The payloads of V hold the same words in w and w'. */
  ghost predicate Keeps(w: seq<nat>, w': seq<nat>, V: map<nat, nat>) {
    |w| == |w'| && forall p, x | p in V && p <= x < p + V[p] && x < |w| :: w'[x] == w[x]
  }

  lemma LinksKeepLive(w: seq<nat>, w': seq<nat>, B: map<nat, Blk>)
    requires SamePayloads(w, w', B)
    ensures Keeps(w, w', Live(B))
  {
  }

  /** Rewriting tags around and inside block p leaves the payloads of other used blocks alone. */
  lemma RegionKeepsLive(w: seq<nat>, w': seq<nat>, brk: nat, B: map<nat, Blk>, p: nat, hi: nat)
    requires Tiled(w, brk, B) && p in B && p >= 4 && Within(w, w', p - 4, hi)
    requires hi <= p + B[p].size || (Next(p, B[p]) in B && hi <= Next(p, B[p]) + B[Next(p, B[p])].size)
    requires Next(p, B[p]) in B && hi > p + B[p].size ==> !B[Next(p, B[p])].used
    ensures Keeps(w, w', Live(B) - {p})
  {
    var V := Live(B) - {p};
    forall q, x | q in V && q <= x < q + V[q] && x < |w| ensures w'[x] == w[x] {
      Apart(w, brk, B, p, q);
      if hi > p + B[p].size { Apart(w, brk, B, Next(p, B[p]), q); }
    }
  }

  /** Live payloads are aligned, inside the heap and pairwise disjoint. */
  lemma LivePayloadsAreDisjoint(w: seq<nat>, brk: nat, B: map<nat, Blk>, p: nat, q: nat)
    requires Tiled(w, brk, B) && p in Live(B) && q in Live(B)
    ensures p % 8 == 0 && FIRST <= p && p + Live(B)[p] + 4 <= brk
    ensures p != q ==> p + Live(B)[p] <= q || q + Live(B)[q] <= p
  {
    assert BlockOk(w, brk, p, B[p]);
    if p != q { Apart(w, brk, B, p, q); }
  }

  // ---------- Whole operations ----------

  lemma LiveWithoutFree(B: map<nat, Blk>, p: nat)
    requires p in B && !B[p].used
    ensures Live(B) - {p} == Live(B)
  {
  }

  /** Splitting an unlisted free block keeps everything but the list membership of the rest. */
  lemma SplitKeeps(w: seq<nat>, w': seq<nat>, brk: nat, B: map<nat, Blk>, R: map<nat, nat>, p: nat, n: nat)
    requires Tiled(w, brk, B) && Linked(w, B, R, {p}) && Coalesced(B, {})
    requires SplitTags(w, w', brk, B, p, n) && !B[p].used && p !in R
    ensures p + n + 8 !in B
    ensures Tiled(w', brk, SplitAt(B, p, n)) && Linked(w', SplitAt(B, p, n), R, {p + n + 8})
    ensures Coalesced(SplitAt(B, p, n), {})
    ensures Keeps(w, w', Live(B))
  {
    hide Tiled, Linked, Keeps, Coalesced, Live, BlockOk;
    BlockAway(w, brk, B, R, {p}, p);
    ListedDomain(w, B, R, {p});
    SplitBlock(w, w', brk, B, p, n, p);
    SplitTiles(w, w', brk, B, p, n);
    RegionKeepsLinks(w, w', B, SplitAt(B, p, n), R, {p}, {p + n + 8}, p - 4, p + B[p].size);
    RegionKeepsLive(w, w', brk, B, p, p + B[p].size);
    CoalescedAfterSplit(w, w', brk, B, p, n);
    LiveWithoutFree(B, p);
  }

  /** Joining p with its free successor, both unlisted. */
  lemma MergeKeeps(w: seq<nat>, w': seq<nat>, brk: nat, B: map<nat, Blk>, R: map<nat, nat>, p: nat, used: bool,
                   loose: set<nat>, loose': set<nat>)
    requires Tiled(w, brk, B) && Linked(w, B, R, loose)
    requires MergeTags(w, w', brk, B, p, used) && B[p].used == used && p !in R
    requires !B[Next(p, B[p])].used && Next(p, B[p]) !in R
    requires loose' == loose - {Next(p, B[p])} && (p in loose || used)
    ensures Tiled(w', brk, MergeAt(B, p, used)) && Linked(w', MergeAt(B, p, used), R, loose')
    ensures Keeps(w, w', Live(B) - {p})
  {
    hide Tiled, Linked, Keeps, Coalesced, Live, BlockOk;
    var z := Next(p, B[p]);
    BlockAway(w, brk, B, R, loose, p);
    BlockAway(w, brk, B, R, loose, z);
    ListedDomain(w, B, R, loose);
    MergeTiles(w, w', brk, B, p, used);
    MergeListsAway(w, w', brk, B, R, p, used);
    RegionKeepsLinks(w, w', B, MergeAt(B, p, used), R, loose, loose', p - 4, z + B[z].size);
    RegionKeepsLive(w, w', brk, B, p, z + B[z].size);
  }

  lemma MergeListsAway(w: seq<nat>, w': seq<nat>, brk: nat, B: map<nat, Blk>, R: map<nat, nat>, p: nat, used: bool)
    requires MergeTags(w, w', brk, B, p, used) && BlockOk(w, brk, p, B[p])
    requires forall q | q in R :: q in B && q != p && (q + 4 < p - 4 || p + B[p].size < q)
    requires var z := Next(p, B[p]);
      forall q | q in R :: q in B && q != z && (q + 4 < z - 4 || z + B[z].size < q)
    ensures ListsAway(B, MergeAt(B, p, used), R, p - 4, Next(p, B[p]) + B[Next(p, B[p])].size)
  {
  }

  lemma ExtendRegion(w: seq<nat>, w': seq<nat>, brk: nat, B: map<nat, Blk>, R: map<nat, nat>, n: nat)
    requires Tiled(w, brk, B) && Linked(w, B, R, {}) && ExtendTags(w, w', brk, n)
    ensures ListsAway(B, B[brk + 4 := Blk(n, true)], R, brk, brk + 4 + n)
    ensures Keeps(w, w', Live(B)) && Within(w, w', brk, brk + 4 + n)
  {
    forall q | q in B ensures q != brk + 4 && q + B[q].size + 4 <= brk && B[q].size >= 8 && 60 <= brk {
      ExtendBlock(w, w', brk, B, n, q);
      assert BlockOk(w, brk, q, B[q]);
    }
    ListedDomain(w, B, R, {});
    hide Tiled, Linked, BlockOk;
  }

  lemma CoalescedAfterExtend(B: map<nat, Blk>, p: nat, n: nat)
    requires Coalesced(B, {}) && p !in B
    ensures Coalesced(B[p := Blk(n, true)], {})
  {
    var B' := B[p := Blk(n, true)];
    forall q | q in B' ensures !FreePair(B', {}, q) {
      if q in B { assert !FreePair(B, {}, q); }
    }
  }

  /** Appending a used block at the break. */
  lemma ExtendKeeps(w: seq<nat>, w': seq<nat>, brk: nat, B: map<nat, Blk>, R: map<nat, nat>, n: nat)
    requires Tiled(w, brk, B) && Linked(w, B, R, {}) && Coalesced(B, {}) && ExtendTags(w, w', brk, n)
    ensures var B' := B[brk + 4 := Blk(n, true)];
      && brk + 4 !in B && Tiled(w', brk + n + 8, B') && Linked(w', B', R, {}) && Coalesced(B', {})
    ensures Keeps(w, w', Live(B))
  {
    hide Tiled, Linked, Coalesced, Keeps, Live, ListsAway, Within, ExtendTags;
    var B' := B[brk + 4 := Blk(n, true)];
    ExtendTiles(w, w', brk, B, n);
    ExtendRegion(w, w', brk, B, R, n);
    ListedDomain(w, B, R, {});
    RegionKeepsLinks(w, w', B, B', R, {}, {}, brk, brk + 4 + n);
    CoalescedAfterExtend(B, brk + 4, n);
  }

  // ---------- The neighbourhood of a freshly freed block ----------

  /** A free neighbour of p is not itself next to another free block. */
  ghost predicate TameNeighbours(B: map<nat, Blk>, p: nat)
    requires p in B
  {
    && (forall q | q in B && Next(q, B[q]) == p && !B[q].used :: PrevUsed(B, q))
    && (Next(p, B[p]) in B && !B[Next(p, B[p])].used ==> NextUsed(B, Next(p, B[p])))
  }

  lemma FreedIsTame(w: seq<nat>, brk: nat, B: map<nat, Blk>, p: nat)
    requires Tiled(w, brk, B) && Coalesced(B, {}) && p in B && B[p].used
    ensures TameNeighbours(B[p := Blk(B[p].size, false)], p)
  {
    var B' := B[p := Blk(B[p].size, false)];
    forall q | q in B' && Next(q, B'[q]) == p && !B'[q].used ensures PrevUsed(B', q) {
      forall y | y in B' && Next(y, B'[y]) == q ensures B'[y].used {
        assert !FreePair(B, {}, y);
      }
    }
    if Next(p, B'[p]) in B' { assert !FreePair(B, {}, Next(p, B'[p])); }
  }

  /** Marking a used block free. */
  lemma FreeKeeps(w: seq<nat>, w': seq<nat>, brk: nat, B: map<nat, Blk>, R: map<nat, nat>, p: nat)
    requires Tiled(w, brk, B) && Linked(w, B, R, {}) && Coalesced(B, {}) && p in B && B[p].used && p >= 4
    requires Within(w, w', p - 4, p + B[p].size) && BlockOk(w', brk, p, Blk(B[p].size, false))
    ensures var B' := B[p := Blk(B[p].size, false)];
      && Tiled(w', brk, B') && Linked(w', B', R, {p}) && Coalesced(B', {p}) && TameNeighbours(B', p)
    ensures p !in R && Keeps(w, w', Live(B) - {p})
  {
    hide Tiled, Linked, Keeps, Coalesced, Live, BlockOk, TameNeighbours;
    var B' := B[p := Blk(B[p].size, false)];
    ListedDomain(w, B, R, {});
    BlockAway(w, brk, B, R, {}, p);
    RetagTiles(w, w', brk, B, p, false);
    RegionKeepsLinks(w, w', B, B', R, {}, {p}, p - 4, p + B[p].size);
    RegionKeepsLive(w, w', brk, B, p, p + B[p].size);
    CoalescedAfterFree(B, p);
    FreedIsTame(w, brk, B, p);
  }

  lemma LiveAfterFree(B: map<nat, Blk>, p: nat)
    requires p in B
    ensures Live(B[p := Blk(B[p].size, false)]) == Live(B) - {p}
  {
  }

  lemma LiveAfterMerge(B: map<nat, Blk>, p: nat, used: bool)
    requires p in B && B[p].used == used && Next(p, B[p]) in B && !B[Next(p, B[p])].used
    ensures Live(MergeAt(B, p, used)) ==
      if used then Live(B)[p := B[p].size + 8 + B[Next(p, B[p])].size] else Live(B)
  {
  }

  /** Joining with the free predecessor y of the freed block. */
  lemma {:induction false} TameAfterPrev(w: seq<nat>, brk: nat, B: map<nat, Blk>, y: nat)
    requires Tiled(w, brk, B) && y in B && !B[y].used && Next(y, B[y]) in B && TameNeighbours(B, Next(y, B[y]))
    ensures PrevUsed(MergeAt(B, y, false), y)
    ensures TameNeighbours(MergeAt(B, y, false), y)
  {
    var p, B' := Next(y, B[y]), MergeAt(B, y, false);
    assert PrevUsed(B, y);
    hide Tiled;
    if Next(p, B[p]) in B && !B[Next(p, B[p])].used {
      assert NextUsed(B, Next(p, B[p]));
      var z := Next(p, B[p]);
      if Next(z, B[z]) in B { Apart(w, brk, B, z, Next(z, B[z])); }
    }
  }

  /** Joining with the free successor of the freed block. */
  lemma {:induction false} TameAfterNext(w: seq<nat>, brk: nat, B: map<nat, Blk>, p: nat)
    requires Tiled(w, brk, B) && p in B && Next(p, B[p]) in B && !B[Next(p, B[p])].used
    requires TameNeighbours(B, p) && PrevUsed(B, p)
    ensures PrevUsed(MergeAt(B, p, false), p) && NextUsed(MergeAt(B, p, false), p)
  {
    var z := Next(p, B[p]);
    assert NextUsed(B, z);
    BlockOf(w, brk, B, z);
    hide Tiled, BlockOk, TameNeighbours, HasNext;
  }

  lemma MergedBlock(B: map<nat, Blk>, p: nat, used: bool)
    requires p in B && Next(p, B[p]) in B
    ensures MergeAt(B, p, used)[p] == Blk(B[p].size + 8 + B[Next(p, B[p])].size, used)
  {
  }

  lemma {:induction false} JoinTags(w: seq<nat>, w': seq<nat>, brk: nat, B: map<nat, Blk>, p: nat, used: bool)
    requires Tiled(w, brk, B) && p in B && Next(p, B[p]) in B && p >= 4
    requires Tagged(w, w', p, MergeAt(B, p, used)[p])
    ensures MergeTags(w, w', brk, B, p, used)
    ensures forall x | p <= x < p + B[p].size && x < |w| :: w'[x] == w[x]
  {
    hide Tiled, HasNext, MergeAt, Tag;
    BlockOf(w, brk, B, p);
    BlockOf(w, brk, B, Next(p, B[p]));
    MergedBlock(B, p, used);
  }

  lemma CoalescedAroundUsed(B: map<nat, Blk>, p: nat)
    requires p in B && B[p].used && Coalesced(B, {p})
    ensures Coalesced(B, {})
  {
    forall q | q in B ensures !FreePair(B, {}, q) {
      assert !FreePair(B, {p}, q);
    }
  }

  /** The blocks cover the heap between the list heads and the break. */
  lemma {:induction false} BlocksCover(w: seq<nat>, brk: nat, B: map<nat, Blk>, p: nat, x: nat) returns (q: nat)
    requires Tiled(w, brk, B) && p in B && p - 4 <= x < brk
    ensures q in B && q - 4 <= x < q + B[q].size + 4
    decreases brk - p
  {
    assert BlockOk(w, brk, p, B[p]) && HasNext(brk, B, p);
    if x < p + B[p].size + 4 {
      q := p;
    } else {
      assert BlockOk(w, brk, Next(p, B[p]), B[Next(p, B[p])]);
      q := BlocksCover(w, brk, B, Next(p, B[p]), x);
    }
  }

  /** Every offset above the list heads lies in exactly one block. */
  lemma BlocksPartition(w: seq<nat>, brk: nat, B: map<nat, Blk>, x: nat)
    requires Tiled(w, brk, B) && 60 <= x < brk
    ensures exists p :: p in B && p - 4 <= x < p + B[p].size + 4
    ensures forall p, q | p in B && q in B && p - 4 <= x < p + B[p].size + 4 && q - 4 <= x < q + B[q].size + 4 :: p == q
  {
    var q := BlocksCover(w, brk, B, FIRST, x);
    forall p, q | p in B && q in B && p - 4 <= x < p + B[p].size + 4 && q - 4 <= x < q + B[q].size + 4
      ensures p == q
    {
      if p < q { Apart(w, brk, B, p, q); } else if q < p { Apart(w, brk, B, q, p); }
    }
  }

  lemma SplitTagged(w: seq<nat>, w1: seq<nat>, w': seq<nat>, brk: nat, B: map<nat, Blk>, p: nat, n: nat)
    requires p in B && BlockOk(w, brk, p, B[p]) && n >= 8 && n % 8 == 0 && n + 16 <= B[p].size
    requires Tagged(w, w1, p, Blk(n, true)) && Tagged(w1, w', p + n + 8, Blk(B[p].size - n - 8, false))
    ensures SplitTags(w, w', brk, B, p, n)
  {
  }

  lemma RetagTagged(w: seq<nat>, w': seq<nat>, brk: nat, B: map<nat, Blk>, p: nat, used: bool)
    requires p in B && BlockOk(w, brk, p, B[p]) && Tagged(w, w', p, Blk(B[p].size, used))
    ensures Within(w, w', p - 4, p + B[p].size) && BlockOk(w', brk, p, Blk(B[p].size, used))
  {
  }

  lemma ExtendTagged(w: seq<nat>, w': seq<nat>, brk: nat, n: nat)
    requires 60 <= brk && brk % 8 == 4 && n >= 8 && n % 8 == 0 && brk + n + 8 <= |w|
    requires Tagged(w, w', brk + 4, Blk(n, true))
    ensures ExtendTags(w, w', brk, n)
  {
  }

  /** Handing out a whole unlisted free block. */
  lemma UseKeeps(w: seq<nat>, w': seq<nat>, brk: nat, B: map<nat, Blk>, R: map<nat, nat>, p: nat)
    requires Tiled(w, brk, B) && Linked(w, B, R, {p}) && Coalesced(B, {})
    requires p in B && !B[p].used && p !in R && p >= 4 && Tagged(w, w', p, Blk(B[p].size, true))
    ensures var B' := B[p := Blk(B[p].size, true)];
      Tiled(w', brk, B') && Linked(w', B', R, {}) && Coalesced(B', {})
    ensures Keeps(w, w', Live(B))
  {
    hide Tiled, Linked, Keeps, Coalesced, Live, BlockOk, Tagged;
    BlockAway(w, brk, B, R, {p}, p);
    ListedDomain(w, B, R, {p});
    RetagTagged(w, w', brk, B, p, true);
    RetagTiles(w, w', brk, B, p, true);
    RegionKeepsLinks(w, w', B, B[p := Blk(B[p].size, true)], R, {p}, {}, p - 4, p + B[p].size);
    RegionKeepsLive(w, w', brk, B, p, p + B[p].size);
    CoalescedAfterUse(B, p);
    LiveWithoutFree(B, p);
  }

  /** Writing the tags of the block that p forms with its unlisted free successor. */
  lemma JoinKeeps(w: seq<nat>, w': seq<nat>, brk: nat, B: map<nat, Blk>, R: map<nat, nat>, p: nat, used: bool,
                  loose: set<nat>)
    requires Tiled(w, brk, B) && Linked(w, B, R, loose)
    requires p in B && p >= 4 && p !in R && B[p].used == used && (p in loose || used)
    requires Next(p, B[p]) in B && !B[Next(p, B[p])].used && Next(p, B[p]) !in R
    requires Tagged(w, w', p, Blk(B[p].size + 8 + B[Next(p, B[p])].size, used))
    ensures Tiled(w', brk, MergeAt(B, p, used)) && Linked(w', MergeAt(B, p, used), R, loose - {Next(p, B[p])})
    ensures MergeTags(w, w', brk, B, p, used)
    ensures Keeps(w, w', Live(B))
  {
    hide Tiled, Linked, Keeps, Live, MergeTags, Tagged;
    JoinTags(w, w', brk, B, p, used);
    MergeKeeps(w, w', brk, B, R, p, used, loose, loose - {Next(p, B[p])});
    KeepsInside(w, w', B, p);
  }

  lemma KeepsInside(w: seq<nat>, w': seq<nat>, B: map<nat, Blk>, p: nat)
    requires Keeps(w, w', Live(B) - {p}) && p in B
    requires forall x | p <= x < p + B[p].size && x < |w| :: w'[x] == w[x]
    ensures Keeps(w, w', Live(B))
  {
    forall q, x | q in Live(B) && q <= x < q + Live(B)[q] && x < |w| ensures w'[x] == w[x] {
      if q != p { assert q in Live(B) - {p}; }
    }
  }
}
