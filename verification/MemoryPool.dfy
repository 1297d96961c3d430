/** The memory pool: blocks chained through a link word after their data, from
    which elements are issued in order and which are used again after a reset. */
module MemoryPool {
  import opened Bits
  import Probing

  const FLDSIZE_NEXT: nat := 8
  const MIN_ALIGNMENT: nat := 8
  const MAX_ALIGNMENT: nat := 64

  // ---------- Sizes ----------

  function Align(size: nat, a: nat): nat
    requires a > 0
  {
    (size + a - 1) / a * a
  }

  function PowerUp(size: nat, j: nat): nat
    requires j > 0
    decreases if size > j then size - j else 0
  {
    if j < size then PowerUp(size, 2 * j) else j
  }

  /** align_size(). */
  function AlignSize(size: nat): nat {
    if size < MAX_ALIGNMENT then
      var s := PowerUp(size, 1);
      if s > 0 && s != size then Align(size, s) else size
    else Align(size, MIN_ALIGNMENT)
  }

  function DataSize(numElements: nat, elementSize: nat): nat {
    Align(numElements * elementSize, FLDSIZE_NEXT)
  }

  lemma AlignFacts(size: nat, a: nat)
    requires a > 0
    ensures size <= Align(size, a) < size + a && Align(size, a) % a == 0
  {
    var q, r := (size + a - 1) / a, (size + a - 1) % a;
    assert size + a - 1 == q * a + r;
    Probing.MultipleMod(q, a);
  }

  // ---------- The pool ----------

  datatype Link = NoBlock | Block(i: nat)

  /** An address: a block and an offset in it. */
  datatype Addr = Addr(block: nat, off: nat)

  datatype Ptr = Null | At(addr: Addr)

  /** History: what was issued, `count` elements in a row. */
  datatype Piece = Piece(at: Addr, count: nat)

  /** Two ranges that have no byte in common. */
  predicate Apart(a: Addr, asize: nat, b: Addr, bsize: nat) {
    a.block != b.block || a.off + asize <= b.off || b.off + bsize <= a.off
  }

  function Zeros(n: nat): (z: seq<bv8>)
    ensures |z| == n
  {
    seq(n, _ => 0)
  }

  /** The size of `n` elements. */
  function Bytes(e: nat, n: nat): nat { e * n }

  /** Where the next piece goes after `p`: behind it, or at the start of the next
      block when the rest of the block is too small. */
  function Successor(e: nat, d: nat, p: Piece, count: nat): Addr {
    if p.at.off + Bytes(e, p.count) + Bytes(e, count) <= d then Addr(p.at.block, p.at.off + Bytes(e, p.count)) else Addr(p.at.block + 1, 0)
  }

  /** Pieces laid out one after the other, from the first block on. */
  ghost predicate InSequence(e: nat, d: nat, pieces: seq<Piece>) {
    && (pieces != [] ==> pieces[0].at == Addr(0, 0))
    && forall k: nat :: k + 1 < |pieces| ==> pieces[k + 1].at == Successor(e, d, pieces[k], pieces[k + 1].count)
  }

  class Pool {
    const elementSize: nat
    const numElements: nat
    const dataSize: nat
    const zeroOut: bool
    /** The data of the blocks, in the order in which they were allocated, and
        their link words. */
    var data: seq<seq<bv8>>
    var next: seq<Link>
    var ring: Link
    var allocNext: Ptr
    var chain: Link
    var issuedElements: nat
    var allocedElements: nat
    ghost var issued: seq<Piece>

    /** The blocks are chained in the order of allocation. */
    ghost predicate Blocks()
      reads `data, `next, `chain, `allocedElements
    {
      && |next| == |data|
      && (forall i: nat :: i < |data| ==> |data[i]| == dataSize)
      && (forall i: nat :: i < |data| ==> next[i] == if i + 1 < |data| then Block(i + 1) else NoBlock)
      && chain == (if |data| > 0 then Block(0) else NoBlock)
      && allocedElements == numElements * |data|
    }

    /** The place for the next element is in the current block. */
    ghost predicate Chained()
      reads `data, `next, `ring, `allocNext, `chain, `allocedElements
    {
      && Blocks()
      && (ring.Block? <==> |data| > 0)
      && (ring.Block? ==> ring.i < |data| && allocNext.At? && allocNext.addr.block == ring.i && allocNext.addr.off <= dataSize)
      && (ring.NoBlock? ==> allocNext.Null?)
    }

    ghost function SizeOf(p: Piece): nat
    {
      Bytes(elementSize, p.count)
    }

    /** Every piece lies in the data of a block, before the place for the next. */
    ghost predicate Behind(p: Piece)
      reads `ring, `allocNext
    {
      && ring.Block? && allocNext.At?
      && p.at.off + SizeOf(p) <= dataSize
      && (p.at.block < ring.i || (p.at.block == ring.i && p.at.off + SizeOf(p) <= allocNext.addr.off))
    }

    ghost predicate Issued()
      reads `ring, `allocNext, `issued
    {
      && (forall k: nat :: k < |issued| ==> Behind(issued[k]))
      && (forall j: nat, k: nat :: j < k < |issued| ==>
            Apart(issued[j].at, SizeOf(issued[j]), issued[k].at, SizeOf(issued[k])))
    }

    /** What has not been issued from the current block is zero. */
    ghost predicate Cleared()
      reads `data, `ring, `allocNext
    {
      zeroOut && ring.Block? && allocNext.At? && ring.i < |data| ==>
        forall o: nat :: allocNext.addr.off <= o < |data[ring.i]| ==> data[ring.i][o] == 0
    }

    /** The place for the next element is where the last piece ends. */
    ghost predicate Laid()
      reads this
    {
      && InSequence(elementSize, dataSize, issued)
      && (issued == [] && allocNext.At? ==> allocNext.addr == Addr(0, 0))
      && (issued != [] ==> var p := issued[|issued| - 1];
                           allocNext == At(Addr(p.at.block, p.at.off + Bytes(elementSize, p.count))))
    }

    ghost predicate Valid()
      reads this
    {
      && elementSize > 0
      && numElements * elementSize <= dataSize
      && Chained()
      && Issued()
      && Cleared()
      && Laid()
      && issuedElements == Total(issued)
    }

    /** pool_new(). */
    constructor (numElements: nat, elementSize: nat, zeroOut: bool, align: bool)
      requires elementSize > 0
      ensures Valid() && issued == [] && data == []
      ensures this.numElements == numElements && this.zeroOut == zeroOut
      ensures this.elementSize == if align then AlignSize(elementSize) else elementSize
      ensures this.dataSize == DataSize(numElements, this.elementSize)
      ensures !align ==> this.elementSize == elementSize
      ensures align && elementSize < 64 ==>
                PowerOfTwo(this.elementSize) && elementSize <= this.elementSize < 2 * elementSize
      ensures align && elementSize >= 64 ==>
                this.elementSize % 8 == 0 && elementSize <= this.elementSize < elementSize + 8
      ensures this.dataSize % 8 == 0
      ensures numElements * this.elementSize <= this.dataSize < numElements * this.elementSize + 8
    {
      var size := if align then AlignSize(elementSize) else elementSize;
      AlignedSize(elementSize);
      AlignFacts(numElements * size, FLDSIZE_NEXT);
      this.numElements, this.elementSize, this.zeroOut := numElements, size, zeroOut;
      this.dataSize := DataSize(numElements, size);
      data, next, ring, allocNext, chain := [], [], NoBlock, Null, NoBlock;
      issuedElements, allocedElements, issued := 0, 0, [];
    }

    /** Allocate a block and put it at the end of the chain. */
    method AddBlock(prev: Link)
      requires Blocks()
      requires if |data| > 0 then prev == Block(|data| - 1) && allocNext.At? else prev.NoBlock? && allocNext.Null?
      modifies `data, `next, `ring, `chain, `allocedElements
      ensures Blocks() && ring == Block(|old(data)|)
      ensures |data| == |old(data)| + 1 && data[..|old(data)|] == old(data)
    {
      data, next := data + [Zeros(dataSize)], next + [NoBlock];
      ring := Block(|data| - 1);
      allocedElements := allocedElements + numElements;
      if allocNext.Null? {
        chain := ring;
      } else {
        next := next[prev.i := ring];
      }
    }

    /** Get a current block with all its data free: the next in the chain, and
        only at the end of the chain a new one. */
    method NextBlock()
      requires Chained()
      modifies `data, `next, `ring, `allocNext, `chain, `allocedElements
      ensures Chained() && Cleared()
      ensures ring.Block? && allocNext == At(Addr(ring.i, 0))
      ensures ring.i == if old(ring).Block? then old(ring).i + 1 else 0
      ensures |data| == if ring.i < |old(data)| then |old(data)| else |old(data)| + 1
      ensures forall i: nat :: i < ring.i ==> SameBlock(old(data), data, i)
    {
      var prev := ring;
      if ring.Block? { ring := next[ring.i]; }
      if ring.NoBlock? { AddBlock(prev); }
      if zeroOut { data := data[ring.i := Zeros(dataSize)]; }
      allocNext := At(Addr(ring.i, 0));
    }

    /** The current place has room for `vecsize` elements, and it is the right
        place for them. */
    ghost predicate Room(vecsize: nat)
      reads `data, `next, `ring, `allocNext, `chain, `allocedElements, `issued
    {
      && Chained()
      && Issued()
      && Cleared()
      && InSequence(elementSize, dataSize, issued)
      && allocNext.At?
      && allocNext.addr.off + Bytes(elementSize, vecsize) <= dataSize
      && allocNext.addr == if issued == [] then Addr(0, 0)
                           else Successor(elementSize, dataSize, issued[|issued| - 1], vecsize)
    }

    method MakeRoom(vecsize: nat)
      requires Valid() && vecsize < numElements
      modifies `data, `next, `ring, `allocNext, `chain, `allocedElements
      ensures Room(vecsize) && allocNext.At?
      ensures forall k: nat :: k < |issued| ==> SameBlock(old(data), data, issued[k].at.block)
      ensures |data| > |old(data)| ==> old(ring) == if old(data) == [] then NoBlock else Block(|old(data)| - 1)
    {
      hide InSequence;
      VectorFits(elementSize, vecsize, numElements);
      if allocNext.Null? || allocNext.addr.off + Bytes(elementSize, vecsize) > dataSize {
        NextBlock();
      }
    }

    /** pool_alloc_vec(): `vecsize` elements in a row, apart from all that have
        been issued, whose bytes stay as they are.  Fails for a vector as large
        as a block.  A block is allocated only when the current one is the last. */
    method AllocVec(vecsize: nat) returns (p: Ptr)
      requires Valid()
      modifies `data, `next, `ring, `allocNext, `chain, `allocedElements, `issuedElements, `issued
      ensures Valid()
      ensures p.Null? <==> vecsize >= numElements
      ensures p.Null? ==> issued == old(issued) && data == old(data)
      ensures p.At? ==> issued == old(issued) + [Piece(p.addr, vecsize)]
      ensures p.At? && zeroOut ==> AllZero(data, p.addr, Bytes(elementSize, vecsize))
      ensures forall k: nat :: k < |old(issued)| ==> SameBlock(old(data), data, old(issued)[k].at.block)
      ensures |data| > |old(data)| ==> old(ring) == if old(data) == [] then NoBlock else Block(|old(data)| - 1)
    {
      hide Room, Issued, Cleared, Chained, Laid, AllZero, Bytes;
      if vecsize >= numElements { return Null; }
      MakeRoom(vecsize);
      issuedElements := issuedElements + vecsize;
      p := allocNext;
      if zeroOut { RoomIsZero(vecsize); }
      Grab(vecsize);
    }

    /** No byte is issued twice. */
    lemma NoCommonByte(j: nat, k: nat, x: nat, y: nat)
      requires Valid() && j < k < |issued|
      requires x < elementSize * issued[j].count && y < elementSize * issued[k].count
      ensures issued[j].at.block != issued[k].at.block || issued[j].at.off + x != issued[k].at.off + y
    {
      hide InSequence;
      assert Apart(issued[j].at, SizeOf(issued[j]), issued[k].at, SizeOf(issued[k]));
    }

    lemma RoomIsZero(vecsize: nat)
      requires Room(vecsize) && zeroOut
      ensures AllZero(data, allocNext.addr, Bytes(elementSize, vecsize))
    {
    }

    /** Take the elements at the current place. */
    method Grab(vecsize: nat)
      requires Room(vecsize) && elementSize > 0 && numElements * elementSize <= dataSize
      requires issuedElements == Total(issued) + vecsize
      modifies `allocNext, `issued
      ensures Valid() && issued == old(issued) + [Piece(old(allocNext).addr, vecsize)]
    {
      hide InSequence, Successor, Blocks, Bytes;
      var at := allocNext.addr;
      SequenceNext(elementSize, dataSize, issued, Piece(at, vecsize));
      allocNext := At(Addr(at.block, at.off + Bytes(elementSize, vecsize)));
      issued := issued + [Piece(at, vecsize)];
      assert issued[..|issued| - 1] == old(issued);
    }

    /** Overwrite a byte of an issued piece, as its user may. */
    method Write(a: Addr, v: bv8, ghost k: nat)
      requires Valid() && k < |issued| && a.block == issued[k].at.block
      requires issued[k].at.off <= a.off < issued[k].at.off + Bytes(elementSize, issued[k].count)
      modifies `data
      ensures Valid()
      ensures a.block < |old(data)| && a.off < |old(data)[a.block]|
      ensures data == old(data)[a.block := old(data)[a.block][a.off := v]]
    {
      assert Behind(issued[k]);
      data := data[a.block := data[a.block][a.off := v]];
    }

    /** The `n`th step of a traversal has been made. */
    ghost predicate LocatedAt(l: Location)
      reads this
    {
      && l.elementNumber <= |issued|
      && (l.elementNumber > 0 ==> var a := issued[l.elementNumber - 1].at;
                                  l.current == At(a) && l.blockEnd == Addr(a.block, dataSize))
    }

    /** pool_next(): the elements in the order of issue, then NULL. */
    method PoolNext(l: Location) returns (l': Location, p: Ptr)
      requires Valid() && LocatedAt(l) && Units(issued)
      requires issued != [] ==> Probing.Divides(elementSize, dataSize) || issued[|issued| - 1].at.block == 0
      ensures LocatedAt(l')
      ensures p == if l.elementNumber < |issued| then At(issued[l.elementNumber].at) else Null
      ensures l'.elementNumber == if l.elementNumber < |issued| then l.elementNumber + 1 else l.elementNumber
    {
      UnitTotal(issued);
      if l.elementNumber == issuedElements { return l, Null; }
      assert Behind(issued[l.elementNumber]);
      if l.elementNumber == 0 {
        p := At(Addr(chain.i, 0));
        return Location(p, Addr(chain.i, dataSize), 1), p;
      }
      assert Behind(issued[l.elementNumber - 1]);
      StepIsSuccessor(elementSize, dataSize, issued, l.elementNumber - 1);
      var current := Addr(l.current.addr.block, l.current.addr.off + elementSize);
      var blockEnd := l.blockEnd;
      if current == blockEnd {
        current := Addr(next[blockEnd.block].i, 0);
        blockEnd := Addr(current.block, dataSize);
      }
      p := At(current);
      l' := Location(p, blockEnd, l.elementNumber + 1);
    }

    /** pool_reuse(): start again with the first block; the blocks stay. */
    method Reuse()
      requires Valid()
      modifies `data, `ring, `allocNext, `issuedElements, `issued
      ensures Valid() && issued == [] && |data| == |old(data)|
    {
      ring := chain;
      allocNext := if ring.Block? then At(Addr(ring.i, 0)) else Null;
      if ring.Block? && zeroOut { data := data[ring.i := Zeros(dataSize)]; }
      issuedElements := 0;
      issued := [];
    }
  }

  // ---------- Traversal ----------

  /** Where a traversal is: at the `elementNumber`th element. */
  datatype Location = Location(current: Ptr, blockEnd: Addr, elementNumber: nat)

  ghost predicate Units(pieces: seq<Piece>) {
    forall k: nat :: k < |pieces| ==> pieces[k].count == 1
  }

  /** How a traversal moves: by one element, and at the end of the data to the
      next block. */
  function Step(e: nat, d: nat, a: Addr): Addr {
    if a.off + e == d then Addr(a.block + 1, 0) else Addr(a.block, a.off + e)
  }

  lemma {:induction false} UnitTotal(pieces: seq<Piece>)
    requires Units(pieces)
    ensures Total(pieces) == |pieces|
  {
    if pieces != [] { UnitTotal(pieces[..|pieces| - 1]); }
  }

  /** Single elements lie at multiples of the element size. */
  lemma {:induction false} UnitOffset(e: nat, d: nat, pieces: seq<Piece>, k: nat) returns (q: nat)
    requires InSequence(e, d, pieces) && Units(pieces) && k < |pieces|
    ensures pieces[k].at.off == q * e
  {
    q := 0;
    if k > 0 {
      var r := UnitOffset(e, d, pieces, k - 1);
      assert pieces[k - 1 + 1].at == Successor(e, d, pieces[k - 1], pieces[k].count);
      if pieces[k].at.block == pieces[k - 1].at.block {
        q := r + 1;
        assert q * e == r * e + e;
      }
    }
  }

  lemma {:induction false} BlocksRise(e: nat, d: nat, pieces: seq<Piece>, j: nat, k: nat)
    requires InSequence(e, d, pieces) && j <= k < |pieces|
    ensures pieces[j].at.block <= pieces[k].at.block
    decreases k
  {
    if j < k {
      BlocksRise(e, d, pieces, j, k - 1);
      assert pieces[k - 1 + 1].at == Successor(e, d, pieces[k - 1], pieces[k].count);
    }
  }

  /** With whole elements in the data, a step of the traversal is the order of
      issue. */
  lemma StepIsSuccessor(e: nat, d: nat, pieces: seq<Piece>, k: nat)
    requires e > 0 && InSequence(e, d, pieces) && Units(pieces) && k + 1 < |pieces|
    requires pieces[k].at.off + e <= d
    requires Probing.Divides(e, d) || pieces[|pieces| - 1].at.block == 0
    ensures Step(e, d, pieces[k].at) == pieces[k + 1].at
  {
    var p := pieces[k].at;
    assert pieces[k + 1].at == Successor(e, d, pieces[k], pieces[k + 1].count);
    if p.off + e < d && p.off + e + e > d {
      BlocksRise(e, d, pieces, k + 1, |pieces| - 1);
      var q := UnitOffset(e, d, pieces, k);
      var m := d / e;
      assert d == m * e;
      NotBetween(e, q, m);
      assert false;
    }
  }

  lemma NotBetween(e: nat, q: nat, m: nat)
    requires e > 0
    ensures !(q * e + e < m * e < q * e + e + e)
  {
    if m >= q + 2 { Probing.MulMono(q + 2, m, e); } else { Probing.MulMono(m, q + 1, e); }
  }

  ghost predicate StepsFollow(e: nat, d: nat, pieces: seq<Piece>) {
    forall k: nat :: k + 1 < |pieces| ==> Step(e, d, pieces[k].at) == pieces[k + 1].at
  }

  ghost predicate Fitting(e: nat, d: nat, pieces: seq<Piece>) {
    forall k: nat :: k < |pieces| ==> pieces[k].at.off + e <= d
  }

  /** For single elements, the traversal meets what was issued, in that order,
      exactly when there is no padding at the end of the data or all is in the
      first block. */
  lemma TraversalExactly(e: nat, d: nat, pieces: seq<Piece>)
    requires e > 0 && InSequence(e, d, pieces) && Units(pieces) && Fitting(e, d, pieces) && pieces != []
    ensures StepsFollow(e, d, pieces) <==> Probing.Divides(e, d) || pieces[|pieces| - 1].at.block == 0
  {
    if Probing.Divides(e, d) || pieces[|pieces| - 1].at.block == 0 {
      forall k: nat | k + 1 < |pieces|
        ensures Step(e, d, pieces[k].at) == pieces[k + 1].at
      {
        StepIsSuccessor(e, d, pieces, k);
      }
    } else if StepsFollow(e, d, pieces) {
      var k := LeavesFirst(e, d, pieces, |pieces| - 1);
      assert Step(e, d, pieces[k].at) == pieces[k + 1].at;
      var q := UnitOffset(e, d, pieces, k);
      assert d == (q + 1) * e;
      Probing.MultipleMod(q + 1, e);
      assert false;
    }
  }

  /** Three elements of 12 bytes to a block, not aligned: after the third the
      traversal steps into the padding, while the fourth element is at the start
      of the second block. */
  lemma PaddedExample()
    ensures var d := DataSize(3, 12);
            var pieces := [Piece(Addr(0, 0), 1), Piece(Addr(0, 12), 1), Piece(Addr(0, 24), 1), Piece(Addr(1, 0), 1)];
            && InSequence(12, d, pieces) && Units(pieces) && Fitting(12, d, pieces)
            && !StepsFollow(12, d, pieces)
            && Step(12, d, pieces[2].at) == Addr(0, 36)
  {
    var d := DataSize(3, 12);
    var pieces := [Piece(Addr(0, 0), 1), Piece(Addr(0, 12), 1), Piece(Addr(0, 24), 1), Piece(Addr(1, 0), 1)];
    assert d == 40;
    TraversalExactly(12, d, pieces);
  }

  /** Where the sequence leaves the first block. */
  lemma {:induction false} LeavesFirst(e: nat, d: nat, pieces: seq<Piece>, n: nat) returns (k: nat)
    requires InSequence(e, d, pieces) && n < |pieces| && pieces[n].at.block > 0
    ensures k + 1 < |pieces| && pieces[k].at.block != pieces[k + 1].at.block
  {
    if pieces[n - 1].at.block == 0 {
      k := n - 1;
    } else {
      k := LeavesFirst(e, d, pieces, n - 1);
    }
  }

  lemma PowerUpCases(size: nat)
    requires 0 < size < MAX_ALIGNMENT
    ensures var s := PowerUp(size, 1);
            size <= s < 2 * size && (s == 1 || s == 2 || s == 4 || s == 8 || s == 16 || s == 32 || s == 64)
  {
    assert PowerUp(size, 64) == 64;
    assert PowerUp(size, 32) == if 32 < size then 64 else 32;
    assert PowerUp(size, 16) == if 16 < size then PowerUp(size, 32) else 16;
    assert PowerUp(size, 8) == if 8 < size then PowerUp(size, 16) else 8;
    assert PowerUp(size, 4) == if 4 < size then PowerUp(size, 8) else 4;
    assert PowerUp(size, 2) == if 2 < size then PowerUp(size, 4) else 2;
  }

  lemma AlignUpOnce(size: nat, a: nat)
    requires 0 < size <= a
    ensures Align(size, a) == a
  {
    Probing.ModUnique(size + a - 1, 1, size - 1, a);
  }

  lemma AlignWhole(q: nat, a: nat)
    requires a > 0
    ensures Align(q * a, a) == q * a
  {
    Probing.ModUnique(q * a + a - 1, q, a - 1, a);
  }

  /** Pools that align their elements have no padding. */
  lemma AlignedNoPadding(numElements: nat, size: nat)
    requires size > 0
    ensures AlignSize(size) > 0 && Probing.Divides(AlignSize(size), DataSize(numElements, AlignSize(size)))
  {
    hide AlignSize, DataSize;
    AlignSizeCases(size);
    var e := AlignSize(size);
    if e % 8 == 0 {
      WholeWords(numElements, e, e / 8);
    } else {
      PartWords(numElements, e);
    }
  }

  lemma AlignSizeCases(size: nat)
    requires size > 0
    ensures var e := AlignSize(size); e > 0 && (e == 1 || e == 2 || e == 4 || e % 8 == 0)
  {
    if size < MAX_ALIGNMENT {
      PowerUpCases(size);
      AlignUpOnce(size, PowerUp(size, 1));
    } else {
      AlignFacts(size, MIN_ALIGNMENT);
    }
  }

  lemma PartWords(n: nat, e: nat)
    requires e == 1 || e == 2 || e == 4
    ensures Probing.Divides(e, DataSize(n, e))
  {
    AlignFacts(n * e, FLDSIZE_NEXT);
    var d := DataSize(n, e);
    assert d % 8 == 0;
  }

  lemma WholeWords(n: nat, e: nat, w: nat)
    requires e == w * 8 && e > 0
    ensures Probing.Divides(e, DataSize(n, e))
  {
    assert n * e == (n * w) * 8;
    AlignWhole(n * w, FLDSIZE_NEXT);
    Probing.MultipleMod(n, e);
  }

  lemma VectorFits(e: nat, n: nat, m: nat)
    requires n <= m
    ensures Bytes(e, n) <= m * e
  {
    assert m * e - e * n == (m - n) * e;
  }

  ghost predicate SameBlock(a: seq<seq<bv8>>, b: seq<seq<bv8>>, i: nat) {
    i < |a| ==> i < |b| && b[i] == a[i]
  }

  lemma SequenceNext(e: nat, d: nat, pieces: seq<Piece>, p: Piece)
    requires InSequence(e, d, pieces)
    requires p.at == if pieces == [] then Addr(0, 0) else Successor(e, d, pieces[|pieces| - 1], p.count)
    ensures InSequence(e, d, pieces + [p])
  {
    var all := pieces + [p];
    forall k: nat | k + 1 < |all|
      ensures all[k + 1].at == Successor(e, d, all[k], all[k + 1].count)
    {
      if k + 1 < |pieces| { assert all[k + 1] == pieces[k + 1] && all[k] == pieces[k]; }
    }
  }

  ghost predicate AllZero(data: seq<seq<bv8>>, a: Addr, size: nat) {
    a.block < |data| && a.off + size <= |data[a.block]|
    && forall o: nat :: a.off <= o < a.off + size ==> data[a.block][o] == 0
  }

  function Total(pieces: seq<Piece>): nat {
    if pieces == [] then 0 else Total(pieces[..|pieces| - 1]) + pieces[|pieces| - 1].count
  }

  lemma PowersOfTwo()
    ensures PowerOfTwo(1) && PowerOfTwo(2) && PowerOfTwo(4) && PowerOfTwo(8) && PowerOfTwo(16) && PowerOfTwo(32)
    ensures PowerOfTwo(64)
  {
    assert Pow2(0) == 1;
    assert Pow2(1) == 2;
    assert Pow2(2) == 4;
    assert Pow2(3) == 8;
    assert Pow2(4) == 16;
    assert Pow2(5) == 32;
    assert Pow2(6) == 64;
  }

  /** A small aligned size is the least power of two, a large one the next
      multiple of eight. */
  lemma AlignedSize(size: nat)
    requires size > 0
    ensures size < 64 ==> PowerOfTwo(AlignSize(size)) && size <= AlignSize(size) < 2 * size
    ensures size >= 64 ==> AlignSize(size) % 8 == 0 && size <= AlignSize(size) < size + 8
  {
    if size < 64 {
      hide PowerOfTwo;
      PowerUpCases(size);
      AlignUpOnce(size, PowerUp(size, 1));
      PowersOfTwo();
    } else {
      AlignFacts(size, MIN_ALIGNMENT);
    }
  }
}
