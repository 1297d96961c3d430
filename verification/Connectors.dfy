/** Connectors in memory.  A memory is a sequence of connector cells, a pointer
    is NULL or the index of a cell, and a connector list is the chain of cells
    that `next` links together. */
module Connectors {

  /** A connector descriptor.  Descriptors are interned, so two of them are the
      same descriptor exactly when their ordinal numbers agree. */
  datatype Desc = Desc(conNum: nat, ucNum: nat)

  /** What makes two connectors the same for sharing: type and multi mark. */
  datatype Con = Con(desc: Desc, multi: bool)

  datatype Ptr = Null | At(addr: nat)

  datatype Cell = Cell(
    con: Con,
    nearestWord: nat,
    farthestWord: nat,
    next: Ptr,
    shallow: bool,
    refcount: nat,
    traconId: nat)

  /** The chain that starts at `p` is finite and reads `s`. */
  ghost predicate Spells(mem: seq<Cell>, p: Ptr, s: seq<Con>)
    decreases |s|
  {
    if s == [] then p.Null?
    else
      && p.At?
      && p.addr < |mem|
      && mem[p.addr].con == s[0]
      && Spells(mem, mem[p.addr].next, s[1..])
  }

  /** A pointer spells at most one list. */
  lemma {:induction false} SpellsUnique(mem: seq<Cell>, p: Ptr, s: seq<Con>, t: seq<Con>)
    requires Spells(mem, p, s) && Spells(mem, p, t)
    ensures s == t
    decreases |s|
  {
    if s != [] {
      SpellsUnique(mem, mem[p.addr].next, s[1..], t[1..]);
      assert s == [s[0]] + s[1..] && t == [t[0]] + t[1..];
    }
  }

  /** The cells of `mem` keep their type and their links in `mem'`. */
  ghost predicate SameLinks(mem: seq<Cell>, mem': seq<Cell>) {
    && |mem| <= |mem'|
    && forall a: nat :: a < |mem| ==> mem'[a].con == mem[a].con && mem'[a].next == mem[a].next
  }

  lemma {:induction false} SpellsFrame(mem: seq<Cell>, mem': seq<Cell>, p: Ptr, s: seq<Con>)
    requires SameLinks(mem, mem') && Spells(mem, p, s)
    ensures Spells(mem', p, s)
    decreases |s|
  {
    if s != [] {
      SpellsFrame(mem, mem', mem[p.addr].next, s[1..]);
    }
  }
}
