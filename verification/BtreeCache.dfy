/**
 The B-tree blocks that a tree's operations read and change, by device address. Every change
 is to a block that is dirty and not in writeback; new blocks come from the log store. Each
 operation is specified by what it does to the contents of the addresses.
 */
module BtreeCache {
  import opened BtreeFormat
  import opened BtreePacking
  import opened BtreeBlock
  import opened BtreeShape
  import opened LogLayout
  import opened LogStore
  import opened Wrappers

  /** What is stored where, the log it is allocated from, what may be changed, and what was read. */
  datatype Stored = Stored(view: map<Addr, Node>, sizes: map<Addr, nat>, log: Log, mod: set<Addr>, visited: set<Addr>)

  /** Block a holds items from now on. */
  function PutItems(s: Stored, a: Addr, items: seq<Item>): Stored
    requires a in s.view
  {
    s.(view := s.view[a := Node(s.view[a].level, items)])
  }

  /** From s to s' the log allotted address c to a dirty B-tree block. */
  ghost predicate Allots(s: Stored, s': Stored, c: Addr) {
    && s.log.dirty.Some?
    && s'.log == AllocBtree(s.log, 1) && s'.log.next > s.log.next
    && c !in s.view && c >= s.log.next
    && s'.visited == s.visited
    && c in s'.mod
    && forall a {:trigger a in s'.mod} {:trigger a in s.mod} :: (a in s.mod ==> a in s'.mod) && (a in s'.mod ==> a in s.mod || a >= s.log.next)
  }

  /** ... and the block there holds n. */
  ghost predicate Grows(s: Stored, s': Stored, c: Addr, n: Node, valSize: nat) {
    Allots(s, s', c) && s'.view == s.view[c := n] && s'.sizes == s.sizes[c := valSize]
  }

  /** No two blocks share storage. */
  ghost predicate Separate(blocks: map<Addr, Block>, a: Addr, b: Addr) {
    a in blocks && b in blocks && a != b ==> BtreeBlock.Apart(blocks[a], blocks[b])
  }

  ghost predicate AllSeparate(blocks: map<Addr, Block>) {
    forall a, b {:trigger Separate(blocks, a, b)} :: Separate(blocks, a, b)
  }

  /** The block at a is stored in the given objects. */
  ghost predicate Within(blocks: map<Addr, Block>, storage: set<object>, a: Addr) {
    a in blocks ==> blocks[a] in storage && blocks[a].offsets in storage && blocks[a].cells in storage
  }

  lemma StillSeparate(blocks: map<Addr, Block>, storage: set<object>, c: Addr, bt: Block)
    requires AllSeparate(blocks) && bt !in storage && bt.offsets !in storage && bt.cells !in storage
    requires forall a {:trigger Within(blocks, storage, a)} :: Within(blocks, storage, a)
    ensures AllSeparate(blocks[c := bt])
  {
    var blocks' := blocks[c := bt];
    forall a, b ensures Separate(blocks', a, b) {
      assert Separate(blocks, a, b) && Within(blocks, storage, a) && Within(blocks, storage, b);
    }
  }

  class Cache {
    const log: LogStore
    var blocks: map<Addr, Block>
    ghost var st: Stored
    /** Everything the cache's state is made of. */
    ghost var repr: set<object>

    /** The blocks and their arrays. */
    ghost function Storage(): set<object>
      reads this
    {
      repr - {this, log, log.blk}
    }

    /** The block at a is well formed, is what the state says, and is stored within the footprint. */
    ghost predicate OkAt(a: Addr)
      reads this, repr
    {
      a in blocks ==>
        && Within(blocks, repr, a)
        && blocks[a].Valid()
        && a in st.view && st.view[a] == Node(blocks[a].level, blocks[a].items)
        && a in st.sizes && st.sizes[a] == blocks[a].valSize
    }

    ghost predicate Valid()
      reads this, repr
    {
      {this, log, log.blk} <= repr &&
      forall u {:trigger Look(u)} :: Look(u) ==> Consistent()
    }

    ghost predicate Consistent()
      requires {this, log, log.blk} <= repr
      reads this, repr
    {
      && log.Valid()
      && st.log == log.State() && st.mod == log.blk.Modifiable()
      && BlocksOk()
    }

    constructor (log: LogStore)
      requires log.Valid()
      ensures Valid() && this.log == log && repr == {this, log, log.blk}
      ensures st == Stored(map[], map[], log.State(), log.blk.Modifiable(), {})
    {
      this.log := log;
      blocks := map[];
      repr := {this, log, log.blk};
      st := Stored(map[], map[], log.State(), log.blk.Modifiable(), {});
    }

    /** Everything that is known of the blocks themselves. */
    ghost predicate BlocksOk()
      requires {this, log, log.blk} <= repr
      reads this, repr
    {
      && st.view.Keys == st.sizes.Keys == blocks.Keys
      && (forall a {:trigger a in st.view} :: a in st.view ==> a < st.log.next)
      && (forall a {:trigger OkAt(a)} :: OkAt(a))
      && AllSeparate(blocks)
    }

    /** The log store changes on its own account: no block does. */
    twostate lemma LogAlone()
      requires old(Valid()) && unchanged(this)
      requires forall o {:trigger o in repr} :: o in repr && o != log && o != log.blk ==> unchanged(o)
      ensures {this, log, log.blk} <= repr && BlocksOk()
    {
      assert Look(0);
      forall a ensures OkAt(a) {
        assert old(OkAt(a));
      }
    }

    /** Takes note of what the log store did on its own account. */
    ghost method Sync()
      requires {this, log, log.blk} <= repr
      requires log.Valid() && st.log.next <= log.nextDevAddr && BlocksOk()
      modifies this`st
      ensures Valid() && st == old(st).(log := log.State(), mod := log.blk.Modifiable())
    {
      st := st.(log := log.State(), mod := log.blk.Modifiable());
      forall a ensures OkAt(a) {
        assert old(OkAt(a));
      }
    }

    // ---------------------------------------------------------------- New blocks

    /** The next address for a B-tree block, dirty, and not used by any block so far. */
    method AllocAddress() returns (c: Addr)
      requires Valid() && st.log.dirty.Some?
      modifies this`st, log, log.blk
      ensures Valid() && c !in blocks && c < st.log.next
      ensures Allots(old(st), st, c)
      ensures st.view == old(st).view && st.sizes == old(st).sizes
    {
      assert Look(0);
      c := log.AllocDirty(LogLayout.BTREE);
      assert AllocBtree(old(st).log, 0) == old(st).log;
      st := st.(log := log.State(), mod := log.blk.Modifiable());
      forall a ensures OkAt(a) {
        assert old(OkAt(a));
      }
    }

    /** A new block object is stored at a fresh address. */
    method Adopt(c: Addr, bt: Block)
      requires Valid() && c !in blocks && c < st.log.next
      requires bt.Valid() && bt !in repr && bt.offsets !in repr && bt.cells !in repr
      modifies this`blocks, this`repr, this`st
      ensures Valid() && repr == old(repr) + {bt, bt.offsets, bt.cells}
      ensures st == old(st).(view := old(st).view[c := Node(bt.level, bt.items)], sizes := old(st).sizes[c := bt.valSize])
    {
      assert Look(0);
      forall a ensures Within(blocks, repr, a) {
        assert OkAt(a);
      }
      StillSeparate(blocks, repr, c, bt);
      blocks := blocks[c := bt];
      st := st.(view := st.view[c := Node(bt.level, bt.items)], sizes := st.sizes[c := bt.valSize]);
      repr := repr + {bt, bt.offsets, bt.cells};
      forall a ensures OkAt(a) {
        assert old(OkAt(a));
      }
    }

    /** A new dirty block, empty. */
    method AllocFresh(level: nat, valSize: nat) returns (c: Addr)
      requires Valid() && st.log.dirty.Some? && valSize <= MAX_VAL_SIZE
      modifies this, log, log.blk
      ensures Valid() && fresh(repr - old(repr))
      ensures Grows(old(st), st, c, Node(level, []), valSize)
    {
      assert Look(0);
      c := AllocAddress();
      var bt := new Block.Fresh(level, valSize);
      Adopt(c, bt);
    }

    /** A new dirty block with the contents of an existing one. */
    method AllocCopy(a: Addr) returns (c: Addr)
      requires Valid() && st.log.dirty.Some? && a in st.view
      modifies this, log, log.blk
      ensures Valid() && fresh(repr - old(repr))
      ensures a in old(st).sizes && Grows(old(st), st, c, old(st).view[a], old(st).sizes[a])
    {
      assert Look(0);
      c := AllocAddress();
      assert OkAt(a);
      var bt := new Block.Copy(blocks[a]);
      Adopt(c, bt);
    }

    // ---------------------------------------------------------------- Reading

    lemma Below()
      requires Valid()
      ensures st.view.Keys == st.sizes.Keys
      ensures forall a {:trigger a in st.view} :: a in st.view ==> a < st.log.next
    {
      assert Look(0);
    }

    /** Reads the block a reference leads to. */
    method Read(a: Addr)
      requires Valid() && a in st.view
      modifies this`st
      ensures Valid() && st == old(st).(visited := old(st).visited + {a})
    {
      assert Look(0);
      st := st.(visited := st.visited + {a});
      forall b ensures OkAt(b) {
        assert old(OkAt(b));
      }
    }

    method CanModify(a: Addr) returns (can: bool)
      requires Valid()
      ensures can <==> a in st.mod
    {
      assert Look(0);
      can := log.blk.CanModify(a);
    }

    /** Searches a block for a key. */
    method FindKey(a: Addr, key: Key) returns (ind: nat, cmp: int)
      requires Valid() && a in st.view && Sorted(st.view[a].items)
      ensures ind == LowerBound(st.view[a].items, key) && (cmp == 0 <==> HasKey(st.view[a].items, key))
    {
      assert Look(0);
      assert OkAt(a);
      ind, cmp := blocks[a].FindKeyInd(key, blocks[a].items);
    }

    method Header(a: Addr) returns (level: nat, valSize: nat, nr: nat)
      requires Valid() && a in st.view
      ensures a in st.sizes && (level, valSize, nr) == (st.view[a].level, st.sizes[a], |st.view[a].items|)
    {
      assert Look(0);
      assert OkAt(a);
      level, valSize, nr := blocks[a].level, blocks[a].valSize, blocks[a].nr;
    }

    method GetItem(a: Addr, ind: nat) returns (item: Item)
      requires Valid() && a in st.view && ind < |st.view[a].items|
      ensures item == st.view[a].items[ind]
    {
      assert Look(0);
      assert OkAt(a);
      item := blocks[a].IndItem(ind);
    }

    // ---------------------------------------------------------------- Changing blocks

    /** Inserts an item in a modifiable block. */
    method InsertItem(a: Addr, ind: nat, item: Item)
      requires Valid() && a in st.view && a in st.mod && a in st.sizes
      requires var l := LayoutOf(BlockValSize(st.view[a].level, st.sizes[a]));
        ind <= |st.view[a].items| < l.max && item.val.Size() == l.vs
      modifies this`st, Storage()
      ensures Valid() && st == PutItems(old(st), a, InsertAt(old(st).view[a].items, ind, item))
    {
      assert Look(0);
      assert OkAt(a);
      blocks[a].InsertItem(ind, item);
      st := PutItems(st, a, blocks[a].items);
      forall b ensures OkAt(b) {
        assert old(OkAt(b)) && Separate(blocks, a, b);
      }
    }

    method DeleteItem(a: Addr, ind: nat)
      requires Valid() && a in st.view && a in st.mod
      requires ind < |st.view[a].items| && Sorted(RemoveAt(st.view[a].items, ind))
      modifies this`st, Storage()
      ensures Valid() && st == PutItems(old(st), a, RemoveAt(old(st).view[a].items, ind))
    {
      assert Look(0);
      assert OkAt(a);
      blocks[a].DeleteItem(ind);
      st := PutItems(st, a, blocks[a].items);
      forall b ensures OkAt(b) {
        assert old(OkAt(b)) && Separate(blocks, a, b);
      }
    }

    method UpdateItem(a: Addr, ind: nat, item: Item)
      requires Valid() && a in st.view && a in st.mod && a in st.sizes && ind < |st.view[a].items|
      requires item.val.Size() == BlockValSize(st.view[a].level, st.sizes[a])
      modifies this`st, Storage()
      ensures Valid() && st == PutItems(old(st), a, old(st).view[a].items[ind := item])
    {
      assert Look(0);
      assert OkAt(a);
      blocks[a].UpdateItem(ind, item);
      st := PutItems(st, a, blocks[a].items);
      forall b ensures OkAt(b) {
        assert old(OkAt(b)) && Separate(blocks, a, b);
      }
    }

    /** Moves n items of src from srcInd on to dst at dstInd, one insertion and one deletion at a time. */
    method MoveItems(dst: Addr, dstInd: nat, src: Addr, srcInd: nat, n: nat)
      requires Valid() && dst in st.view && src in st.view && dst != src && dst in st.mod && src in st.mod
      requires dst in st.sizes && src in st.sizes
      requires st.view[dst].level == st.view[src].level && st.sizes[dst] == st.sizes[src]
      requires dstInd <= |st.view[dst].items| && srcInd + n <= |st.view[src].items|
      requires var l := LayoutOf(BlockValSize(st.view[dst].level, st.sizes[dst]));
        && |st.view[dst].items| + n <= l.max
        && forall i :: 0 <= i < |st.view[src].items| ==> st.view[src].items[i].val.Size() == l.vs
      requires Sorted(st.view[src].items)
      modifies this`st, Storage()
      ensures Valid() && st == Moved(old(st), dst, dstInd, src, srcInd, n)
    {
      ghost var s := st.view[src].items;
      MovedNone(st, dst, dstInd, src, srcInd);
      for k := 0 to n
        invariant Valid() && st == Moved(old(st), dst, dstInd, src, srcInd, k)
      {
        MovedOne(old(st), dst, dstInd, src, srcInd, k);
        RemoveKeepsSorted(s, srcInd, k + 1);
        var item := GetItem(src, srcInd);
        InsertItem(dst, dstInd + k, item);
        DeleteItem(src, srcInd);
      }
    }
  }

  /** The first n items of src from srcInd on are in dst, from dstInd on. */
  ghost function Moved(s: Stored, dst: Addr, dstInd: nat, src: Addr, srcInd: nat, n: nat): Stored
    requires dst in s.view && src in s.view && dst != src
    requires dstInd <= |s.view[dst].items| && srcInd + n <= |s.view[src].items|
  {
    PutItems(PutItems(s, dst, InsertRange(s.view[dst].items, dstInd, s.view[src].items[srcInd..srcInd + n])),
      src, RemoveRange(s.view[src].items, srcInd, n))
  }

  lemma MovedNone(s: Stored, dst: Addr, dstInd: nat, src: Addr, srcInd: nat)
    requires dst in s.view && src in s.view && dst != src
    requires dstInd <= |s.view[dst].items| && srcInd <= |s.view[src].items|
    ensures Moved(s, dst, dstInd, src, srcInd, 0) == s
  {
    var d, i := s.view[dst].items, s.view[src].items;
    assert d == InsertRange(d, dstInd, i[srcInd..srcInd]) && i == RemoveRange(i, srcInd, 0);
    assert Moved(s, dst, dstInd, src, srcInd, 0).view == s.view;
  }

  lemma MovedOne(s: Stored, dst: Addr, dstInd: nat, src: Addr, srcInd: nat, k: nat)
    requires dst in s.view && src in s.view && dst != src
    requires dstInd <= |s.view[dst].items| && srcInd + k < |s.view[src].items|
    ensures var m := Moved(s, dst, dstInd, src, srcInd, k);
      && m.view[src].items[srcInd] == s.view[src].items[srcInd + k]
      && |m.view[dst].items| == |s.view[dst].items| + k
      && RemoveAt(m.view[src].items, srcInd) == RemoveRange(s.view[src].items, srcInd, k + 1)
      && PutItems(PutItems(m, dst, InsertAt(m.view[dst].items, dstInd + k, m.view[src].items[srcInd])),
          src, RemoveAt(m.view[src].items, srcInd))
        == Moved(s, dst, dstInd, src, srcInd, k + 1)
  {
    MoveOne(s.view[dst].items, dstInd, s.view[src].items, srcInd, k);
  }
}
