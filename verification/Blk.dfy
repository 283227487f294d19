/**
 The dirty and writeback flags of the block cache (utask/blk.c). A block is changed in memory
 only while it is dirty and not being written.
 */
module Blk {
  type Addr = nat

  class BlkCache {
    var dirty: set<Addr>
    var writeback: set<Addr>
    /** Dirty blocks in the order they were dirtied, up to the next write. */
    var dirtyList: seq<Addr>

    ghost predicate Valid()
      reads this
    {
      && writeback <= dirty
      && (forall a {:trigger a in dirtyList} {:trigger a in dirty} :: a in dirtyList <==> a in dirty - writeback)
    }

    function Modifiable(): set<Addr>
      reads this
    {
      dirty - writeback
    }

    constructor ()
      ensures Valid() && dirty == {} && writeback == {} && dirtyList == []
    {
      dirty, writeback, dirtyList := {}, {}, [];
    }

    predicate CanModify(a: Addr)
      reads this
    {
      a in dirty && a !in writeback
    }

    method MarkDirty(a: Addr)
      requires Valid()
      modifies this
      ensures Valid()
      ensures dirty == old(dirty) + {a} && writeback == old(writeback)
      ensures dirtyList == if a in old(dirty) then old(dirtyList) else old(dirtyList) + [a]
    {
      if a !in dirty {
        dirty := dirty + {a};
        dirtyList := dirtyList + [a];
      }
    }

    /** The write task takes every dirty block and puts it in writeback: nothing stays modifiable. */
    method BeginWrite() returns (list: seq<Addr>)
      requires Valid()
      modifies this
      ensures Valid()
      ensures list == old(dirtyList) && dirtyList == []
      ensures dirty == old(dirty) && Modifiable() == {}
      ensures writeback == old(writeback) + (set a | a in list)
    {
      list := dirtyList;
      dirtyList := [];
      writeback := writeback + (set a | a in list);
    }

    /** The blocks of a completed write are clean again; what was modifiable still is. */
    method FinishWrite(list: seq<Addr>)
      requires Valid()
      requires forall a :: a in list ==> a in writeback
      modifies this
      ensures Valid()
      ensures Modifiable() == old(Modifiable()) && dirtyList == old(dirtyList)
      ensures forall a :: a in list ==> a !in dirty && a !in writeback
      ensures forall a :: a !in list ==> (a in dirty <==> a in old(dirty)) && (a in writeback <==> a in old(writeback))
    {
      var done := set a | a in list;
      writeback := writeback - done;
      dirty := dirty - done;
    }
  }
}
