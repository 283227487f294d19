/**
 A B-tree block updated in place (devd/btree.c:42-272): the item operations, each specified
 by what it does to the block's item sequence. Deleting an item relocates the item with the
 greatest offset into the hole.
 */
module BtreeBlock {
  import opened BtreeFormat
  import opened BtreePacking

  class Block {
    const level: nat
    const valSize: nat
    var nr: nat
    const offsets: array<nat>
    const cells: array<Item>
    /** The items in key order, the slot each one is stored in, and the inverse of that. */
    ghost var items: seq<Item>
    ghost var slots: seq<nat>
    ghost var at: seq<nat>

    function Places(): Layout { LayoutOf(BlockValSize(level, valSize)) }

    ghost function Footprint(): set<object> { {this, offsets, cells} }

    ghost predicate Valid()
      reads this, offsets, cells
    {
      && valSize <= MAX_VAL_SIZE
      && nr == |items|
      && Packed(Places(), offsets[..], cells[..], items, slots, at)
    }

    /** An empty block. */
    constructor Fresh(level: nat, valSize: nat)
      requires valSize <= MAX_VAL_SIZE
      ensures Valid() && fresh(Footprint())
      ensures this.level == level && this.valSize == valSize && items == []
    {
      this.level := level;
      this.valSize := valSize;
      nr := 0;
      offsets := new nat[MaxItems(BlockValSize(level, valSize))](_ => 0);
      cells := new Item[BLOCK_SIZE](_ => BLANK);
      items, slots, at := [], [], [];
      new;
      LayoutFits(BlockValSize(level, valSize));
    }

    /** A copy of another block: everything but the header, which names the block's own address. */
    constructor Copy(from: Block)
      requires from.Valid()
      ensures Valid() && fresh(Footprint())
      ensures level == from.level && valSize == from.valSize && items == from.items
    {
      level := from.level;
      valSize := from.valSize;
      nr := from.nr;
      items, slots, at := from.items, from.slots, from.at;
      offsets := new nat[from.offsets.Length](i requires 0 <= i < from.offsets.Length reads from.offsets => from.offsets[i]);
      cells := new Item[from.cells.Length](i requires 0 <= i < from.cells.Length reads from.cells => from.cells[i]);
      new;
      assert offsets[..] == from.offsets[..];
      assert cells[..] == from.cells[..];
    }

    /** Offset of the first free byte after the packed items. */
    function FreeOffset(): (o: nat)
      reads this
      ensures o == SlotOffset(Places(), nr)
    {
      SlotOffsetIsLinear(Places(), nr);
      Places().base + nr * Places().size
    }

    /** Offset of the last stored item, which can be at any sorted position. */
    function EndOffset(): (o: nat)
      requires nr > 0
      reads this
      ensures o == SlotOffset(Places(), nr - 1)
    {
      FreeOffset() - Places().size
    }

    /** Binary search over the offsets: the lower bound of the key, and whether the key is there. */
    method FindKeyInd(key: Key, ghost held: seq<Item>) returns (ind: nat, cmp: int)
      requires nr == |held| && Holds(offsets[..], cells[..], held) && Sorted(held)
      ensures ind == LowerBound(held, key)
      ensures cmp == 0 <==> ind < |held| && held[ind].key == key
    {
      assert forall i :: 0 <= i < nr ==> offsets[i] == offsets[..][i] && offsets[i] < cells.Length && cells[offsets[i]] == held[i];
      var start, end: int := 0, nr - 1;
      ind, cmp := 0, 1;
      while start <= end
        invariant 0 <= start <= end + 1 <= nr
        invariant ind == start || ind == end + 1
        invariant cmp != 0
        invariant forall i :: 0 <= i < start ==> held[i].key < key
        invariant forall i :: end < i < nr ==> key < held[i].key
      {
        ind := (start + end) / 2;
        cmp := Compare(key, cells[offsets[ind]].key);
        if cmp < 0 {
          end := ind - 1;
        } else if cmp > 0 {
          ind := ind + 1;
          start := ind;
        } else {
          break;
        }
      }
      LowerBoundIs(held, key, ind);
    }

    /** memmove_array_tail by one: entries from ind on move up, making room at ind. */
    method OpenGap(ind: nat, off: nat)
      requires ind <= nr < offsets.Length
      modifies offsets
      ensures offsets[..] == InsertOffset(old(offsets[..]), nr, ind, off)
    {
      forall i | ind < i <= nr { offsets[i] := offsets[i - 1]; }
      offsets[ind] := off;
    }

    /** memmove_array_tail by minus one, dropping entry ind and clearing the last. */
    method CloseGap(ind: nat)
      requires ind < nr <= offsets.Length
      modifies this`nr, offsets
      ensures nr == old(nr) - 1
      ensures offsets[..] == RemoveOffset(old(offsets[..]), old(nr), ind)
    {
      forall i | ind < i < nr { offsets[i - 1] := offsets[i]; }
      nr := nr - 1;
      offsets[nr] := 0;
    }

    /** Stores an item in the first free slot and makes it the ind'th in order. */
    method InsertItem(ind: nat, item: Item)
      requires Valid() && ind <= nr < Places().max
      requires item.val.Size() == Places().vs
      modifies this, offsets, cells
      ensures Valid()
      ensures items == InsertAt(old(items), ind, item)
    {
      PackedInsert(Places(), offsets[..], cells[..], items, slots, at, ind, item);
      var off := FreeOffset();
      OpenGap(ind, off);
      nr := nr + 1;
      cells[off] := item;
      items, slots, at := InsertAt(items, ind, item), InsertAt(slots, ind, |items|), AtInsert(at, ind);
      assert cells[..] == old(cells[..])[off := item];
    }

    /** Removes an item, moving the last stored item into its slot. */
    method DeleteItem(ind: nat)
      requires Valid() && ind < nr
      requires Sorted(RemoveAt(items, ind))
      modifies this, offsets, cells
      ensures Valid()
      ensures items == RemoveAt(old(items), ind)
    {
      ghost var offs0 := offsets[..];
      LastSlot(Places(), offs0, cells[..], items, slots, at, ind);
      var off := offsets[ind];
      var end := EndOffset();
      CloseGap(ind);
      if off != end {
        Relocate(ind, off, end, offs0);
      } else {
        BlankEnd(ind, off, offs0);
      }
      items, slots, at := RemoveAt(items, ind), SlotsRemove(slots, ind), AtRemove(slots, at, ind);
      assert Packed(Places(), offsets[..], cells[..], items, slots, at);
    }

    /** The second half of deleting the end item itself: its slot is cleared. */
    method BlankEnd(ghost ind: nat, off: nat, ghost offs0: seq<nat>)
      requires Packed(Places(), offs0, cells[..], items, slots, at)
      requires ind < |items| && nr == |items| - 1 && slots[ind] == nr && off == offs0[ind] && off == SlotOffset(Places(), nr)
      requires offsets[..] == RemoveOffset(offs0, |items|, ind)
      requires Sorted(RemoveAt(items, ind))
      modifies cells
      ensures Packed(Places(), offsets[..], cells[..], RemoveAt(items, ind), SlotsRemove(slots, ind), AtRemove(slots, at, ind))
    {
      PackedRemoveLast(Places(), offs0, cells[..], items, slots, at, ind);
      cells[off] := BLANK;
      assert cells[..] == old(cells[..])[off := BLANK];
    }

    /** The second half of any other deletion: find the entry of the end item, and move that item into the hole. */
    method Relocate(ghost ind: nat, off: nat, end: nat, ghost offs0: seq<nat>)
      requires Packed(Places(), offs0, cells[..], items, slots, at)
      requires ind < |items| && nr == |items| - 1 && slots[ind] != nr && off == offs0[ind] && end == SlotOffset(Places(), nr)
      requires offsets[..] == RemoveOffset(offs0, |items|, ind)
      requires Sorted(RemoveAt(items, ind))
      modifies offsets, cells
      ensures end < BLOCK_SIZE
      ensures offsets[..] == old(offsets[..])[Relocated(slots, at, ind) := off]
      ensures cells[..] == old(cells[..])[off := old(cells[end])][end := BLANK]
      ensures Packed(Places(), offsets[..], cells[..], RemoveAt(items, ind), SlotsRemove(slots, ind), AtRemove(slots, at, ind))
    {
      ghost var rest, j := RemoveAt(items, ind), Relocated(slots, at, ind);
      RelocatedItem(Places(), offs0, cells[..], items, slots, at, ind);
      PackedRemoveMove(Places(), offs0, cells[..], items, slots, at, ind, end);
      assert cells[end] == rest[j];
      var i, cmp := FindKeyInd(cells[end].key, rest);
      LowerBoundIs(rest, rest[j].key, j);
      assert cmp == 0;
      offsets[i] := off;
      cells[off] := cells[end];
      cells[end] := BLANK;
    }

    /** The item at a sorted position. */
    method IndItem(ind: nat) returns (item: Item)
      requires Valid() && ind < nr
      ensures item == items[ind]
    {
      assert offsets[..][ind] == offsets[ind];
      item := cells[offsets[ind]];
    }

    /** Overwrites the item at a sorted position: a new key, value or reference. */
    method UpdateItem(ind: nat, item: Item)
      requires Valid() && ind < nr && item.val.Size() == Places().vs
      modifies this`items, cells
      ensures Valid()
      ensures items == old(items)[ind := item]
    {
      assert offsets[..][ind] == offsets[ind];
      PackedUpdate(Places(), offsets[..], cells[..], items, slots, at, ind, item);
      cells[offsets[ind]] := item;
      items := items[ind := item];
      assert cells[..] == old(cells[..])[offsets[ind] := item];
    }
  }

  /** Blocks that share no storage. */
  predicate Apart(a: Block, b: Block) {
    a != b && a.offsets != b.offsets && a.cells != b.cells
  }
}
