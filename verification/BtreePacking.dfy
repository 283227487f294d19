/**
 The packed contents of one B-tree block (devd/btree.c), as values: a sorted array of byte
 offsets over densely packed items. The item stored at byte offset o is cells[o].
 */
module BtreePacking {
  import opened BtreeFormat

  /** What the bytes of a free item slot read as. */
  const BLANK := Item(0, Value([]))

  /** at inverts slots: together they are a permutation of the first |slots| slot numbers. */
  ghost predicate Inverse(slots: seq<nat>, at: seq<nat>) {
    && |slots| == |at|
    && (forall i :: 0 <= i < |slots| ==> slots[i] < |at| && at[slots[i]] == i)
    && (forall s :: 0 <= s < |at| ==> at[s] < |slots| && slots[at[s]] == s)
  }

  /** Each offsets array entry in use is the offset of its slot; the others are zero. */
  ghost predicate OffsetsAt(l: Layout, offs: seq<nat>, slots: seq<nat>) {
    && |slots| <= |offs|
    && (forall i :: 0 <= i < |slots| ==> offs[i] == SlotOffset(l, slots[i]))
    && (forall i :: |slots| <= i < |offs| ==> offs[i] == 0)
  }

  /** The offsets array leads to the items in order. */
  ghost predicate Holds(offs: seq<nat>, cells: seq<Item>, items: seq<Item>) {
    && |items| <= |offs|
    && forall i :: 0 <= i < |items| ==> offs[i] < |cells| && cells[offs[i]] == items[i]
  }

  ghost predicate AllOfSize(items: seq<Item>, vs: nat) {
    forall i :: 0 <= i < |items| ==> items[i].val.Size() == vs
  }

  /** The offsets array and cells of a block with this layout store items, item i in slots[i]. */
  ghost predicate Packed(l: Layout, offs: seq<nat>, cells: seq<Item>, items: seq<Item>, slots: seq<nat>, at: seq<nat>) {
    && Fits(l)
    && |cells| == BLOCK_SIZE
    && |items| == |slots|
    && |offs| == l.max
    && Inverse(slots, at)
    && OffsetsAt(l, offs, slots)
    && Holds(offs, cells, items)
    && AllOfSize(items, l.vs)
  }

  /** Distinct items occupy disjoint byte ranges inside the block. */
  lemma PackedDisjoint(l: Layout, offs: seq<nat>, cells: seq<Item>, items: seq<Item>, slots: seq<nat>, at: seq<nat>,
      i: nat, j: nat)
    requires Packed(l, offs, cells, items, slots, at) && i < j < |items|
    ensures offs[i] + l.size <= offs[j] || offs[j] + l.size <= offs[i]
  {
    assert at[slots[i]] == i && at[slots[j]] == j;
    if slots[i] < slots[j] {
      SlotsDisjoint(l, slots[i], slots[j]);
    } else {
      SlotsDisjoint(l, slots[j], slots[i]);
    }
  }

  /** The items fill the bytes between the offsets array and the free offset, which lies in the block. */
  lemma PackedDense(l: Layout, offs: seq<nat>, cells: seq<Item>, items: seq<Item>, slots: seq<nat>, at: seq<nat>)
    requires Packed(l, offs, cells, items, slots, at)
    ensures SlotOffset(l, |items|) <= BLOCK_SIZE
    ensures forall i :: 0 <= i < |items| ==> l.base <= offs[i] && offs[i] + l.size <= SlotOffset(l, |items|)
    ensures forall s :: 0 <= s < |items| ==> exists i :: 0 <= i < |items| && offs[i] == SlotOffset(l, s)
  {
    if |items| < l.max {
      SlotsDisjoint(l, |items|, l.max);
    }
    forall i | 0 <= i < |items| ensures offs[i] + l.size <= SlotOffset(l, |items|) {
      SlotsDisjoint(l, slots[i], |items|);
    }
    forall s | 0 <= s < |items| ensures exists i :: 0 <= i < |items| && offs[i] == SlotOffset(l, s) {
      assert offs[at[s]] == SlotOffset(l, s);
    }
  }

  /** Making room at ind in the offsets array, and storing the new item's offset there. */
  function InsertOffset(offs: seq<nat>, nr: nat, ind: nat, off: nat): (r: seq<nat>)
    requires ind <= nr < |offs|
    ensures |r| == |offs|
  {
    offs[..ind] + [off] + offs[ind..nr] + offs[nr + 1..]
  }

  ghost function AtInsert(at: seq<nat>, ind: nat): (r: seq<nat>) {
    seq(|at|, s requires 0 <= s < |at| => if at[s] >= ind then at[s] + 1 else at[s]) + [ind]
  }

  lemma InverseInsert(slots: seq<nat>, at: seq<nat>, ind: nat)
    requires Inverse(slots, at) && ind <= |slots|
    ensures Inverse(InsertAt(slots, ind, |slots|), AtInsert(at, ind))
  {
  }

  lemma OffsetsInsert(l: Layout, offs: seq<nat>, slots: seq<nat>, ind: nat)
    requires OffsetsAt(l, offs, slots) && ind <= |slots| < |offs|
    ensures OffsetsAt(l, InsertOffset(offs, |slots|, ind, SlotOffset(l, |slots|)), InsertAt(slots, ind, |slots|))
  {
  }

  lemma HoldsInsert(offs: seq<nat>, cells: seq<Item>, items: seq<Item>, ind: nat, off: nat, item: Item)
    requires Holds(offs, cells, items) && ind <= |items| < |offs| && off < |cells|
    requires forall i :: 0 <= i < |items| ==> offs[i] != off
    ensures Holds(InsertOffset(offs, |items|, ind, off), cells[off := item], InsertAt(items, ind, item))
  {
  }

  /** Storing an item in the first free slot and listing it at ind. */
  lemma PackedInsert(l: Layout, offs: seq<nat>, cells: seq<Item>, items: seq<Item>, slots: seq<nat>, at: seq<nat>,
      ind: nat, item: Item)
    requires Packed(l, offs, cells, items, slots, at)
    requires ind <= |items| < l.max && item.val.Size() == l.vs
    ensures SlotOffset(l, |items|) < BLOCK_SIZE
    ensures Packed(l, InsertOffset(offs, |items|, ind, SlotOffset(l, |items|)),
      cells[SlotOffset(l, |items|) := item], InsertAt(items, ind, item), InsertAt(slots, ind, |items|), AtInsert(at, ind))
  {
    SlotsDisjoint(l, |items|, l.max);
    forall i | 0 <= i < |items| ensures offs[i] < SlotOffset(l, |items|) {
      SlotsDisjoint(l, slots[i], |items|);
    }
    InverseInsert(slots, at, ind);
    OffsetsInsert(l, offs, slots, ind);
    HoldsInsert(offs, cells, items, ind, SlotOffset(l, |items|), item);
  }

  /** Closing the gap at ind in the offsets array, and clearing the entry that becomes unused. */
  function RemoveOffset(offs: seq<nat>, nr: nat, ind: nat): (r: seq<nat>)
    requires ind < nr <= |offs|
    ensures |r| == |offs|
  {
    offs[..ind] + offs[ind + 1..nr] + [0] + offs[nr..]
  }

  /** The slots after removing item ind: whichever item was in the last slot moves to the freed one. */
  ghost function SlotsRemove(slots: seq<nat>, ind: nat): (r: seq<nat>)
    requires ind < |slots|
    ensures |r| == |slots| - 1
    ensures forall i :: 0 <= i < |r| ==>
      r[i] == (var s := slots[if i < ind then i else i + 1]; if s == |slots| - 1 then slots[ind] else s)
  {
    seq(|slots| - 1, i requires 0 <= i < |slots| - 1 =>
      var s := slots[if i < ind then i else i + 1];
      if s == |slots| - 1 then slots[ind] else s)
  }

  ghost function AtRemove(slots: seq<nat>, at: seq<nat>, ind: nat): (r: seq<nat>)
    requires Inverse(slots, at) && ind < |slots|
    ensures |r| == |slots| - 1
    ensures forall s :: 0 <= s < |r| ==>
      r[s] == (var i := at[if s == slots[ind] then |at| - 1 else s]; if i > ind then i - 1 else i)
  {
    seq(|at| - 1, s requires 0 <= s < |at| - 1 =>
      var i := at[if s == slots[ind] then |at| - 1 else s];
      if i > ind then i - 1 else i)
  }

  lemma InverseRemove(slots: seq<nat>, at: seq<nat>, ind: nat)
    requires Inverse(slots, at) && ind < |slots|
    ensures Inverse(SlotsRemove(slots, ind), AtRemove(slots, at, ind))
  {
    var slots', at' := SlotsRemove(slots, ind), AtRemove(slots, at, ind);
    forall i | 0 <= i < |slots'| ensures slots'[i] < |at'| && at'[slots'[i]] == i {
      var i0 := if i < ind then i else i + 1;
      assert at[slots[i0]] == i0 && at[slots[ind]] == ind;
    }
    forall s | 0 <= s < |at'| ensures at'[s] < |slots'| && slots'[at'[s]] == s {
      var s0 := if s == slots[ind] then |at| - 1 else s;
      assert slots[at[s0]] == s0 && at[slots[ind]] == ind;
    }
  }

  /** Where the item stored in the last slot is, once item ind has left the offsets array. */
  ghost function Relocated(slots: seq<nat>, at: seq<nat>, ind: nat): (j: nat)
    requires Inverse(slots, at) && ind < |slots| && slots[ind] != |slots| - 1
    ensures j < |slots| - 1
    ensures slots[if j < ind then j else j + 1] == |slots| - 1
  {
    assert at[slots[ind]] == ind && slots[at[|slots| - 1]] == |slots| - 1;
    if at[|slots| - 1] > ind then at[|slots| - 1] - 1 else at[|slots| - 1]
  }

  lemma OffsetsRemoveLast(l: Layout, offs: seq<nat>, slots: seq<nat>, at: seq<nat>, ind: nat)
    requires OffsetsAt(l, offs, slots) && Inverse(slots, at) && ind < |slots| && slots[ind] == |slots| - 1
    ensures OffsetsAt(l, RemoveOffset(offs, |slots|, ind), SlotsRemove(slots, ind))
  {
    assert forall i :: 0 <= i < |slots| && slots[i] == |slots| - 1 ==> i == at[|slots| - 1];
  }

  lemma OffsetsRemoveMove(l: Layout, offs: seq<nat>, slots: seq<nat>, at: seq<nat>, ind: nat)
    requires OffsetsAt(l, offs, slots) && Inverse(slots, at) && ind < |slots| && slots[ind] != |slots| - 1
    ensures OffsetsAt(l, RemoveOffset(offs, |slots|, ind)[Relocated(slots, at, ind) := offs[ind]], SlotsRemove(slots, ind))
  {
    assert forall i :: 0 <= i < |slots| && slots[i] == |slots| - 1 ==> i == at[|slots| - 1];
  }

  /** No two items share an offset. */
  lemma OffsetsDistinct(l: Layout, offs: seq<nat>, slots: seq<nat>, at: seq<nat>, ind: nat)
    requires l.size > 0 && OffsetsAt(l, offs, slots) && Inverse(slots, at) && ind < |slots|
    ensures forall i :: 0 <= i < |slots| && i != ind ==> offs[i] != offs[ind]
  {
    forall i | 0 <= i < |slots| && i != ind ensures offs[i] != offs[ind] {
      assert at[slots[i]] == i && at[slots[ind]] == ind;
      if slots[i] < slots[ind] {
        SlotsDisjoint(l, slots[i], slots[ind]);
      } else {
        SlotsDisjoint(l, slots[ind], slots[i]);
      }
    }
  }

  lemma HoldsRemove(offs: seq<nat>, cells: seq<Item>, items: seq<Item>, ind: nat)
    requires Holds(offs, cells, items) && ind < |items|
    requires forall i :: 0 <= i < |items| && i != ind ==> offs[i] != offs[ind]
    ensures Holds(RemoveOffset(offs, |items|, ind), cells, RemoveAt(items, ind))
    ensures forall i :: 0 <= i < |items| - 1 ==> RemoveOffset(offs, |items|, ind)[i] != offs[ind]
  {
  }

  lemma HoldsBlank(offs: seq<nat>, cells: seq<Item>, items: seq<Item>, off: nat)
    requires Holds(offs, cells, items) && off < |cells|
    requires forall i :: 0 <= i < |items| ==> offs[i] != off
    ensures Holds(offs, cells[off := BLANK], items)
  {
  }

  lemma HoldsMove(offs: seq<nat>, cells: seq<Item>, items: seq<Item>, j: nat, off: nat)
    requires Holds(offs, cells, items) && j < |items| && off < |cells|
    requires forall i :: 0 <= i < |items| ==> offs[i] != off
    requires forall i :: 0 <= i < |items| && i != j ==> offs[i] != offs[j]
    ensures Holds(offs[j := off], cells[off := cells[offs[j]]][offs[j] := BLANK], items)
  {
  }

  /** Removing the item stored in the last slot. */
  lemma PackedRemoveLast(l: Layout, offs: seq<nat>, cells: seq<Item>, items: seq<Item>, slots: seq<nat>, at: seq<nat>,
      ind: nat)
    requires Packed(l, offs, cells, items, slots, at)
    requires ind < |items| && slots[ind] == |items| - 1
    ensures Packed(l, RemoveOffset(offs, |items|, ind), cells[offs[ind] := BLANK],
      RemoveAt(items, ind), SlotsRemove(slots, ind), AtRemove(slots, at, ind))
  {
    InverseRemove(slots, at, ind);
    OffsetsRemoveLast(l, offs, slots, at, ind);
    OffsetsDistinct(l, offs, slots, at, ind);
    HoldsRemove(offs, cells, items, ind);
    HoldsBlank(RemoveOffset(offs, |items|, ind), cells, RemoveAt(items, ind), offs[ind]);
  }

  /** Before the relocation the offsets array already lists the remaining items, one of them in the last slot. */
  lemma RelocatedItem(l: Layout, offs: seq<nat>, cells: seq<Item>, items: seq<Item>, slots: seq<nat>, at: seq<nat>,
      ind: nat)
    requires Packed(l, offs, cells, items, slots, at)
    requires ind < |items| && slots[ind] != |items| - 1
    ensures Holds(RemoveOffset(offs, |items|, ind), cells, RemoveAt(items, ind))
    ensures RemoveOffset(offs, |items|, ind)[Relocated(slots, at, ind)] == SlotOffset(l, |items| - 1)
  {
    OffsetsDistinct(l, offs, slots, at, ind);
    HoldsRemove(offs, cells, items, ind);
  }

  /** No other remaining item shares the offset of the one to be relocated. */
  lemma RelocatedAlone(l: Layout, offs: seq<nat>, slots: seq<nat>, at: seq<nat>, ind: nat)
    requires l.size > 0 && OffsetsAt(l, offs, slots) && Inverse(slots, at) && ind < |slots| && slots[ind] != |slots| - 1
    ensures var r, j := RemoveOffset(offs, |slots|, ind), Relocated(slots, at, ind);
      forall i :: 0 <= i < |slots| - 1 && i != j ==> r[i] != r[j]
  {
    var j := Relocated(slots, at, ind);
    OffsetsDistinct(l, offs, slots, at, if j < ind then j else j + 1);
  }

  /** After the relocation the offsets array still leads to the remaining items. */
  lemma RelocatedHolds(l: Layout, offs: seq<nat>, cells: seq<Item>, items: seq<Item>, slots: seq<nat>, at: seq<nat>,
      ind: nat, end: nat)
    requires Packed(l, offs, cells, items, slots, at)
    requires ind < |items| && slots[ind] != |items| - 1 && end == SlotOffset(l, |items| - 1) < BLOCK_SIZE
    ensures Holds(RemoveOffset(offs, |items|, ind)[Relocated(slots, at, ind) := offs[ind]],
      cells[offs[ind] := cells[end]][end := BLANK], RemoveAt(items, ind))
  {
    OffsetsDistinct(l, offs, slots, at, ind);
    HoldsRemove(offs, cells, items, ind);
    RelocatedAlone(l, offs, slots, at, ind);
    RelocatedItem(l, offs, cells, items, slots, at, ind);
    HoldsMove(RemoveOffset(offs, |items|, ind), cells, RemoveAt(items, ind), Relocated(slots, at, ind), offs[ind]);
  }

  lemma SizesRemove(items: seq<Item>, vs: nat, ind: nat)
    requires AllOfSize(items, vs) && ind < |items|
    ensures AllOfSize(RemoveAt(items, ind), vs)
  {
  }

  /** Removing any other item moves the one in the last slot into the hole. */
  lemma PackedRemoveMove(l: Layout, offs: seq<nat>, cells: seq<Item>, items: seq<Item>, slots: seq<nat>, at: seq<nat>,
      ind: nat, end: nat)
    requires Packed(l, offs, cells, items, slots, at)
    requires ind < |items| && slots[ind] != |items| - 1 && end == SlotOffset(l, |items| - 1) < BLOCK_SIZE
    ensures Packed(l, RemoveOffset(offs, |items|, ind)[Relocated(slots, at, ind) := offs[ind]],
      cells[offs[ind] := cells[end]][end := BLANK],
      RemoveAt(items, ind), SlotsRemove(slots, ind), AtRemove(slots, at, ind))
  {
    InverseRemove(slots, at, ind);
    OffsetsRemoveMove(l, offs, slots, at, ind);
    RelocatedHolds(l, offs, cells, items, slots, at, ind, end);
    SizesRemove(items, l.vs, ind);
  }

  /** The item whose offset is the greatest is the one in the last slot. */
  lemma LastSlot(l: Layout, offs: seq<nat>, cells: seq<Item>, items: seq<Item>, slots: seq<nat>, at: seq<nat>, ind: nat)
    requires Packed(l, offs, cells, items, slots, at) && ind < |items|
    ensures offs[ind] == SlotOffset(l, |items| - 1) <==> slots[ind] == |items| - 1
  {
    if slots[ind] < |items| - 1 {
      SlotsDisjoint(l, slots[ind], |items| - 1);
    }
  }

  /** Overwriting an item where it is stored. */
  lemma PackedUpdate(l: Layout, offs: seq<nat>, cells: seq<Item>, items: seq<Item>, slots: seq<nat>, at: seq<nat>,
      ind: nat, item: Item)
    requires Packed(l, offs, cells, items, slots, at)
    requires ind < |items| && item.val.Size() == l.vs
    ensures Packed(l, offs, cells[offs[ind] := item], items[ind := item], slots, at)
  {
    OffsetsDistinct(l, offs, slots, at, ind);
  }

  // ---------------------------------------------------------------- Moving a run of items

  /** s with the n elements from i on taken out. */
  function RemoveRange<T>(s: seq<T>, i: nat, n: nat): (r: seq<T>)
    requires i + n <= |s|
  {
    s[..i] + s[i + n..]
  }

  /** s with the elements of x put in at i. */
  function InsertRange<T>(s: seq<T>, i: nat, x: seq<T>): (r: seq<T>)
    requires i <= |s|
  {
    s[..i] + x + s[i..]
  }

  lemma MoveOne<T>(d: seq<T>, di: nat, s: seq<T>, si: nat, k: nat)
    requires di <= |d| && si + k < |s|
    ensures var d', s' := InsertRange(d, di, s[si..si + k]), RemoveRange(s, si, k);
      && s'[si] == s[si + k]
      && InsertAt(d', di + k, s'[si]) == InsertRange(d, di, s[si..si + k + 1])
      && RemoveAt(s', si) == RemoveRange(s, si, k + 1)
  {
  }

  lemma RemoveKeepsSorted(s: seq<Item>, i: nat, n: nat)
    requires Sorted(s) && i + n <= |s|
    ensures Sorted(RemoveRange(s, i, n))
  {
  }
}
