/**
 On-disk format of the log store's B-tree (shared/format-dev-log.h) and the size
 arithmetic of devd/btree.c: keys, payloads, items, and how many items a block holds.
 */
module BtreeFormat {

  // ---------------------------------------------------------------- Keys

  const WORD := 0x1_0000_0000_0000_0000
  const DOUBLE_WORD := WORD * WORD
  const KEY_LIMIT := WORD * WORD * WORD

  type Word = w: int | 0 <= w < WORD

  /** The three little-endian words of a key, most significant first. */
  datatype WordKey = WordKey(k0: Word, k1: Word, k2: Word)

  /** A key as one 192-bit number: the tree only ever compares keys. */
  type Key = k: int | 0 <= k < KEY_LIMIT

  const MAX_KEY: Key := KEY_LIMIT - 1

  function Compare(a: int, b: int): int {
    if a < b then -1 else if a > b then 1 else 0
  }

  /** The word-by-word comparison of the source. */
  function CmpKeys(a: WordKey, b: WordKey): int {
    var c0 := Compare(a.k0, b.k0);
    if c0 != 0 then c0
    else
      var c1 := Compare(a.k1, b.k1);
      if c1 != 0 then c1 else Compare(a.k2, b.k2)
  }

  function Pack(a: WordKey): Key {
    a.k0 * DOUBLE_WORD + a.k1 * WORD + a.k2
  }

  function Unpack(k: Key): WordKey {
    WordKey(k / DOUBLE_WORD, (k / WORD) % WORD, k % WORD)
  }

  /** A packed key stands for its words: the two correspond one to one, and comparing words is comparing packed numbers. */
  lemma CmpKeysIsNumericOrder(a: WordKey, b: WordKey)
    ensures CmpKeys(a, b) == Compare(Pack(a), Pack(b))
    ensures CmpKeys(a, b) == 0 <==> a == b
    ensures Unpack(Pack(a)) == a
    ensures forall k: Key :: Pack(Unpack(k)) == k
  {
    if CmpKeys(a, b) < 0 {
      PackLess(a, b);
    } else if CmpKeys(b, a) < 0 {
      PackLess(b, a);
    }
    PackUnpack(a);
    forall k: Key ensures Pack(Unpack(k)) == k {
      UnpackPack(k);
    }
  }

  lemma PackLess(a: WordKey, b: WordKey)
    requires CmpKeys(a, b) < 0
    ensures Pack(a) < Pack(b)
  {
    assert a.k0 < b.k0 ==> (a.k0 + 1) * DOUBLE_WORD <= b.k0 * DOUBLE_WORD;
  }

  lemma UnpackPack(k: Key)
    ensures Pack(Unpack(k)) == k
  {
    assert (k / WORD) / WORD == k / DOUBLE_WORD;
  }

  lemma PackUnpack(a: WordKey)
    ensures Unpack(Pack(a)) == a
  {
    var k := Pack(a);
    assert k == (a.k0 * WORD + a.k1) * WORD + a.k2;
    assert k / WORD == a.k0 * WORD + a.k1 && k % WORD == a.k2;
    assert (k / WORD) / WORD == k / DOUBLE_WORD;
  }

  // ---------------------------------------------------------------- Items

  /** What follows an item's key: a leaf's value bytes, or an internal block's reference. */
  datatype Payload = Value(bytes: seq<bv8>) | Ref(addr: nat) {
    function Size(): nat {
      match this
      case Value(b) => |b|
      case Ref(_) => REF_SIZE
    }
  }

  datatype Item = Item(key: Key, val: Payload)

  ghost predicate Sorted(s: seq<Item>) {
    forall i, j :: 0 <= i < j < |s| ==> s[i].key < s[j].key
  }

  /** The first index whose key is not below k. */
  function LowerBound(s: seq<Item>, k: Key): (i: nat)
    ensures i <= |s|
    ensures forall j :: 0 <= j < i ==> s[j].key < k
    ensures i < |s| ==> k <= s[i].key
  {
    if s == [] || k <= s[0].key then 0 else
      assert forall j :: 0 < j < |s| ==> s[j] == s[1..][j - 1];
      1 + LowerBound(s[1..], k)
  }

  lemma LowerBoundIs(s: seq<Item>, k: Key, i: nat)
    requires Sorted(s) && i <= |s|
    requires forall j :: 0 <= j < i ==> s[j].key < k
    requires i < |s| ==> k <= s[i].key
    ensures LowerBound(s, k) == i
  {
    var l := LowerBound(s, k);
    var atLower := if l < |s| then s[l].key else k;
    var atIndex := if i < |s| then s[i].key else k;
  }

  function InsertAt<T>(s: seq<T>, i: nat, x: T): (r: seq<T>)
    requires i <= |s|
  {
    s[..i] + [x] + s[i..]
  }

  function RemoveAt<T>(s: seq<T>, i: nat): (r: seq<T>)
    requires i < |s|
  {
    s[..i] + s[i + 1..]
  }

  // ---------------------------------------------------------------- Sizes

  const BLOCK_SIZE := 4096
  const HEADER_SIZE := 64
  const FREE_MAX := BLOCK_SIZE - HEADER_SIZE
  const ALIGNMENT := 8
  const OFFSET_SIZE := 2
  const ITEM_HEADER_SIZE := 24
  const REF_SIZE := 8
  const MAX_VAL_SIZE := (FREE_MAX / 8 - (OFFSET_SIZE + ITEM_HEADER_SIZE)) / ALIGNMENT * ALIGNMENT

  /** Value size of the items of a block: leaves hold values, parents hold references. */
  function BlockValSize(level: nat, valSize: nat): nat {
    if level == 0 then valSize else REF_SIZE
  }

  function ItemSize(valSize: nat): nat {
    ITEM_HEADER_SIZE + valSize
  }

  /** Item slots of a block, rounded down so that the offsets array aligns the first item. */
  function MaxItems(valSize: nat): nat {
    FREE_MAX / (OFFSET_SIZE + ItemSize(valSize)) / (ALIGNMENT / OFFSET_SIZE) * (ALIGNMENT / OFFSET_SIZE)
  }

  /** A block holds at least eight items, can be halved evenly, and its slots fit. */
  lemma MaxItemsBounds(valSize: nat)
    requires valSize <= MAX_VAL_SIZE
    ensures MaxItems(valSize) >= 8
    ensures MaxItems(valSize) % 4 == 0
    ensures HEADER_SIZE + MaxItems(valSize) * (OFFSET_SIZE + ItemSize(valSize)) <= BLOCK_SIZE
  {
    var d := OFFSET_SIZE + ItemSize(valSize);
    var q := FREE_MAX / d;
    var m := MaxItems(valSize);
    QuotientAtLeast(FREE_MAX, d, 8);
    assert m <= q;
    ProductMonotone(m, q, d);
  }

  lemma MaxItemsEven(valSize: nat)
    requires valSize <= MAX_VAL_SIZE
    ensures MaxItems(valSize) >= 8 && MaxItems(valSize) % 2 == 0
  {
    MaxItemsBounds(valSize);
  }

  /** A value is aligned and legal exactly if eight of its size fit in a block. */
  lemma MaxValSizeGreatest(valSize: nat)
    requires valSize % 8 == 0
    ensures valSize <= MAX_VAL_SIZE <==> 64 + 8 * (26 + valSize) <= 4096
  {
  }

  /** A block is used up: it has four item slots more exactly as long as they fit in its 4096 bytes with their offsets. */
  lemma MaxItemsGreatest(valSize: nat, n: nat)
    requires valSize <= MAX_VAL_SIZE && n % 4 == 0
    ensures n <= MaxItems(valSize) <==> 64 + n * (26 + valSize) <= 4096
  {
    var d, m := 26 + valSize, MaxItems(valSize);
    MaxItemsBounds(valSize);
    ProductMonotone(n, m, d);
    if 64 + n * d <= 4096 {
      QuotientAtLeast(4032, d, n);
      assert n / 4 * 4 == n;
      assert 4032 / d / 4 * 4 >= n;
    }
  }

  /** No slot is left in a block of n items: four more in a multiple of four would not fit in its 4096 bytes. */
  predicate Crowded(n: nat, valSize: nat) {
    64 + (n / 4 * 4 + 4) * (26 + valSize) > 4096
  }

  lemma CrowdedIsFull(n: nat, valSize: nat)
    requires valSize <= MAX_VAL_SIZE
    ensures Crowded(n, valSize) <==> n >= MaxItems(valSize)
  {
    MaxItemsBounds(valSize);
    MaxItemsGreatest(valSize, n / 4 * 4 + 4);
  }

  lemma QuotientAtLeast(n: nat, d: nat, k: nat)
    requires d > 0 && k * d <= n
    ensures n / d >= k
    ensures n / d * d <= n
  {
    ProductMonotone(n / d + 1, k, d);
  }

  lemma ProductMonotone(a: nat, b: nat, d: nat)
    ensures a <= b ==> a * d <= b * d
  {
  }

  /** Where a block keeps its item slots: first slot's byte offset, slot size, slot count, value size. */
  datatype Layout = Layout(base: nat, size: nat, max: nat, vs: nat)

  /** The slots follow the full offsets array. */
  function LayoutOf(valSize: nat): (l: Layout) {
    Layout(HEADER_SIZE + OFFSET_SIZE * MaxItems(valSize), ItemSize(valSize), MaxItems(valSize), valSize)
  }

  /** Byte offset of slot s. */
  function SlotOffset(l: Layout, s: nat): (o: nat)
    ensures o >= l.base
  {
    if s == 0 then l.base else SlotOffset(l, s - 1) + l.size
  }

  /** All slots lie inside the block. */
  ghost predicate Fits(l: Layout) {
    l.size > 0 && l.max >= 8 && l.max % 4 == 0 && SlotOffset(l, l.max) <= BLOCK_SIZE
  }

  lemma {:induction false} SlotOffsetIsLinear(l: Layout, s: nat)
    ensures SlotOffset(l, s) == l.base + s * l.size
  {
    if s > 0 {
      SlotOffsetIsLinear(l, s - 1);
    }
  }

  /** Slots are packed one item apart. */
  lemma {:induction false} SlotsDisjoint(l: Layout, s: nat, t: nat)
    requires s < t
    ensures SlotOffset(l, s) + l.size <= SlotOffset(l, t)
    decreases t
  {
    if s + 1 < t {
      SlotsDisjoint(l, s, t - 1);
    }
  }

  /** Every legal value size gives slots inside the block. */
  lemma LayoutFits(valSize: nat)
    requires valSize <= MAX_VAL_SIZE
    ensures Fits(LayoutOf(valSize))
  {
    var l := LayoutOf(valSize);
    var m, size := l.max, l.size;
    MaxItemsBounds(valSize);
    SlotOffsetIsLinear(l, m);
    Distribute(m, size);
    assert SlotOffset(l, m) == HEADER_SIZE + (OFFSET_SIZE * m + m * size);
  }

  /** Slots are aligned when the values are. */
  lemma LayoutAligns(valSize: nat, s: nat)
    requires valSize <= MAX_VAL_SIZE && valSize % ALIGNMENT == 0
    ensures SlotOffset(LayoutOf(valSize), s) % ALIGNMENT == 0
  {
    MaxItemsBounds(valSize);
    OffsetsAlign(LayoutOf(valSize).max);
    SlotAligned(LayoutOf(valSize), s);
  }

  lemma OffsetsAlign(m: nat)
    requires m % 4 == 0
    ensures (HEADER_SIZE + OFFSET_SIZE * m) % ALIGNMENT == 0
  {
    assert HEADER_SIZE + OFFSET_SIZE * m == ALIGNMENT * (HEADER_SIZE / ALIGNMENT + m / 4);
  }

  lemma Distribute(m: nat, size: nat)
    ensures m * (OFFSET_SIZE + size) == OFFSET_SIZE * m + m * size
  {
  }

  lemma {:induction false} SlotAligned(l: Layout, s: nat)
    requires l.base % ALIGNMENT == 0 && l.size % ALIGNMENT == 0
    ensures SlotOffset(l, s) % ALIGNMENT == 0
  {
    if s > 0 {
      SlotAligned(l, s - 1);
    }
  }
}
