/**
 Writing and reading blocks through the log store (devd/lstore.c:664-796): every write allocates a
 data block, records its address in the details tree, updates the totals, and waits until the
 commit that carries it is stable.
 */
module Lstore {
  import opened Wrappers
  import opened BtreeFormat
  import opened BtreeShape
  import opened BtreeDirty
  import opened BtreeCache
  import opened BtreeInsert
  import opened Btree
  import opened LogLayout
  import LogStore
  import Crc64

  const RSV_MAX_BLOCKS := (4096 - 104) / 16 - 1
  const MAX_ENTRIES := RSV_MAX_BLOCKS + 1

  /** The blocks that a write may allocate: the tree's, and the data block. */
  function Reserved(height: nat): nat {
    1 + 2 * height + 1
  }

  // ---------------------------------------------------------------- What the tree's values hold

  /** Where a block's contents are, and their checksum. */
  datatype BlockDetails = BlockDetails(devAddr: nat, crc: nat)

  const DETAILS_SIZE := 16

  function Le(n: nat, len: nat): (b: seq<bv8>)
    ensures |b| == len
    decreases len
  {
    if len == 0 then [] else [(n % 256) as bv8] + Le(n / 256, len - 1)
  }

  function FromLe(b: seq<bv8>): nat {
    if b == [] then 0 else b[0] as nat + 256 * FromLe(b[1..])
  }

  function Limit(len: nat): (n: nat)
    ensures n > 0
  {
    if len == 0 then 1 else 256 * Limit(len - 1)
  }

  lemma {:induction false} LeRoundTrip(n: nat, len: nat)
    requires n < Limit(len)
    ensures FromLe(Le(n, len)) == n
    decreases len
  {
    if len > 0 {
      var rest := Le(n / 256, len - 1);
      LeRoundTrip(n / 256, len - 1);
      ByteRoundTrip(n % 256);
      assert ([(n % 256) as bv8] + rest)[1..] == rest;
    }
  }

  function Encode(d: BlockDetails): (b: seq<bv8>)
    ensures |b| == DETAILS_SIZE
  {
    Le(d.devAddr, 8) + Le(d.crc, 8)
  }

  function Decode(b: seq<bv8>): BlockDetails
    requires |b| == DETAILS_SIZE
  {
    BlockDetails(FromLe(b[..8]), FromLe(b[8..]))
  }

  lemma DetailsRoundTrip(d: BlockDetails)
    requires d.devAddr < WORD && d.crc < WORD
    ensures Decode(Encode(d)) == d
  {
    assert Limit(2) == 65536 && Limit(4) == 0x1_0000_0000 && Limit(6) == 0x1_0000_0000_0000 && Limit(8) == WORD;
    LeRoundTrip(d.devAddr, 8);
    LeRoundTrip(d.crc, 8);
    assert Encode(d)[..8] == Le(d.devAddr, 8) && Encode(d)[8..] == Le(d.crc, 8);
  }

  /** Eight bytes stand for a number, the lowest first. */
  function LeValue(b: seq<bv8>): nat
    requires |b| == 8
  {
    b[0] as nat + 0x100 * b[1] as nat + 0x10000 * b[2] as nat + 0x1000000 * b[3] as nat
    + 0x100000000 * b[4] as nat + 0x10000000000 * b[5] as nat
    + 0x1000000000000 * b[6] as nat + 0x100000000000000 * b[7] as nat
  }

  /** A block's 16 bytes are its address and then its checksum. */
  lemma DetailsBytes(d: BlockDetails)
    requires d.devAddr < WORD && d.crc < WORD
    ensures LeValue(Encode(d)[..8]) == d.devAddr && LeValue(Encode(d)[8..]) == d.crc
  {
    DetailsRoundTrip(d);
    FromLeIs(Encode(d)[..8]);
    FromLeIs(Encode(d)[8..]);
  }

  lemma FromLeIs(b: seq<bv8>)
    requires |b| == 8
    ensures FromLe(b) == LeValue(b)
  {
    FromLeFour(b);
    FromLeFour(b[4..]);
    assert b[4..][4..] == [];
  }

  lemma FromLeFour(b: seq<bv8>)
    requires |b| >= 4
    ensures FromLe(b) == b[0] as nat + 0x100 * b[1] as nat + 0x1_0000 * b[2] as nat + 0x100_0000 * b[3] as nat + 0x1_0000_0000 * FromLe(b[4..])
  {
    assert b[1..][1..] == b[2..] && b[2..][1..] == b[3..] && b[3..][1..] == b[4..];
    assert FromLe(b) == b[0] as nat + 256 * FromLe(b[1..]);
    assert FromLe(b[1..]) == b[1] as nat + 256 * FromLe(b[2..]);
    assert FromLe(b[2..]) == b[2] as nat + 256 * FromLe(b[3..]);
    assert FromLe(b[3..]) == b[3] as nat + 256 * FromLe(b[4..]);
  }

  const INODE_TYPE := 0

  /** The type in the most significant byte of a key's last word. */
  function KeyType(k: Key): nat {
    Unpack(k).k2 / 0x100_0000_0000_0000
  }

  predicate IsInode(k: Key) {
    KeyType(k) == INODE_TYPE
  }

  /** Keys of blocks in the log itself. */
  predicate IsDevAddrKey(k: Key) {
    Unpack(k).k0 == 0
  }

  /** The key of a block: an inode number of two words, and in the last word a type byte and an index of 56 bits. */
  function KeyOf(i0: nat, i1: nat, kind: nat, index: nat): Key
    requires i0 < WORD && i1 < WORD && kind < 256 && index < 0x100_0000_0000_0000
  {
    KeyInRange(i0, i1, kind, index);
    (i0 * WORD + i1) * WORD + (kind * 0x100_0000_0000_0000 + index)
  }

  lemma KeyInRange(i0: nat, i1: nat, kind: nat, index: nat)
    requires i0 < WORD && i1 < WORD && kind < 256 && index < 0x100_0000_0000_0000
    ensures kind * 0x100_0000_0000_0000 + index < WORD
    ensures (i0 * WORD + i1) * WORD + (kind * 0x100_0000_0000_0000 + index) < KEY_LIMIT
  {
  }

  /** A map's inode keys are those of type 0, and the log's own keys those with a first word of 0. */
  lemma KeysByType(i0: nat, i1: nat, kind: nat, index: nat, m: map<Key, seq<bv8>>)
    requires i0 < WORD && i1 < WORD && kind < 256 && index < 0x100_0000_0000_0000
    ensures var k := KeyOf(i0, i1, kind, index);
      && (k in InodeKeys(m) <==> k in m && kind == 0)
      && (IsDevAddrKey(k) <==> i0 == 0)
  {
    KeyInRange(i0, i1, kind, index);
    var w := kind * 0x100_0000_0000_0000 + index;
    PackUnpack(WordKey(i0, i1, w));
    assert Pack(WordKey(i0, i1, w)) == KeyOf(i0, i1, kind, index);
  }

  lemma InodeIsLow(k: Key)
    ensures IsInode(k) <==> k % WORD < 0x100_0000_0000_0000
  {
  }

  lemma DevAddrIsLow(k: Key)
    ensures IsDevAddrKey(k) <==> k < WORD * WORD
  {
  }

  /** In plain numbers: the lowest of a key's words is below 2^56. */
  lemma InodeKeysAre(m: map<Key, seq<bv8>>)
    ensures InodeKeys(m) == set k | k in m && k % WORD < 0x100_0000_0000_0000
  {
    forall k: Key ensures IsInode(k) <==> k % WORD < 0x100_0000_0000_0000 {
      InodeIsLow(k);
    }
  }

  // ---------------------------------------------------------------- What has been written

  /** One successful write, and the number of the commit that carries it. */
  datatype Rec = Rec(key: Key, details: BlockDetails, seqno: nat)

  /** The map after the given writes. */
  ghost function Replay(hist: seq<Rec>): map<Key, seq<bv8>> {
    if hist == [] then map[] else
      var r := hist[|hist| - 1];
      Replay(hist[..|hist| - 1])[r.key := Encode(r.details)]
  }

  /** The k-th write is the last one of its key. */
  ghost predicate IsLast(hist: seq<Rec>, k: int, key: Key) {
    0 <= k < |hist| && hist[k].key == key && forall j :: k < j < |hist| ==> hist[j].key != key
  }

  /** The map holds exactly the keys that were written, each with the details written last. */
  lemma {:induction false} ReplayHoldsLast(hist: seq<Rec>, key: Key)
    ensures key in Replay(hist) <==> exists k :: IsLast(hist, k, key)
    ensures forall k :: IsLast(hist, k, key) ==> Replay(hist)[key] == Encode(hist[k].details)
    decreases |hist|
  {
    if hist != [] {
      var n := |hist| - 1;
      ReplayHoldsLast(hist[..n], key);
      if hist[n].key == key {
        assert IsLast(hist, n, key);
        forall k | IsLast(hist, k, key) ensures k == n {
        }
      } else {
        LastOfFront(hist, key);
      }
    }
  }

  lemma LastOfFront(hist: seq<Rec>, key: Key)
    requires hist != [] && hist[|hist| - 1].key != key
    ensures forall k {:trigger IsLast(hist, k, key)} {:trigger IsLast(hist[..|hist| - 1], k, key)} ::
      IsLast(hist, k, key) <==> IsLast(hist[..|hist| - 1], k, key)
  {
    var front := hist[..|hist| - 1];
    forall k ensures IsLast(hist, k, key) <==> IsLast(front, k, key) {
      if IsLast(front, k, key) {
        assert forall j :: k < j < |front| ==> front[j] == hist[j];
      }
    }
  }

  /** The last write under the key that the k-th was under. */
  lemma {:induction false} LastWrite(hist: seq<Rec>, k: nat) returns (j: nat)
    requires k < |hist|
    ensures k <= j < |hist| && IsLast(hist, j, hist[k].key)
  {
    j := |hist| - 1;
    while hist[j].key != hist[k].key
      invariant k <= j < |hist|
      invariant forall i :: j < i < |hist| ==> hist[i].key != hist[k].key
      decreases j
    {
      j := j - 1;
    }
  }

  /** The keys of inode blocks. */
  ghost function InodeKeys(m: map<Key, seq<bv8>>): set<Key> {
    set k | k in m && IsInode(k)
  }

  /** The totals count the mapped keys, and those of inodes. */
  ghost predicate TotalsOk(d: Details, m: map<Key, seq<bv8>>) {
    d.totalAllocated == |m| && d.totalInodes == |InodeKeys(m)|
  }

  lemma TotalsCount(m: map<Key, seq<bv8>>, key: Key, val: seq<bv8>)
    ensures |m[key := val]| == |m| + (if key in m then 0 else 1)
    ensures |InodeKeys(m[key := val])| == |InodeKeys(m)| + (if key !in m && key % WORD < 0x100_0000_0000_0000 then 1 else 0)
  {
    var m' := m[key := val];
    assert m'.Keys == m.Keys + {key};
    assert |m'.Keys| == |m'| && |m.Keys| == |m|;
    InodeIsLow(key);
    OneMoreInode(m, key, val);
    if key in m && IsInode(key) {
      assert InodeKeys(m) + {key} == InodeKeys(m);
    }
  }

  lemma OneMoreInode(m: map<Key, seq<bv8>>, key: Key, val: seq<bv8>)
    ensures InodeKeys(m[key := val]) == if IsInode(key) then InodeKeys(m) + {key} else InodeKeys(m)
    ensures key in InodeKeys(m) <==> key in m && IsInode(key)
  {
    var m' := m[key := val];
    forall k: Key ensures k in InodeKeys(m') <==> (k in InodeKeys(m) || (k == key && IsInode(key))) {
    }
  }

  /** Every value is the encoding of a block's details; blocks are never at address zero. */
  ghost predicate ValuesOk(m: map<Key, seq<bv8>>) {
    forall k {:trigger m[k]} :: k in m ==> |m[k]| == DETAILS_SIZE && Decode(m[k]).devAddr > 0
  }

  ghost predicate RecsOk(hist: seq<Rec>) {
    forall k {:trigger hist[k]} :: 0 <= k < |hist| ==> 0 < hist[k].details.devAddr < WORD && hist[k].details.crc < WORD
  }

  lemma {:induction false} ReplayValuesOk(hist: seq<Rec>)
    requires RecsOk(hist)
    ensures ValuesOk(Replay(hist))
    decreases |hist|
  {
    if hist != [] {
      var front := hist[..|hist| - 1];
      assert forall k :: 0 <= k < |front| ==> front[k] == hist[k];
      ReplayValuesOk(front);
      DetailsRoundTrip(hist[|hist| - 1].details);
    }
  }

  /** The first n writes are those of commits up to the given one. */
  ghost predicate FirstUpTo(hist: seq<Rec>, n: nat, seqno: nat) {
    n <= |hist| && forall k {:trigger hist[k]} :: 0 <= k < |hist| ==> (k < n <==> hist[k].seqno <= seqno)
  }

  lemma HoldsLast(hist: seq<Rec>, j: nat, key: Key)
    requires IsLast(hist, j, key)
    ensures Get(Replay(hist), key) == Some(Encode(hist[j].details))
  {
    ReplayHoldsLast(hist, key);
  }

  /** The last write under the k-th one's key that a commit up to the given one has: what the map of those writes holds. */
  lemma LastUpTo(hist: seq<Rec>, n: nat, seqno: nat, k: nat) returns (j: nat)
    requires FirstUpTo(hist, n, seqno) && k < |hist| && hist[k].seqno <= seqno
    ensures k <= j < |hist| && hist[j].key == hist[k].key && hist[j].seqno <= seqno
    ensures forall i {:trigger hist[i]} :: j < i < |hist| && hist[i].key == hist[k].key ==> hist[i].seqno > seqno
    ensures Get(Replay(hist[..n]), hist[k].key) == Some(Encode(hist[j].details))
  {
    var first := hist[..n];
    assert first[k] == hist[k];
    j := LastWrite(first, k);
    assert first[j] == hist[j];
    HoldsLast(first, j, hist[k].key);
    assert forall i {:trigger hist[i]} :: j < i < n ==> first[i] == hist[i];
  }

  // ---------------------------------------------------------------- Commits and their trees

  /** A commit's metadata stands for the given map. */
  ghost predicate Denotes(s: Stored, d: Details, t: Tree, m: map<Key, seq<bv8>>) {
    && Sound(s, Root(d.root, d.height), t)
    && MapOf(Root(d.root, d.height), t) == m
    && (d.height > 0 ==> t.vs == DETAILS_SIZE)
    && TotalsOk(d, m)
  }

  /** The tree as it was when a commit was submitted, and how many writes it has. */
  datatype Saved = Saved(t: Tree, n: nat)

  /** The tree's blocks, and the data blocks that the writes allocated, are at addresses below the limit. */
  ghost predicate Below(t: Tree, height: nat, recs: seq<Rec>, limit: nat) {
    && (height > 0 ==> forall a {:trigger a in t.spans} :: a in t.spans ==> a < limit)
    && forall k {:trigger recs[k]} :: 0 <= k < |recs| ==> recs[k].details.devAddr < limit
  }

  /** A submitted commit has exactly the writes of commits up to it, in blocks that are never changed again and that
      are part of it or of an earlier commit. */
  ghost predicate SavedOk(s: Stored, hist: seq<Rec>, saved: seq<Saved>, i: int) {
    0 <= i < |saved| && i < |s.log.progress.done| ==>
      var d := s.log.progress.done[i].details;
      && saved[i].n <= |hist|
      && Denotes(s, d, saved[i].t.(view := s.view), Replay(hist[..saved[i].n]))
      && (d.height > 0 ==> Frozen(s, saved[i].t.(view := s.view)))
      && FirstUpTo(hist, saved[i].n, s.log.progress.done[i].seqno)
      && Below(saved[i].t, d.height, hist[..saved[i].n], AddrAfterCommit(s.log.progress.done[i]))
  }

  /** A commit's tree has a block at this address, or its writes a data block. */
  ghost predicate Leads(d: Details, saved: Saved, hist: seq<Rec>, a: nat) {
    (d.height > 0 && a in saved.t.spans) || (exists k :: 0 <= k < saved.n && k < |hist| && hist[k].details.devAddr == a)
  }

  ghost predicate StoreOk(s: Stored, t: Tree, hist: seq<Rec>, saved: seq<Saved>) {
    forall u {:trigger Look(u)} :: Look(u) ==> StoreFacts(s, t, hist, saved)
  }

  ghost predicate StoreFacts(s: Stored, t: Tree, hist: seq<Rec>, saved: seq<Saved>) {
    && |saved| == |s.log.progress.done| > 0 && s.log.progress.done[0].addr == 0
    && RecsOk(hist) && (forall k {:trigger hist[k]} :: 0 <= k < |hist| ==> hist[k].details.devAddr < s.log.next)
    && Denotes(s, CurrentCommit(s.log).details, t, Replay(hist))
    && (forall k {:trigger hist[k]} :: 0 <= k < |hist| ==> hist[k].seqno <= CurrentCommit(s.log).seqno)
    && (forall i {:trigger SavedOk(s, hist, saved, i)} :: SavedOk(s, hist, saved, i))
  }

  /** From s to s' nothing was submitted and no frozen block changed. */
  ghost predicate SameDone(s: Stored, s': Stored) {
    Later(s, s') && s'.log.progress.done == s.log.progress.done
  }

  /** Blocks become modifiable only when they are new, and stop being so only all at once. */
  ghost predicate ModMoves(s: Stored, s': Stored) {
    s'.mod == {} ||
    forall a {:trigger a in s'.mod} {:trigger a in s.mod} :: (a in s.mod ==> a in s'.mod) && (a in s'.mod ==> a in s.mod || a >= s.log.next)
  }

  lemma SameViewSound(s: Stored, s': Stored, root: Root, t: Tree)
    requires Sound(s, root, t) && s'.view == s.view && s'.sizes == s.sizes && ModMoves(s, s')
    requires forall a {:trigger a in s.view} :: a in s.view ==> a < s.log.next
    ensures Sound(s', root, t)
  {
    if root.height > 0 {
      assert TreeFacts(s, t) by {
        assert Look(0);
      }
      forall p ensures DirtyAt(t, s'.mod, p) {
        assert DirtyAt(t, s.mod, p);
        if p in t.spans && p in t.view && t.view[p].level > 0 && p !in s'.mod && s'.mod != {} {
          CleanStays(s, s', t, p);
        }
      }
    }
  }

  lemma CleanStays(s: Stored, s': Stored, t: Tree, p: Addr)
    requires TreeFacts(s, t) && ModMoves(s, s') && s'.mod != {} && DirtyAt(t, s.mod, p)
    requires forall a {:trigger a in s.view} :: a in s.view ==> a < s.log.next
    requires p in t.spans && p in t.view && t.view[p].level > 0 && p !in s'.mod
    ensures DirtyAt(t, s'.mod, p)
  {
    assert BlockOk(t, p);
    forall i | 0 <= i < |t.view[p].items| && t.view[p].items[i].val.Ref? ensures t.view[p].items[i].val.addr !in s'.mod {
      ChildFacts(t, p, i);
      assert BlockOk(t, t.view[p].items[i].val.addr);
    }
  }

  lemma FrozenStaysSound(s: Stored, s': Stored, root: Root, t: Tree)
    requires root.height > 0 && Sound(s, root, t) && Frozen(s, t) && Later(s, s')
    ensures Frozen(s', t.(view := s'.view)) && Sound(s', root, t.(view := s'.view))
  {
    SavedTreeSurvives(s, s', t);
    var t' := t.(view := s'.view);
    assert TreeFacts(s', t') && TreeFacts(s, t) by {
      assert Look(0);
    }
    assert LaterAt(s, s', t.root);
    forall p ensures DirtyAt(t', s'.mod, p) {
      if p in t'.spans && p in t'.view && t'.view[p].level > 0 {
        assert BlockOk(t', p);
        forall i | 0 <= i < |t'.view[p].items| && t'.view[p].items[i].val.Ref? ensures t'.view[p].items[i].val.addr !in s'.mod {
          ChildFacts(t', p, i);
        }
      }
    }
  }

  /** Submitted commits keep what they stand for. */
  lemma SavedKept(s: Stored, s': Stored, hist: seq<Rec>, saved: seq<Saved>, i: int)
    requires SavedOk(s, hist, saved, i) && Later(s, s')
    requires 0 <= i < |saved| ==> i < |s.log.progress.done| && i < |s'.log.progress.done| && s'.log.progress.done[i] == s.log.progress.done[i]
    ensures SavedOk(s', hist, saved, i)
  {
    if 0 <= i < |saved| {
      var d := s.log.progress.done[i].details;
      var t := saved[i].t.(view := s.view);
      if d.height > 0 {
        FrozenStaysSound(s, s', Root(d.root, d.height), t);
        assert t.(view := s'.view) == saved[i].t.(view := s'.view);
      }
    }
  }

  /** A step that neither submits a commit nor writes anything keeps the store's invariant. */
  lemma QuietStep(s: Stored, s': Stored, t: Tree, hist: seq<Rec>, saved: seq<Saved>)
    requires StoreOk(s, t, hist, saved) && SameDone(s, s') && s'.view == s.view && s'.sizes == s.sizes
    requires CurrentCommit(s'.log).details == CurrentCommit(s.log).details
    requires CurrentCommit(s'.log).seqno >= CurrentCommit(s.log).seqno && ModMoves(s, s')
    requires forall a {:trigger a in s.view} :: a in s.view ==> a < s.log.next
    ensures StoreOk(s', t, hist, saved)
  {
    assert Look(0);
    var d := CurrentCommit(s.log).details;
    SameViewSound(s, s', Root(d.root, d.height), t);
    forall i ensures SavedOk(s', hist, saved, i) {
      assert SavedOk(s, hist, saved, i);
      SavedKept(s, s', hist, saved, i);
    }
  }

  // ---------------------------------------------------------------- Submitting

  /** Once nothing may be changed, the current tree is frozen. */
  lemma AllFrozen(s: Stored, root: Root, t: Tree)
    requires root.height > 0 && Sound(s, root, t) && s.mod == {}
    requires forall a {:trigger a in s.view} :: a in s.view ==> a < s.log.next
    ensures Frozen(s, t)
  {
  }

  /** The commit handed to a write is saved with the writes that it has: all of them. */
  lemma SubmitStep(s: Stored, s': Stored, t: Tree, hist: seq<Rec>, saved: seq<Saved>)
    requires StoreOk(s, t, hist, saved) && Later(s, s') && s'.view == s.view && s'.sizes == s.sizes
    requires s.log.dirty.Some? && s'.log == Submit(s.log).(progress := s'.log.progress)
    requires s'.log.progress.done == s.log.progress.done + [s.log.dirty.value] && s'.mod == {}
    requires forall a {:trigger a in s.view} :: a in s.view ==> a < s.log.next
    requires s.log.next == AddrAfterCommit(s.log.dirty.value)
    ensures StoreOk(s', t, hist, saved + [Saved(t, |hist|)])
  {
    assert Look(0);
    var d, saved', n := CurrentCommit(s.log).details, saved + [Saved(t, |hist|)], |saved|;
    SameViewSound(s, s', Root(d.root, d.height), t);
    forall i ensures SavedOk(s', hist, saved', i) {
      assert SavedOk(s, hist, saved, i);
      SavedKept(s, s', hist, saved, i);
      if i == n {
        SubmittedIsSaved(s', t, hist, saved');
      }
    }
  }

  lemma SubmittedIsSaved(s: Stored, t: Tree, hist: seq<Rec>, saved: seq<Saved>)
    requires |saved| == |s.log.progress.done| > 0 && saved[|saved| - 1] == Saved(t, |hist|)
    requires s.log.dirty.None? && s.log.progress.done[|saved| - 1] == s.log.current && s.mod == {}
    requires Denotes(s, s.log.current.details, t, Replay(hist))
    requires forall a {:trigger a in s.view} :: a in s.view ==> a < s.log.next
    requires forall k {:trigger hist[k]} :: 0 <= k < |hist| ==> hist[k].seqno <= s.log.current.seqno
    requires s.log.next == AddrAfterCommit(s.log.current)
    requires forall k {:trigger hist[k]} :: 0 <= k < |hist| ==> hist[k].details.devAddr < s.log.next
    ensures SavedOk(s, hist, saved, |saved| - 1)
  {
    var c, all := s.log.current, hist[..|hist|];
    assert all == hist;
    SubmittedDenotes(s, t, Replay(hist), c.details);
    assert FirstUpTo(hist, |hist|, c.seqno);
    assert Below(t, c.details.height, all, AddrAfterCommit(c));
    SavedWhole(s, hist, saved, Saved(t, |hist|), c, Replay(hist));
  }

  lemma SavedWhole(s: Stored, hist: seq<Rec>, saved: seq<Saved>, last: Saved, c: Commit, m: map<Key, seq<bv8>>)
    requires |saved| == |s.log.progress.done| > 0 && saved[|saved| - 1] == last && s.log.progress.done[|saved| - 1] == c
    requires last.n == |hist| && m == Replay(hist[..last.n]) && Denotes(s, c.details, last.t.(view := s.view), m)
    requires c.details.height > 0 ==> Frozen(s, last.t.(view := s.view))
    requires FirstUpTo(hist, last.n, c.seqno) && Below(last.t, c.details.height, hist[..last.n], AddrAfterCommit(c))
    ensures SavedOk(s, hist, saved, |saved| - 1)
  {
  }

  lemma SubmittedDenotes(s: Stored, t: Tree, m: map<Key, seq<bv8>>, d: Details)
    requires s.mod == {} && Denotes(s, d, t, m)
    requires forall a {:trigger a in s.view} :: a in s.view ==> a < s.log.next
    ensures Denotes(s, d, t.(view := s.view), m)
    ensures d.height > 0 ==> Frozen(s, t.(view := s.view)) && forall a {:trigger a in t.spans} :: a in t.spans ==> a < s.log.next
  {
    if d.height > 0 {
      AllFrozen(s, Root(d.root, d.height), t);
      AllBelow(s, t);
      assert t.(view := s.view) == t;
    } else {
      EmptySound(s, t, m, d);
    }
  }

  lemma AllBelow(s: Stored, t: Tree)
    requires Frozen(s, t)
    ensures forall a {:trigger a in t.spans} :: a in t.spans ==> a < s.log.next
  {
    assert Look(0);
    forall a | a in t.spans ensures a < s.log.next {
      assert BlockOk(t, a);
    }
  }

  /** Nothing is asked of the tree of an empty root. */
  lemma EmptySound(s: Stored, t: Tree, m: map<Key, seq<bv8>>, d: Details)
    requires Denotes(s, d, t, m) && d.height == 0
    ensures Denotes(s, d, t.(view := s.view), m)
  {
  }

  // ---------------------------------------------------------------- Writing

  ghost function DetailsAfter(d: Details, root: Root, key: Key, added: bool): Details {
    Details(root.ref, root.height, d.totalAllocated + (if added then 1 else 0),
      d.totalInodes + (if added && IsInode(key) then 1 else 0))
  }

  lemma ReplayNext(hist: seq<Rec>, r: Rec)
    ensures Replay(hist + [r]) == Replay(hist)[r.key := Encode(r.details)]
  {
    assert (hist + [r])[..|hist|] == hist;
  }

  /** Saved commits do not have a later write. */
  lemma SavedWithoutNew(s: Stored, hist: seq<Rec>, r: Rec, saved: seq<Saved>, i: int)
    requires SavedOk(s, hist, saved, i)
    requires 0 <= i < |s.log.progress.done| ==> s.log.progress.done[i].seqno < r.seqno
    ensures SavedOk(s, hist + [r], saved, i)
  {
    if 0 <= i < |saved| && i < |s.log.progress.done| {
      assert (hist + [r])[..saved[i].n] == hist[..saved[i].n];
      forall k | 0 <= k < |hist + [r]| ensures k < saved[i].n <==> (hist + [r])[k].seqno <= s.log.progress.done[i].seqno {
        assert k < |hist| ==> (hist + [r])[k] == hist[k];
      }
    }
  }

  /** A write keeps the store's invariant: its record ends up in the map, the totals and the history. */
  lemma WriteStep(s: Stored, s': Stored, t: Tree, t': Tree, hist: seq<Rec>, saved: seq<Saved>, r: Rec)
    requires StoreFacts(s, t, hist, saved) && SameDone(s, s')
    requires s'.log.dirty.Some? && r.seqno == CurrentCommit(s'.log).seqno >= CurrentCommit(s.log).seqno
    requires 0 < r.details.devAddr < WORD && r.details.crc < WORD && r.details.devAddr < s'.log.next
    requires forall i {:trigger s.log.progress.done[i]} :: 0 <= i < |s.log.progress.done| ==> s.log.progress.done[i].seqno < r.seqno
    requires var d, d' := CurrentCommit(s.log).details, CurrentCommit(s'.log).details;
      && d' == DetailsAfter(d, Root(d'.root, d'.height), r.key, r.key !in Replay(hist))
      && Sound(s', Root(d'.root, d'.height), t') && (d'.height > 0 ==> t'.vs == DETAILS_SIZE)
      && MapOf(Root(d'.root, d'.height), t') == Replay(hist)[r.key := Encode(r.details)]
    ensures StoreFacts(s', t', hist + [r], saved)
  {
    ReplayNext(hist, r);
    TotalsCount(Replay(hist), r.key, Encode(r.details));
    SavedWithNew(s, s', hist, saved, r);
    RecsWithNew(hist, r, s.log.next, CurrentCommit(s.log).seqno, s'.log.next, CurrentCommit(s'.log).seqno);
  }

  lemma RecsWithNew(hist: seq<Rec>, r: Rec, limit: nat, seqno: int, limit': nat, seqno': int)
    requires RecsOk(hist) && 0 < r.details.devAddr < WORD && r.details.crc < WORD && limit <= limit' && seqno <= seqno'
    requires r.details.devAddr < limit' && r.seqno <= seqno'
    requires forall k {:trigger hist[k]} :: 0 <= k < |hist| ==> hist[k].details.devAddr < limit && hist[k].seqno <= seqno
    ensures RecsOk(hist + [r])
    ensures forall k {:trigger (hist + [r])[k]} :: 0 <= k < |hist| + 1 ==>
      (hist + [r])[k].details.devAddr < limit' && (hist + [r])[k].seqno <= seqno'
  {
    var hist' := hist + [r];
    forall k | 0 <= k < |hist'| ensures hist'[k] == if k < |hist| then hist[k] else r {
    }
  }

  lemma SavedWithNew(s: Stored, s': Stored, hist: seq<Rec>, saved: seq<Saved>, r: Rec)
    requires |saved| == |s.log.progress.done| && SameDone(s, s')
    requires forall i {:trigger SavedOk(s, hist, saved, i)} :: SavedOk(s, hist, saved, i)
    requires forall i {:trigger s.log.progress.done[i]} :: 0 <= i < |s.log.progress.done| ==> s.log.progress.done[i].seqno < r.seqno
    ensures forall i {:trigger SavedOk(s', hist + [r], saved, i)} :: SavedOk(s', hist + [r], saved, i)
  {
    forall i ensures SavedOk(s', hist + [r], saved, i) {
      assert SavedOk(s, hist, saved, i);
      SavedKept(s, s', hist, saved, i);
      SavedWithoutNew(s', hist, r, saved, i);
    }
  }

  // ---------------------------------------------------------------- The store

  /** The log store changed on its own account, and at most made new blocks modifiable. */
  ghost predicate LogStep(s: Stored, s': Stored) {
    && s' == s.(log := s'.log, mod := s'.mod)
    && s.log.next <= s'.log.next
    && forall a {:trigger a in s'.mod} {:trigger a in s.mod} :: (a in s'.mod ==> a in s.mod || a >= s.log.next) && (a in s.mod ==> a in s'.mod)
  }

  lemma LogStepIsLater(s: Stored, s': Stored)
    requires LogStep(s, s')
    requires forall a {:trigger a in s.view} :: a in s.view ==> a < s.log.next
    ensures Later(s, s')
  {
    forall a ensures LaterAt(s, s', a) {
    }
  }

  lemma FormattedStoreOk(s: Stored, t: Tree, saved: seq<Saved>)
    requires s.log.dirty.None? && s.log.current == Commit(0, 1, [], Details(0, 0, 0, 0)) && s.log.progress.done == [s.log.current]
    requires saved == [Saved(t, 0)]
    ensures StoreOk(s, t, [], saved)
  {
    assert InodeKeys(map[]) == {};
    forall i ensures SavedOk(s, [], saved, i) {
    }
  }

  lemma SubmitIsLater(s: Stored, s': Stored)
    requires s' == s.(log := s'.log, mod := {}) && s.log.next == s'.log.next
    requires forall a {:trigger a in s.view} :: a in s.view ==> a < s.log.next
    ensures Later(s, s')
  {
    forall a ensures LaterAt(s, s', a) {
    }
  }

  lemma ReadingKeeps(s: Stored, s': Stored, t: Tree, hist: seq<Rec>, saved: seq<Saved>)
    requires StoreOk(s, t, hist, saved) && s' == s.(visited := s'.visited)
    requires forall a {:trigger a in s.view} :: a in s.view ==> a < s.log.next
    ensures StoreOk(s', t, hist, saved)
  {
    forall a ensures LaterAt(s, s', a) {
    }
    QuietStep(s, s', t, hist, saved);
  }

  /** A data block's address is within a word, and not the device's first. */
  lemma DataAddr(l: Log, addr: nat)
    requires l.dirty.Some? && addr == AllocDirtyAddr(l) && l.next + 2 * LogLayout.BLOCK_SIZE <= WORD && l.next > 0
    ensures 0 < addr < WORD
  {
  }

  /** New metadata in the open commit, which is to be written; one more change. */
  ghost function Finished(l: Log, d: Details): Log
    requires l.dirty.Some?
  {
    LogLayout.SetDetails(l, d).(progress := l.progress.(scheduled := true, dirtySeq := l.progress.dirtySeq + 1))
  }

  /** What the log's layout says of a state: blocks are below the next address, submitted commits before the open one. */
  ghost predicate Settled(s: Stored) {
    forall u {:trigger Look(u)} :: Look(u) ==> SettledFacts(s)
  }

  ghost predicate SettledFacts(s: Stored) {
    && (s.log.dirty.Some? ==> s.log.next == AddrAfterCommit(s.log.dirty.value))
    && (forall a {:trigger a in s.view} :: a in s.view ==> a < s.log.next)
    && s.log.next > 0 && s.log.nextSeq > CurrentCommit(s.log).seqno
    && (s.log.dirty.Some? ==> forall i {:trigger s.log.progress.done[i]} ::
        0 <= i < |s.log.progress.done| ==> s.log.progress.done[i].seqno < s.log.dirty.value.seqno)
  }

  /** A block's details put in the tree: the tree before and after, and the metadata before and after. */
  datatype Mapping = Mapping(t: Tree, root: Root, t': Tree, root': Root, key: Key, ldet: BlockDetails, d: Details, d': Details, n: nat)

  /** The block is allocated up to s1, and mapped up to s2. */
  ghost predicate Mapped(s: Stored, s1: Stored, s2: Stored, m: Mapping) {
    forall u {:trigger Look(u)} :: Look(u) ==> MappedFacts(s, s1, s2, m)
  }

  ghost predicate MappedFacts(s: Stored, s1: Stored, s2: Stored, m: Mapping) {
    && s.log.dirty.Some? && LogStep(s, s1) && s1.log == LogLayout.AllocDirty(s.log, DATA)
    && Changes(s1, m.root, m.t, s2, m.root', m.t', m.key, m.n)
    && (forall a {:trigger a in s2.view} :: a in s2.view ==> a < s2.log.next)
    && m.ldet.devAddr == AllocDirtyAddr(s.log) && 0 < m.ldet.devAddr < WORD
    && MapOf(m.root', m.t') == MapOf(m.root, m.t)[m.key := Encode(m.ldet)] && m.t'.vs == DETAILS_SIZE
    && m.d' == DetailsAfter(m.d, m.root', m.key, m.key !in MapOf(m.root, m.t))
  }

  lemma MappedIf(s: Stored, s1: Stored, s2: Stored, m: Mapping)
    requires MappedFacts(s, s1, s2, m)
    ensures Mapped(s, s1, s2, m) && s2.log.dirty.Some?
  {
  }

  /** The metadata is in the open commit, which is to be written. */
  ghost predicate Recorded(s2: Stored, s3: Stored, d: Details, seqno: nat) {
    forall u {:trigger Look(u)} :: Look(u) ==> s2.log.dirty.Some? && LogStep(s2, s3) && s3.log == Finished(s2.log, d) && seqno == s2.log.dirty.value.seqno
  }

  /** The block at an address has been allocated for data. */
  predicate IsData(s: Stored, addr: nat) {
    addr in s.log.blocks && s.log.blocks[addr] == Other(DATA)
  }

  /** What recording a block does, from its parts: allocate it, replace its details in the tree, record the
      root and the totals, and have the commit written. */
  lemma RecordSteps(s: Stored, s1: Stored, s2: Stored, s3: Stored, m: Mapping, seqno: nat, hist: seq<Rec>, saved: seq<Saved>)
    requires StoreOk(s, m.t, hist, saved) && Settled(s) && Mapped(s, s1, s2, m) && Recorded(s2, s3, m.d', seqno)
    requires m.d == CurrentCommit(s.log).details && m.root == Root(m.d.root, m.d.height) && m.ldet.crc < WORD
    ensures StoreOk(s3, m.t', hist + [Rec(m.key, m.ldet, seqno)], saved)
    ensures s.log.dirty.Some? && seqno == s.log.dirty.value.seqno && m.ldet.devAddr == AllocDirtyAddr(s.log)
    ensures IsData(s3, m.ldet.devAddr) && m.ldet.devAddr >= s.log.next
  {
    assert Look(0);
    DirtyIsThere(s.log, DATA);
    BlockStays(s1.log, m.n, m.ldet.devAddr);
    AllocDirtyKeepsCommit(s.log, DATA);
    AllocBtreeKeepsCommit(s1.log, m.n);
    LogStepIsLater(s, s1);
    StepIsLater(s1, s2, m.n);
    LogStepIsLater(s2, s3);
    LaterTrans(s, s1, s2);
    LaterTrans(s, s2, s3);
    SameViewSound(s2, s3, m.root', m.t');
    WriteStep(s, s3, m.t, m.t', hist, saved, Rec(m.key, m.ldet, seqno));
  }

  lemma NothingReplaced(m: map<Key, seq<bv8>>, key: Key, oldVal: Option<seq<bv8>>)
    requires ValuesOk(m) && oldVal == Get(m, key)
    ensures oldVal.Some? ==> |oldVal.value| == DETAILS_SIZE && Decode(oldVal.value).devAddr > 0
    ensures oldVal.None? <==> key !in m
  {
    assert key in m ==> Decode(m[key]).devAddr > 0;
  }

  /** Puts a block's details in the tree and adjusts the totals by whether there were any. */
  method ReplaceDetails(cache: Cache, root: Root, ghost t: Tree, key: Key, ldet: BlockDetails, d: Details)
      returns (root': Root, d': Details, ghost t': Tree, ghost n: nat)
    requires cache.Valid() && cache.st.log.dirty.Some? && Sound(cache.st, root, t)
    requires ValuesOk(MapOf(root, t)) && (root.height > 0 ==> t.vs == DETAILS_SIZE)
    requires 0 < ldet.devAddr
    modifies cache.repr
    ensures cache.Valid() && fresh(cache.repr - old(cache.repr))
    ensures Changes(old(cache.st), root, t, cache.st, root', t', key, n)
    ensures MapOf(root', t') == MapOf(root, t)[key := Encode(ldet)] && t'.vs == DETAILS_SIZE
    ensures d' == DetailsAfter(d, root', key, key !in MapOf(root, t))
  {
    var ret, oldVal;
    ret, oldVal, root', t', n := TreeReplace(cache, root, t, key, Encode(ldet));
    NothingReplaced(MapOf(root, t), key, oldVal);
    var oldAddr := if oldVal.Some? then Decode(oldVal.value).devAddr else 0;
    var change := (if ldet.devAddr == 0 then 0 else 1) - (if oldAddr == 0 then 0 else 1);
    d' := d.(root := root'.ref, height := root'.height);
    if change != 0 {
      d' := d'.(totalAllocated := d'.totalAllocated + change);
      if IsInode(key) {
        d' := d'.(totalInodes := d'.totalInodes + change);
      }
    }
  }

  class Store {
    const cache: Cache
    /** The current tree, every successful write so far, and what the submitted commits stand for. */
    ghost var t: Tree
    ghost var hist: seq<Rec>
    ghost var saved: seq<Saved>

    ghost predicate Valid()
      reads this, cache, cache.repr
    {
      && this !in cache.repr && cache.Valid()
      && StoreOk(cache.st, t, hist, saved)
    }

    /** The store of a freshly formatted device. */
    constructor Formatted()
      ensures Valid() && fresh(cache) && fresh(cache.repr) && hist == []
    {
      var log := new LogStore.LogStore.Formatted();
      var c := new Cache(log);
      cache := c;
      t, hist, saved := Tree(map[], 0, 0, map[], map[], 0, 0, 0), [], [Saved(Tree(map[], 0, 0, map[], map[], 0, 0, 0), 0)];
      new;
      FormattedStoreOk(cache.st, t, saved);
    }

    // -------------------------------------------------------------- Steps of the log store

    method OpenCommit()
      requires cache.Valid()
      modifies cache`st, cache.log, cache.log.blk
      ensures cache.Valid() && LogStep(old(cache.st), cache.st) && cache.st.log == StartCommit(old(cache.st).log)
    {
      assert Look(0);
      label L:
      cache.log.StartDirtyCommit();
      cache.LogAlone@L();
      cache.Sync();
    }

    method AllocData() returns (addr: nat)
      requires cache.Valid() && cache.st.log.dirty.Some?
      modifies cache`st, cache.log, cache.log.blk
      ensures cache.Valid() && LogStep(old(cache.st), cache.st) && cache.st.log == LogLayout.AllocDirty(old(cache.st).log, DATA)
      ensures addr == AllocDirtyAddr(old(cache.st).log)
    {
      assert Look(0);
      label L:
      addr := cache.log.AllocDirty(DATA);
      cache.LogAlone@L();
      cache.Sync();
    }

    method PutDetails(d: Details)
      requires cache.Valid() && cache.st.log.dirty.Some?
      modifies cache`st, cache.log
      ensures cache.Valid() && LogStep(old(cache.st), cache.st) && cache.st.log == LogLayout.SetDetails(old(cache.st).log, d)
    {
      assert Look(0);
      label L:
      cache.log.SetDetails(d);
      cache.LogAlone@L();
      cache.Sync();
    }

    method FinishDirtySync() returns (seqno: nat)
      requires cache.Valid() && cache.st.log.dirty.Some?
      modifies cache`st, cache.log
      ensures cache.Valid() && LogStep(old(cache.st), cache.st) && seqno == old(cache.st).log.dirty.value.seqno
      ensures var was := old(cache.st).log;
        cache.st.log == was.(progress := was.progress.(scheduled := true, dirtySeq := was.progress.dirtySeq + 1))
    {
      assert Look(0);
      label L:
      seqno := cache.log.FinishDirtySync();
      cache.LogAlone@L();
      cache.Sync();
    }

    // -------------------------------------------------------------- Writing commits

    /** The write task submits the open commit. */
    method BeginWrite() returns (seqno: nat)
      requires Valid() && cache.log.writeScheduled
      modifies this`saved, cache`st, cache.log, cache.log.blk
      ensures Valid() && cache.log.dirtyCmt.None? && seqno == cache.log.currentCmt.seqno && seqno in cache.log.writes
      ensures old(cache.st).log.dirty.Some? && cache.log.currentCmt == old(cache.st).log.dirty.value
      ensures cache.log.nextDevAddr == old(cache.log.nextDevAddr) && cache.log.nextCommitSeq == old(cache.log.nextCommitSeq)
      ensures saved == old(saved) + [Saved(t, |hist|)]
    {
      assert Look(0);
      ghost var s := cache.st;
      cache.Below();
      OpenCommitEnds();
      label L:
      seqno := cache.log.BeginWrite();
      cache.LogAlone@L();
      cache.Sync();
      SubmitIsLater(s, cache.st);
      SubmitStep(s, cache.st, t, hist, saved);
      saved := saved + [Saved(t, |hist|)];
      CacheLog();
    }

    /** What the cache knows of the log store is so. */
    lemma CacheLog()
      requires cache.Valid()
      ensures cache.st.log == cache.log.State() && cache.log.Valid() && cache.st.mod == cache.log.blk.Modifiable()
    {
      assert Look(0);
    }

    /** The open commit's blocks end where the next one goes. */
    lemma OpenCommitEnds()
      requires cache.Valid()
      ensures cache.st.log.dirty.Some? ==> cache.st.log.next == AddrAfterCommit(cache.st.log.dirty.value)
    {
      CacheLog();
      cache.log.StableIsFinished();
    }

    lemma CacheSettled()
      requires cache.Valid()
      ensures Settled(cache.st) && cache.st.log.next > 0 && cache.st.log.nextSeq > CurrentCommit(cache.st.log).seqno
    {
      cache.Below();
      OpenCommitEnds();
      CacheLog();
      cache.log.StableIsFinished();
      DoneBeforeDirty(cache.st.log, cache.st.log.progress.done);
    }

    /** The device has written a commit's blocks. */
    method CompleteIo(seqno: nat)
      requires Valid() && seqno in cache.log.writes
      modifies cache`st, cache.log
      ensures Valid()
      ensures cache.log.writes == old(cache.log.writes)[seqno := old(cache.log.writes)[seqno].(ioDone := true)]
    {
      assert Look(0);
      ghost var s := cache.st;
      cache.Below();
      label L:
      cache.log.CompleteIo(seqno);
      cache.LogAlone@L();
      cache.Sync();
      LogStepIsLater(s, cache.st);
      QuietStep(s, cache.st, t, hist, saved);
    }

    /** A write task whose turn has come makes its commit the stable one. */
    method FinishCommitWrite(seqno: nat) returns (finished: bool)
      requires Valid() && seqno in cache.log.writes && cache.log.writes[seqno].ioDone
      modifies cache`st, cache.log, cache.log.blk
      ensures Valid()
      ensures finished <==> seqno == old(cache.log.finishedCommitSeq) + 1
      ensures cache.log.finishedCommitSeq == if finished then seqno else old(cache.log.finishedCommitSeq)
    {
      assert Look(0);
      ghost var s := cache.st;
      cache.Below();
      label L:
      finished := cache.log.FinishCommitWrite(seqno);
      cache.LogAlone@L();
      cache.Sync();
      LogStepIsLater(s, cache.st);
      QuietStep(s, cache.st, t, hist, saved);
      CacheLog();
    }

    // -------------------------------------------------------------- Writing blocks

    /** Reads what recording the key will read; changes nothing. */
    method Prepare(root: Root, key: Key)
      requires Valid() && root == Root(CurrentCommit(cache.st.log).details.root, CurrentCommit(cache.st.log).details.height)
      modifies cache`st
      ensures Valid() && cache.st == old(cache.st).(visited := cache.st.visited)
    {
      assert Look(0);
      if root.height > 0 {
        ghost var s := cache.st;
        cache.Below();
        var a, ind, cmp := WalkRead(cache, root, t, key);
        LogStepIsLater(s, cache.st.(visited := s.visited));
        ReadingKeeps(s, cache.st, t, hist, saved);
      }
    }

    /** A commit is open, and has room for that many blocks: a commit block has room for 249 entries. */
    ghost predicate FitsOpen(blocks: nat)
      reads cache, cache.log
    {
      cache.log.dirtyCmt.Some? && blocks + |cache.log.dirtyCmt.value.entries| <= 249
    }

    /** Has the open commit written if a reservation does not fit it any more. */
    method MakeRoom(blocks: nat)
      requires Valid()
      modifies this`saved, cache`st, cache.log, cache.log.blk
      ensures Valid() && cache.log.nextDevAddr == old(cache.log.nextDevAddr)
      ensures CurrentCommit(cache.log.State()).details == old(CurrentCommit(cache.log.State()).details)
      ensures cache.log.dirtyCmt == (if old(FitsOpen(blocks)) then old(cache.log.dirtyCmt) else None) && cache.log.nextCommitSeq == old(cache.log.nextCommitSeq)
    {
      if cache.log.dirtyCmt.Some? && blocks + |cache.log.dirtyCmt.value.entries| > MAX_ENTRIES {
        ScheduleWrite();
        CacheLog();
        var _ := BeginWrite();
      }
    }

    method ScheduleWrite()
      requires Valid() && cache.log.dirtyCmt.Some?
      modifies cache`st, cache.log
      ensures Valid() && cache.log.writeScheduled && cache.log.nextDevAddr == old(cache.log.nextDevAddr)
      ensures cache.log.dirtyCmt == old(cache.log.dirtyCmt) && cache.log.nextCommitSeq == old(cache.log.nextCommitSeq)
      ensures cache.st == old(cache.st).(log := cache.st.log)
    {
      assert Look(0);
      ghost var s := cache.st;
      cache.Below();
      label L:
      cache.log.ScheduleWrite();
      cache.LogAlone@L();
      cache.Sync();
      LogStepIsLater(s, cache.st);
      QuietStep(s, cache.st, t, hist, saved);
      CacheLog();
    }

    /** Opens a commit for a writer. */
    method StartWrite()
      requires Valid()
      modifies cache`st, cache.log, cache.log.blk
      ensures Valid() && cache.st.log.dirty.Some?
      ensures cache.st == old(cache.st).(log := cache.st.log, mod := cache.st.mod)
      ensures cache.st.log == StartCommit(old(cache.st).log)
    {
      assert Look(0);
      ghost var s := cache.st;
      cache.Below();
      CacheSettled();
      OpenCommit();
      LogStepIsLater(s, cache.st);
      QuietStep(s, cache.st, t, hist, saved);
    }

    /** Allocates a data block, which leaves the tree as it was. */
    method AllocBeside(root: Root) returns (addr: nat)
      requires cache.Valid() && cache.st.log.dirty.Some? && Sound(cache.st, root, t)
      requires 0 < cache.st.log.next && cache.st.log.next + 2 * LogLayout.BLOCK_SIZE <= WORD
      modifies cache`st, cache.log, cache.log.blk
      ensures cache.Valid() && Sound(cache.st, root, t) && 0 < addr < WORD
      ensures LogStep(old(cache.st), cache.st) && cache.st.log == LogLayout.AllocDirty(old(cache.st).log, DATA)
      ensures addr == AllocDirtyAddr(old(cache.st).log)
    {
      ghost var s := cache.st;
      cache.Below();
      addr := AllocData();
      DataAddr(s.log, addr);
      SameViewSound(s, cache.st, root, t);
    }

    /** Allocates a data block and puts its address in the tree. */
    method MapData(root: Root, key: Key, crc: nat, d: Details) returns (d': Details, ghost s1: Stored, ghost m: Mapping)
      requires this !in cache.repr && cache.Valid() && cache.st.log.dirty.Some? && Sound(cache.st, root, t)
      requires ValuesOk(MapOf(root, t)) && (root.height > 0 ==> t.vs == DETAILS_SIZE)
      requires 0 < cache.st.log.next && cache.st.log.next + 2 * LogLayout.BLOCK_SIZE <= WORD
      modifies cache.repr
      ensures cache.Valid() && fresh(cache.repr - old(cache.repr))
      ensures Mapped(old(cache.st), s1, cache.st, m) && cache.st.log.dirty.Some?
      ensures m.t == t && m.root == root && m.key == key && m.d == d && m.d' == d' && m.ldet.crc == crc
    {
      ghost var s := cache.st;
      CacheLog();
      var devAddr := AllocBeside(root);
      s1 := cache.st;
      var root';
      ghost var t', n;
      root', d', t', n := ReplaceDetails(cache, root, t, key, BlockDetails(devAddr, crc), d);
      cache.Below();
      m := Mapping(t, root, t', root', key, BlockDetails(devAddr, crc), d, d', n);
      MappedIf(s, s1, cache.st, m);
    }

    /** Records new metadata in the open commit and has it written. */
    method FinishRecord(d: Details) returns (seqno: nat)
      requires cache.Valid() && cache.st.log.dirty.Some?
      modifies cache`st, cache.log
      ensures cache.Valid() && Recorded(old(cache.st), cache.st, d, seqno)
    {
      PutDetails(d);
      seqno := FinishDirtySync();
    }

    lemma TreeFacts()
      requires Valid()
      ensures Denotes(cache.st, CurrentCommit(cache.st.log).details, t, Replay(hist)) && ValuesOk(Replay(hist))
    {
      assert Look(0);
      ReplayValuesOk(hist);
    }

    /** Maps a new data block, and has the commit with it written. */
    method MapAndFinish(key: Key, crc: nat) returns (seqno: nat, ghost m: Mapping)
      requires Valid() && cache.st.log.dirty.Some? && crc < WORD
      requires cache.st.log.next + 2 * LogLayout.BLOCK_SIZE <= WORD
      modifies cache.repr
      ensures cache.Valid() && fresh(cache.repr - old(cache.repr))
      ensures StoreOk(cache.st, m.t', hist + [Rec(key, m.ldet, seqno)], saved)
      ensures m.ldet == BlockDetails(AllocDirtyAddr(old(cache.st).log), crc) && seqno == old(cache.st).log.dirty.value.seqno
      ensures IsData(cache.st, m.ldet.devAddr) && m.ldet.devAddr >= old(cache.st.log.next)
    {
      TreeFacts();
      ghost var s, s1 := cache.st, cache.st;
      CacheSettled();
      var d := cache.log.CurrentDetails();
      CacheLog();
      d, s1, m := MapData(Root(d.root, d.height), key, crc, d);
      ghost var s2 := cache.st;
      seqno := FinishRecord(d);
      RecordSteps(s, s1, s2, cache.st, m, seqno, hist, saved);
    }

    /** What was valid in the cache stays so while only this store's own fields change. */
    twostate lemma CacheAlone()
      requires old(cache.Valid()) && this !in old(cache.repr)
      requires unchanged(cache) && forall o {:trigger o in cache.repr} :: o in cache.repr ==> unchanged(o)
      requires StoreOk(cache.st, t, hist, saved)
      ensures Valid()
    {
      assert cache.Valid();
    }

    /** Records a new data block under a key. */
    method Record(key: Key, crc: nat) returns (seqno: nat, ghost addr: nat)
      requires Valid() && cache.st.log.dirty.Some? && crc < WORD
      requires cache.st.log.next + 2 * LogLayout.BLOCK_SIZE <= WORD
      modifies this`t, this`hist, cache.repr
      ensures Valid() && fresh(cache.repr - old(cache.repr))
      ensures hist == old(hist) + [Rec(key, BlockDetails(addr, crc), seqno)]
      ensures addr == AllocDirtyAddr(old(cache.st).log) && seqno == old(cache.st).log.dirty.value.seqno
      ensures IsData(cache.st, addr) && addr >= old(cache.st.log.next)
    {
      ghost var m;
      seqno, m := MapAndFinish(key, crc);
      label L:
      t, hist, addr := m.t', hist + [Rec(key, m.ldet, seqno)], m.ldet.devAddr;
      CacheAlone@L();
    }

    /** The number of the commit that a write of so many blocks will be in. */
    ghost function NextWrites(blocks: nat): nat
      reads cache, cache.log
    {
      if FitsOpen(blocks) then cache.log.dirtyCmt.value.seqno else cache.log.nextCommitSeq
    }

    /** Gets ready to record a key: reads what that will read, and opens a commit that the blocks fit in. */
    method PrepareDirty(key: Key) returns (ret: Errno)
      requires Valid()
      modifies this`saved, cache`st, cache.log, cache.log.blk
      ensures Valid()
      ensures ret == if 2 + 2 * old(CurrentCommit(cache.st.log).details.height) > 248 then EINVAL else OK
      ensures ret == OK ==> cache.st.log.dirty.Some? && old(cache.st.log.next) <= cache.st.log.next <= old(cache.st.log.next) + LogLayout.BLOCK_SIZE
      ensures ret == OK ==> cache.st.log.dirty.value.seqno == old(NextWrites(2 + 2 * CurrentCommit(cache.st.log).details.height))
    {
      CacheLog();
      var d := cache.log.CurrentDetails();
      Prepare(Root(d.root, d.height), key);
      if Reserved(d.height) > RSV_MAX_BLOCKS {
        return EINVAL;
      }
      CacheLog();
      MakeRoom(Reserved(d.height));
      CacheLog();
      StartWrite();
      return OK;
    }

    /**
     Writes a block: checks its contents, gives it a new place in the log, and records that. The
     write is on the device for good once the commit with the returned number is finished.
     */
    method Write(crcTable: seq<bv64>, key: Key, data: seq<bv8>, crc: nat) returns (ret: Errno, seqno: nat, ghost addr: nat)
      requires Valid() && crc < WORD && Crc64.IsReflectedTable(Crc64.NVME_POLY, crcTable)
      requires cache.st.log.next + 3 * LogLayout.BLOCK_SIZE <= WORD
      modifies this, cache.repr
      ensures Valid() && fresh(cache.repr - old(cache.repr))
      ensures ret ==
        if key < WORD * WORD || 2 + 2 * old(CurrentCommit(cache.st.log).details.height) > 248 then EINVAL
        else if Crc64.Nvme(0, data) as nat != crc then EIO
        else OK
      ensures ret == OK ==> hist == old(hist) + [Rec(key, BlockDetails(addr, crc), seqno)]
      ensures ret == OK ==> seqno == old(NextWrites(2 + 2 * CurrentCommit(cache.st.log).details.height))
      ensures ret == OK ==> IsData(cache.st, addr) && addr >= old(cache.st.log.next)
      ensures ret != OK ==> hist == old(hist)
    {
      ret, seqno, addr := EINVAL, 0, 0;
      DevAddrIsLow(key);
      if !IsDevAddrKey(key) {
        ret := PrepareDirty(key);
        if ret == OK {
          var sum := Crc64.CrcNvme(crcTable, 0, data);
          if sum as nat != crc {
            ret := EIO;
          } else {
            seqno, addr := Record(key, crc);
          }
        }
      }
    }

    // -------------------------------------------------------------- What is current

    /** The current commit stands for all writes: its root finds under each key the details that were written last. */
    lemma CurrentHolds()
      requires Valid()
      ensures var d := CurrentCommit(cache.st.log).details;
        && TotalsOk(d, Replay(hist))
        && forall key: Key {:trigger Replay(hist)[key]} {:trigger FindFrom(cache.st.view, Root(d.root, d.height), key)} ::
          FindFrom(cache.st.view, Root(d.root, d.height), key) == Get(Replay(hist), key)
    {
      assert Look(0);
      var d := CurrentCommit(cache.st.log).details;
      forall key: Key ensures FindFrom(cache.st.view, Root(d.root, d.height), key) == Get(Replay(hist), key) {
        if d.height > 0 {
          RootDenotesContents(cache.st, t, key);
        }
      }
    }

    // -------------------------------------------------------------- What is stable

    /**
     The stable commit stands for exactly the writes of all commits up to the finished one: the first n
     of them. Its tree is readable, and holds for each key the details that those writes left.
     */
    lemma StableHolds() returns (n: nat)
      requires Valid()
      ensures FirstUpTo(hist, n, cache.log.finishedCommitSeq)
      ensures var d := cache.log.stableCmt.details;
        && TotalsOk(d, Replay(hist[..n]))
        && forall key: Key {:trigger Replay(hist[..n])[key]} {:trigger FindFrom(cache.st.view, Root(d.root, d.height), key)} ::
          FindFrom(cache.st.view, Root(d.root, d.height), key) == Get(Replay(hist[..n]), key)
    {
      var i := StableSaved();
      n := saved[i].n;
      var d, t' := cache.log.stableCmt.details, saved[i].t.(view := cache.st.view);
      forall key: Key ensures FindFrom(cache.st.view, Root(d.root, d.height), key) == Get(Replay(hist[..n]), key) {
        if d.height > 0 {
          RootDenotesContents(cache.st, t', key);
        }
      }
    }

    /** Which of the submitted commits the stable one is. */
    lemma StableSaved() returns (i: nat)
      requires Valid()
      ensures i < |saved| && saved[i].n <= |hist| && FirstUpTo(hist, saved[i].n, cache.log.finishedCommitSeq)
      ensures Denotes(cache.st, cache.log.stableCmt.details, saved[i].t.(view := cache.st.view), Replay(hist[..saved[i].n]))
      ensures i < |cache.log.done| && cache.log.stableCmt == cache.log.done[i]
      ensures ValuesOk(Replay(hist[..saved[i].n]))
    {
      CacheLog();
      cache.log.StableIsFinished();
      i := cache.log.finishedCommitSeq - cache.log.done[0].seqno;
      SavedAt(i);
    }

    lemma SavedAt(i: nat)
      requires Valid() && i < |cache.st.log.progress.done|
      ensures |saved| == |cache.st.log.progress.done| && SavedOk(cache.st, hist, saved, i)
      ensures saved[i].n <= |hist| ==> ValuesOk(Replay(hist[..saved[i].n]))
    {
      assert Look(0);
      if saved[i].n <= |hist| {
        assert RecsOk(hist[..saved[i].n]);
        ReplayValuesOk(hist[..saved[i].n]);
      }
    }

    /**
     Once a writer's commit is finished the stable root has its write, or a later one under the same key: the
     last one of all commits that are finished.
     */
    lemma FinishedIsStable(k: nat) returns (j: nat)
      requires Valid() && k < |hist| && cache.log.IsFinished(hist[k].seqno)
      ensures k <= j < |hist| && hist[j].key == hist[k].key && cache.log.IsFinished(hist[j].seqno)
      ensures forall i :: j < i < |hist| && hist[i].key == hist[k].key ==> !cache.log.IsFinished(hist[i].seqno)
      ensures var d := cache.log.stableCmt.details;
        FindFrom(cache.st.view, Root(d.root, d.height), hist[k].key) == Some(Encode(hist[j].details))
    {
      var n := StableHolds();
      j := LastUpTo(hist, n, cache.log.finishedCommitSeq, k);
      var d := cache.log.stableCmt.details;
      assert FindFrom(cache.st.view, Root(d.root, d.height), hist[k].key) == Get(Replay(hist[..n]), hist[k].key);
    }

    /** Every block of the stable tree, and every data block written up to it, is in a commit that has been written. */
    lemma StableIsWritten(a: nat) returns (i: nat, j: nat)
      requires Valid()
      ensures i < |saved| && saved[i].n <= |hist| && FirstUpTo(hist, saved[i].n, cache.log.finishedCommitSeq)
      ensures i < |cache.log.done| && cache.log.stableCmt == cache.log.done[i]
      ensures Leads(cache.log.stableCmt.details, saved[i], hist, a) ==>
        && j < |cache.log.done| && cache.log.done[j].addr <= a < AddrAfterCommit(cache.log.done[j])
        && cache.log.IsFinished(cache.log.done[j].seqno) && cache.log.done[j].seqno !in cache.log.writes
    {
      j := 0;
      i := StableSaved();
      CacheLog();
      cache.log.StableIsFinished();
      SavedAt(i);
      if Leads(cache.log.stableCmt.details, saved[i], hist, a) {
        if k :| 0 <= k < saved[i].n && k < |hist| && hist[k].details.devAddr == a {
          assert hist[..saved[i].n][k] == hist[k];
        }
        j := InCommit(i, a);
      }
    }

    /** An address before the end of a submitted commit is in it or in an earlier one. */
    lemma InCommit(i: nat, a: nat) returns (j: nat)
      requires Valid() && i < |cache.log.done| && a < AddrAfterCommit(cache.log.done[i]) && cache.log.stableCmt == cache.log.done[i]
      ensures j < |cache.log.done| && cache.log.done[j].addr <= a < AddrAfterCommit(cache.log.done[j])
      ensures cache.log.IsFinished(cache.log.done[j].seqno) && cache.log.done[j].seqno !in cache.log.writes
    {
      CacheLog();
      FirstAtZero();
      cache.log.StableIsFinished();
      var l, done := cache.log.State(), cache.log.done;
      var chain := Chain(l, done);
      assert forall x :: 0 <= x < |done| ==> chain[x] == done[x];
      EndsBelow(l, done, i);
      j := CommitsTile(l, done, a);
      if j > i {
        InOrder(l, done, i, j);
        assert false;
      }
      SeqnoCounts(l, done, i);
      SeqnoCounts(l, done, j);
      cache.log.FinishedIsWritten(done[j].seqno);
    }

    lemma FirstAtZero()
      requires Valid()
      ensures cache.st.log.progress.done != [] && cache.st.log.progress.done[0].addr == 0
    {
      assert Look(0);
    }

    lemma SameFirst(n: nat, m: nat, seqno: nat)
      requires FirstUpTo(hist, n, seqno) && FirstUpTo(hist, m, seqno)
      ensures n == m
    {
      assert n < |hist| ==> hist[n].seqno > seqno;
      assert m < |hist| ==> hist[m].seqno > seqno;
    }

    /** Looks a key up in the stable tree. */
    method LookUpStable(key: Key, ghost n: nat) returns (ret: Errno, val: seq<bv8>)
      requires Valid() && FirstUpTo(hist, n, cache.log.finishedCommitSeq)
      modifies cache`st
      ensures Valid() && cache.st == old(cache.st).(visited := cache.st.visited)
      ensures ret == if key in Replay(hist[..n]) then OK else ENOENT
      ensures ret == OK ==> |Replay(hist[..n])[key]| == DETAILS_SIZE && val == Replay(hist[..n])[key]
    {
      ghost var i := StableSaved();
      SameFirst(n, saved[i].n, cache.log.finishedCommitSeq);
      var d := cache.log.stableCmt.details;
      ghost var s := cache.st;
      cache.Below();
      ret, val := Lookup(cache, Root(d.root, d.height), saved[i].t.(view := cache.st.view), key, DETAILS_SIZE);
      ReadingKeeps(s, cache.st, t, hist, saved);
      assert ret == OK ==> |Replay(hist[..n])[key]| == DETAILS_SIZE;
    }

    /** Looks a block up in the stable tree, which the first n writes have made. */
    method Read(key: Key, ghost n: nat) returns (ret: Errno, ldet: BlockDetails)
      requires Valid() && FirstUpTo(hist, n, cache.log.finishedCommitSeq)
      modifies cache`st
      ensures Valid() && cache.st == old(cache.st).(visited := cache.st.visited)
      ensures ret == if key < WORD * WORD then EINVAL else if exists k :: IsLast(hist[..n], k, key) then OK else ENOENT
      ensures ret == OK ==> exists k :: IsLast(hist[..n], k, key) && ldet == hist[k].details
    {
      DevAddrIsLow(key);
      ReplayHoldsLast(hist[..n], key);
      ret, ldet := EINVAL, BlockDetails(0, 0);
      if !IsDevAddrKey(key) {
        var val;
        ret, val := LookUpStable(key, n);
        if ret == OK {
          ldet := Decode(val);
          LastDecodes(n, key);
        }
      }
    }

    /** What the map has under a key is what was written last. */
    lemma LastDecodes(n: nat, key: Key)
      requires Valid() && n <= |hist| && key in Replay(hist[..n])
      ensures |Replay(hist[..n])[key]| == DETAILS_SIZE
      ensures exists k :: IsLast(hist[..n], k, key) && Decode(Replay(hist[..n])[key]) == hist[k].details
    {
      assert Look(0);
      ReplayHoldsLast(hist[..n], key);
      var k :| IsLast(hist[..n], k, key);
      assert hist[..n][k] == hist[k];
      DetailsRoundTrip(hist[k].details);
    }

    /** The totals that clients are told: of the keys in the stable tree, which the first n writes have made; and the device's blocks. */
    method BlockCounts(devSize: nat, ghost n: nat) returns (blocks: int, inodes: int, total: nat)
      requires Valid() && FirstUpTo(hist, n, cache.log.finishedCommitSeq)
      ensures blocks == |Replay(hist[..n])| && inodes == |set k | k in Replay(hist[..n]) && k % WORD < 0x100_0000_0000_0000|
      ensures total * 4096 <= devSize < (total + 1) * 4096
    {
      ghost var m := StableHolds();
      SameFirst(n, m, cache.log.finishedCommitSeq);
      InodeKeysAre(Replay(hist[..n]));
      blocks, inodes := cache.log.stableCmt.details.totalAllocated, cache.log.stableCmt.details.totalInodes;
      total := devSize / LogLayout.BLOCK_SIZE;
    }
  }
}
