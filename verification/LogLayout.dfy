/**
 Where the log store puts blocks on the device (devd/lstore.c:213-303, 543-626, 861-865), as
 values: blocks are allocated at advancing addresses, each commit is its commit block followed
 by the blocks it records, and blocks at regular offsets lead to the commit they are part of.
 */
module LogLayout {
  import opened Wrappers

  const BLOCK_SIZE := 4096

  /** The address i blocks after another. */
  function BlockAt(addr: nat, i: nat): nat {
    addr + 4096 * i
  }

  /** Search offsets are 32MB apart. */
  predicate IsSearchOffset(addr: nat) {
    addr % 0x200_0000 == 0
  }

  datatype BlockType = COMMIT | SEARCH | BTREE | DATA

  /** What a block's header and body say, as far as finding commits goes. */
  datatype Content = CommitBlock(seqno: nat) | SearchBlock(commitAddr: nat) | Other(kind: BlockType) {
    function Type(): BlockType {
      match this
      case CommitBlock(_) => COMMIT
      case SearchBlock(_) => SEARCH
      case Other(k) => k
    }
  }

  /** The metadata that a commit carries along: the details tree's root, and the totals. */
  datatype Details = Details(root: nat, height: nat, totalAllocated: int, totalInodes: int)

  datatype Commit = Commit(addr: nat, seqno: nat, entries: seq<BlockType>, details: Details)

  /** A write task that has submitted a commit's blocks to the device. */
  datatype Write = Write(cmt: Commit, list: seq<nat>, ioDone: bool)

  /** How far writing has come: all commits handed to writes, in order, the number of the last one that
      finished in order, and that commit; the writes by commit number; whether the task is to run; and
      how often writers have changed something. */
  datatype Progress = Progress(done: seq<Commit>, finished: nat, stable: Commit, writes: map<nat, Write>, scheduled: bool, dirtySeq: nat)

  /** Next device address, the commit being built, the last one that was, and what has been allocated. */
  datatype Log = Log(next: nat, dirty: Option<Commit>, current: Commit, nextSeq: nat, blocks: map<nat, Content>, progress: Progress)

  function AddrAfterCommit(c: Commit): nat {
    BlockAt(c.addr, 1 + |c.entries|)
  }

  /** The commit whose metadata writers build on. */
  function CurrentCommit(l: Log): Commit {
    if l.dirty.Some? then l.dirty.value else l.current
  }

  // ---------------------------------------------------------------- Steps

  function AllocBlock(l: Log, c: Content): Log {
    l.(next := l.next + BLOCK_SIZE, blocks := l.blocks[l.next := c])
  }

  function StartCommit(l: Log): Log {
    if l.dirty.Some? then l else
      AllocBlock(l, CommitBlock(l.nextSeq)).(
        dirty := Some(Commit(l.next, l.nextSeq, [], l.current.details)), nextSeq := l.nextSeq + 1)
  }

  /** Allocates the next block and records it in the commit being built. */
  function AllocEntry(l: Log, c: Content): Log
    requires l.dirty.Some?
  {
    var cmt := l.dirty.value;
    AllocBlock(l, c).(dirty := Some(cmt.(entries := cmt.entries + [c.Type()])))
  }

  /** A search block goes first when the next address is a search offset. */
  function InjectSearch(l: Log): Log
    requires l.dirty.Some?
  {
    if IsSearchOffset(l.next) then AllocEntry(l, SearchBlock(l.dirty.value.addr)) else l
  }

  function AllocDirty(l: Log, kind: BlockType): (r: Log)
    requires l.dirty.Some? && (kind == BTREE || kind == DATA)
    ensures r.dirty.Some?
  {
    AllocEntry(InjectSearch(l), Other(kind))
  }

  function AllocDirtyAddr(l: Log): nat
    requires l.dirty.Some?
  {
    InjectSearch(l).next
  }

  /** The log after n B-tree blocks are allocated. */
  function AllocBtree(l: Log, n: nat): (r: Log)
    requires l.dirty.Some?
    ensures r.dirty.Some?
  {
    if n == 0 then l else AllocDirty(AllocBtree(l, n - 1), BTREE)
  }

  /** Allocating a block changes nothing of a commit but its entries. */
  lemma AllocDirtyKeepsCommit(l: Log, kind: BlockType)
    requires l.dirty.Some? && (kind == BTREE || kind == DATA)
    ensures var l' := AllocDirty(l, kind);
      && l'.dirty.value == l.dirty.value.(entries := l'.dirty.value.entries) && l'.progress == l.progress
  {
  }

  lemma {:induction false} AllocBtreeKeepsCommit(l: Log, n: nat)
    requires l.dirty.Some?
    ensures var l' := AllocBtree(l, n);
      && l'.dirty.value == l.dirty.value.(entries := l'.dirty.value.entries) && l'.progress == l.progress
  {
    if n > 0 {
      AllocBtreeKeepsCommit(l, n - 1);
      AllocDirtyKeepsCommit(AllocBtree(l, n - 1), BTREE);
    }
  }

  /** A block that has been allocated stays what it is. */
  lemma {:induction false} BlockStays(l: Log, n: nat, a: nat)
    requires l.dirty.Some? && a in l.blocks && a < l.next
    ensures var l' := AllocBtree(l, n); a in l'.blocks && l'.blocks[a] == l.blocks[a] && a < l.next <= l'.next
  {
    if n > 0 {
      BlockStays(l, n - 1, a);
    }
  }

  lemma DirtyIsThere(l: Log, kind: BlockType)
    requires l.dirty.Some? && (kind == BTREE || kind == DATA)
    ensures var l', a := AllocDirty(l, kind), AllocDirtyAddr(l);
      a in l'.blocks && l'.blocks[a] == Other(kind) && l.next <= a < l'.next
  {
  }

  /** The commit being built is handed to a write: the next change starts another. */
  function Submit(l: Log): Log
    requires l.dirty.Some?
  {
    l.(current := l.dirty.value, dirty := None)
  }

  function SetDetails(l: Log, d: Details): Log
    requires l.dirty.Some?
  {
    l.(dirty := Some(l.dirty.value.(details := d)))
  }

  // ---------------------------------------------------------------- The layout invariant

  /** The i-th entry's block follows the commit block and the entries before it, and is of the entry's type. */
  ghost predicate EntryAt(c: Commit, i: nat, blocks: map<nat, Content>)
    requires i < |c.entries|
  {
    BlockAt(c.addr, i + 1) in blocks && blocks[BlockAt(c.addr, i + 1)].Type() == c.entries[i]
  }

  /** A commit's block, and each entry's, are where its address says. */
  ghost predicate EntriesAt(c: Commit, blocks: map<nat, Content>) {
    && c.addr in blocks && blocks[c.addr] == CommitBlock(c.seqno)
    && forall i {:trigger EntryAt(c, i, blocks)} :: 0 <= i < |c.entries| ==> EntryAt(c, i, blocks)
  }

  /** The block at m is a commit block, or a search block naming the commit it is part of. */
  ghost predicate Signpost(m: nat, chain: seq<Commit>, blocks: map<nat, Content>) {
    m in blocks &&
    (blocks[m].CommitBlock? ||
     exists i :: 0 <= i < |chain| && blocks[m] == SearchBlock(chain[i].addr) && chain[i].addr < m < AddrAfterCommit(chain[i]))
  }

  /** Search blocks are at search offsets. */
  ghost predicate SearchAt(a: nat, blocks: map<nat, Content>) {
    a in blocks && blocks[a].SearchBlock? ==> IsSearchOffset(a)
  }

  lemma SearchKept(l: Log, done: seq<Commit>, x: Content)
    requires LayoutOk(l, done) && (x.SearchBlock? ==> IsSearchOffset(l.next))
    ensures forall a: nat {:trigger SearchAt(a, l.blocks[l.next := x])} :: SearchAt(a, l.blocks[l.next := x])
  {
    var blocks' := l.blocks[l.next := x];
    forall a: nat ensures SearchAt(a, blocks') {
      assert SearchAt(a, l.blocks);
    }
  }

  ghost predicate Follows(c: Commit, d: Commit) {
    d.addr == AddrAfterCommit(c) && d.seqno == c.seqno + 1
  }

  /** All commits so far, in order: those handed to writes, then the one being built. */
  function Chain(l: Log, done: seq<Commit>): seq<Commit> {
    if l.dirty.Some? then done + [l.dirty.value] else done
  }

  ghost predicate LayoutOk(l: Log, done: seq<Commit>) {
    var chain := Chain(l, done);
    && done != []
    && done[|done| - 1] == l.current
    && (forall i {:trigger Follows(chain[i], chain[i + 1])} :: 0 <= i < |chain| - 1 ==> Follows(chain[i], chain[i + 1]))
    && (forall i {:trigger EntriesAt(chain[i], l.blocks)} :: 0 <= i < |chain| ==> EntriesAt(chain[i], l.blocks))
    && l.next == AddrAfterCommit(chain[|chain| - 1])
    && l.nextSeq == chain[|chain| - 1].seqno + 1
    && l.next % 4096 == 0
    && (forall a {:trigger a in l.blocks} :: a in l.blocks ==> a < l.next)
    && (forall a: nat {:trigger SearchAt(a, l.blocks)} :: SearchAt(a, l.blocks))
    && (forall m: nat {:trigger Signpost(m, chain, l.blocks)} :: m < l.next && IsSearchOffset(m) ==> Signpost(m, chain, l.blocks))
  }

  // ---------------------------------------------------------------- Every step keeps the layout

  lemma EntriesKept(c: Commit, blocks: map<nat, Content>, a: nat, x: Content)
    requires EntriesAt(c, blocks) && a !in blocks
    ensures EntriesAt(c, blocks[a := x])
  {
    var blocks' := blocks[a := x];
    forall i | 0 <= i < |c.entries| ensures EntryAt(c, i, blocks') {
      assert EntryAt(c, i, blocks);
    }
  }

  lemma EntriesSame(c: Commit, c': Commit, blocks: map<nat, Content>)
    requires EntriesAt(c, blocks) && c' == c.(details := c'.details)
    ensures EntriesAt(c', blocks)
  {
    forall i | 0 <= i < |c'.entries| ensures EntryAt(c', i, blocks) {
      assert EntryAt(c, i, blocks);
    }
  }

  lemma EntryAdded(c: Commit, blocks: map<nat, Content>, a: nat, x: Content)
    requires EntriesAt(c, blocks) && a !in blocks && a == AddrAfterCommit(c)
    ensures EntriesAt(c.(entries := c.entries + [x.Type()]), blocks[a := x])
  {
    var c', blocks' := c.(entries := c.entries + [x.Type()]), blocks[a := x];
    forall i | 0 <= i < |c'.entries| ensures EntryAt(c', i, blocks') {
      if i < |c.entries| {
        assert EntryAt(c, i, blocks);
      }
    }
  }

  lemma SignpostKept(m: nat, chain: seq<Commit>, chain': seq<Commit>, blocks: map<nat, Content>, a: nat, x: Content)
    requires Signpost(m, chain, blocks) && a !in blocks && |chain| <= |chain'|
    requires forall i :: 0 <= i < |chain| ==> chain'[i].addr == chain[i].addr && AddrAfterCommit(chain[i]) <= AddrAfterCommit(chain'[i])
    ensures Signpost(m, chain', blocks[a := x])
  {
    if !blocks[m].CommitBlock? {
      var i :| 0 <= i < |chain| && blocks[m] == SearchBlock(chain[i].addr) && chain[i].addr < m < AddrAfterCommit(chain[i]);
      assert blocks[a := x][m] == SearchBlock(chain'[i].addr);
    }
  }

  lemma AllMultiplesPassed(next: nat, m: nat)
    requires next % 4096 == 0 && IsSearchOffset(m) && next <= m < next + BLOCK_SIZE
    ensures m == next
  {
    assert m % 4096 == 0;
  }

  lemma StartCommitKeepsLayout(l: Log, done: seq<Commit>)
    requires LayoutOk(l, done)
    ensures LayoutOk(StartCommit(l), done)
  {
    if l.dirty.None? {
      var l' := StartCommit(l);
      var chain' := Chain(l', done);
      assert chain'[..|done|] == done;
      SearchKept(l, done, CommitBlock(l.nextSeq));
      forall i | 0 <= i < |chain'| - 1 ensures Follows(chain'[i], chain'[i + 1]) {
        assert i < |done| - 1 ==> Follows(done[i], done[i + 1]);
      }
      forall i | 0 <= i < |chain'| ensures EntriesAt(chain'[i], l'.blocks) {
        if i < |done| {
          assert EntriesAt(done[i], l.blocks);
          EntriesKept(done[i], l.blocks, l.next, CommitBlock(l.nextSeq));
        }
      }
      forall m: nat | m < l'.next && IsSearchOffset(m) ensures Signpost(m, chain', l'.blocks) {
        if m < l.next {
          assert Signpost(m, done, l.blocks);
          SignpostKept(m, done, chain', l.blocks, l.next, CommitBlock(l.nextSeq));
        } else {
          AllMultiplesPassed(l.next, m);
        }
      }
    }
  }

  lemma AllocEntryKeepsLayout(l: Log, done: seq<Commit>, c: Content)
    requires LayoutOk(l, done) && l.dirty.Some?
    requires IsSearchOffset(l.next) ==> c == SearchBlock(l.dirty.value.addr)
    requires c.SearchBlock? ==> IsSearchOffset(l.next)
    ensures LayoutOk(AllocEntry(l, c), done)
  {
    var l' := AllocEntry(l, c);
    var chain, chain', n := Chain(l, done), Chain(l', done), |done|;
    SearchKept(l, done, c);
    assert forall i :: 0 <= i < n ==> chain[i] == done[i] == chain'[i];
    forall i | 0 <= i < |chain'| - 1 ensures Follows(chain'[i], chain'[i + 1]) {
      assert Follows(chain[i], chain[i + 1]);
    }
    forall i | 0 <= i < |chain'| ensures EntriesAt(chain'[i], l'.blocks) {
      assert EntriesAt(chain[i], l.blocks);
      if i < n {
        EntriesKept(chain[i], l.blocks, l.next, c);
      } else {
        EntryAdded(chain[i], l.blocks, l.next, c);
      }
    }
    forall m: nat | m < l'.next && IsSearchOffset(m) ensures Signpost(m, chain', l'.blocks) {
      if m < l.next {
        assert Signpost(m, chain, l.blocks);
        SignpostKept(m, chain, chain', l.blocks, l.next, c);
      } else {
        AllMultiplesPassed(l.next, m);
        assert l'.blocks[m] == SearchBlock(chain'[n].addr) && chain'[n].addr < m < AddrAfterCommit(chain'[n]);
      }
    }
  }

  lemma AllocDirtyKeepsLayout(l: Log, done: seq<Commit>, kind: BlockType)
    requires LayoutOk(l, done) && l.dirty.Some? && (kind == BTREE || kind == DATA)
    ensures LayoutOk(AllocDirty(l, kind), done)
    ensures l.next <= AllocDirtyAddr(l) < AllocDirty(l, kind).next && AllocDirtyAddr(l) in AllocDirty(l, kind).blocks
    ensures AllocDirty(l, kind).blocks[AllocDirtyAddr(l)] == Other(kind)
    ensures !IsSearchOffset(AllocDirtyAddr(l))
  {
    if IsSearchOffset(l.next) {
      AllocEntryKeepsLayout(l, done, SearchBlock(l.dirty.value.addr));
    }
    assert !IsSearchOffset(InjectSearch(l).next);
    AllocEntryKeepsLayout(InjectSearch(l), done, Other(kind));
  }

  lemma SubmitKeepsLayout(l: Log, done: seq<Commit>)
    requires LayoutOk(l, done) && l.dirty.Some?
    ensures LayoutOk(Submit(l), done + [l.dirty.value])
  {
    assert Chain(Submit(l), done + [l.dirty.value]) == Chain(l, done);
  }

  lemma SetDetailsKeepsLayout(l: Log, done: seq<Commit>, d: Details)
    requires LayoutOk(l, done) && l.dirty.Some?
    ensures LayoutOk(SetDetails(l, d), done)
  {
    var l' := SetDetails(l, d);
    var chain, chain', n := Chain(l, done), Chain(l', done), |done|;
    assert forall i :: 0 <= i < n ==> chain[i] == done[i] == chain'[i];
    forall i | 0 <= i < |chain'| - 1 ensures Follows(chain'[i], chain'[i + 1]) {
      assert Follows(chain[i], chain[i + 1]);
    }
    forall i | 0 <= i < |chain'| ensures EntriesAt(chain'[i], l'.blocks) {
      assert EntriesAt(chain[i], l.blocks);
      EntriesSame(chain[i], chain'[i], l.blocks);
    }
    forall m: nat | m < l'.next && IsSearchOffset(m) ensures Signpost(m, chain', l'.blocks) {
      assert Signpost(m, chain, l.blocks);
      if !l.blocks[m].CommitBlock? {
        var i :| 0 <= i < |chain| && l.blocks[m] == SearchBlock(chain[i].addr) && chain[i].addr < m < AddrAfterCommit(chain[i]);
        assert l'.blocks[m] == SearchBlock(chain'[i].addr);
      }
    }
  }

  // ---------------------------------------------------------------- What the layout means

  /** In bytes: a commit's blocks are 4096 apart, in the order in which it records them, and the next commit, or the next
      block to be allocated, follows right behind them. */
  lemma CommitInBytes(l: Log, done: seq<Commit>, i: nat, j: nat)
    requires LayoutOk(l, done) && i < |Chain(l, done)| && j <= |Chain(l, done)[i].entries|
    ensures var c, chain := Chain(l, done)[i], Chain(l, done);
      && c.addr + 4096 * j in l.blocks
      && l.blocks[c.addr + 4096 * j].Type() == (if j == 0 then COMMIT else c.entries[j - 1])
      && (if i + 1 < |chain| then chain[i + 1].addr else l.next) == c.addr + 4096 + 4096 * |c.entries|
  {
    var chain := Chain(l, done);
    assert EntriesAt(chain[i], l.blocks);
    if j > 0 {
      assert EntryAt(chain[i], j - 1, l.blocks);
    }
    assert i + 1 < |chain| ==> Follows(chain[i], chain[i + 1]);
  }

  /** Every 32MB there is a commit block, or a search block that names the commit it is part of; and search blocks are
      nowhere else. */
  lemma SearchOffsets(l: Log, done: seq<Commit>, m: nat)
    requires LayoutOk(l, done) && m < l.next
    ensures m % (32 * 1024 * 1024) == 0 ==> Signpost(m, Chain(l, done), l.blocks)
    ensures m in l.blocks && l.blocks[m].SearchBlock? ==> m % (32 * 1024 * 1024) == 0
  {
    assert m % (32 * 1024 * 1024) == 0 ==> IsSearchOffset(m);
    assert SearchAt(m, l.blocks);
  }

  /** Commits tile the device: every block address from the first commit on belongs to exactly one. */
  lemma {:induction false} CommitsTile(l: Log, done: seq<Commit>, a: nat) returns (i: nat)
    requires LayoutOk(l, done) && Chain(l, done)[0].addr <= a < l.next
    ensures i < |Chain(l, done)| && Chain(l, done)[i].addr <= a < AddrAfterCommit(Chain(l, done)[i])
    ensures forall j :: 0 <= j < |Chain(l, done)| && j != i ==>
      !(Chain(l, done)[j].addr <= a < AddrAfterCommit(Chain(l, done)[j]))
  {
    var chain := Chain(l, done);
    i := 0;
    while AddrAfterCommit(chain[i]) <= a
      invariant i < |chain| && chain[i].addr <= a
      decreases |chain| - i
    {
      assert i < |chain| - 1 ==> Follows(chain[i], chain[i + 1]);
      i := i + 1;
    }
    forall j | 0 <= j < |chain| && j != i ensures !(chain[j].addr <= a < AddrAfterCommit(chain[j])) {
      if j < i {
        InOrder(l, done, j, i);
      } else {
        InOrder(l, done, i, j);
      }
    }
  }

  lemma {:induction false} InOrder(l: Log, done: seq<Commit>, i: nat, j: nat)
    requires LayoutOk(l, done) && i < j < |Chain(l, done)|
    ensures AddrAfterCommit(Chain(l, done)[i]) <= Chain(l, done)[j].addr
    decreases j - i
  {
    var chain := Chain(l, done);
    assert Follows(chain[i], chain[i + 1]);
    if i + 1 < j {
      InOrder(l, done, i + 1, j);
    }
  }

  /** No commit ends behind the next address. */
  lemma EndsBelow(l: Log, done: seq<Commit>, i: nat)
    requires LayoutOk(l, done) && i < |Chain(l, done)|
    ensures AddrAfterCommit(Chain(l, done)[i]) <= l.next
  {
    var last := |Chain(l, done)| - 1;
    if i < last {
      InOrder(l, done, i, last);
    }
  }

  /** Addresses of blocks of different commits differ. */
  lemma CommitsDisjoint(l: Log, done: seq<Commit>, i: nat, j: nat, x: nat, y: nat)
    requires LayoutOk(l, done) && i < |Chain(l, done)| && j < |Chain(l, done)| && i != j
    requires x <= |Chain(l, done)[i].entries| && y <= |Chain(l, done)[j].entries|
    ensures BlockAt(Chain(l, done)[i].addr, x) != BlockAt(Chain(l, done)[j].addr, y)
  {
    if i < j {
      InOrder(l, done, i, j);
    } else {
      InOrder(l, done, j, i);
    }
  }

  /** Sequence numbers count the commits. */
  lemma {:induction false} SeqnoCounts(l: Log, done: seq<Commit>, i: nat)
    requires LayoutOk(l, done) && i < |Chain(l, done)|
    ensures Chain(l, done)[i].seqno == Chain(l, done)[0].seqno + i
  {
    if i > 0 {
      var chain, j := Chain(l, done), i - 1;
      SeqnoCounts(l, done, j);
      assert Follows(chain[j], chain[j + 1]);
    }
  }

  /** What has been submitted comes before what is being built. */
  lemma DoneBeforeDirty(l: Log, done: seq<Commit>)
    requires LayoutOk(l, done)
    ensures l.next > 0 && l.nextSeq > CurrentCommit(l).seqno
    ensures l.dirty.Some? ==> forall i {:trigger done[i]} :: 0 <= i < |done| ==> done[i].seqno < l.dirty.value.seqno
  {
    if l.dirty.Some? {
      var chain := Chain(l, done);
      SeqnoCounts(l, done, |done|);
      forall i | 0 <= i < |done| ensures done[i].seqno < l.dirty.value.seqno {
        SeqnoCounts(l, done, i);
        assert chain[i] == done[i];
      }
    }
  }
}
