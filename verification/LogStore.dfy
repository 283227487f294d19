/**
 The log store's instance (devd/lstore.c): allocation of dirty blocks into the commit being
 built, and the writing of commits. Many commits can be in flight and their writes can finish
 in any order; they become stable in commit order.
 */
module LogStore {
  import opened Wrappers
  import opened LogLayout
  import opened Blk

  /** The addresses of a commit's blocks, in order. */
  ghost function CommitAddrs(c: Commit): seq<Addr> {
    seq(1 + |c.entries|, i requires 0 <= i => BlockAt(c.addr, i))
  }

  /** The write with this number is of the commit with this number, whose blocks are in writeback. */
  ghost predicate WriteOk(writes: map<nat, Write>, done: seq<Commit>, writeback: set<Addr>, s: nat)
    requires done != []
  {
    s in writes ==>
      && done[0].seqno <= s < done[0].seqno + |done|
      && writes[s].cmt == done[s - done[0].seqno] && writes[s].list == CommitAddrs(writes[s].cmt)
      && forall a {:trigger a in writes[s].list} :: a in writes[s].list ==> a in writeback
  }

  /** The commits being written are those after the stable one, each with its own blocks in writeback. */
  ghost predicate WritesOk(writes: map<nat, Write>, done: seq<Commit>, finished: nat, stable: Commit, writeback: set<Addr>) {
    && done != []
    && done[0].seqno <= finished < done[0].seqno + |done|
    && stable == done[finished - done[0].seqno]
    && (forall s {:trigger s in writes} :: s in writes <==> finished < s < done[0].seqno + |done|)
    && (forall s {:trigger WriteOk(writes, done, writeback, s)} :: WriteOk(writes, done, writeback, s))
  }

  lemma WriteBegins(writes: map<nat, Write>, done: seq<Commit>, finished: nat, stable: Commit, writeback: set<Addr>,
      cmt: Commit, list: seq<Addr>)
    requires WritesOk(writes, done, finished, stable, writeback)
    requires cmt.seqno == done[0].seqno + |done| && list == CommitAddrs(cmt)
    ensures cmt.seqno !in writes
    ensures WritesOk(writes[cmt.seqno := Write(cmt, list, false)], done + [cmt], finished, stable, writeback + (set a | a in list))
  {
    var writes', done', writeback' := writes[cmt.seqno := Write(cmt, list, false)], done + [cmt], writeback + (set a | a in list);
    forall s: nat ensures WriteOk(writes', done', writeback', s) {
      assert WriteOk(writes, done, writeback, s);
    }
  }

  lemma WriteReachesDisk(writes: map<nat, Write>, done: seq<Commit>, finished: nat, stable: Commit, writeback: set<Addr>, n: nat)
    requires WritesOk(writes, done, finished, stable, writeback) && n in writes
    ensures WritesOk(writes[n := writes[n].(ioDone := true)], done, finished, stable, writeback)
  {
    var writes' := writes[n := writes[n].(ioDone := true)];
    forall s: nat ensures WriteOk(writes', done, writeback, s) {
      assert WriteOk(writes, done, writeback, s);
    }
  }

  lemma WriteFinishes(writes: map<nat, Write>, l: Log, done: seq<Commit>, finished: nat, stable: Commit, writeback: set<Addr>, writeback': set<Addr>)
    requires WritesOk(writes, done, finished, stable, writeback) && LayoutOk(l, done) && finished + 1 in writes
    requires forall a :: a in writeback && a !in writes[finished + 1].list ==> a in writeback'
    ensures WritesOk(writes - {finished + 1}, done, finished + 1, writes[finished + 1].cmt, writeback')
    ensures writes[finished + 1].cmt.seqno == finished + 1
    ensures forall a :: a in writes[finished + 1].list ==> a in writeback
  {
    var n := finished + 1;
    var i := n - done[0].seqno;
    assert WriteOk(writes, done, writeback, n);
    SeqnoCounts(l, done, i);
    var writes' := writes - {n};
    forall s: nat ensures WriteOk(writes', done, writeback', s) {
      assert WriteOk(writes, done, writeback, s);
      if s in writes' {
        var j := s - done[0].seqno;
        forall a | a in writes[s].list ensures a in writeback' {
          var x :| 0 <= x < |writes[s].list| && writes[s].list[x] == a;
          forall y | 0 <= y < |writes[n].list| ensures writes[n].list[y] != a {
            CommitsDisjoint(l, done, j, i, x, y);
          }
        }
      }
    }
  }

  class LogStore {
    const blk: BlkCache
    var nextDevAddr: nat
    var dirtyCmt: Option<Commit>
    var currentCmt: Commit
    var stableCmt: Commit
    var nextCommitSeq: nat
    var finishedCommitSeq: nat
    var dirtySeq: nat
    var writeScheduled: bool
    /** What the allocated blocks hold, and the write tasks by commit sequence number. */
    var contents: map<nat, Content>
    var writes: map<nat, Write>
    /** Every commit handed to a write, in order. */
    ghost var done: seq<Commit>

    ghost function State(): Log
      reads this
    {
      Log(nextDevAddr, dirtyCmt, currentCmt, nextCommitSeq, contents, Writing())
    }

    ghost function Writing(): Progress
      reads this
    {
      Progress(done, finishedCommitSeq, stableCmt, writes, writeScheduled, dirtySeq)
    }

    ghost predicate Valid()
      reads this, blk
    {
      forall u {:trigger Look(u)} :: Look(u) ==> Consistent()
    }

    ghost predicate Consistent()
      reads this, blk
    {
      && blk.Valid()
      && LayoutOk(State(), done)
      && WritesOk(writes, done, finishedCommitSeq, stableCmt, blk.writeback)
      && blk.dirtyList == (if dirtyCmt.Some? then CommitAddrs(dirtyCmt.value) else [])
      && (forall a {:trigger a in blk.dirty} :: a in blk.dirty ==> a < nextDevAddr)
      && (writeScheduled ==> dirtyCmt.Some?)
    }

    /** The store of a freshly formatted device: one empty commit at its start. */
    constructor Formatted()
      ensures Valid() && fresh(blk)
      ensures dirtyCmt == None && stableCmt == currentCmt == Commit(0, 1, [], Details(0, 0, 0, 0))
      ensures done == [currentCmt] && !writeScheduled && blk.Modifiable() == {}
    {
      blk := new BlkCache();
      var cmt := Commit(0, 1, [], Details(0, 0, 0, 0));
      nextDevAddr, dirtyCmt, currentCmt, stableCmt := AddrAfterCommit(cmt), None, cmt, cmt;
      nextCommitSeq, finishedCommitSeq, dirtySeq := 2, 1, 0;
      writeScheduled := false;
      contents := map[0 := CommitBlock(1)];
      writes := map[];
      done := [cmt];
    }

    /** A dirty block at the next address. */
    method AllocDirtyBlock(content: Content) returns (addr: nat)
      requires blk.Valid() && nextDevAddr !in blk.dirty && nextDevAddr !in blk.writeback
      modifies this`nextDevAddr, this`contents, blk
      ensures blk.Valid() && addr == old(nextDevAddr)
      ensures State() == AllocBlock(old(State()), content)
      ensures blk.dirty == old(blk.dirty) + {addr} && blk.writeback == old(blk.writeback)
      ensures blk.dirtyList == old(blk.dirtyList) + [addr]
    {
      addr := nextDevAddr;
      blk.MarkDirty(addr);
      contents := contents[addr := content];
      nextDevAddr := nextDevAddr + BLOCK_SIZE;
    }

    /** Opens a commit for changes, unless one is open. */
    method StartDirtyCommit()
      requires Valid()
      modifies this`nextDevAddr, this`contents, this`dirtyCmt, this`nextCommitSeq, blk
      ensures Valid() && dirtyCmt.Some? && State() == StartCommit(old(State()))
      ensures old(dirtyCmt).None? ==> blk.Modifiable() == old(blk.Modifiable()) + {old(nextDevAddr)}
      ensures old(dirtyCmt).Some? ==> blk.Modifiable() == old(blk.Modifiable())
    {
      assert Look(0);
      StartCommitKeepsLayout(State(), done);
      if dirtyCmt.None? {
        var addr := AllocDirtyBlock(CommitBlock(nextCommitSeq));
        dirtyCmt := Some(Commit(addr, nextCommitSeq, [], currentCmt.details));
        nextCommitSeq := nextCommitSeq + 1;
      }
    }

    /** Allocates a block and records it as the open commit's next entry. */
    method RecordBlock(content: Content) returns (addr: nat)
      requires Valid() && dirtyCmt.Some?
      requires IsSearchOffset(nextDevAddr) ==> content == SearchBlock(dirtyCmt.value.addr)
      requires content.SearchBlock? ==> IsSearchOffset(nextDevAddr)
      modifies this`nextDevAddr, this`contents, this`dirtyCmt, blk
      ensures Valid() && dirtyCmt.Some?
      ensures addr == old(nextDevAddr) && State() == AllocEntry(old(State()), content)
      ensures blk.Modifiable() == old(blk.Modifiable()) + {addr}
    {
      assert Look(0);
      EntryKeepsLayout(content);
      ghost var cmt := dirtyCmt.value;
      addr := AllocDirtyBlock(content);
      dirtyCmt := Some(dirtyCmt.value.(entries := dirtyCmt.value.entries + [content.Type()]));
      assert CommitAddrs(dirtyCmt.value) == CommitAddrs(cmt) + [addr];
    }

    /** A block at a search offset that names the commit being built. */
    method InjectSearchBlock()
      requires Valid() && dirtyCmt.Some? && IsSearchOffset(nextDevAddr)
      modifies this`nextDevAddr, this`contents, this`dirtyCmt, blk
      ensures Valid() && dirtyCmt.Some? && State() == InjectSearch(old(State()))
      ensures blk.Modifiable() == old(blk.Modifiable()) + {old(nextDevAddr)}
    {
      assert Look(0);
      var addr := RecordBlock(SearchBlock(dirtyCmt.value.addr));
    }

    /** Allocates a block for the open commit, peeking ahead to inject a search block before it. */
    method AllocDirty(kind: BlockType) returns (addr: nat)
      requires Valid() && dirtyCmt.Some? && (kind == BTREE || kind == DATA)
      modifies this`nextDevAddr, this`contents, this`dirtyCmt, blk
      ensures Valid() && dirtyCmt.Some?
      ensures addr == AllocDirtyAddr(old(State())) && State() == LogLayout.AllocDirty(old(State()), kind)
      ensures old(nextDevAddr) <= addr < nextDevAddr && addr in blk.Modifiable()
      ensures old(blk.Modifiable()) <= blk.Modifiable()
      ensures forall a {:trigger a in blk.Modifiable()} :: a in blk.Modifiable() ==>
        a in old(blk.Modifiable()) || a >= old(nextDevAddr)
    {
      assert Look(0);
      AllocDirtyKeepsLayout(State(), done, kind);
      if IsSearchOffset(nextDevAddr) {
        InjectSearchBlock();
      }
      addr := RecordBlock(Other(kind));
    }

    lemma EntryKeepsLayout(c: Content)
      requires Valid() && dirtyCmt.Some?
      requires IsSearchOffset(nextDevAddr) ==> c == SearchBlock(dirtyCmt.value.addr)
      requires c.SearchBlock? ==> IsSearchOffset(nextDevAddr)
      ensures LayoutOk(AllocEntry(State(), c), done)
      ensures nextDevAddr == BlockAt(dirtyCmt.value.addr, 1 + |dirtyCmt.value.entries|)
    {
      assert Look(0);
      AllocEntryKeepsLayout(State(), done, c);
    }

    /** Records new metadata in the open commit. */
    method SetDetails(d: Details)
      requires Valid() && dirtyCmt.Some?
      modifies this`dirtyCmt
      ensures Valid() && dirtyCmt.Some? && State() == LogLayout.SetDetails(old(State()), d)
    {
      assert Look(0);
      SetDetailsKeepsLayout(State(), done, d);
      ghost var cmt := dirtyCmt.value;
      dirtyCmt := Some(dirtyCmt.value.(details := d));
      assert CommitAddrs(dirtyCmt.value) == CommitAddrs(cmt);
    }

    // ---------------------------------------------------------------- Writing commits

    /** Has the write task run, once other tasks have. */
    method ScheduleWrite()
      requires Valid() && dirtyCmt.Some?
      modifies this`writeScheduled
      ensures Valid() && State() == old(State()).(progress := old(Writing()).(scheduled := true))
    {
      assert Look(0);
      writeScheduled := true;
    }

    /** A writer is done with the open commit: it waits for the commit with this number to finish. */
    method FinishDirtySync() returns (seqno: nat)
      requires Valid() && dirtyCmt.Some?
      modifies this`writeScheduled, this`dirtySeq
      ensures Valid() && seqno == dirtyCmt.value.seqno
      ensures State() == old(State()).(progress := old(Writing()).(scheduled := true, dirtySeq := old(dirtySeq) + 1))
    {
      seqno := dirtyCmt.value.seqno;
      assert Look(0);
      dirtySeq := dirtySeq + 1;
      ScheduleWrite();
    }

    /**
     The write task takes the dirty blocks. They are exactly the open commit's: the commit block
     first, then a block for each entry. It submits them, and the next change opens another commit.
     */
    method BeginWrite() returns (seqno: nat)
      requires Valid() && writeScheduled
      modifies this`writeScheduled, this`currentCmt, this`dirtyCmt, this`writes, this`done, blk
      ensures Valid() && old(dirtyCmt).Some? && seqno == currentCmt.seqno
      ensures seqno !in old(writes) && seqno in writes && !writes[seqno].ioDone
      ensures State() == Submit(old(State())).(progress := old(Writing()).(done := old(done) + [currentCmt],
        writes := old(writes)[seqno := writes[seqno]], scheduled := false))
      ensures blk.Modifiable() == {}
    {
      assert Look(0);
      SubmitKeepsLayout(State(), done);
      SeqnoCounts(State(), done, |done|);
      ghost var writeback := blk.writeback;
      var list := blk.BeginWrite();
      writeScheduled := false;
      var cmt := dirtyCmt.value;
      assert EntriesAt(Chain(State(), done)[|done|], contents);
      assert list[0] == cmt.addr && contents[cmt.addr].CommitBlock? && |list| == 1 + |cmt.entries|;
      seqno := cmt.seqno;
      currentCmt := cmt;
      dirtyCmt := None;
      writes := writes[seqno := Write(cmt, list, false)];
      done := done + [cmt];
      WriteBegins(old(writes), old(done), finishedCommitSeq, stableCmt, writeback, cmt, list);
    }

    /** The device has written a commit's blocks; in any order among commits. */
    method CompleteIo(seqno: nat)
      requires Valid() && seqno in writes
      modifies this`writes
      ensures Valid() && State() == old(State()).(progress := old(Writing()).(writes := old(writes)[seqno := old(writes)[seqno].(ioDone := true)]))
    {
      assert Look(0);
      WriteReachesDisk(writes, done, finishedCommitSeq, stableCmt, blk.writeback, seqno);
      writes := writes[seqno := writes[seqno].(ioDone := true)];
    }

    /**
     A write task whose blocks are on the device becomes the stable commit, once every earlier
     commit has; until then it waits.
     */
    method FinishCommitWrite(seqno: nat) returns (finished: bool)
      requires Valid() && seqno in writes && writes[seqno].ioDone
      modifies this`finishedCommitSeq, this`stableCmt, this`writes, blk
      ensures Valid() && blk.Modifiable() == old(blk.Modifiable())
      ensures finished <==> seqno == old(finishedCommitSeq) + 1
      ensures finished ==> stableCmt == old(writes)[seqno].cmt && stableCmt.seqno == seqno
      ensures State() == old(State()).(progress :=
        if finished then old(Writing()).(finished := seqno, stable := stableCmt, writes := old(writes) - {seqno}) else old(Writing()))
    {
      assert Look(0);
      finished := finishedCommitSeq == seqno - 1;
      if finished {
        var cmt, list := writes[seqno].cmt, writes[seqno].list;
        assert WriteOk(writes, done, blk.writeback, seqno);
        ghost var writeback := blk.writeback;
        blk.FinishWrite(list);
        WriteFinishes(writes, State(), done, finishedCommitSeq, stableCmt, writeback, blk.writeback);
        finishedCommitSeq := finishedCommitSeq + 1;
        stableCmt := cmt;
        writes := writes - {seqno};
      }
    }

    /** The stable commit is the one with the finished number. */
    lemma StableIsFinished()
      requires Valid()
      ensures stableCmt.seqno == finishedCommitSeq && done != [] && done[0].seqno <= finishedCommitSeq < done[0].seqno + |done|
      ensures stableCmt == done[finishedCommitSeq - done[0].seqno]
      ensures LayoutOk(State(), done)
    {
      assert Look(0);
      SeqnoCounts(State(), done, finishedCommitSeq - done[0].seqno);
    }

    /** A commit up to the finished one is not being written any more. */
    lemma FinishedIsWritten(seqno: nat)
      requires Valid() && IsFinished(seqno)
      ensures seqno !in writes
    {
      assert Look(0);
    }

    /** The metadata that writers build on. */
    function CurrentDetails(): (d: Details)
      reads this
      ensures d == CurrentCommit(State()).details
    {
      if dirtyCmt.Some? then dirtyCmt.value.details else currentCmt.details
    }

    /** Whether the commit with this number, and with it every earlier one, is stable. */
    predicate IsFinished(seqno: nat)
      reads this
    {
      finishedCommitSeq >= seqno
    }
  }
}
