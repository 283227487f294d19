/**
 Copy on write from the root down (devd/btree.c:19-30, 353-400): which blocks of a tree may be
 changed. Whatever a walk has made modifiable lies below blocks that are modifiable too.
 */
module BtreeDirty {
  import opened BtreeFormat
  import opened BtreeShape
  import opened BtreeSteps
  import opened BtreeWalk
  import opened BtreeLeaf

  /** A block that may not be changed refers to none that may be. */
  ghost predicate DirtyAt(t: Tree, mod: set<Addr>, p: Addr) {
    p in t.spans && p in t.view && t.view[p].level > 0 && p !in mod ==>
      forall i {:trigger t.view[p].items[i]} :: 0 <= i < |t.view[p].items| && t.view[p].items[i].val.Ref? ==> t.view[p].items[i].val.addr !in mod
  }

  /** Every block that may be changed has a parent that may be. */
  ghost predicate DirtyAbove(t: Tree, mod: set<Addr>) {
    forall p {:trigger DirtyAt(t, mod, p)} :: DirtyAt(t, mod, p)
  }

  lemma ParentIsDirty(t: Tree, mod: set<Addr>, p: Addr, i: nat, a: Addr)
    requires DirtyAbove(t, mod) && ParentOf(t, p, i, a) && a in mod
    ensures p in mod
  {
    assert DirtyAt(t, mod, p);
  }

  /** Copying, splitting, merging and changing leaves keep that, since they only change modifiable blocks. */
  lemma DirtyAboveKept(s: Snap, s': Snap, n: nat)
    requires Inv(s.t) && Sane(s) && StepTo(s, s', n) && DirtyAbove(s.t, s.mod)
    ensures DirtyAbove(s'.t, s'.mod)
  {
    forall p ensures DirtyAt(s'.t, s'.mod, p) {
      assert KeptAt(s, s', p) && DirtyAt(s.t, s.mod, p);
      if p in s'.t.spans && p in s'.t.view && s'.t.view[p].level > 0 && p !in s'.mod {
        assert BlockOk(s.t, p);
        forall i | 0 <= i < |s'.t.view[p].items| && s'.t.view[p].items[i].val.Ref? ensures s'.t.view[p].items[i].val.addr !in s'.mod {
          ChildFacts(s.t, p, i);
          var c := s.t.view[p].items[i].val.addr;
          assert BlockOk(s.t, c);
          assert KeptAt(s, s', c);
        }
      }
    }
  }

  lemma DirtySetLeaf(t: Tree, mod: set<Addr>, a: Addr, items: seq<Item>, contents: map<Key, seq<bv8>>)
    requires DirtyAbove(t, mod) && a in t.view && t.view[a].level == 0
    ensures DirtyAbove(SetLeaf(t, a, items, contents), mod)
  {
    var t' := SetLeaf(t, a, items, contents);
    forall p ensures DirtyAt(t', mod, p) {
      assert DirtyAt(t, mod, p);
    }
  }

  /** On the way to a key, every block above a modifiable one is modifiable. */
  lemma {:induction false} DirtyOnPath(t: Tree, mod: set<Addr>, k: Key, a: Addr, b: Addr)
    requires Inv(t) && DirtyAbove(t, mod) && OnPath(t, a, k) && OnPath(t, b, k) && t.spans[b].level >= t.spans[a].level
    requires a in mod
    ensures b in mod
    decreases t.spans[b].level
  {
    if t.spans[b].level == t.spans[a].level {
      UniqueOnPath(t, a, b, k);
    } else {
      assert BlockOk(t, b);
      Descend(t, b, k);
      var i := LowerBound(t.view[b].items, k);
      DirtyOnPath(t, mod, k, a, t.view[b].items[i].val.addr);
      ParentIsDirty(t, mod, b, i, t.view[b].items[i].val.addr);
    }
  }

  /** If the root may not be changed, no block of the tree may be. */
  lemma CleanRoot(t: Tree, mod: set<Addr>)
    requires Inv(t) && DirtyAbove(t, mod) && t.root !in mod
    ensures forall a {:trigger a in t.spans} :: a in t.spans ==> a !in mod
  {
    forall a | a in t.spans ensures a !in mod {
      assert BlockOk(t, a);
      assert InTree(t, a);
      if a in mod {
        DirtyOnPath(t, mod, t.spans[a].hi, a, t.root);
        assert false;
      }
    }
  }
}
