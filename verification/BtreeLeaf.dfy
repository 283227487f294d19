/**
 Changing the items of one leaf (devd/btree.c:651-732) changes the tree's map at one key and
 keeps the invariant; and a tree begins as one empty leaf.
 */
module BtreeLeaf {
  import opened BtreeFormat
  import opened BtreeShape
  import opened BtreeSteps
  import opened BtreeSplit

  /** Leaf a gets new items, and the map new contents. */
  ghost function SetLeaf(t: Tree, a: Addr, items: seq<Item>, contents: map<Key, seq<bv8>>): Tree
    requires a in t.view
  {
    t.(view := t.view[a := t.view[a].(items := items)], contents := contents)
  }

  /** The two maps agree on all keys but k. */
  ghost predicate AgreeBut(c: map<Key, seq<bv8>>, c': map<Key, seq<bv8>>, k: Key) {
    forall x {:trigger x in c} {:trigger x in c'} :: x != k ==> (x in c <==> x in c') && (x in c ==> c[x] == c'[x])
  }

  lemma LeafElsewhere(n: Node, p: Span, vs: nat, c: map<Key, seq<bv8>>, c': map<Key, seq<bv8>>, k: Key)
    requires NodeOk(n, p, vs) && n.level == 0 && LeafOk(n, p, c) && !p.Has(k) && AgreeBut(c, c', k)
    ensures LeafOk(n, p, c')
  {
    forall x | x in c' && p.Has(x) ensures HasKey(n.items, x) {
      assert x in c;
    }
  }

  /** A change at key k, made in the leaf responsible for it, keeps the invariant. */
  lemma SetLeafKeepsInv(t: Tree, a: Addr, items: seq<Item>, contents: map<Key, seq<bv8>>, k: Key)
    requires Inv(t) && a in t.spans && t.spans[a].level == 0 && t.spans[a].Has(k)
    requires AgreeBut(t.contents, contents, k)
    requires NodeOk(Node(0, items), t.spans[a], t.vs) && LeafOk(Node(0, items), t.spans[a], contents)
    requires CountOk(Node(0, items), t.leafMax, a == t.root)
    ensures a in t.view && Inv(SetLeaf(t, a, items, contents))
  {
    assert BlockOk(t, a);
    var t' := SetLeaf(t, a, items, contents);
    forall b | b in t'.spans ensures BlockOk(t', b) {
      assert BlockOk(t, b);
      if b != a {
        if t.spans[b].level == 0 {
          assert Apart(t.spans, a, b);
          LeafElsewhere(t.view[b], t.spans[b], t.vs, t.contents, contents, k);
        } else {
          Untouched(t, b, t', b);
        }
      }
    }
    forall b ensures InTree(t', b) {
      assert InTree(t, b);
    }
  }

  lemma InsertLeafNode(items: seq<Item>, p: Span, vs: nat, k: Key, v: seq<bv8>, i: nat)
    requires NodeOk(Node(0, items), p, vs) && p.Has(k) && |v| == vs && i <= |items|
    requires forall j :: 0 <= j < i ==> items[j].key < k
    requires forall j :: i <= j < |items| ==> k < items[j].key
    ensures NodeOk(Node(0, InsertAt(items, i, Item(k, Value(v)))), p, vs)
  {
  }

  lemma InsertLeafItems(items: seq<Item>, p: Span, vs: nat, contents: map<Key, seq<bv8>>, k: Key, v: seq<bv8>)
    requires NodeOk(Node(0, items), p, vs) && LeafOk(Node(0, items), p, contents) && p.Has(k)
    requires !HasKey(items, k) && |v| == vs
    ensures NodeOk(Node(0, InsertAt(items, LowerBound(items, k), Item(k, Value(v)))), p, vs)
    ensures LeafOk(Node(0, InsertAt(items, LowerBound(items, k), Item(k, Value(v)))), p, contents[k := v])
    ensures k !in contents
  {
    InsertLeafNode(items, p, vs, k, v, LowerBound(items, k));
    assert k in contents ==> HasKey(items, k);
    InsertLeafMap(items, p, contents, k, v, LowerBound(items, k));
  }

  lemma InsertLeafMap(items: seq<Item>, p: Span, contents: map<Key, seq<bv8>>, k: Key, v: seq<bv8>, i: nat)
    requires i <= |items| && LeafOk(Node(0, items), p, contents) && k !in contents
    requires Sorted(InsertAt(items, i, Item(k, Value(v))))
    ensures LeafOk(Node(0, InsertAt(items, i, Item(k, Value(v)))), p, contents[k := v])
  {
    var items' := InsertAt(items, i, Item(k, Value(v)));
    forall x | x in contents[k := v] && p.Has(x) ensures HasKey(items', x) {
      if x == k {
        HasKeyAt(items', x, i);
      } else {
        assert HasKey(Node(0, items).items, x);
        var j := LowerBound(items, x);
        HasKeyAt(items', x, if j < i then j else j + 1);
      }
    }
    forall j | 0 <= j < |items'|
      ensures items'[j].key in contents[k := v] && items'[j].val == Value(contents[k := v][items'[j].key])
    {
      if j != i {
        assert items'[j] == items[if j < i then j else j - 1];
      }
    }
  }

  lemma UpdateLeafItems(items: seq<Item>, p: Span, vs: nat, contents: map<Key, seq<bv8>>, k: Key, v: seq<bv8>)
    requires NodeOk(Node(0, items), p, vs) && LeafOk(Node(0, items), p, contents) && p.Has(k)
    requires HasKey(items, k) && |v| == vs
    ensures NodeOk(Node(0, items[LowerBound(items, k) := Item(k, Value(v))]), p, vs)
    ensures LeafOk(Node(0, items[LowerBound(items, k) := Item(k, Value(v))]), p, contents[k := v])
    ensures k in contents && items[LowerBound(items, k)].val == Value(contents[k])
  {
    var i := LowerBound(items, k);
    var items' := items[i := Item(k, Value(v))];
    assert items[i].key == k;
    forall x | x in contents[k := v] && p.Has(x) ensures HasKey(items', x) {
      assert x in contents && HasKey(items, x);
      HasKeyAt(items', x, LowerBound(items, x));
    }
  }

  lemma DeleteLeafNode(items: seq<Item>, p: Span, vs: nat, i: nat)
    requires NodeOk(Node(0, items), p, vs) && i < |items|
    ensures NodeOk(Node(0, RemoveAt(items, i)), p, vs)
    ensures forall j :: 0 <= j < |items| && j != i ==> items[j].key != items[i].key
  {
  }

  lemma DeleteLeafItems(items: seq<Item>, p: Span, vs: nat, contents: map<Key, seq<bv8>>, k: Key)
    requires NodeOk(Node(0, items), p, vs) && LeafOk(Node(0, items), p, contents) && p.Has(k) && HasKey(items, k)
    ensures NodeOk(Node(0, RemoveAt(items, LowerBound(items, k))), p, vs)
    ensures LeafOk(Node(0, RemoveAt(items, LowerBound(items, k))), p, contents - {k})
    ensures k in contents
  {
    var i := LowerBound(items, k);
    assert items[i].key == k;
    DeleteLeafNode(items, p, vs, i);
    DeleteLeafMap(items, p, contents, i);
  }

  lemma DeleteLeafMap(items: seq<Item>, p: Span, contents: map<Key, seq<bv8>>, i: nat)
    requires i < |items| && LeafOk(Node(0, items), p, contents) && Sorted(RemoveAt(items, i))
    requires forall j :: 0 <= j < |items| && j != i ==> items[j].key != items[i].key
    ensures LeafOk(Node(0, RemoveAt(items, i)), p, contents - {items[i].key})
  {
    var items', k := RemoveAt(items, i), items[i].key;
    forall x | x in contents - {k} && p.Has(x) ensures HasKey(items', x) {
      assert HasKey(Node(0, items).items, x);
      var j := LowerBound(items, x);
      HasKeyAt(items', x, if j < i then j else j - 1);
    }
    forall j | 0 <= j < |items'|
      ensures items'[j].key in contents - {k} && items'[j].val == Value((contents - {k})[items'[j].key])
    {
      assert items'[j] == items[if j < i then j else j + 1];
    }
  }

  /** A tree of one empty leaf. */
  ghost function Sprout(view: map<Addr, Node>, c: Addr, leafMax: nat, refMax: nat, vs: nat): Tree {
    Tree(view, c, 1, map[c := Span(0, -1, MAX_KEY)], map[], leafMax, refMax, vs)
  }

  lemma SproutInv(view: map<Addr, Node>, c: Addr, leafMax: nat, refMax: nat, vs: nat)
    requires c in view && view[c] == Node(0, []) && leafMax >= 8 && leafMax % 2 == 0 && refMax >= 8 && refMax % 2 == 0
    ensures Inv(Sprout(view, c, leafMax, refMax, vs))
  {
    assert BlockOk(Sprout(view, c, leafMax, refMax, vs), c);
  }
}
