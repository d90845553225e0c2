/**
 * The secondary index (src/btree.c): a B-tree of order four in an offset
 * addressed store, with the root node cached and freed nodes chained.
 */
module BTree {
  import opened Order
  import opened SearchTree
  import opened Ownership
  import opened BTreeNode
  import opened BTreeSpec
  import opened BTreeInsertion
  import opened BTreeOrder
  import opened BTreeDeletion
  import opened BTreeDrop
  import OrderedTree
  import opened BTreeLookup
  import opened BTreeFound
  import opened Pages

  /** sizeof(node_t). */
  const NODE_SIZE: nat := 368

  /** sizeof(struct _root_super). */
  const SUPER_SIZE: nat := 24

  /** struct _root_super: what survives in the file besides the nodes. */
  datatype Super = Super(root: int, freelist: int, uniqueKeys: bool)

  /** No two nodes overlap. */
  ghost predicate Spaced(offs: set<int>) {
    forall o, p | o in offs && p in offs && o < p :: o + NODE_SIZE <= p
  }

  lemma SpacedGrown(offs: set<int>, at: int)
    requires Spaced(offs) && forall o | o in offs :: o + NODE_SIZE <= at
    ensures Spaced(offs + {at})
  {
  }

  class Index {
    var root: int
    var freelist: int
    var rootnode: NodeV
    var uniqueKeys: bool
    var disk: map<int, NodeV>
    const pager: Pager
    ghost var tree: T
    ghost var height: nat
    ghost var free: seq<int>
    var super: Super

    /** The store below the tree: cached root node, free list, and every node
        allocated from the pager. */
    ghost predicate Store(fl: seq<int>)
      reads this, pager
    {
      && pager.Valid() && PAGE_HEADER + NODE_SIZE < pager.pageSize
      && (root == -1 || (root in disk && rootnode == disk[root]))
      && rootnode.Ok()
      && FreeChain(disk, freelist, fl)
      && (forall o | o in disk :: 0 < o && o + NODE_SIZE <= pager.offset && disk[o].Ok())
      && Spaced(disk.Keys)
    }

    /** The index invariant: the tree on disk is well shaped, and every offset
        ever allocated is either one of its nodes or on the free list, once. */
    ghost predicate Valid()
      reads this, pager
    {
      && Store(free)
      && Repr(disk, root, tree) && Shape(tree, height, 1)
      && multiset(disk.Keys) == Offs(tree) + multiset(free)
    }

    ghost function Contents(): seq<I>
      reads this
    {
      InOrder(tree)
    }

    /** btree_create: an empty index with unique keys. */
    constructor (pager: Pager)
      requires pager.Valid() && PAGE_HEADER + NODE_SIZE < pager.pageSize
      modifies pager
      ensures Valid() && Contents() == [] && uniqueKeys && Measured() && Settled()
      ensures super == Super(-1, -1, true) && this.pager == pager
    {
      this.pager := pager;
      root, freelist, uniqueKeys, rootnode, disk := -1, -1, true, ZERO_NODE, map[];
      tree, height, free := Nil, 0, [];
      super := Super(-1, -1, true);
      new;
      var _ := pager.Alloc(SUPER_SIZE);
    }

    /** btree_open: read the super block and the root node. */
    constructor Open(closed: Index)
      requires closed.Valid()
      requires closed.super == Super(closed.root, closed.freelist, closed.uniqueKeys)
      ensures Valid() && pager == closed.pager
      ensures Contents() == closed.Contents() && uniqueKeys == closed.uniqueKeys
      ensures disk == closed.disk && root == closed.root && freelist == closed.freelist
    {
      pager, disk, super := closed.pager, closed.disk, closed.super;
      rootnode := if closed.super.root == -1 then ZERO_NODE else closed.disk[closed.super.root];
      root, freelist, uniqueKeys := closed.super.root, closed.super.freelist, closed.super.uniqueKeys;
      tree, height, free := closed.tree, closed.height, closed.free;
    }

    /** btree_close: write the super block and the cached root node back. */
    method Close()
      requires Valid()
      modifies `super, `disk, `rootnode
      ensures Valid() && disk == old(disk)
      ensures super == Super(root, freelist, uniqueKeys)
    {
      super := Super(root, freelist, uniqueKeys);
      if root != -1 {
        FlushNode(root, rootnode);
        assert disk == old(disk);
      }
    }

    /** btree_set_unique. */
    method SetUnique(unique: bool)
      requires Valid()
      modifies `uniqueKeys
      ensures Valid() && uniqueKeys == unique
    {
      uniqueKeys := unique;
    }

    // ----- the store -----

    /** get_node. */
    method GetNode(offset: int) returns (node: NodeBuf)
      requires offset in disk && disk[offset].Ok()
      requires offset == root ==> rootnode == disk[offset]
      ensures fresh(node) && fresh(node.items) && fresh(node.ptr)
      ensures node.Valid() && node.Value() == disk[offset]
      ensures node.Keys() == disk[offset].Keys() && node.Kids() == disk[offset].Kids()
    {
      if offset == root {
        node := new NodeBuf(rootnode);
      } else {
        node := new NodeBuf(disk[offset]);
      }
    }

    /** flush_node. */
    method FlushNode(offset: int, node: NodeV)
      modifies `disk, `rootnode
      ensures disk == old(disk)[offset := node]
      ensures rootnode == if offset == root then node else old(rootnode)
    {
      if offset == root {
        rootnode := node;
      }
      disk := disk[offset := node];
    }

    /** alloc_node: reuse the head of the free list, or grow the file. */
    method AllocNode(ghost fl: seq<int>, ghost live: multiset<int>) returns (offset: int, ghost fl': seq<int>)
      requires Store(fl) && multiset(disk.Keys) == live + multiset(fl)
      modifies `disk, `rootnode, `freelist, pager
      ensures Store(fl') && multiset(disk.Keys) == live + multiset{offset} + multiset(fl')
      ensures SameOn(old(disk), disk, live)
      ensures offset in disk && offset !in live && offset !in fl'
    {
      hide Repr, ReprKids, Spaced, Pager.Valid;
      if freelist < 0 {
        fl' := fl;
        offset := GrowFile(fl);
      } else {
        offset, fl' := freelist, fl[1..];
        var node := GetNode(offset);
        freelist := node.ptr[0];
        assert fl == [offset] + fl';
      }
      Alone(disk.Keys, offset, live + multiset(fl'));
    }

    /** The part of alloc_node that writes a new node behind all others. */
    method GrowFile(ghost fl: seq<int>) returns (offset: int)
      requires Store(fl)
      modifies `disk, `rootnode, pager
      ensures Store(fl) && offset !in old(disk) && disk == old(disk)[offset := ZERO_NODE]
      ensures multiset(disk.Keys) == multiset(old(disk).Keys) + multiset{offset}
    {
      hide Repr, ReprKids, Spaced, Pager.Valid, FreeChain;
      var at := pager.Alloc(NODE_SIZE);
      offset := at;
      ghost var d := disk;
      FlushNode(offset, ZERO_NODE);
      assert disk.Keys == d.Keys + {offset};
      SpacedGrown(d.Keys, offset);
      FreeChainFrame(d, disk, freelist, fl);
    }

    /** free_node: chain a node in front of the free list. */
    method FreeNode(offset: int, ghost fl: seq<int>, ghost live: multiset<int>)
      requires Store(fl) && multiset(disk.Keys) == live + multiset{offset} + multiset(fl)
      modifies `disk, `rootnode, `freelist
      ensures Store([offset] + fl)
      ensures disk.Keys == old(disk).Keys
      ensures forall o | o in disk && o != offset :: disk[o] == old(disk)[o]
      ensures SameOn(old(disk), disk, live)
    {
      Apart(disk.Keys, live, multiset{offset}, multiset(fl));
      assert offset in multiset{offset};
      var node := GetNode(offset);
      node.ptr[0] := freelist;
      freelist := offset;
      ghost var d := disk;
      FlushNode(offset, node.Value());
      FreeChainFrame(d, disk, node.ptr[0], fl);
      assert ([offset] + fl)[1..] == fl;
    }

    /** Every key fits into its field and has its length as key_size. */
    ghost predicate Measured()
      reads this
    {
      AllSized(Contents())
    }

    /** Keys are unique and in search order: what btree_create starts from and
        every operation keeps while uniqueKeys stays set. */
    ghost predicate Ordered()
      reads this
    {
      uniqueKeys && Sorted(Contents()) && Measured()
    }

    /** In search order, equal keys allowed, every key with its size. */
    ghost predicate Searchable()
      reads this
    {
      InSearchOrder(Contents()) && Measured()
    }

    /** In search order, equal keys allowed, and without crowds of equal items:
        what btree_create starts from and btree_insert keeps in any case. */
    ghost predicate Settled()
      reads this
    {
      InSearchOrder(Contents()) && Light(tree, NoLow)
    }

    /** The next insertion of x takes the wrong place on the way up. */
    ghost predicate Loses(x: I)
      reads this
    {
      Regular(tree) && Misplaced(tree, x)
    }

    /** The index as a map from key to its value set. */
    ghost function Map(): map<Key, Val>
      reads this
    {
      ToMap(Contents())
    }

    // ----- insertion -----

    /** btree_insert. The code copies keys by key_size, which is an unsigned
        char, into a field of 64 characters. */
    method Insert(key: Key, keySize: nat, valset: int) returns (code: Status)
      requires Valid() && Measured() && |key| < KEY_FIELD && keySize == |key|
      modifies this, pager
      ensures Valid() && Measured() && uniqueKeys == old(uniqueKeys) && super == old(super)
      ensures code == SUCCESS || (code == DUPLICATEKEY && uniqueKeys)
      ensures code == DUPLICATEKEY ==> Contents() == old(Contents()) && tree == old(tree)
      ensures code == SUCCESS ==> multiset(Contents()) == multiset(old(Contents())) + multiset{Item(key, Val(keySize, valset))}
      ensures old(Ordered()) ==> Ordered() && (code == DUPLICATEKEY <==> key in old(Map()))
      ensures old(Ordered()) && code == SUCCESS ==> Contents() == Put(old(Contents()), Item(key, Val(keySize, valset)))
      ensures old(Ordered()) && code == SUCCESS ==> Map() == old(Map())[key := Val(keySize, valset)]
      ensures old(InSearchOrder(Contents())) && code == SUCCESS ==>
        (InSearchOrder(Contents()) <==> !old(Loses(Item(key, Val(keySize, valset)))))
      ensures old(Settled()) ==> Settled()
    {
      hide Inserted, InOrder, ToMap, Put, Sorted, Has, InSearchOrder, Light, Misplaced, Regular;
      ghost var before := Contents();
      code := InsertTree(key, keySize, valset);
      InsertMeaning(code, before, Contents(), Item(key, Val(keySize, valset)), uniqueKeys);
      if code == SUCCESS {
        InsertedSized(before, Contents(), Item(key, Val(keySize, valset)));
      }
    }

    method InsertTree(key: Key, keySize: nat, valset: int) returns (code: Status)
      requires Valid() && Measured() && |key| < KEY_FIELD && keySize == |key|
      modifies `disk, `rootnode, `freelist, `root, `tree, `height, `free, pager
      ensures Valid()
      ensures code == SUCCESS || code == DUPLICATEKEY
      ensures code == DUPLICATEKEY ==>
        uniqueKeys && tree == old(tree) && (Sorted(Contents()) ==> Has(Contents(), key))
      ensures code == SUCCESS ==> Inserted(old(Contents()), Contents(), Item(key, Val(keySize, valset)), uniqueKeys)
      ensures code == SUCCESS && old(InSearchOrder(Contents())) ==>
        (InSearchOrder(Contents()) <==> !old(Loses(Item(key, Val(keySize, valset)))))
      ensures code == SUCCESS && old(Settled()) ==> Settled()
    {
      hide Inserted, Shape, Repr, InOrder, Sorted, Has, FreeChain, Spaced, Offs, KidsOffs, SameOn, AllSized, Orderly,
           InSearchOrder, Light, Misplaced, Regular;
      ghost var x, t := Item(key, Val(keySize, valset)), tree;
      ShapeRegular(t, height, 1);
      var up, offnew;
      ghost var t', r, fl';
      code, up, offnew, t', r, fl' := InsertRec(key, keySize, valset, root, tree, height, 1, free, multiset{});
      if code == INSERTNOTCOMPLETE {
        RootSized(t, height, t', up, r, x, uniqueKeys);
        GrowRoot(up, offnew, t', r, height, fl');
        OrderRoot(t, t', up, r, x, root);
        code := SUCCESS;
      } else {
        tree, free := t', fl';
        NilRepr(disk);
        if code == SUCCESS {
          OrderMeaning(t, t', up, r, x);
        }
      }
    }

    /** The part of btree_insert that puts a new root above a split one. */
    method GrowRoot(up: I, offnew: int, ghost l: T, ghost r: T, ghost h: nat, ghost fl: seq<int>)
      requires Store(fl) && Repr(disk, root, l) && Repr(disk, offnew, r)
      requires multiset(disk.Keys) == Offs(l) + Offs(r) + multiset(fl)
      requires Shape(l, h, INDEX_MSIZE) && Shape(r, h, INDEX_MSIZE) && Sized(up)
      modifies `disk, `rootnode, `freelist, `root, `tree, `height, `free, pager
      ensures Valid() && tree == Node(root, [up], [l, r]) && Contents() == InOrder(l) + [up] + InOrder(r)
    {
      hide Shape, InOrder, KidsOffs, Offs, FreeChain, Spaced, Repr, ReprKids;
      ghost var d := disk;
      ghost var live := Offs(l) + Offs(r);
      var offset;
      ghost var fl';
      offset, fl' := AllocNode(fl, live);
      KidsOffsPair(l, r);
      ReprPair(d, disk, root, l, offnew, r);
      rootnode := rootnode.(cnt := 1, items := rootnode.items[0 := Copied(up)], ptr := rootnode.ptr[0 := root][1 := offnew]);
      root := offset;
      free, tree, height := fl', Node(offset, [up], [l, r]), h + 1;
      d := disk;
      FlushNode(offset, rootnode);
      assert disk.Keys == d.Keys;
      NodeWritten(d, tree, rootnode, freelist, fl');
      RootShape(offset, up, l, r, h);
    }

    // ----- deletion -----

    /** btree_delete. In search order, exactly the items of Dropped are left: one key
        less, and the order and the items of all other keys are kept. */
    method Delete(key: Key) returns (code: Status)
      requires Valid()
      modifies `disk, `rootnode, `freelist, `root, `tree, `height, `free
      ensures Valid()
      ensures code == SUCCESS || code == NOTFOUND
      ensures old(Ordered()) ==> Ordered() && (code == NOTFOUND <==> key !in old(Map()))
      ensures old(Ordered()) && code == NOTFOUND ==> Contents() == old(Contents())
      ensures old(Ordered()) && code == SUCCESS ==> Has(old(Contents()), key) && Contents() == Del(old(Contents()), key)
      ensures old(Ordered()) && code == SUCCESS ==> Map() == old(Map()) - {key}
      ensures old(Searchable()) ==> Searchable() && (code == NOTFOUND <==> !Has(old(Contents()), key))
      ensures old(Searchable()) && code == NOTFOUND ==> Contents() == old(Contents())
      ensures old(Searchable()) && code == SUCCESS ==> Contents() == old(Dropped(tree, height, key))
      ensures old(Searchable()) && code == SUCCESS ==> Shifted(old(Contents()), Contents(), key)
    {
      hide Shape, Repr, InOrder, ToMap, Sorted, InSearchOrder, Has, Del, FreeChain, Spaced, Offs, KidsOffs, Dropped, Shifted, Exact;
      ghost var before := Contents();
      if Ordered() {
        OrderedTree.SortedInOrder(before);
      }
      if Searchable() {
        SizedExact(before, key);
      }
      ghost var t', fl';
      code, t', fl' := DeleteRec(key, root, tree, height, 1, free, multiset{});
      DeleteMeaning(code, tree, height, t', key);
      if code == UNDERFLOW {
        ShrinkRoot(t', height, fl');
        code := SUCCESS;
      } else {
        tree, free := t', fl';
      }
    }

    /** The part of btree_delete that drops an emptied root. */
    method ShrinkRoot(ghost t: T, ghost h: nat, ghost fl: seq<int>)
      requires Store(fl) && Repr(disk, root, t) && Starved(t, h, 1)
      requires multiset(disk.Keys) == Offs(t) + multiset(fl)
      modifies `disk, `rootnode, `freelist, `root, `tree, `height, `free
      ensures Valid() && Contents() == InOrder(t)
    {
      hide Shape, Repr, InOrder, FreeChain, Spaced, KidsOffs, Offs, Starved, SameOn, Pager.Valid;
      OnlyKid(disk, root, t, h);
      var newroot := rootnode.ptr[0];
      ghost var d, kid := disk, t.kids[0];
      FreeNode(root, fl, Offs(kid));
      RootDropped(d, disk, root, newroot, kid, fl);
      if newroot > 0 {
        var node := GetNode(newroot);
        rootnode := node.Value();
      }
      free, tree, height := [root] + fl, kid, h - 1;
      root := newroot;
    }

    // ----- lookup -----

    /** btree_get: the value sets of the items met with this key on the way
        down. */
    method Search(key: Key) returns (code: Status, result: seq<int>)
      requires Valid()
      ensures code == SUCCESS || code == NOTFOUND
      ensures code == SUCCESS <==> result != []
      ensures Ordered() ==> result == if key in Map() then [Map()[key].valset] else []
      ensures InSearchOrder(Contents()) ==> result == Found(tree, key) && (result == [] <==> forall x <- Contents() :: x.key != key)
    {
      hide InSearchOrder, Searching, Found;
      hide Shape, Repr, InOrder, FoundSoFar, FreeChain, Spaced, Offs, KidsOffs, Sorted, ToMap, Siblings, IsLowerBound, ReprKids, Matches;
      result := [];
      var offset := root;
      ghost var t, h, m := tree, height, 1;
      FoundStart(tree, key);
      if InSearchOrder(Contents()) {
        SearchingStart(tree, key);
      }
      while offset != -1
        invariant Repr(disk, offset, t) && Shape(t, h, m) && 1 <= m
        invariant Ordered() ==> FoundSoFar(tree, t, key, result)
        invariant InSearchOrder(Contents()) ==> Searching(tree, t, key, result)
        decreases h
      {
        NodeFacts(disk, offset, t, h, m);
        var node := GetNode(offset);
        var i := Get(key, node.items, node.cnt);
        KidFacts(disk, t, h, m, i);
        ghost var r := result;
        var found := Collect(node, i, key);
        result := result + found;
        if Ordered() {
          FoundStep(tree, t, key, r, i);
        }
        if InSearchOrder(Contents()) {
          SearchingStep(tree, t, key, r, i);
        }
        offset := node.ptr[i];
        t, h, m := t.kids[i], h - 1, INDEX_MSIZE;
      }
      code := if result != [] then SUCCESS else NOTFOUND;
      FoundEnd(disk, tree, t, h, m, offset, key, result, Ordered());
      if InSearchOrder(Contents()) {
        NilAt(disk, offset, t);
        SearchingEnd(tree, t, height, 1, key, result);
      }
    }

    /** The part of btree_get that goes over the items of one node. */
    method Collect(node: NodeBuf, from: int, key: Key) returns (result: seq<int>)
      requires node.Valid() && 0 <= from <= node.cnt
      ensures result == Matches(node.Keys()[from..], key)
    {
      result := [];
      var x := from;
      while x < node.cnt
        invariant from <= x <= node.cnt
        invariant result == Matches(node.Keys()[from..x], key)
      {
        MatchesOne(node.Keys(), from, x, key);
        if key == node.items[x].key {
          result := result + [node.items[x].val.valset];
        }
        x := x + 1;
      }
      assert node.Keys()[from..node.cnt] == node.Keys()[from..];
    }

    /** traverse_node: the items of the node at offset and then those of its
        children. */
    method Traverse(offset: int, ghost t: T, ghost h: nat, ghost m: int) returns (result: seq<I>)
      requires Repr(disk, offset, t) && Shape(t, h, m) && 1 <= m
      requires root in disk ==> rootnode == disk[root]
      ensures multiset(result) == multiset(InOrder(t))
      decreases h, 0
    {
      hide Shape, Repr, InOrder, ReprKids, KidsItems, Offs, Siblings, FreeChain, Spaced;
      NodeFacts(disk, offset, t, h, m);
      result := [];
      if offset != -1 {
        var node := GetNode(offset);
        result := node.Keys();
        KidsItemsStart(t.kids);
        var i := 0;
        while i <= node.cnt
          modifies {}
          invariant 0 <= i <= node.cnt + 1
          invariant multiset(result) == multiset(t.items) + KidsItems(t.kids[..i])
        {
          KidFacts(disk, t, h, m, i);
          KidsItemsNext(t.kids, i);
          assert node.ptr[i] == node.Kids()[i];
          var below := Traverse(node.ptr[i], t.kids[i], h - 1, INDEX_MSIZE);
          result := result + below;
          i := i + 1;
        }
        assert t.kids[..i] == t.kids;
        FlatItems(t.items, t.kids);
      }
      InOrderItems(t);
    }

    /** btree_get_all: every item of the index, each as often as it is stored. */
    method GetAll() returns (result: seq<I>)
      requires Valid()
      ensures multiset(result) == multiset(Contents())
    {
      result := Traverse(root, tree, height, 1);
    }

    // ----- the recursion of insert -----

    /** insert: put a key into the subtree at offset. When the subtree's root
        had to split, the middle item and the new right half are handed up. */
    method InsertRec(key: Key, keySize: nat, valset: int, offset: int, ghost t: T, ghost h: nat, ghost m: int,
                     ghost fl: seq<int>, ghost rest: multiset<int>)
      returns (code: Status, up: I, offnew: int, ghost t': T, ghost r: T, ghost fl': seq<int>)
      requires Store(fl) && Repr(disk, offset, t) && Shape(t, h, m) && 1 <= m <= INDEX_MSIZE
      requires AllSized(InOrder(t)) && Sized(Item(key, Val(keySize, valset)))
      requires multiset(disk.Keys) == Offs(t) + rest + multiset(fl)
      modifies `disk, `rootnode, `freelist, pager
      ensures Store(fl') && SameOn(old(disk), disk, rest)
      ensures multiset(disk.Keys) == Offs(t') + Offs(r) + rest + multiset(fl')
      ensures Repr(disk, offset, t') && Repr(disk, offnew, r) && Shape(t', h, m)
      ensures InsertOutcome(code, t, h, t', up, r, Item(key, Val(keySize, valset)), uniqueKeys)
      ensures Orderly(code, t, t', up, r, Item(key, Val(keySize, valset)))
      decreases h
    {
      hide AllSized, InSearchOrder, OrderOutcome, KeepsLight;
      hide InsertOutcome, Shape, InOrder, Repr, ReprKids, IsLowerBound, Sorted, Offs, KidsOffs, FreeChain, Spaced, Siblings;
      ghost var x := Item(key, Val(keySize, valset));
      NodeFacts(disk, offset, t, h, m);
      t', r, fl', up, offnew := t, Nil, fl, Item(key, Val(keySize, valset)), -1;
      NilRepr(disk);
      if offset == -1 {
        OutcomeAtLeaf(x, uniqueKeys);
        OrderAtLeaf(x);
        return INSERTNOTCOMPLETE, up, offnew, t', r, fl';
      }
      var node := GetNode(offset);
      var i, hit := node.Find(key);
      if hit && uniqueKeys {
        FoundHere(t, h, key, i, up);
        OrderNone(t, up, x);
        return DUPLICATEKEY, up, offnew, t', r, fl';
      }
      ghost var kid, fl1;
      KidFacts(disk, t, h, m, i);
      SizedParts(t, i);
      code, up, offnew, kid, r, fl1 := InsertRec(key, keySize, valset, node.ptr[i], t.kids[i], h - 1, INDEX_MSIZE,
                                                 fl, rest + Siblings(t, i));
      StepBack(old(disk), disk, t, i, kid, r, fl1, rest);
      code, up, offnew, t', r, fl' := InsertBack(code, offset, node, i, up, offnew, x, t, h, m, kid, r, fl1, rest);
    }

    /** The rest of insert, after the recursion into child i. */
    method InsertBack(below: Status, offset: int, node: NodeBuf, i: int, up: I, right: int, ghost x: I,
                      ghost t: T, ghost h: nat, ghost m: int, ghost kid: T, ghost r: T, ghost fl: seq<int>, ghost rest: multiset<int>)
      returns (code: Status, up': I, offnew: int, ghost t': T, ghost r': T, ghost fl': seq<int>)
      requires Store(fl) && t.Node? && t.off == offset && 0 < h && Shape(t, h, m) && 1 <= m <= INDEX_MSIZE
      requires node.Valid() && Stopped(node.Keys(), t, i, x.key, uniqueKeys)
      requires ReprKids(disk, node.Kids(), t.kids[i := kid]) && Repr(disk, right, r)
      requires multiset(disk.Keys) == multiset{offset} + KidsOffs(t.kids[i := kid]) + Offs(r) + rest + multiset(fl)
      requires InsertOutcome(below, t.kids[i], h - 1, kid, up, r, x, uniqueKeys) && Shape(kid, h - 1, INDEX_MSIZE)
      requires Orderly(below, t.kids[i], kid, up, r, x) && AllSized(InOrder(t)) && Sized(x)
      requires offset in disk && disk[offset] == node.Value() && 0 < offset
      modifies `disk, `rootnode, `freelist, pager, node, node.items, node.ptr
      ensures Store(fl') && SameOn(old(disk), disk, rest)
      ensures multiset(disk.Keys) == Offs(t') + Offs(r') + rest + multiset(fl')
      ensures Repr(disk, offset, t') && Repr(disk, offnew, r') && Shape(t', h, m)
      ensures InsertOutcome(code, t, h, t', up', r', x, uniqueKeys) && Orderly(code, t, t', up', r', x)
    {
      hide Orderly, AllSized, InSearchOrder;
      hide InsertOutcome, Shape, InOrder, Repr, ReprKids, IsLowerBound, Sorted, KidsOffs, Offs, FreeChain, Spaced;
      if below == INSERTNOTCOMPLETE {
        code, up', offnew, t', r', fl' := InsertUp(offset, node, i, up, right, x, t, h, m, kid, r, fl, rest);
      } else {
        code, up', offnew, t', r', fl' := below, up, right, Node(offset, t.items, t.kids[i := kid]), r, fl;
        NodeRepr(disk, t');
        InsertPassed(code, t, h, m, i, kid, up, r, x, uniqueKeys);
        OrderlyPassed(code, t, h, i, kid, up, r, x, uniqueKeys);
      }
    }

    /** Take in the item and the right half that came up from child i. */
    method InsertUp(offset: int, node: NodeBuf, i: int, up: I, right: int, ghost x: I,
                    ghost t: T, ghost h: nat, ghost m: int, ghost kid: T, ghost r: T, ghost fl: seq<int>, ghost rest: multiset<int>)
      returns (code: Status, up': I, offnew: int, ghost t': T, ghost r': T, ghost fl': seq<int>)
      requires Store(fl) && t.Node? && t.off == offset && 0 < h && Shape(t, h, m) && 1 <= m <= INDEX_MSIZE
      requires node.Valid() && Stopped(node.Keys(), t, i, x.key, uniqueKeys)
      requires ReprKids(disk, node.Kids(), t.kids[i := kid]) && Repr(disk, right, r)
      requires multiset(disk.Keys) == multiset{offset} + KidsOffs(t.kids[i := kid]) + Offs(r) + rest + multiset(fl)
      requires InsertOutcome(INSERTNOTCOMPLETE, t.kids[i], h - 1, kid, up, r, x, uniqueKeys)
      requires Orderly(INSERTNOTCOMPLETE, t.kids[i], kid, up, r, x) && AllSized(InOrder(t)) && Sized(x)
      modifies `disk, `rootnode, `freelist, pager, node, node.items, node.ptr
      ensures Store(fl') && SameOn(old(disk), disk, rest)
      ensures multiset(disk.Keys) == Offs(t') + Offs(r') + rest + multiset(fl')
      ensures Repr(disk, offset, t') && Repr(disk, offnew, r') && Shape(t', h, m)
      ensures InsertOutcome(code, t, h, t', up', r', x, uniqueKeys) && Orderly(code, t, t', up', r', x)
    {
      hide Orderly, AllSized, InSearchOrder;
      hide InsertOutcome, Shape, InOrder, Repr, ReprKids, IsLowerBound, Sorted, KidsOffs, Offs, FreeChain, Spaced;
      ghost var kids := t.kids[i := kid];
      OnItsOwn(disk.Keys, offset, KidsOffs(kids), Offs(r), rest, multiset(fl));
      OutcomeSized(t, h, i, kid, up, r, x, uniqueKeys);
      if node.cnt < INDEX_SIZE {
        var j := InsertHere(offset, node, up, right, kids, r, fl);
        t', r', fl', up', offnew, code := Node(offset, GrownItems(t.items, j, up), GrownKids(kids, j, r)), Nil, fl, up, -1, SUCCESS;
        GrownNode(t, h, m, i, kid, j, up, r, x, uniqueKeys);
        OrderlyTaken(t, h, i, kid, j, up, r, x, uniqueKeys);
        NilRepr(disk);
      } else {
        ghost var live := multiset{offset} + KidsOffs(kids) + Offs(r) + rest;
        up', offnew, fl' := SplitHere(offset, node, i, up, right, kids, r, fl, live);
        t', r' := SplitLeft(t, i, kid, up, r), SplitRight(t, i, kid, up, r, offnew);
        code := INSERTNOTCOMPLETE;
        SplitNode(t, h, m, i, kid, up, r, x, uniqueKeys, offnew);
        OrderlySplit(t, h, i, kid, up, r, x, uniqueKeys, offnew);
      }
    }

    /** The part of insert that finds room in the node itself: search again and
        put the item that came up, with its right child, into place. */
    method InsertHere(offset: int, node: NodeBuf, up: I, right: int, ghost kids: seq<T>, ghost r: T, ghost fl: seq<int>)
      returns (j: int)
      requires Store(fl) && node.Valid() && 1 <= node.cnt < INDEX_SIZE && |kids| == |node.Keys()| + 1 && Sized(up)
      requires ReprKids(disk, node.Kids(), kids) && Repr(disk, right, r)
      requires offset in disk && offset !in KidsOffs(kids) && offset !in Offs(r) && offset !in fl
      modifies `disk, `rootnode, node, node.items, node.ptr
      ensures Store(fl) && disk.Keys == old(disk).Keys && disk == old(disk)[offset := disk[offset]]
      ensures 0 <= j < |kids|
      ensures Sorted(old(node.Keys())) || InSearchOrder(old(node.Keys())) ==> IsLowerBound(old(node.Keys()), up.key, j)
      ensures Repr(disk, offset, Node(offset, GrownItems(old(node.Keys()), j, up), GrownKids(kids, j, r)))
    {
      j := Get(up.key, node.items, node.cnt);
      ReprKidsInsert(disk, node.Kids(), kids, j + 1, right, r);
      KidsOffsInsert(kids, j + 1, r);
      node.InsertAt(j, up, right);
      Write(offset, node.Value(), GrownKids(kids, j, r), fl);
    }

    /** The part of insert that splits a full node. */
    method SplitHere(offset: int, node: NodeBuf, i: int, up: I, right: int, ghost kids: seq<T>, ghost r: T,
                     ghost fl: seq<int>, ghost live: multiset<int>)
      returns (mid: I, offnew: int, ghost fl': seq<int>)
      requires Store(fl) && node.Valid() && node.cnt == INDEX_SIZE && 0 <= i <= INDEX_SIZE && |kids| == INDEX_SIZE + 1
      requires Sized(up) && AllSized(node.Keys())
      requires ReprKids(disk, node.Kids(), kids) && Repr(disk, right, r)
      requires multiset(disk.Keys) == live + multiset(fl)
      requires offset in live && KidsOffs(kids) + Offs(r) <= live && offset !in KidsOffs(kids) + Offs(r)
      modifies `disk, `rootnode, `freelist, pager, node, node.items, node.ptr
      ensures Store(fl') && multiset(disk.Keys) == live + multiset{offnew} + multiset(fl')
      ensures offnew !in live && SameOnBut(old(disk), disk, live, offset)
      ensures var items, ks := GrownItems(old(node.Keys()), i, up), GrownKids(kids, i, r);
        && mid == items[INDEX_MSIZE]
        && Repr(disk, offset, Node(offset, items[..INDEX_MSIZE], ks[..INDEX_MSIZE + 1]))
        && Repr(disk, offnew, Node(offnew, items[INDEX_MSIZE + 1..], ks[INDEX_MSIZE + 1..]))
    {
      hide Repr, KidsOffs, Offs, FreeChain, Spaced, SameOnBut;
      ghost var ks := GrownKids(kids, i, r);
      ghost var ps := node.Kids()[..i + 1] + [right] + node.Kids()[i + 1..];
      ReprKidsInsert(disk, node.Kids(), kids, i + 1, right, r);
      KidsOffsInsert(kids, i + 1, r);
      ghost var all := node.Keys()[..i] + [up] + node.Keys()[i..];
      var last, lastPtr := node.InsertFull(i, up, right);
      assert all[INDEX_SIZE] == last;
      var rnode;
      mid, rnode := node.Halve(last, lastPtr);
      offnew, fl' := PlaceHalves(offset, node.Value(), rnode.Value(), ps, ks, INDEX_MSIZE + 1, fl, live);
    }

    /** Allocate the upper half of a split node and write both halves. */
    method PlaceHalves(offset: int, node: NodeV, rnode: NodeV, ghost ps: seq<int>, ghost ks: seq<T>, ghost m: nat,
                       ghost fl: seq<int>, ghost live: multiset<int>)
      returns (offnew: int, ghost fl': seq<int>)
      requires Store(fl) && node.Ok() && rnode.Ok() && ReprKids(disk, ps, ks)
      requires m <= |ks| && node.Kids() == ps[..m] && rnode.Kids() == ps[m..]
      requires multiset(disk.Keys) == live + multiset(fl)
      requires offset in live && KidsOffs(ks) <= live && offset !in KidsOffs(ks)
      modifies `disk, `rootnode, `freelist, pager
      ensures Store(fl') && multiset(disk.Keys) == live + multiset{offnew} + multiset(fl')
      ensures offnew !in live && SameOnBut(old(disk), disk, live, offset)
      ensures Repr(disk, offset, Node(offset, node.Keys(), ks[..m]))
      ensures Repr(disk, offnew, Node(offnew, rnode.Keys(), ks[m..]))
    {
      ghost var d := disk;
      offnew, fl' := AllocNode(fl, live);
      HalvesReady(d, disk, ps, ks, m, offset, offnew, fl', live);
      WriteHalves(offset, node, offnew, rnode, ks[..m], ks[m..], fl');
    }

    method WriteHalves(offset: int, node: NodeV, offnew: int, rnode: NodeV, ghost lk: seq<T>, ghost rk: seq<T>,
                       ghost fl: seq<int>)
      requires Store(fl) && node.Ok() && rnode.Ok()
      requires |lk| == |node.Keys()| + 1 && |rk| == |rnode.Keys()| + 1
      requires ReprKids(disk, node.Kids(), lk) && ReprKids(disk, rnode.Kids(), rk)
      requires offset in disk && offnew in disk && offset != offnew
      requires offset !in KidsOffs(lk) && offset !in KidsOffs(rk) && offset !in fl
      requires offnew !in KidsOffs(lk) && offnew !in KidsOffs(rk) && offnew !in fl
      modifies `disk, `rootnode
      ensures Store(fl) && disk.Keys == old(disk).Keys
      ensures forall o | o in disk && o != offset && o != offnew :: disk[o] == old(disk)[o]
      ensures Repr(disk, offset, Node(offset, node.Keys(), lk))
      ensures Repr(disk, offnew, Node(offnew, rnode.Keys(), rk))
    {
      ghost var d := disk;
      Write(offset, node, lk, fl);
      ReprKidsFrame(d, disk, rnode.Kids(), rk);
      d := disk;
      Write(offnew, rnode, rk, fl);
      ReprFrame(d, disk, offset, Node(offset, node.Keys(), lk));
    }

    /** flush_node on a node of the tree: what the store means afterwards. */
    method Write(offset: int, node: NodeV, ghost kids: seq<T>, ghost fl: seq<int>)
      requires Store(fl) && node.Ok() && |kids| == |node.Keys()| + 1
      requires ReprKids(disk, node.Kids(), kids)
      requires offset in disk && offset !in KidsOffs(kids) && offset !in fl
      modifies `disk, `rootnode
      ensures Store(fl) && disk == old(disk)[offset := node]
      ensures Repr(disk, offset, Node(offset, node.Keys(), kids))
    {
      ghost var d := disk;
      FlushNode(offset, node);
      ReprKidsFrame(d, disk, node.Kids(), kids);
      FreeChainFrame(d, disk, freelist, fl);
    }

    // ----- the recursion of delete -----

    /** delete: remove a key from the subtree at offset. UNDERFLOW tells the
        caller that the subtree's top node is left one item too small. */
    method DeleteRec(key: Key, offset: int, ghost t: T, ghost h: nat, ghost m: int, ghost fl: seq<int>, ghost rest: multiset<int>)
      returns (code: Status, ghost t': T, ghost fl': seq<int>)
      requires Store(fl) && Repr(disk, offset, t) && Shape(t, h, m)
      requires multiset(disk.Keys) == Offs(t) + rest + multiset(fl)
      requires (m == 1 && offset == root) || (m == INDEX_MSIZE && root in rest)
      modifies `disk, `rootnode, `freelist
      ensures Store(fl') && SameOn(old(disk), disk, rest)
      ensures multiset(disk.Keys) == Offs(t') + rest + multiset(fl')
      ensures Repr(disk, offset, t') && DeleteOutcome(code, t, h, m, t', key)
      decreases h
    {
      hide Strlcpy, Pager.Valid, Deleted, Exact, Dropped, Hit, InSearchOrder, Rekeyed, LastItem;
      hide DeleteOutcome, Shape, InOrder, Repr, ReprKids, IsLowerBound, Sorted, Offs, KidsOffs, FreeChain, Spaced, Siblings,
           Swapped, RightSpine, Starved, Deficient;
      NodeFacts(disk, offset, t, h, m);
      t', fl' := t, fl;
      if offset == -1 {
        NothingToDelete(h, m, key);
        return NOTFOUND, t', fl';
      }
      var node := GetNode(offset);
      var i, hit := node.Find(key);
      LeafOrNot(disk, t, h, m);
      if node.ptr[0] == -1 {
        code, t' := DeleteLeaf(key, offset, node, i, hit, t, h, m, fl, rest);
        return;
      }
      var left := node.ptr[i];
      ghost var t1, copy := t, key;
      if hit {
        Swap(key, offset, node, i, t, h, m, fl, rest);
        copy := Strlcpy(key, t.items[i].val.keySize);
        t1 := Swapped(t, i, copy);
      }
      ghost var d := disk;
      ghost var kid, fl1;
      SwapFacts(disk, t, t1, h, m, i, copy, hit);
      RootElsewhere(t1, i, root, rest);
      code, kid, fl1 := DeleteRec(key, left, t1.kids[i], h - 1, INDEX_MSIZE, fl, rest + Siblings(t1, i));
      NilRepr(disk);
      StepBack(d, disk, t1, i, kid, Nil, fl1, rest);
      t', fl' := Node(offset, t1.items, t1.kids[i := kid]), fl1;
      DeletePassed(code, t, t1, h, m, i, kid, key, copy, hit);
      if code == UNDERFLOW {
        code, t', fl' := Rebalance(offset, node, i, t', h, m, fl', rest);
        RepairedDeletes(code, t, Node(offset, t1.items, t1.kids[i := kid]), h, m, t', key);
      } else {
        NodeRepr(disk, t');
      }
    }

    method DeleteLeaf(key: Key, offset: int, node: NodeBuf, i: int, hit: bool, ghost t: T, ghost h: nat, ghost m: int,
                      ghost fl: seq<int>, ghost rest: multiset<int>)
      returns (code: Status, ghost t': T)
      requires Store(fl) && Repr(disk, offset, t) && Shape(t, h, m) && t.Node? && 0 < h && t.kids[0] == Nil
      requires multiset(disk.Keys) == Offs(t) + rest + multiset(fl)
      requires (m == 1 && offset == root) || (m == INDEX_MSIZE && root in rest)
      requires node.Valid() && node.Value() == disk[offset] && 0 <= i <= |t.items|
      requires InSearchOrder(t.items) ==> IsLowerBound(t.items, key, i)
      requires hit <==> i < |t.items| && t.items[i].key == key
      modifies `disk, `rootnode, node, node.items, node.ptr
      ensures Store(fl) && SameOn(old(disk), disk, rest)
      ensures multiset(disk.Keys) == Offs(t') + rest + multiset(fl)
      ensures Repr(disk, offset, t') && DeleteOutcome(code, t, h, m, t', key)
    {
      hide DeleteOutcome, Shape, InOrder, Repr, ReprKids, IsLowerBound, Sorted, KidsOffs, FreeChain, Spaced;
      NodeFacts(disk, offset, t, h, m);
      if !hit {
        t', code := t, NOTFOUND;
        LeafMisses(t, h, m, i, key);
        return;
      }
      t' := LeafWithout(t, i);
      LeafDeleted(t, h, m, i, key);
      LeafReady(disk, t, h, m, i, rest, fl);
      node.RemoveAt(i);
      Write(offset, node.Value(), t'.kids, fl);
      code := if node.cnt >= (if offset == root then 1 else INDEX_MSIZE) then SUCCESS else UNDERFLOW;
    }

    /** Follow the rightmost branch of a subtree down to its leaf. */
    method FindLast(p: int, ghost t: T, ghost h: nat) returns (q: int, leaf: NodeBuf)
      requires Repr(disk, p, t) && Shape(t, h, INDEX_MSIZE) && 0 < h
      requires root in disk ==> rootnode == disk[root]
      ensures t.Node? && RightSpine(t) && q == LastOff(t) && q in disk && disk[q].Ok() && 1 <= disk[q].cnt
      ensures fresh(leaf) && fresh(leaf.items) && fresh(leaf.ptr) && leaf.Valid() && leaf.Value() == disk[q]
      ensures leaf.Keys()[leaf.cnt - 1] == LastItem(t)
    {
      ghost var tq, hq := t, h;
      ShapeSpine(t, h, INDEX_MSIZE);
      q := p;
      leaf := GetNode(q);
      while leaf.ptr[leaf.cnt] != -1
        invariant 0 < hq && tq.Node? && Repr(disk, q, tq) && Shape(tq, hq, INDEX_MSIZE) && RightSpine(tq)
        invariant fresh(leaf) && fresh(leaf.items) && fresh(leaf.ptr)
        invariant leaf.Valid() && q in disk && leaf.Value() == disk[q]
        invariant LastOff(tq) == LastOff(t) && LastItem(tq) == LastItem(t)
        decreases hq
      {
        RightKid(disk, tq, hq);
        q := leaf.ptr[leaf.cnt];
        leaf := GetNode(q);
        tq, hq := tq.kids[|tq.items|], hq - 1;
      }
      RightKid(disk, tq, hq);
    }

    /** Exchange item i with its predecessor; the key ends up in the leaf, as far
        as the key_size of item i lets it be copied. */
    method Swap(key: Key, offset: int, node: NodeBuf, i: int, ghost t: T, ghost h: nat, ghost m: int, ghost fl: seq<int>, ghost rest: multiset<int>)
      requires Store(fl) && Repr(disk, offset, t) && Shape(t, h, m) && 1 < h && 1 <= m && t.Node? && 0 <= i < |t.items|
      requires multiset(disk.Keys) == Offs(t) + rest + multiset(fl)
      requires node.Valid() && offset in disk && node.Value() == disk[offset]
      modifies `disk, `rootnode, node.items
      ensures Store(fl) && disk.Keys == old(disk).Keys && SameOn(old(disk), disk, rest)
      ensures t.kids[i].Node? && RightSpine(t.kids[i])
      ensures Repr(disk, offset, Swapped(t, i, Strlcpy(key, t.items[i].val.keySize)))
      ensures Offs(Swapped(t, i, Strlcpy(key, t.items[i].val.keySize))) == Offs(t)
      ensures node.Valid() && offset in disk && node.Value() == disk[offset]
    {
      hide Shape, InOrder, Repr, ReprKids, Offs, KidsOffs, FreeChain, Spaced, RightSpine, Swapped, Strlcpy, Pager.Valid;
      NodeFacts(disk, offset, t, h, m);
      KidFacts(disk, t, h, m, i);
      var copy := Strlcpy(key, node.items[i].val.keySize);
      var q, leaf := FindLast(node.ptr[i], t.kids[i], h - 1);
      node.items[i] := leaf.items[leaf.cnt - 1];
      leaf.items[leaf.cnt - 1] := Item(copy, leaf.items[leaf.cnt - 1].val);
      SwappedOnDisk(disk, t, h, m, i, copy, node.Value(), leaf.Value(), rest, multiset(fl));
      ghost var d := disk;
      FlushNode(offset, node.Value());
      FlushNode(q, leaf.Value());
      FreeChainFrame(d, disk, freelist, fl);
      assert disk.Keys == d.Keys;
    }

    // ----- repairing an underfull child -----

    /** The end of delete: child i of this node is one item short. Borrow from
        a neighbour that can spare an item, or merge with one that cannot. */
    method Rebalance(offset: int, node: NodeBuf, i: int, ghost t: T, ghost h: nat, ghost m: int, ghost fl: seq<int>, ghost rest: multiset<int>)
      returns (code: Status, ghost t': T, ghost fl': seq<int>)
      requires Store(fl) && Deficient(t, h, m, i) && t.off == offset
      requires multiset(disk.Keys) == multiset{offset} + KidsOffs(t.kids) + rest + multiset(fl)
      requires (m == 1 && offset == root) || (m == INDEX_MSIZE && root in rest)
      requires node.Valid() && node.Keys() == t.items && ReprKids(disk, node.Kids(), t.kids)
      modifies `disk, `rootnode, `freelist, node, node.items, node.ptr
      ensures Store(fl') && SameOn(old(disk), disk, rest)
      ensures multiset(disk.Keys) == Offs(t') + rest + multiset(fl')
      ensures Repr(disk, offset, t') && Repaired(code, t, h, m, t')
    {
      hide Shape, InOrder, Repr, ReprKids, Offs, KidsOffs, FreeChain, Spaced, Repaired, Starved, Deficient, Loaded;
      var borrowLeft := false;
      DeficientFacts(t, h, m, i);
      var nodL, nodR := node, node;
      if i < node.cnt {
        nodR := LoadKid(node, i + 1, t, h, m, i);
      }
      if i == node.cnt || nodR.cnt == INDEX_MSIZE {
        if i > 0 {
          nodL := LoadKid(node, i - 1, t, h, m, i);
          if i == node.cnt || nodL.cnt > INDEX_MSIZE {
            borrowLeft := true;
          }
        }
      }
      var nod := LoadKid(node, i, t, h, m, i);
      if borrowLeft {
        code, t', fl' := BorrowLeft(offset, node, i, nodL, nod, t, h, m, fl, rest);
      } else {
        code, t', fl' := BorrowRight(offset, node, i, nod, nodR, t, h, m, fl, rest);
      }
    }

    /** get_node on child j of a node in memory. */
    method LoadKid(node: NodeBuf, j: int, ghost t: T, ghost h: nat, ghost m: int, ghost i: int) returns (kid: NodeBuf)
      requires Deficient(t, h, m, i) && node.Valid() && node.Keys() == t.items && ReprKids(disk, node.Kids(), t.kids)
      requires 0 <= j <= node.cnt && (root in disk ==> rootnode == disk[root])
      ensures fresh(kid) && fresh(kid.items) && fresh(kid.ptr)
      ensures t.Node? && j < |t.kids| && Loaded(disk, kid, t.kids[j])
    {
      DeficientFacts(t, h, m, i);
      KidOnDisk(disk, node.Kids(), t, h, m, i, j);
      kid := GetNode(node.ptr[j]);
    }

    method BorrowLeft(offset: int, node: NodeBuf, i: int, nodL: NodeBuf, nod: NodeBuf,
                      ghost t: T, ghost h: nat, ghost m: int, ghost fl: seq<int>, ghost rest: multiset<int>)
      returns (code: Status, ghost t': T, ghost fl': seq<int>)
      requires Store(fl) && Deficient(t, h, m, i) && t.off == offset && 0 < i
      requires multiset(disk.Keys) == multiset{offset} + KidsOffs(t.kids) + rest + multiset(fl)
      requires (m == 1 && offset == root) || (m == INDEX_MSIZE && root in rest)
      requires node.Valid() && node.Keys() == t.items && ReprKids(disk, node.Kids(), t.kids)
      requires Separate(node, nodL, nod) && i <= |t.items| && |t.kids| == |t.items| + 1
      requires Loaded(disk, nodL, t.kids[i - 1]) && Loaded(disk, nod, t.kids[i])
      requires i == node.cnt || nodL.cnt > INDEX_MSIZE
      modifies `disk, `rootnode, `freelist, node, node.items, node.ptr, nodL, nodL.items, nodL.ptr, nod, nod.items, nod.ptr
      ensures Store(fl') && SameOn(old(disk), disk, rest)
      ensures multiset(disk.Keys) == Offs(t') + rest + multiset(fl')
      ensures Repr(disk, offset, t') && Repaired(code, t, h, m, t')
    {
      hide Shape, InOrder, Repr, ReprKids, Offs, KidsOffs, FreeChain, Spaced, Repaired, Starved, Deficient, Pager.Valid, SameOn;
      DeficientFacts(t, h, m, i);
      ghost var k, p := i - 1, PairAt(t, i - 1);
      DeficientPair(t, h, m, i, k);
      PairOffs(disk, node.Kids(), t, k);
      ghost var q, lp, rp := p.RotateRight(), nodL.Kids(), nod.Kids();
      RotatedRightRepr(disk, lp, rp, p);
      RotateRightKeeps(p);
      RotateIntoRight(node, i, nodL, nod);
      if nodL.cnt >= INDEX_MSIZE {
        WritePair(offset, node.Value(), node.Kids()[i - 1], nodL.Value(), node.Kids()[i], nod.Value(), t, k, q, fl, rest);
        t', fl', code := WithPair(t, k, q), fl, SUCCESS;
        RotatedShape(t, h, m, i, k, q);
        RepairedOk(t, h, m, t');
      } else {
        MergeAfterRotation(p);
        code, t', fl' := Merge(offset, node, i, i - 1, nodL, nod, t, h, m, q, fl, rest);
      }
    }

    method BorrowRight(offset: int, node: NodeBuf, i: int, nod: NodeBuf, nodR: NodeBuf,
                       ghost t: T, ghost h: nat, ghost m: int, ghost fl: seq<int>, ghost rest: multiset<int>)
      returns (code: Status, ghost t': T, ghost fl': seq<int>)
      requires Store(fl) && Deficient(t, h, m, i) && t.off == offset && i < |t.items|
      requires multiset(disk.Keys) == multiset{offset} + KidsOffs(t.kids) + rest + multiset(fl)
      requires (m == 1 && offset == root) || (m == INDEX_MSIZE && root in rest)
      requires node.Valid() && node.Keys() == t.items && ReprKids(disk, node.Kids(), t.kids)
      requires Separate(node, nod, nodR) && 0 <= i && |t.kids| == |t.items| + 1
      requires Loaded(disk, nod, t.kids[i]) && Loaded(disk, nodR, t.kids[i + 1])
      modifies `disk, `rootnode, `freelist, node, node.items, node.ptr, nod, nod.items, nod.ptr, nodR, nodR.items, nodR.ptr
      ensures Store(fl') && SameOn(old(disk), disk, rest)
      ensures multiset(disk.Keys) == Offs(t') + rest + multiset(fl')
      ensures Repr(disk, offset, t') && Repaired(code, t, h, m, t')
    {
      hide Shape, InOrder, Repr, ReprKids, Offs, KidsOffs, FreeChain, Spaced, Repaired, Starved, Deficient;
      DeficientFacts(t, h, m, i);
      ghost var p := PairAt(t, i);
      DeficientPair(t, h, m, i, i);
      PairOffs(disk, node.Kids(), t, i);
      ghost var q := p.RotateLeft();
      if nodR.cnt > INDEX_MSIZE {
        RotatedLeftRepr(disk, nod.Kids(), nodR.Kids(), p);
        RotateLeftKeeps(p);
        RotateIntoLeft(node, i, nod, nodR);
        WritePair(offset, node.Value(), node.Kids()[i], nod.Value(), node.Kids()[i + 1], nodR.Value(), t, i, q, fl, rest);
        t', fl', code := WithPair(t, i, q), fl, SUCCESS;
        RotatedShape(t, h, m, i, i, q);
        RepairedOk(t, h, m, t');
      } else {
        code, t', fl' := Merge(offset, node, i, i, nod, nodR, t, h, m, p, fl, rest);
      }
    }

    /** Write a node and two rewritten neighbouring children. */
    method WritePair(offset: int, node: NodeV, left: int, lv: NodeV, right: int, rv: NodeV, ghost t: T, ghost k: nat, ghost q: Pair,
                     ghost fl: seq<int>, ghost rest: multiset<int>)
      requires Store(fl) && t.Node? && t.off == offset && |t.kids| == |t.items| + 1 && k < |t.items|
      requires q.Ok() && PairAt(t, k).Ok() && left == q.l.off == t.kids[k].off && right == q.r.off == t.kids[k + 1].off
      requires q.All() == PairAt(t, k).All() && Offs(q.l) + Offs(q.r) == Offs(t.kids[k]) + Offs(t.kids[k + 1])
      requires multiset(disk.Keys) == multiset{offset} + KidsOffs(t.kids) + rest + multiset(fl)
      requires node.Ok() && lv.Ok() && rv.Ok()
      requires node.Keys() == t.items[k := q.sep] && ReprKids(disk, node.Kids(), t.kids)
      requires lv.Keys() == q.l.items && ReprKids(disk, lv.Kids(), q.l.kids)
      requires rv.Keys() == q.r.items && ReprKids(disk, rv.Kids(), q.r.kids)
      modifies `disk, `rootnode
      ensures Store(fl) && disk.Keys == old(disk).Keys && SameOn(old(disk), disk, rest)
      ensures Repr(disk, offset, WithPair(t, k, q)) && InOrder(WithPair(t, k, q)) == InOrder(t)
      ensures multiset(disk.Keys) == Offs(WithPair(t, k, q)) + rest + multiset(fl)
    {
      hide InOrder, Repr, ReprKids, KidsOffs, FreeChain, Spaced;
      PairApart(disk.Keys, offset, t.kids, k, q, rest, fl);
      WithPairKeeps(t, k, q);
      ghost var d := disk;
      WriteHalves(left, lv, right, rv, q.l.kids, q.r.kids, fl);
      PairBack(d, disk, node.Kids(), t.kids, k, q);
      Write(offset, node, WithPair(t, k, q).kids, fl);
    }

    /** Merge child k+1 into child k and drop the item between them. */
    method Merge(offset: int, node: NodeBuf, i: int, k: int, nodL: NodeBuf, nodR: NodeBuf, ghost t: T, ghost h: nat, ghost m: int,
                 ghost q: Pair, ghost fl: seq<int>, ghost rest: multiset<int>)
      returns (code: Status, ghost t': T, ghost fl': seq<int>)
      requires Store(fl) && Deficient(t, h, m, i) && t.off == offset && 0 <= k < |t.items| && PairAt(t, k).Ok()
      requires (k == i && |t.kids[k + 1].items| == INDEX_MSIZE) || (k + 1 == i == |t.items| && |t.kids[k].items| == INDEX_MSIZE)
      requires multiset(disk.Keys) == multiset{offset} + KidsOffs(t.kids) + rest + multiset(fl)
      requires (m == 1 && offset == root) || (m == INDEX_MSIZE && root in rest)
      requires Separate(node, nodL, nodR) && node.Valid() && nodL.Valid() && nodR.Valid()
      requires q.Ok() && q.Merged() == PairAt(t, k).Merged()
      requires node.Keys() == t.items[k := q.sep] && ReprKids(disk, node.Kids(), t.kids)
      requires nodL.cnt == INDEX_MSIZE - 1 && nodL.Keys() == q.l.items && ReprKids(disk, nodL.Kids(), q.l.kids)
      requires nodR.cnt == INDEX_MSIZE && nodR.Keys() == q.r.items && ReprKids(disk, nodR.Kids(), q.r.kids)
      modifies `disk, `rootnode, `freelist, node, node.items, node.ptr, nodL, nodL.items, nodL.ptr
      ensures Store(fl') && SameOn(old(disk), disk, rest)
      ensures multiset(disk.Keys) == Offs(t') + rest + multiset(fl')
      ensures Repr(disk, offset, t') && Repaired(code, t, h, m, t')
    {
      hide Shape, InOrder, Repr, ReprKids, Offs, KidsOffs, FreeChain, Spaced, Repaired, Starved, Deficient;
      DeficientFacts(t, h, m, i);
      ghost var ps := node.Kids();
      var left, right := node.ptr[k], node.ptr[k + 1];
      PairOffs(disk, ps, t, k);
      ReprKidsJoin(disk, nodL.Kids(), nodR.Kids(), q);
      DropAt(k, q.sep, t.items);
      JoinInto(node, i, k, nodL, nodR);
      fl' := WriteMerged(offset, node.Value(), left, nodL.Value(), right, t, k, ps, fl, rest);
      t' := WithMerged(t, k);
      code := if node.cnt >= (if offset == root then 1 else INDEX_MSIZE) then SUCCESS else UNDERFLOW;
      MergedShape(t, h, m, i, k);
    }

    method WriteMerged(offset: int, node: NodeV, left: int, lv: NodeV, right: int, ghost t: T, ghost k: nat, ghost ps: seq<int>,
                       ghost fl: seq<int>, ghost rest: multiset<int>)
      returns (ghost fl': seq<int>)
      requires Store(fl) && t.Node? && t.off == offset && |t.kids| == |t.items| + 1 && k < |t.items| && PairAt(t, k).Ok()
      requires left == t.kids[k].off && right == t.kids[k + 1].off
      requires multiset(disk.Keys) == multiset{offset} + KidsOffs(t.kids) + rest + multiset(fl)
      requires ReprKids(disk, ps, t.kids) && |ps| == |t.kids|
      requires node.Ok() && node.Keys() == WithMerged(t, k).items && node.Kids() == ps[..k + 1] + ps[k + 2..]
      requires lv.Ok() && lv.Keys() == PairAt(t, k).Merged().items && ReprKids(disk, lv.Kids(), PairAt(t, k).Merged().kids)
      modifies `disk, `rootnode, `freelist
      ensures Store(fl') && SameOn(old(disk), disk, rest)
      ensures multiset(disk.Keys) == Offs(WithMerged(t, k)) + rest + multiset(fl')
      ensures Repr(disk, offset, WithMerged(t, k)) && offset !in rest
    {
      hide InOrder, Repr, ReprKids, KidsOffs, Offs, FreeChain, Spaced;
      ghost var kid, t' := PairAt(t, k).Merged(), WithMerged(t, k);
      ghost var live := multiset{offset} + KidsOffs(t'.kids) + rest;
      ghost var d := disk;
      MergedApart(disk.Keys, t, k, rest, fl);
      fl' := [right] + fl;
      FreeNode(right, fl, live);
      ReprKidsFrame(d, disk, lv.Kids(), kid.kids);
      Write(left, lv, kid.kids, fl');
      MergeBack(d, disk, ps, t.kids, k, kid, right);
      Write(offset, node, t'.kids, fl');
    }
  }

  /** What index_btree_create_table does with the values it has looked up: an
      index with uniqueness off, filled value by value. Its items are in search
      order, whatever repeats. */
  method CreateIndex(pager: Pager, rows: seq<I>) returns (index: Index)
    requires pager.Valid() && PAGE_HEADER + NODE_SIZE < pager.pageSize && AllSized(rows)
    modifies pager
    ensures index.Valid() && !index.uniqueKeys && fresh(index) && index.Measured()
    ensures multiset(index.Contents()) == multiset(rows) && InSearchOrder(index.Contents())
  {
    hide InSearchOrder, Light, InOrder;
    index := new Index(pager);
    index.SetUnique(false);
    for i := 0 to |rows|
      invariant fresh(index) && index.pager == pager
      invariant index.Valid() && !index.uniqueKeys && index.Measured() && index.Settled()
      invariant multiset(index.Contents()) == multiset(rows[..i])
    {
      assert rows[..i + 1] == rows[..i] + [rows[i]];
      var x := rows[i];
      assert Item(x.key, Val(x.val.keySize, x.val.valset)) == x;
      var _ := index.Insert(x.key, x.val.keySize, x.val.valset);
    }
    assert rows[..|rows|] == rows;
  }

  /** A buffer that holds the top node of kid. */
  ghost predicate Loaded(disk: map<int, NodeV>, b: NodeBuf, kid: T)
    reads b, b.items, b.ptr
  {
    && kid.Node? && |kid.kids| == |kid.items| + 1
    && b.Valid() && b.Keys() == kid.items && ReprKids(disk, b.Kids(), kid.kids)
  }
}
