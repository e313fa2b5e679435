/** The treap's nodes, rotated in place, and the index over groups of intervals
    (src/support/runtime_index.cpp:1023-1297). */
module IntervalNodes {
  import opened Values
  import T = IntervalTrees

  class Node {
    const entry: T.Entry
    const priority: nat
    var subtreeMaxEnd: Value
    var left: Node?
    var right: Node?
    /** The nodes of the subtree, which its owner alone reaches. */
    ghost var Repr: set<object>
    /** The subtree as a value. */
    ghost var tree: T.Tree

    ghost predicate Valid()
      reads this, Repr
      ensures Valid() ==> this in Repr
      decreases Repr
    {
      && this in Repr
      && (left != null ==> left in Repr && left.Repr <= Repr && this !in left.Repr && left.Valid())
      && (right != null ==> right in Repr && right.Repr <= Repr && this !in right.Repr && right.Valid())
      && (left != null && right != null ==> left.Repr !! right.Repr)
      && tree == T.Node(entry, subtreeMaxEnd, priority, Tree(left), Tree(right))
      && Repr == {this} + Owned(left) + Owned(right)
    }

    /** The children are whole and apart, whatever this node has cached about them. */
    ghost predicate Linked()
      reads this, left, right, Owned(left), Owned(right)
    {
      && (left != null ==> left.Valid() && this !in left.Repr)
      && (right != null ==> right.Valid() && this !in right.Repr)
      && (left != null && right != null ==> left.Repr !! right.Repr)
    }

    constructor (entry: T.Entry, priority: nat)
      ensures Valid() && fresh(Repr)
      ensures tree == T.Node(entry, entry.end, priority, T.Leaf, T.Leaf)
    {
      this.entry, this.priority, subtreeMaxEnd := entry, priority, entry.end;
      left, right := null, null;
      Repr := {this};
      tree := T.Node(entry, entry.end, priority, T.Leaf, T.Leaf);
    }

    /** `updateIntervalNode`: recomputes the greatest end from the children. */
    method Update()
      requires Linked()
      modifies this
      ensures Valid() && left == old(left) && right == old(right)
      ensures tree == T.Make(entry, priority, Tree(left), Tree(right))
      ensures Repr == {this} + Owned(left) + Owned(right)
    {
      hide Less;
      var greatest := entry.end;
      if left != null && Less(greatest, left.subtreeMaxEnd) {
        greatest := left.subtreeMaxEnd;
      }
      if right != null && Less(greatest, right.subtreeMaxEnd) {
        greatest := right.subtreeMaxEnd;
      }
      subtreeMaxEnd := greatest;
      Repr := {this} + Owned(left) + Owned(right);
      tree := T.Make(entry, priority, Tree(left), Tree(right));
    }

    /** `updateIntervalNode` on a node that is whole already. */
    method Retouch()
      requires Valid()
      modifies this
      ensures Valid() && Repr == old(Repr) && tree == T.Refresh(old(tree))
      ensures left == old(left) && right == old(right)
    {
      hide T.Make, Less;
      Update();
    }
  }

  /** The tree below a link. */
  ghost function Tree(node: Node?): T.Tree
    reads node
  {
    if node == null then T.Leaf else node.tree
  }

  ghost function Owned(node: Node?): set<object>
    reads node
  {
    if node == null then {} else node.Repr
  }

  ghost predicate Whole(node: Node?)
    reads node, Owned(node)
  {
    node != null ==> node.Valid()
  }

  method RotateRight(node: Node) returns (root: Node)
    requires node.Linked() && node.left != null
    modifies node, node.left
    ensures root == old(node.left) && root.Valid()
    ensures root.Repr == {node as object} + old(Owned(node.left)) + old(Owned(node.right))
    ensures root.tree == T.RotateRight(T.Node(node.entry, old(node.subtreeMaxEnd), node.priority, old(node.left.tree), old(Tree(node.right))))
  {
    hide T.Make, Less;
    root := node.left;
    node.left := root.right;
    node.Update();
    root.right := node;
    root.Update();
  }

  method RotateLeft(node: Node) returns (root: Node)
    requires node.Linked() && node.right != null
    modifies node, node.right
    ensures root == old(node.right) && root.Valid()
    ensures root.Repr == {node as object} + old(Owned(node.left)) + old(Owned(node.right))
    ensures root.tree == T.RotateLeft(T.Node(node.entry, old(node.subtreeMaxEnd), node.priority, old(Tree(node.left)), old(node.right.tree)))
  {
    hide T.Make, Less;
    root := node.right;
    node.right := root.left;
    node.Update();
    root.left := node;
    root.Update();
  }

  /** Hangs a changed left child on its node, and rotates it up if its priority asks for it. */
  method MendLeft(node: Node, child: Node) returns (root: Node)
    requires child.Valid() && node !in child.Repr
    requires node.right != null ==> node.right.Valid() && node !in node.right.Repr && child.Repr !! node.right.Repr
    modifies node, child
    ensures root.Valid() && root.Repr == {node as object} + old(child.Repr) + old(Owned(node.right))
    ensures var t := T.Node(node.entry, old(node.subtreeMaxEnd), node.priority, old(child.tree), old(Tree(node.right)));
            root.tree == T.Refresh(if t.left.priority < t.priority then T.RotateRight(t) else t)
  {
    hide T.Make, T.RotateRight, Less;
    node.left := child;
    if child.priority < node.priority {
      root := RotateRight(node);
      root.Retouch();
    } else {
      node.Update();
      root := node;
    }
  }

  method MendRight(node: Node, child: Node) returns (root: Node)
    requires child.Valid() && node !in child.Repr
    requires node.left != null ==> node.left.Valid() && node !in node.left.Repr && child.Repr !! node.left.Repr
    modifies node, child
    ensures root.Valid() && root.Repr == {node as object} + old(Owned(node.left)) + old(child.Repr)
    ensures var t := T.Node(node.entry, old(node.subtreeMaxEnd), node.priority, old(Tree(node.left)), old(child.tree));
            root.tree == T.Refresh(if t.right.priority < t.priority then T.RotateLeft(t) else t)
  {
    hide T.Make, T.RotateLeft, Less;
    node.right := child;
    if child.priority < node.priority {
      root := RotateLeft(node);
      root.Retouch();
    } else {
      node.Update();
      root := node;
    }
  }

  method Insert(node: Node?, entry: T.Entry, priority: nat) returns (root: Node)
    requires Whole(node)
    modifies Owned(node)
    ensures root.Valid() && fresh(root.Repr - old(Owned(node)))
    ensures root.tree == T.Insert(old(Tree(node)), entry, priority)
    decreases Owned(node)
  {
    hide T.Refresh, T.RotateLeft, T.RotateRight, T.Before;
    if node == null {
      root := new Node(entry, priority);
    } else if T.Before(entry, node.entry) {
      var child := Insert(node.left, entry, priority);
      root := MendLeft(node, child);
    } else if T.Before(node.entry, entry) {
      var child := Insert(node.right, entry, priority);
      root := MendRight(node, child);
    } else {
      root := node;
    }
  }

  /** Hangs what is left of a child on its node. */
  method HangLeft(node: Node, child: Node?)
    requires Whole(child) && node !in Owned(child)
    requires node.right != null ==> node.right.Valid() && node !in node.right.Repr && Owned(child) !! node.right.Repr
    modifies node
    ensures node.Valid() && node.Repr == {node as object} + Owned(child) + old(Owned(node.right))
    ensures node.tree
         == T.Refresh(T.Node(node.entry, old(node.subtreeMaxEnd), node.priority, Tree(child), old(Tree(node.right))))
  {
    hide T.Make, Less;
    node.left := child;
    node.Update();
  }

  method HangRight(node: Node, child: Node?)
    requires Whole(child) && node !in Owned(child)
    requires node.left != null ==> node.left.Valid() && node !in node.left.Repr && Owned(child) !! node.left.Repr
    modifies node
    ensures node.Valid() && node.Repr == {node as object} + old(Owned(node.left)) + Owned(child)
    ensures node.tree
         == T.Refresh(T.Node(node.entry, old(node.subtreeMaxEnd), node.priority, old(Tree(node.left)), Tree(child)))
  {
    hide T.Make, Less;
    node.right := child;
    node.Update();
  }

  method Erase(node: Node?, entry: T.Entry) returns (root: Node?)
    requires Whole(node)
    modifies Owned(node)
    ensures Whole(root) && Owned(root) <= old(Owned(node))
    ensures Tree(root) == T.Erase(old(Tree(node)), entry)
    decreases Owned(node), 1
  {
    hide T.Make, T.RotateLeft, T.RotateRight, T.Before;
    if node == null {
      root := null;
    } else if T.Before(entry, node.entry) {
      var child := Erase(node.left, entry);
      HangLeft(node, child);
      root := node;
    } else if T.Before(node.entry, entry) {
      var child := Erase(node.right, entry);
      HangRight(node, child);
      root := node;
    } else if node.left == null || node.right == null {
      root := if node.left == null then node.right else node.left;
      if root != null {
        root.Retouch();
      }
    } else {
      root := EraseBelow(node, entry);
    }
  }

  /** The entry with two children: one rotation down, and on from there. */
  method EraseBelow(node: Node, entry: T.Entry) returns (root: Node)
    requires node.Valid() && node.left != null && node.right != null
    requires !T.Before(entry, node.entry) && !T.Before(node.entry, entry)
    modifies node.Repr
    ensures root.Valid() && root.Repr <= old(node.Repr)
    ensures root.tree == T.Erase(old(node.tree), entry)
    decreases node.Repr, 0
  {
    hide T.Refresh, T.RotateLeft, T.RotateRight, T.Before, T.Erase;
    T.EraseUnfolds(node.tree, entry);
    if node.left.priority < node.right.priority {
      root := RotateRight(node);
      EraseRight(root, entry);
    } else {
      root := RotateLeft(node);
      EraseLeft(root, entry);
    }
  }

  method EraseRight(node: Node, entry: T.Entry)
    requires node.Valid()
    modifies node.Repr
    ensures node.Valid() && node.Repr <= old(node.Repr)
    ensures node.tree == var t := old(node.tree); T.Refresh(t.(right := T.Erase(t.right, entry)))
    decreases Owned(node.right), 2
  {
    hide T.Refresh, T.Erase;
    var child := Erase(node.right, entry);
    HangRight(node, child);
  }

  method EraseLeft(node: Node, entry: T.Entry)
    requires node.Valid()
    modifies node.Repr
    ensures node.Valid() && node.Repr <= old(node.Repr)
    ensures node.tree == var t := old(node.tree); T.Refresh(t.(left := T.Erase(t.left, entry)))
    decreases Owned(node.left), 2
  {
    hide T.Refresh, T.Erase;
    var child := Erase(node.left, entry);
    HangLeft(node, child);
  }

  method Query(node: Node?, from: Value, to: Value, excluded: set<T.ItemId>) returns (ids: set<T.ItemId>)
    requires Whole(node)
    ensures ids == T.Query(Tree(node), from, to, excluded)
    decreases Owned(node)
  {
    hide Less, T.Query;
    T.QueryUnfolds(Tree(node), from, to, excluded);
    if node == null || !Less(from, node.subtreeMaxEnd) {
      return {};
    }
    ids := Query(node.left, from, to, excluded);
    if Less(node.entry.start, to) {
      if Less(from, node.entry.end) && node.entry.id !in excluded {
        ids := ids + {node.entry.id};
      }
      var more := Query(node.right, from, to, excluded);
      ids := ids + more;
    }
  }
}

/** `IntervalRuntimeIndex`: one treap a group, against the rows it was given. */
module IntervalIndexes {
  import opened Values
  import T = IntervalTrees
  import opened IntervalNodes

  /** What an interval index reads of an item. */
  datatype Row = Row(id: T.ItemId, group: seq<Value>, start: Value, end: Value)

  predicate Stored(row: Row) {
    Null !in row.group && row.start != Null && row.end != Null && Less(row.start, row.end)
  }

  function EntryOf(row: Row): T.Entry {
    T.Entry(row.start, row.end, row.id)
  }

  /** The ids a scan of all rows finds overlapping the open probe. */
  function Scan(rows: set<Row>, group: seq<Value>, from: Value, to: Value, excluded: set<T.ItemId>): set<T.ItemId> {
    if !Less(from, to) then {}
    else set row | row in rows && Stored(row) && row.group == group && Less(row.start, to) && Less(from, row.end)
                   && row.id !in excluded :: row.id
  }

  /** On numbers: an interval is found exactly when it and the probe begin before they end, and
      each begins before the other ends. Touching is not enough. */
  lemma ScanOfNumbers(id: T.ItemId, a: int64, b: int64, c: int64, d: int64)
    ensures Scan({Row(id, [], Int64(a), Int64(b))}, [], Int64(c), Int64(d), {})
         == if a < b && c < d && a < d && c < b then {id} else {}
  {
    var row := Row(id, [], Int64(a), Int64(b));
    assert row in {row};
    LessOnNumbers(a, b);
    LessOnNumbers(c, d);
    LessOnNumbers(a, d);
    LessOnNumbers(c, b);
  }

  lemma LessOnNumbers(i: int64, j: int64)
    ensures Less(Int64(i), Int64(j)) <==> i < j
  {
  }

  class IntervalTree {
    const priorityOf: T.Entry -> nat
    var root: Node?
    ghost var Repr: set<object>
    ghost var contents: set<T.Entry>

    ghost predicate Valid()
      reads this, Repr
      ensures Valid() ==> this in Repr
    {
      && this in Repr
      && (root != null ==> root in Repr && root.Repr <= Repr && this !in root.Repr && root.Valid())
      && T.Good(Tree(root)) && contents == T.Entries(Tree(root))
    }

    constructor (priorityOf: T.Entry -> nat)
      ensures Valid() && fresh(Repr) && contents == {} && this.priorityOf == priorityOf
    {
      this.priorityOf, root, contents, Repr := priorityOf, null, {}, {this};
    }

    method Insert(entry: T.Entry)
      requires Valid()
      modifies Repr
      ensures Valid() && fresh(Repr - old(Repr)) && contents == old(contents) + {entry}
    {
      hide T.Good, T.Insert, T.Entries;
      T.InsertGood(Tree(root), entry, priorityOf(entry));
      root := IntervalNodes.Insert(root, entry, priorityOf(entry));
      Repr := Repr + root.Repr;
      contents := contents + {entry};
    }

    method Erase(entry: T.Entry)
      requires Valid()
      modifies Repr
      ensures Valid() && fresh(Repr - old(Repr)) && contents == old(contents) - {entry}
    {
      hide T.Good, T.Erase, T.Entries;
      T.EraseGood(Tree(root), entry);
      root := IntervalNodes.Erase(root, entry);
      contents := contents - {entry};
    }

    method Query(from: Value, to: Value, excluded: set<T.ItemId>) returns (ids: set<T.ItemId>)
      requires Valid()
      ensures ids == if Less(from, to) then T.Overlapping(contents, from, to, excluded) else {}
    {
      if !Less(from, to) {
        return {};
      }
      ids := IntervalNodes.Query(root, from, to, excluded);
      T.QueryExact(Tree(root), from, to, excluded);
    }

    predicate IsEmpty()
      requires Valid()
      reads this, Repr
      ensures IsEmpty() <==> contents == {}
    {
      root == null
    }
  }

  class IntervalIndex {
    const priorityOf: T.Entry -> nat
    var groups: map<seq<Value>, IntervalTree>
    /** Every row added and not removed. */
    ghost var rows: set<Row>
    ghost var Repr: set<object>

    /** The trees are whole and share no node. */
    ghost predicate Separate()
      reads this, Repr
    {
      && this in Repr
      && (forall k :: k in groups ==> groups[k] in Repr && groups[k].Repr <= Repr && this !in groups[k].Repr && groups[k].Valid())
      && (forall k, l :: k in groups && l in groups && k != l ==> groups[k].Repr !! groups[l].Repr)
    }

    ghost predicate Valid()
      reads this, Repr
      ensures Valid() ==> this in Repr
    {
      Separate() && forall k :: Filed(k) == EntriesOf(rows, k)
    }

    /** The entries filed under a group. */
    ghost function Filed(group: seq<Value>): set<T.Entry>
      reads this, Repr
      requires Separate()
    {
      if group in groups then groups[group].contents else {}
    }

    constructor (priorityOf: T.Entry -> nat)
      ensures Valid() && fresh(Repr) && rows == {}
    {
      this.priorityOf, groups, rows, Repr := priorityOf, map[], {}, {this};
    }

    /** Gives a group its tree, empty at first. */
    method Open(group: seq<Value>)
      requires Separate()
      modifies this
      ensures Separate() && fresh(Repr - old(Repr)) && rows == old(rows) && group in groups
      ensures forall k :: Filed(k) == old(Filed(k))
    {
      if group !in groups {
        var tree := new IntervalTree(priorityOf);
        groups := groups[group := tree];
        Repr := Repr + tree.Repr;
      }
    }

    method File(group: seq<Value>, entry: T.Entry)
      requires Separate() && group in groups
      modifies Repr
      ensures Separate() && fresh(Repr - old(Repr)) && rows == old(rows)
      ensures forall k :: Filed(k) == old(Filed(k)) + if k == group then {entry} else {}
    {
      hide IntervalTree.Valid;
      var tree := groups[group];
      tree.Insert(entry);
      Repr := Repr + tree.Repr;
    }

    method Unfile(group: seq<Value>, entry: T.Entry)
      requires Separate() && group in groups
      modifies Repr
      ensures Separate() && fresh(Repr - old(Repr)) && rows == old(rows) && groups == old(groups)
      ensures forall k :: Filed(k) == old(Filed(k)) - if k == group then {entry} else {}
    {
      hide IntervalTree.Valid;
      var tree := groups[group];
      tree.Erase(entry);
      Repr := Repr + tree.Repr;
    }

    /** Drops a group whose tree has run empty. */
    method Close(group: seq<Value>)
      requires Separate() && group in groups
      modifies this
      ensures Separate() && Repr == old(Repr) && rows == old(rows)
      ensures forall k :: Filed(k) == old(Filed(k))
    {
      hide IntervalTree.Valid;
      if groups[group].IsEmpty() {
        groups := groups - {group};
      }
    }

    ghost method Record(rows: set<Row>)
      requires Separate()
      modifies this
      ensures Separate() && Repr == old(Repr) && this.rows == rows
      ensures forall k :: Filed(k) == old(Filed(k))
    {
      this.rows := rows;
    }

    method Add(row: Row)
      requires Valid()
      modifies Repr
      ensures Valid() && fresh(Repr - old(Repr)) && rows == old(rows) + {row}
    {
      hide Separate, EntriesOf, Filed;
      EntriesAfterAdd(rows, row);
      if Stored(row) {
        Open(row.group);
        File(row.group, EntryOf(row));
      }
      Record(rows + {row});
    }

    method Remove(row: Row)
      requires Valid()
      modifies Repr
      ensures Valid() && fresh(Repr - old(Repr)) && rows == old(rows) - {row}
    {
      hide Separate, EntriesOf, Stored;
      EntriesAfterRemove(rows, row);
      ScanByEntries(rows, row.group, Null, Null, {});
      if Null !in row.group && row.group in groups {
        Unfile(row.group, EntryOf(row));
        Close(row.group);
      }
      Record(rows - {row});
    }

    /** Every answer is the one a scan of the rows gives. */
    method Query(group: seq<Value>, from: Value, to: Value, excluded: set<T.ItemId>) returns (ids: set<T.ItemId>)
      requires Valid()
      ensures ids == Scan(rows, group, from, to, excluded)
    {
      hide EntriesOf, Scan;
      ScanByEntries(rows, group, from, to, excluded);
      if Null in group || group !in groups {
        return {};
      }
      ids := groups[group].Query(from, to, excluded);
    }
  }

  function EntriesOf(rows: set<Row>, group: seq<Value>): set<T.Entry> {
    set row | row in rows && Stored(row) && row.group == group :: EntryOf(row)
  }

  lemma EntriesAfterAdd(rows: set<Row>, row: Row)
    ensures forall k :: EntriesOf(rows + {row}, k)
                     == EntriesOf(rows, k) + if Stored(row) && row.group == k then {EntryOf(row)} else {}
  {
    hide Stored;
  }

  lemma EntriesAfterRemove(rows: set<Row>, row: Row)
    ensures forall k :: EntriesOf(rows - {row}, k)
                     == EntriesOf(rows, k) - if row.group == k then {EntryOf(row)} else {}
  {
  }

  lemma ScanByEntries(rows: set<Row>, group: seq<Value>, from: Value, to: Value, excluded: set<T.ItemId>)
    ensures Scan(rows, group, from, to, excluded)
         == if Less(from, to) then T.Overlapping(EntriesOf(rows, group), from, to, excluded) else {}
    ensures Null in group ==> EntriesOf(rows, group) == {}
  {
    hide Less;
    var entries := EntriesOf(rows, group);
    if Less(from, to) {
      forall id | id in Scan(rows, group, from, to, excluded)
        ensures id in T.Overlapping(entries, from, to, excluded)
      {
        var row :| row in rows && Stored(row) && row.group == group && Less(row.start, to) && Less(from, row.end)
                   && row.id !in excluded && row.id == id;
        assert EntryOf(row) in entries;
      }
    }
  }
}
