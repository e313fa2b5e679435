/** The interval indexes of all containers, each made when its first row comes
    (`_intervalIndexes`, src/support/runtime_index.cpp:1336-1338, 1409-1414, 1524-1534). */
module IntervalStores {
  import opened Wrappers
  import opened Values
  import T = IntervalTrees
  import opened IntervalIndexes

  datatype IntervalKey = IntervalKey(container: nat, index: nat)

  type Contents = map<IntervalKey, set<Row>>

  function RowsAt(contents: Contents, key: IntervalKey): set<Row> {
    if key in contents then contents[key] else {}
  }

  class IntervalStore {
    const priorityOf: T.Entry -> nat
    var indexes: map<IntervalKey, IntervalIndex>
    /** The rows each index has been given and not told to remove. */
    ghost var contents: Contents
    ghost var Repr: set<object>

    /** The indexes are whole and share no node. */
    ghost predicate Separate()
      reads this, Repr
    {
      && this in Repr
      && (forall k :: k in indexes ==> indexes[k] in Repr && indexes[k].Repr <= Repr && this !in indexes[k].Repr && indexes[k].Valid())
      && (forall k, l :: k in indexes && l in indexes && k != l ==> indexes[k].Repr !! indexes[l].Repr)
    }

    ghost predicate Valid()
      reads this, Repr
      ensures Valid() ==> this in Repr
    {
      Separate() && contents.Keys == indexes.Keys && forall k :: k in indexes ==> indexes[k].rows == contents[k]
    }

    constructor (priorityOf: T.Entry -> nat)
      ensures Valid() && fresh(Repr) && contents == map[] && this.priorityOf == priorityOf
    {
      this.priorityOf, indexes, contents, Repr := priorityOf, map[], map[], {this};
    }

    /** Makes an index, empty at first. */
    method Open(key: IntervalKey)
      requires Valid() && key !in indexes
      modifies this
      ensures Valid() && fresh(Repr - old(Repr)) && contents == old(contents)[key := {}]
    {
      var index := new IntervalIndex(priorityOf);
      indexes, contents := indexes[key := index], contents[key := {}];
      Repr := Repr + index.Repr;
    }

    /** What is left to do once one index has changed in its own part. */
    ghost method Settle(key: IntervalKey, rows: set<Row>)
      requires key in indexes && this in Repr && indexes[key] in Repr && indexes[key].Valid() && indexes[key].rows == rows
      requires this !in indexes[key].Repr && contents.Keys == indexes.Keys
      requires forall k :: k in indexes && k != key ==>
                 && indexes[k] in Repr && indexes[k].Repr <= Repr && this !in indexes[k].Repr && indexes[k].Valid()
                 && indexes[k].rows == contents[k] && indexes[k].Repr !! indexes[key].Repr
      requires forall k, l :: k in indexes && l in indexes && k != key && l != key && k != l ==> indexes[k].Repr !! indexes[l].Repr
      modifies this`contents, this`Repr
      ensures Valid() && Repr == old(Repr) + indexes[key].Repr && contents == old(contents)[key := rows]
    {
      hide IntervalIndex.Valid;
      contents, Repr := contents[key := rows], Repr + indexes[key].Repr;
    }

    method Add(key: IntervalKey, row: Row)
      requires Valid()
      modifies Repr
      ensures Valid() && fresh(Repr - old(Repr)) && contents == old(contents)[key := RowsAt(old(contents), key) + {row}]
    {
      hide IntervalIndex.Valid;
      if key !in indexes {
        Open(key);
      }
      File(key, row);
    }

    method File(key: IntervalKey, row: Row)
      requires Valid() && key in indexes
      modifies Repr
      ensures Valid() && fresh(Repr - old(Repr)) && contents == old(contents)[key := old(contents)[key] + {row}]
    {
      hide IntervalIndex.Valid;
      var index := indexes[key];
      index.Add(row);
      Settle(key, contents[key] + {row});
    }

    method Remove(key: IntervalKey, row: Row)
      requires Valid()
      modifies Repr
      ensures Valid() && fresh(Repr - old(Repr))
      ensures contents == if key in old(contents) then old(contents)[key := old(contents)[key] - {row}] else old(contents)
    {
      hide IntervalIndex.Valid;
      if key !in indexes {
        return;
      }
      var index := indexes[key];
      index.Remove(row);
      Settle(key, contents[key] - {row});
    }

    /** `queryInterval`. */
    method Query(key: IntervalKey, group: seq<Value>, from: Value, to: Value) returns (ids: set<T.ItemId>)
      requires Valid()
      ensures ids == Scan(RowsAt(contents, key), group, from, to, {})
    {
      hide IntervalIndex.Valid, Less;
      if key !in indexes {
        return {};
      }
      ids := indexes[key].Query(group, from, to, {});
    }
  }
}
