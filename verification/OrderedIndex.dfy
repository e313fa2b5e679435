/** The ordered index (`OrderedRuntimeIndex`, src/support/runtime_index.cpp:886-1029): in each
    group the entries by their order values, and then by id. */
module OrderedIndexes {
  import opened Wrappers
  import opened Values

  type ItemId = nat

  /** What an ordered index reads of an item. */
  datatype Row = Row(id: ItemId, group: seq<Value>, order: seq<Value>)

  datatype Entry = Entry(order: seq<Value>, id: ItemId)

  type Groups = map<seq<Value>, set<Entry>>

  predicate Stored(row: Row) {
    Null !in row.group && Null !in row.order
  }

  function EntriesAt(groups: Groups, group: seq<Value>): set<Entry> {
    if group in groups then groups[group] else {}
  }

  /** `add`. */
  function Add(groups: Groups, row: Row): Groups {
    if Stored(row) then groups[row.group := EntriesAt(groups, row.group) + {Entry(row.order, row.id)}] else groups
  }

  /** `remove`: a group that runs empty is dropped. */
  function Remove(groups: Groups, row: Row): Groups {
    if !Stored(row) || row.group !in groups then groups
    else
      var left := groups[row.group] - {Entry(row.order, row.id)};
      if left == {} then groups - {row.group} else groups[row.group := left]
  }

  function EntriesOf(rows: set<Row>, group: seq<Value>): set<Entry> {
    set row | row in rows && Stored(row) && row.group == group :: Entry(row.order, row.id)
  }

  /** Each group holds the entries of its rows, and no group is empty. */
  ghost predicate Files(groups: Groups, rows: set<Row>) {
    forall g :: EntriesAt(groups, g) == EntriesOf(rows, g) && (g in groups ==> groups[g] != {})
  }

  lemma AddFiles(groups: Groups, rows: set<Row>, row: Row)
    requires Files(groups, rows)
    ensures Files(Add(groups, row), rows + {row})
  {
    hide Stored;
    var after := Add(groups, row);
    forall g
      ensures EntriesAt(after, g) == EntriesOf(rows + {row}, g) && (g in after ==> after[g] != {})
    {
      assert EntriesOf(rows + {row}, g) == EntriesOf(rows, g) + if Stored(row) && row.group == g then {Entry(row.order, row.id)} else {};
      assert EntriesAt(groups, g) == EntriesOf(rows, g);
    }
  }

  lemma RemoveFiles(groups: Groups, rows: set<Row>, row: Row)
    requires Files(groups, rows)
    ensures Files(Remove(groups, row), rows - {row})
  {
    hide Stored;
    var after := Remove(groups, row);
    forall g
      ensures EntriesAt(after, g) == EntriesOf(rows - {row}, g) && (g in after ==> after[g] != {})
    {
      EntriesLess(rows, row, g);
      assert EntriesAt(groups, g) == EntriesOf(rows, g);
    }
  }

  lemma EntriesLess(rows: set<Row>, row: Row, g: seq<Value>)
    ensures EntriesOf(rows - {row}, g) == EntriesOf(rows, g) - if Stored(row) && row.group == g then {Entry(row.order, row.id)} else {}
  {
    hide Stored;
    forall e | e in EntriesOf(rows, g) && !(Stored(row) && row.group == g && e == Entry(row.order, row.id))
      ensures e in EntriesOf(rows - {row}, g)
    {
      var r :| r in rows && Stored(r) && r.group == g && Entry(r.order, r.id) == e;
      assert r == Row(e.id, g, e.order);
      assert r in rows - {row};
    }
  }

  // ----- Neighbours -----

  /** `lexicographical_compare`. */
  predicate SeqLess(a: seq<Value>, b: seq<Value>) {
    if b == [] then false
    else if a == [] then true
    else Less(a[0], b[0]) || (a[0] == b[0] && SeqLess(a[1..], b[1..]))
  }

  predicate Before(a: Entry, b: Entry) {
    SeqLess(a.order, b.order) || (a.order == b.order && a.id < b.id)
  }

  lemma {:induction false} SeqTotal(a: seq<Value>, b: seq<Value>)
    ensures SeqLess(a, b) || SeqLess(b, a) || a == b
    ensures !(SeqLess(a, b) && (SeqLess(b, a) || a == b))
  {
    hide Less;
    ValueOrder();
    if a != [] && b != [] {
      SeqTotal(a[1..], b[1..]);
      assert a == [a[0]] + a[1..] && b == [b[0]] + b[1..];
    }
  }

  lemma {:induction false} SeqTransitive(a: seq<Value>, b: seq<Value>, c: seq<Value>)
    requires SeqLess(a, b) && SeqLess(b, c)
    ensures SeqLess(a, c)
  {
    hide Less;
    ValueOrder();
    if a != [] {
      if a[0] == b[0] == c[0] {
        SeqTransitive(a[1..], b[1..], c[1..]);
      }
    }
  }

  lemma EntriesOrdered()
    ensures forall a, b :: Before(a, b) || Before(b, a) || a == b
    ensures forall a, b :: !(Before(a, b) && (Before(b, a) || a == b))
    ensures forall a, b, c :: Before(a, b) && Before(b, c) ==> Before(a, c)
  {
    hide SeqLess;
    forall a: Entry, b: Entry
      ensures Before(a, b) || Before(b, a) || a == b
      ensures !(Before(a, b) && (Before(b, a) || a == b))
    {
      SeqTotal(a.order, b.order);
    }
    forall a: Entry, b: Entry, c: Entry | Before(a, b) && Before(b, c)
      ensures Before(a, c)
    {
      if SeqLess(a.order, b.order) && SeqLess(b.order, c.order) {
        SeqTransitive(a.order, b.order, c.order);
      }
    }
  }

  /** `a` is less than `b` at position `k`, the first where they differ, or ends there. */
  ghost predicate DiffersFirstAt(a: seq<Value>, b: seq<Value>, k: nat) {
    k <= |a| && k < |b| && (forall j :: 0 <= j < k ==> a[j] == b[j]) && (k < |a| ==> Less(a[k], b[k]))
  }

  lemma {:induction false} SeqLessIff(a: seq<Value>, b: seq<Value>)
    ensures SeqLess(a, b) <==> exists k: nat :: DiffersFirstAt(a, b, k)
  {
    hide Less;
    ValueOrder();
    if a == [] || b == [] {
      assert b != [] ==> DiffersFirstAt(a, b, 0);
    } else {
      SeqLessIff(a[1..], b[1..]);
      if Less(a[0], b[0]) {
        assert DiffersFirstAt(a, b, 0);
      } else if a[0] == b[0] && SeqLess(a[1..], b[1..]) {
        var k: nat :| DiffersFirstAt(a[1..], b[1..], k);
        assert forall j :: 0 < j < k + 1 ==> a[j] == a[1..][j - 1] && b[j] == b[1..][j - 1];
        assert DiffersFirstAt(a, b, k + 1);
      }
      if k: nat :| DiffersFirstAt(a, b, k) && k > 0 {
        assert forall j :: 0 <= j < k - 1 ==> a[1..][j] == a[j + 1] && b[1..][j] == b[j + 1];
        assert DiffersFirstAt(a[1..], b[1..], k - 1);
      }
    }
  }

  /** The row comes first: its values are less at the first position where they differ, or
      they are the same and its id is smaller. */
  ghost predicate Ahead(a: Row, b: Row) {
    (exists k: nat :: DiffersFirstAt(a.order, b.order, k)) || (a.order == b.order && a.id < b.id)
  }

  /** A row of the probe's group on the side that is asked for. */
  ghost predicate Eligible(rows: set<Row>, probe: Row, excluded: set<ItemId>, backward: bool, row: Row) {
    && row in rows && row.group == probe.group && Null !in row.group && Null !in row.order && Null !in probe.order
    && row.id !in excluded && (if backward then Ahead(row, probe) else Ahead(probe, row))
  }

  lemma AheadIff(a: Row, b: Row)
    ensures Ahead(a, b) <==> Before(Entry(a.order, a.id), Entry(b.order, b.id))
  {
    SeqLessIff(a.order, b.order);
  }

  lemma EligibleIff(rows: set<Row>, probe: Row, excluded: set<ItemId>, backward: bool)
    ensures forall row: Row :: Eligible(rows, probe, excluded, backward, row) ==> Entry(row.order, row.id) in Candidates(rows, probe, excluded, backward)
    ensures forall e :: e in Candidates(rows, probe, excluded, backward) ==>
              Eligible(rows, probe, excluded, backward, Row(e.id, probe.group, e.order))
  {
    hide Before, Ahead;
    forall row: Row
      ensures Ahead(row, probe) <==> Before(Entry(row.order, row.id), Entry(probe.order, probe.id))
      ensures Ahead(probe, row) <==> Before(Entry(probe.order, probe.id), Entry(row.order, row.id))
    {
      AheadIff(row, probe);
      AheadIff(probe, row);
    }
    forall e | e in Candidates(rows, probe, excluded, backward)
      ensures Eligible(rows, probe, excluded, backward, Row(e.id, probe.group, e.order))
    {
      var row :| row in rows && Stored(row) && row.group == probe.group && Entry(row.order, row.id) == e;
      assert row == Row(e.id, probe.group, e.order);
    }
  }

  /** The nearest candidate is an eligible row with no other one between it and the probe. */
  lemma NearestMeans(rows: set<Row>, probe: Row, excluded: set<ItemId>, backward: bool, e: Entry)
    requires e in Candidates(rows, probe, excluded, backward)
    requires forall f :: f in Candidates(rows, probe, excluded, backward) ==> f == e || Nearer(e, f, backward)
    ensures var found := Row(e.id, probe.group, e.order);
            && Eligible(rows, probe, excluded, backward, found)
            && forall row: Row :: Eligible(rows, probe, excluded, backward, row) && row != found ==> if backward then Ahead(row, found) else Ahead(found, row)
  {
    hide Eligible, Candidates, Ahead, Before;
    EligibleIff(rows, probe, excluded, backward);
    var found := Row(e.id, probe.group, e.order);
    forall row | Eligible(rows, probe, excluded, backward, row) && row != found
      ensures if backward then Ahead(row, found) else Ahead(found, row)
    {
      EligibleGroup(rows, probe, excluded, backward, row);
      AheadIff(row, found);
      AheadIff(found, row);
    }
  }

  lemma EligibleGroup(rows: set<Row>, probe: Row, excluded: set<ItemId>, backward: bool, row: Row)
    requires Eligible(rows, probe, excluded, backward, row)
    ensures row.group == probe.group
  {
  }

  /** Which of two entries a walk away from the probe meets first. */
  predicate Nearer(a: Entry, b: Entry, backward: bool) {
    if backward then Before(b, a) else Before(a, b)
  }

  /** The entry lies on the side that is asked for. */
  predicate Beside(e: Entry, probe: Entry, backward: bool) {
    if backward then Before(e, probe) else Before(probe, e)
  }

  /** The nearest entry to the probe on one side that is not excluded (`previous` and `next`). */
  method Nearest(groups: Groups, probe: Row, excluded: set<ItemId>, backward: bool, ghost rows: set<Row>) returns (r: Option<ItemId>)
    requires Files(groups, rows)
    ensures r.None? <==> Candidates(rows, probe, excluded, backward) == {}
    ensures r.Some? ==> exists e :: e in Candidates(rows, probe, excluded, backward) && e.id == r.value
                          && forall f :: f in Candidates(rows, probe, excluded, backward) ==> f == e || Nearer(e, f, backward)
    ensures r.None? <==> forall row: Row :: !Eligible(rows, probe, excluded, backward, row)
    ensures r.Some? ==> exists found: Row :: found.id == r.value && Eligible(rows, probe, excluded, backward, found)
                          && forall row: Row :: Eligible(rows, probe, excluded, backward, row) && row != found ==>
                               if backward then Ahead(row, found) else Ahead(found, row)
  {
    r := NearestEntry(groups, probe, excluded, backward, rows);
    hide Eligible, Candidates, Nearer, Ahead;
    EligibleIff(rows, probe, excluded, backward);
    if r.Some? {
      ghost var e :| e in Candidates(rows, probe, excluded, backward) && e.id == r.value
               && forall f :: f in Candidates(rows, probe, excluded, backward) ==> f == e || Nearer(e, f, backward);
      NearestMeans(rows, probe, excluded, backward, e);
    }
  }

  /** The walk. */
  method NearestEntry(groups: Groups, probe: Row, excluded: set<ItemId>, backward: bool, ghost rows: set<Row>) returns (r: Option<ItemId>)
    requires Files(groups, rows)
    ensures r.None? <==> Candidates(rows, probe, excluded, backward) == {}
    ensures r.Some? ==> exists e :: e in Candidates(rows, probe, excluded, backward) && e.id == r.value
                          && forall f :: f in Candidates(rows, probe, excluded, backward) ==> f == e || Nearer(e, f, backward)
  {
    hide Before, Files, EntriesOf;
    EntriesOrdered();
    r := None;
    if !Stored(probe) || probe.group !in groups {
      GroupHolds(groups, rows, probe.group);
      return;
    }
    GroupHolds(groups, rows, probe.group);
    var from := Entry(probe.order, probe.id);
    var left := groups[probe.group];
    ghost var all := Candidates(rows, probe, excluded, backward);
    ghost var best: Option<Entry> := None;
    while left != {}
      invariant left <= groups[probe.group]
      invariant r == match best case None => None case Some(e) => Some(e.id)
      invariant best.None? ==> forall e :: e in all ==> e in left
      invariant best.Some? ==> best.value in all && forall e :: e in all && e !in left ==> e == best.value || Nearer(best.value, e, backward)
      invariant left == {} || best.None?
      decreases left
    {
      var e := Closest(left, backward);
      if Beside(e, from, backward) && e.id !in excluded {
        best, r := Some(e), Some(e.id);
        left := {};
      } else {
        left := left - {e};
      }
    }
  }

  /** The entries a neighbour is looked for among: those of the probe's group on the side
      asked for, without the excluded ones. */
  ghost function Candidates(rows: set<Row>, probe: Row, excluded: set<ItemId>, backward: bool): set<Entry> {
    if !Stored(probe) then {}
    else set e | e in EntriesOf(rows, probe.group) && Beside(e, Entry(probe.order, probe.id), backward) && e.id !in excluded
  }

  lemma GroupHolds(groups: Groups, rows: set<Row>, group: seq<Value>)
    requires Files(groups, rows)
    ensures EntriesAt(groups, group) == EntriesOf(rows, group)
  {
  }

  /** The first entry of a walk. */
  method Closest(entries: set<Entry>, backward: bool) returns (e: Entry)
    requires entries != {}
    ensures e in entries && forall f :: f in entries ==> f == e || Nearer(e, f, backward)
  {
    hide Before;
    EntriesOrdered();
    e :| e in entries;
    var left := entries - {e};
    while left != {}
      invariant left <= entries && e in entries
      invariant forall f :: f in entries && f !in left ==> f == e || Nearer(e, f, backward)
      decreases left
    {
      var f :| f in left;
      left := left - {f};
      if Nearer(f, e, backward) {
        e := f;
      }
    }
  }
}
