/** The change set as an object (`ChangeSet`, src/change.cpp:148-221): operations are only
    appended, and a link is only taken between operations that are there. */
module ChangeSets {
  import opened Wrappers
  import opened Values
  import opened Codec
  import ChangeLog
  import Merges

  class LinkedChanges {
    var operations: seq<Operation>
    var derivedLinks: seq<Link>

    function Contents(): ChangeSet
      reads this
    {
      ChangeSet(operations, derivedLinks)
    }

    /** Every link is between operations of the change set. */
    ghost predicate Valid()
      reads this
    {
      Contents().LinksInRange()
    }

    constructor (operations: seq<Operation>)
      ensures Valid() && Contents() == ChangeSet(operations, [])
    {
      this.operations, derivedLinks := operations, [];
    }

    /** `append`. */
    method Append(operation: Operation)
      requires Valid()
      modifies this
      ensures Valid() && Contents() == ChangeSet(old(operations) + [operation], old(derivedLinks))
    {
      operations := operations + [operation];
    }

    /** `addDerivedLink`: a link that leads outside is refused. */
    method AddDerivedLink(link: Link) returns (ok: bool)
      requires Valid()
      modifies this
      ensures Valid() && (ok <==> InRange(link, |old(operations)|))
      ensures Contents() == ChangeSet(old(operations), if ok then old(derivedLinks) + [link] else old(derivedLinks))
    {
      ok := InRange(link, |operations|);
      if ok {
        derivedLinks := derivedLinks + [link];
      }
    }

    /** `serialize`: what it writes always reads back. */
    method Serialize() returns (bytes: seq<byte>)
      requires Valid() && Contents().Storable()
      ensures Deserialize(bytes) == Some(Contents())
    {
      SerializedReadsBack(Contents());
      bytes := ChangeLog.SerializeChangeSet(Contents());
    }
  }

  /** An object with these contents, built as `merge` and `deserialize` build theirs. */
  method Built(x: ChangeSet) returns (changes: LinkedChanges)
    requires x.LinksInRange()
    ensures fresh(changes) && changes.Valid() && changes.Contents() == x
  {
    changes := new LinkedChanges(x.operations);
    for i := 0 to |x.derivedLinks|
      invariant fresh(changes) && changes.Valid() && changes.Contents() == ChangeSet(x.operations, x.derivedLinks[..i])
    {
      assert InRange(x.derivedLinks[i], |x.operations|);
      var ok := changes.AddDerivedLink(x.derivedLinks[i]);
      assert ok;
    }
    assert x.derivedLinks[..|x.derivedLinks|] == x.derivedLinks;
  }

  method Gathered(changes: seq<LinkedChanges>) returns (contents: seq<ChangeSet>)
    ensures contents == AllContents(changes)
  {
    contents := [];
    for i := 0 to |changes|
      invariant contents == AllContents(changes)[..i]
    {
      contents := contents + [changes[i].Contents()];
    }
    assert contents == AllContents(changes);
  }

  lemma GatheredMerge(contents: seq<ChangeSet>)
    requires (forall i :: 0 <= i < |contents| ==> contents[i].LinksInRange()) && |Merges.AllOps(contents)| < SIZES
    ensures Merges.Mergeable(contents) && Merges.Merge(contents).LinksInRange()
  {
    hide Merges.Merge;
    Merges.MergedInRange(contents);
  }

  /** `merge` of objects gives an object again. */
  method MergeAll(changes: seq<LinkedChanges>) returns (merged: LinkedChanges)
    requires forall i :: 0 <= i < |changes| ==> changes[i].Valid()
    requires |Merges.AllOps(AllContents(changes))| < SIZES
    ensures Merges.Mergeable(AllContents(changes))
    ensures fresh(merged) && merged.Valid() && merged.Contents() == Merges.Merge(AllContents(changes))
  {
    hide Merges.Merge, Merges.Mergeable, Merges.AllOps;
    var contents := Gathered(changes);
    GatheredMerge(contents);
    var result := Merges.MergeChangeSets(contents);
    merged := Built(result);
  }

  function AllContents(changes: seq<LinkedChanges>): (r: seq<ChangeSet>)
    reads changes
    ensures |r| == |changes| && forall i :: 0 <= i < |r| ==> r[i] == changes[i].Contents()
    ensures (forall i :: 0 <= i < |changes| ==> changes[i].Valid()) ==> forall i :: 0 <= i < |r| ==> r[i].LinksInRange()
  {
    seq(|changes|, i requires 0 <= i < |changes| reads changes => changes[i].Contents())
  }
}
