// The pruning step of Project::delete_selected_media: once the user has
// chosen to skip a media item in use, the item and every folder above it
// were recorded as "parents", and each of them is taken off the list of
// items to delete before the deletion runs.

module ParentPruning {
  import opened MediaTree

  /** `s` without any entry equal to `p`, in order. */
  function Drop(s: seq<MediaRef>, p: MediaRef): seq<MediaRef> {
    if s == [] then []
    else Drop(s[..|s| - 1], p) + (if s[|s| - 1] == p then [] else [s[|s| - 1]])
  }

  /** The items after the pruning loop has handled `parents` in order; a
      null parent removes nothing. */
  function Pruned(items: seq<MediaRef>, parents: seq<MediaRef>): seq<MediaRef> {
    if parents == [] then items
    else
      var before := Pruned(items, parents[..|parents| - 1]);
      var p := parents[|parents| - 1];
      if p.Ref? then Drop(before, p) else before
  }

  /** A single pass keeping the items that are not a (non-null) parent. */
  function NotParents(items: seq<MediaRef>, parents: seq<MediaRef>): seq<MediaRef> {
    if items == [] then []
    else
      var x := items[|items| - 1];
      NotParents(items[..|items| - 1], parents) + (if x.Ref? && x in parents then [] else [x])
  }

  /** Dropping one more parent from the single pass is the single pass for
      the longer list of parents. */
  lemma {:induction false} DropNotParents(items: seq<MediaRef>, parents: seq<MediaRef>, p: MediaRef)
    requires p.Ref?
    ensures Drop(NotParents(items, parents), p) == NotParents(items, parents + [p])
  {
    if items != [] {
      var front, x := items[..|items| - 1], items[|items| - 1];
      DropNotParents(front, parents, p);
      var kept := if x.Ref? && x in parents then [] else [x];
      DropAppend(NotParents(front, parents), kept, p);
      assert x in parents + [p] <==> x in parents || x == p;
      if kept != [] {
        assert kept[..0] == [];
      }
    }
  }

  lemma {:induction false} DropAppend(a: seq<MediaRef>, b: seq<MediaRef>, p: MediaRef)
    ensures Drop(a + b, p) == Drop(a, p) + Drop(b, p)
  {
    if b != [] {
      var front, last := b[..|b| - 1], b[|b| - 1];
      assert (a + b)[..|a + b| - 1] == a + front;
      DropAppend(a, front, p);
    } else {
      assert a + b == a;
    }
  }

  lemma {:induction false} NotParentsOfNone(items: seq<MediaRef>)
    ensures NotParents(items, []) == items
  {
    if items != [] {
      NotParentsOfNone(items[..|items| - 1]);
    }
  }

  lemma {:induction false} NotParentsNull(items: seq<MediaRef>, parents: seq<MediaRef>)
    ensures NotParents(items, parents + [Null]) == NotParents(items, parents)
  {
    if items != [] {
      NotParentsNull(items[..|items| - 1], parents);
      var x := items[|items| - 1];
      assert x.Ref? ==> (x in parents + [Null] <==> x in parents);
    }
  }

  /** Handling the parents one after another removes, in one pass, every
      item that is one of them. */
  lemma {:induction false} PrunedIsNotParents(items: seq<MediaRef>, parents: seq<MediaRef>)
    ensures Pruned(items, parents) == NotParents(items, parents)
  {
    if parents == [] {
      NotParentsOfNone(items);
    } else {
      var front, p := parents[..|parents| - 1], parents[|parents| - 1];
      PrunedIsNotParents(items, front);
      assert parents == front + [p];
      if p.Ref? {
        DropNotParents(items, front, p);
      } else {
        NotParentsNull(items, front);
      }
    }
  }

  /** No parent is left on the list, duplicates included, and nothing
      else is taken off it. */
  lemma {:induction false} NotParentsMembers(items: seq<MediaRef>, parents: seq<MediaRef>, x: MediaRef)
    ensures x in NotParents(items, parents) <==> x in items && !(x.Ref? && x in parents)
  {
    if items != [] {
      var front := items[..|items| - 1];
      NotParentsMembers(front, parents, x);
      assert items == front + [items[|items| - 1]];
    }
  }

  /** The inner loop of the pruning: QVector::removeAt(l) followed by l--,
      so the entry that slid into place `l` is looked at next. */
  method DropParent(items0: seq<MediaRef>, p: MediaRef) returns (items: seq<MediaRef>)
    requires p.Ref?
    ensures items == Drop(items0, p)
  {
    items := items0;
    var l := 0;
    ghost var k := 0;   // how many entries of items0 have been looked at
    while l < |items|
      invariant 0 <= l <= |items| && 0 <= k <= |items0|
      invariant items[..l] == Drop(items0[..k], p) && items[l..] == items0[k..]
      decreases |items| - l
    {
      assert items0[..k + 1][..k] == items0[..k];
      assert items0[k] == items[l];
      ghost var before := items;
      if items[l] == p {
        items := items[..l] + items[l + 1..];
        assert items[..l] == before[..l];
        assert items[l..] == before[l + 1..] == items0[k + 1..];
      } else {
        l := l + 1;
        assert items[..l] == before[..l - 1] + [items0[k]];
        assert items[l..] == before[l..] == items0[k + 1..];
      }
      k := k + 1;
    }
    assert items0[..k] == items0;
  }

  /** The pruning loop of Project::delete_selected_media, over the parents
      recorded so far. */
  method PruneParents(items0: seq<MediaRef>, parents: seq<MediaRef>) returns (items: seq<MediaRef>)
    ensures items == NotParents(items0, parents)
    ensures forall x :: x in items <==> x in items0 && !(x.Ref? && x in parents)
  {
    items := items0;
    for m := 0 to |parents|
      invariant items == Pruned(items0, parents[..m])
    {
      assert parents[..m + 1][..m] == parents[..m];
      if parents[m].Ref? {
        items := DropParent(items, parents[m]);
      }
    }
    assert parents[..|parents|] == parents;
    PrunedIsNotParents(items0, parents);
    forall x ensures x in items <==> x in items0 && !(x.Ref? && x in parents) {
      NotParentsMembers(items0, parents, x);
    }
  }
}
