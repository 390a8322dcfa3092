// The two depth-first collectors over the media tree:
// Project::get_all_media_from_table (every non-folder item of a given
// type, or of any type for NONE) and Project::list_all_sequences_worker
// (every sequence).  Both append to a list the caller passes in.

module MediaCollect {
  import opened MediaTree

  /** An item get_all_media_from_table appends when searching for `t`. */
  predicate Wanted(m: Media, t: MediaType) {
    m.kind != Folder && (t == m.kind || t == None)
  }

  /** The items get_all_media_from_table appends for `items`, in order. */
  function Collected(items: seq<Media>, t: MediaType): seq<Media>
    decreases items, 1
  {
    if items == [] then []
    else Collected(items[..|items| - 1], t) + CollectedFrom(items[|items| - 1], t)
  }

  function CollectedFrom(item: Media, t: MediaType): seq<Media>
    decreases item, 0
  {
    if item.kind == Folder then Collected(item.children, t)
    else if Wanted(item, t) then [item]
    else []
  }

  /** The items list_all_sequences_worker appends for `items`, in order. */
  function Sequences(items: seq<Media>): seq<Media>
    decreases items, 1
  {
    if items == [] then []
    else Sequences(items[..|items| - 1]) + SequencesFrom(items[|items| - 1])
  }

  function SequencesFrom(item: Media): seq<Media>
    decreases item, 0
  {
    match item.kind
    case Sequence => [item]
    case Folder => Sequences(item.children)
    case Footage => []
    case None => []
  }

  /** Every item reachable from `items` by descending into folders, each
      before its contents, in depth-first order. */
  function Walk(items: seq<Media>): seq<Media>
    decreases items, 1
  {
    if items == [] then []
    else Walk(items[..|items| - 1]) + WalkFrom(items[|items| - 1])
  }

  function WalkFrom(item: Media): seq<Media>
    decreases item, 0
  {
    [item] + if item.kind == Folder then Walk(item.children) else []
  }

  /** The items of `s` that are wanted for `t`, in order. */
  function Keep(s: seq<Media>, t: MediaType): (r: seq<Media>)
    ensures forall x :: x in r <==> x in s && Wanted(x, t)
  {
    if s == [] then []
    else Keep(s[..|s| - 1], t) + (if Wanted(s[|s| - 1], t) then [s[|s| - 1]] else [])
  }

  lemma {:induction false} KeepAppend(a: seq<Media>, b: seq<Media>, t: MediaType)
    ensures Keep(a + b, t) == Keep(a, t) + Keep(b, t)
  {
    if b != [] {
      var front, last := b[..|b| - 1], b[|b| - 1];
      var tail := if Wanted(last, t) then [last] else [];
      assert (a + b)[..|a + b| - 1] == a + front;
      assert Keep(a + b, t) == Keep(a + front, t) + tail;
      KeepAppend(a, front, t);
      assert Keep(b, t) == Keep(front, t) + tail;
    } else {
      assert a + b == a;
    }
  }

  /** get_all_media_from_table appends exactly the wanted items of the
      depth-first walk, in walk order. */
  lemma {:induction false} CollectedIsKeptWalk(items: seq<Media>, t: MediaType)
    ensures Collected(items, t) == Keep(Walk(items), t)
    decreases items, 1
  {
    if items != [] {
      var front, last := items[..|items| - 1], items[|items| - 1];
      CollectedIsKeptWalk(front, t);
      CollectedFromIsKeptWalk(last, t);
      KeepAppend(Walk(front), WalkFrom(last), t);
    }
  }

  lemma {:induction false} CollectedFromIsKeptWalk(item: Media, t: MediaType)
    ensures CollectedFrom(item, t) == Keep(WalkFrom(item), t)
    decreases item, 0
  {
    var rest := if item.kind == Folder then Walk(item.children) else [];
    KeepAppend([item], rest, t);
    assert [item][..0] == [];
    if item.kind == Folder {
      CollectedIsKeptWalk(item.children, t);
    }
  }

  /** Soundness and completeness: an item is collected iff the walk reaches
      it and it is not a folder and has the type searched for (any type for
      NONE). */
  lemma CollectedMembers(items: seq<Media>, t: MediaType, x: Media)
    ensures x in Collected(items, t) <==> x in Walk(items) && x.kind != Folder && (t == None || x.kind == t)
  {
    CollectedIsKeptWalk(items, t);
  }

  /** list_all_sequences_worker finds exactly what get_all_media_from_table
      finds when searching for SEQUENCE. */
  lemma {:induction false} SequencesAreCollected(items: seq<Media>)
    ensures Sequences(items) == Collected(items, Sequence)
    decreases items, 1
  {
    if items != [] {
      SequencesAreCollected(items[..|items| - 1]);
      SequencesFromAreCollected(items[|items| - 1]);
    }
  }

  lemma {:induction false} SequencesFromAreCollected(item: Media)
    ensures SequencesFrom(item) == CollectedFrom(item, Sequence)
    decreases item, 0
  {
    if item.kind == Folder {
      SequencesAreCollected(item.children);
    }
  }

  /** Project::get_all_media_from_table: `list` is the vector the caller
      passes by reference; the result is its new value. */
  method GetAllMediaFromTable(items: seq<Media>, list: seq<Media>, searchType: MediaType)
      returns (list': seq<Media>)
    ensures list' == list + Collected(items, searchType)
    decreases items
  {
    list' := list;
    for i := 0 to |items|
      invariant list' == list + Collected(items[..i], searchType)
    {
      assert items[..i + 1][..i] == items[..i];
      var item := items[i];
      if item.kind == Folder {
        var children: seq<Media> := [];
        for j := 0 to |item.children|
          invariant children == item.children[..j]
        {
          children := children + [item.children[j]];
        }
        assert children == item.children;
        list' := GetAllMediaFromTable(children, list', searchType);
      } else if searchType == item.kind || searchType == None {
        list' := list' + [item];
      }
    }
    assert items[..|items|] == items;
  }

  /** Project::list_all_sequences_worker, given the children of `parent`
      (the project's top-level items when `parent` is null). */
  method ListAllSequencesWorker(list: seq<Media>, children: seq<Media>) returns (list': seq<Media>)
    ensures list' == list + Sequences(children)
    decreases children
  {
    list' := list;
    for i := 0 to |children|
      invariant list' == list + Sequences(children[..i])
    {
      assert children[..i + 1][..i] == children[..i];
      var item := children[i];
      match item.kind {
        case Sequence =>
          list' := list' + [item];
        case Folder =>
          list' := ListAllSequencesWorker(list', item.children);
        case Footage =>
        case None =>
      }
    }
    assert children[..|children|] == children;
  }

  /** Project::list_all_project_sequences */
  method ListAllProjectSequences(top: seq<Media>) returns (list: seq<Media>)
    ensures list == Keep(Walk(top), Sequence)
    ensures forall x :: x in list <==> x in Walk(top) && x.kind == Sequence
  {
    list := ListAllSequencesWorker([], top);
    SequencesAreCollected(top);
    CollectedIsKeptWalk(top, Sequence);
    forall x ensures x in list <==> x in Walk(top) && x.kind == Sequence {
      CollectedMembers(top, Sequence, x);
    }
  }
}
