// The project's media tree: every item is footage, a sequence, a folder or
// not yet typed, holds an ordered list of children and a link to its
// parent.  The identity of items (shared_ptr equality) is modelled by
// comparing their unique ids.

module MediaTree {

  type MediaId = nat

  datatype MediaType = Footage | Sequence | Folder | None

  /** A possibly null shared_ptr to a media item. */
  datatype MediaRef = Null | Ref(id: MediaId)

  /** One item of the tree; `parent` is the weak link back up the tree
      (Null for a top-level item). */
  datatype Media = Media(id: MediaId, kind: MediaType, name: string, parent: MediaRef, children: seq<Media>)
}
