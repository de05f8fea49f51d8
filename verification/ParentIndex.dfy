/** The in-memory index that walks from a child hit to the parent chunk. */
module ParentIndex {
  import opened Wrappers
  import opened Chunker

  class ParentChildIndex {
    var links: map<string, string>
    var parents: map<string, Chunk>

    /** What is registered under an id is a parent chunk of that id with text. */
    ghost predicate Valid()
      reads this
    {
      forall id | id in parents ::
        parents[id].chunkId == id && parents[id].chunkType == "parent" && parents[id].content != ""
    }

    constructor ()
      ensures Valid() && links == map[] && parents == map[]
    {
      links, parents := map[], map[];
    }

    /** `add_link`; false stands for its `ValueError`. */
    method AddLink(childId: string, parentId: string, parentContent: string) returns (ok: bool)
      requires Valid()
      modifies this
      ensures Valid() && ok == (parentContent != "")
      ensures links == if ok then old(links)[childId := parentId] else old(links)
      ensures parents == if ok then
                           old(parents)[parentId := Chunk(parentId, parentContent, "parent", None, DEFAULT_SPEC.parentSize)]
                         else old(parents)
    {
      if parentContent == "" {
        return false;
      }
      links := links[childId := parentId];
      parents := parents[parentId := Chunk(parentId, parentContent, "parent", None, DEFAULT_SPEC.parentSize)];
      ok := true;
    }

    /** `add_parent`; false stands for its `ValueError`. */
    method AddParent(parent: Chunk) returns (ok: bool)
      requires Valid()
      modifies this`parents
      ensures Valid() && ok == (parent.chunkType == "parent" && parent.content != "")
      ensures parents == if ok then old(parents)[parent.chunkId := parent] else old(parents)
    {
      if parent.chunkType != "parent" || parent.content == "" {
        return false;
      }
      parents := parents[parent.chunkId := parent];
      ok := true;
    }

    /** `retrieve_parent`: a result is never empty text, and there is none only
        when a link of the walk is missing. */
    method RetrieveParent(childId: string) returns (parent: Option<Chunk>)
      requires Valid()
      ensures parent.Some? <==> childId in links && links[childId] in parents
      ensures parent.Some? ==>
                && parent.value == parents[links[childId]]
                && parent.value.chunkId == links[childId]
                && parent.value.chunkType == "parent" && parent.value.content != ""
    {
      if childId !in links || links[childId] !in parents || parents[links[childId]].content == "" {
        return None;
      }
      parent := Some(parents[links[childId]]);
    }
  }
}
