/**
 * The offset index: native identifier to byte offset, remembering the order in
 * which identifiers were first inserted so that a record can also be found by
 * its position.  Only the interface the MGF reader uses is modelled.
 */
module OffsetIndexing {
  import opened Wrappers

  datatype OffsetIndex = OffsetIndex(
    name: string,
    keys: seq<string>,
    offsets: map<string, nat>,
    init: bool)

  /** Keys are unique, and the ordered keys are exactly the mapped ones. */
  ghost predicate Valid(idx: OffsetIndex)
  {
    && (forall i, j :: 0 <= i < j < |idx.keys| ==> idx.keys[i] != idx.keys[j])
    && (forall k :: k in idx.offsets <==> k in idx.keys)
  }

  /** `OffsetIndex::new(name)`: empty and not yet initialised. */
  function NewIndex(name: string): (idx: OffsetIndex)
    ensures Valid(idx) && Len(idx) == 0 && !idx.init
  {
    OffsetIndex(name, [], map[], false)
  }

  function Len(idx: OffsetIndex): nat
  {
    |idx.keys|
  }

  /** `get(id)`: exact lookup. */
  function Get(idx: OffsetIndex, id: string): Option<nat>
  {
    if id in idx.offsets then Some(idx.offsets[id]) else None
  }

  /** `get_index(i)`: the identifier at position `i` and its offset, if there is one. */
  function GetIndex(idx: OffsetIndex, i: nat): (r: Option<(string, nat)>)
    requires Valid(idx)
    ensures r.Some? <==> i < Len(idx)
    ensures r.Some? ==> Get(idx, r.value.0) == Some(r.value.1)
  {
    if i < |idx.keys| then Some((idx.keys[i], idx.offsets[idx.keys[i]])) else None
  }

  /**
   * `insert(id, offset)`: stores or overwrites the offset of `id`.  A new `id`
   * takes the next position; an existing one keeps its position.  Nothing else
   * changes.
   */
  function Insert(idx: OffsetIndex, id: string, offset: nat): (r: OffsetIndex)
    requires Valid(idx)
    ensures Valid(r)
    ensures Get(r, id) == Some(offset)
    ensures forall k :: k != id ==> Get(r, k) == Get(idx, k)
    ensures r.keys == if id in idx.offsets then idx.keys else idx.keys + [id]
    ensures r.name == idx.name && r.init == idx.init
  {
    var keys := if id in idx.offsets then idx.keys else idx.keys + [id];
    idx.(keys := keys, offsets := idx.offsets[id := offset])
  }

  /** Inserting a pair that is already there changes nothing. */
  lemma InsertPresent(idx: OffsetIndex, id: string, offset: nat)
    requires Valid(idx) && Get(idx, id) == Some(offset)
    ensures Insert(idx, id, offset) == idx
  {
    assert idx.offsets[id := offset] == idx.offsets;
  }
}
