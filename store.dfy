/**
 * The document store as the controllers use it: a collection maps document ids
 * to documents, and ids are handed out in increasing order, so id order is the
 * order in which documents were created. `find` and `findOne` are modelled as
 * scans in that order.
 */
module Store {
  import opened Wrappers

  /** A document id (a MongoDB ObjectId). */
  type ObjectId = nat

  /** A document together with its id, as a query returns it. */
  datatype Entry<D> = Entry(id: ObjectId, doc: D)

  /** Every id in use is below `bound`, the next id the store will hand out. */
  ghost predicate Bounded<D>(docs: map<ObjectId, D>, bound: ObjectId) {
    forall id :: id in docs ==> id < bound
  }

  /** `Model.find(filter)`: the documents with id below `bound` that satisfy `p`, in id order. */
  function Find<D>(docs: map<ObjectId, D>, p: D -> bool, bound: ObjectId): (r: seq<Entry<D>>)
    ensures forall e :: e in r ==> e.id < bound && e.id in docs && docs[e.id] == e.doc && p(e.doc)
    ensures forall id :: id < bound && id in docs && p(docs[id]) ==> Entry(id, docs[id]) in r
    ensures forall i, j :: 0 <= i < j < |r| ==> r[i].id < r[j].id
  {
    if bound == 0 then []
    else
      var earlier := Find(docs, p, bound - 1);
      if bound - 1 in docs && p(docs[bound - 1]) then earlier + [Entry(bound - 1, docs[bound - 1])]
      else earlier
  }

  /** `Model.findOne(filter)`: the first document in id order that satisfies `p`, if any. */
  function FindOne<D>(docs: map<ObjectId, D>, p: D -> bool, bound: ObjectId): (r: Option<Entry<D>>)
    ensures r.None? <==> forall id :: id < bound && id in docs ==> !p(docs[id])
    ensures r.Some? ==> r.value.id < bound && r.value.id in docs && docs[r.value.id] == r.value.doc && p(r.value.doc)
    ensures r.Some? ==> forall id :: id < r.value.id && id in docs ==> !p(docs[id])
  {
    var all := Find(docs, p, bound);
    if all == [] then None
    else
      assert all[0] in all;
      Some(all[0])
  }
}
