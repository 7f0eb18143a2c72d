/**
 * The older review handlers of review.contoller.js. Unlike the current
 * controller they check neither the body nor earlier reviews by the same user,
 * and they list a vendor's reviews newest first. The schema file they import
 * (models/review.model) is not part of this model, so no rating range is assumed.
 */
module LegacyReviewController {
  import opened Wrappers
  import opened Http
  import opened Store

  /** A stored review; `createdAt` is the store's clock reading when it was created. */
  datatype LegacyReview = LegacyReview(vendor: ObjectId, user: ObjectId, rating: Option<int>, comment: Option<string>, createdAt: int)

  /**
   * The body of a create request. A vendorId of None is undefined or null, which
   * `findById` looks up and does not find; an empty string is a malformed id.
   */
  datatype ReviewBody = ReviewBody(vendorId: Option<ObjectId>, rating: Option<int>, comment: Option<string>)

  /** Each entry is at least as recent as every entry after it. */
  ghost predicate NewestFirst(s: seq<Entry<LegacyReview>>) {
    forall i, j :: 0 <= i < j < |s| ==> s[i].doc.createdAt >= s[j].doc.createdAt
  }

  /** Puts `e` into the newest-first sequence `s`, ahead of the entries no newer than it. */
  function InsertNewestFirst(e: Entry<LegacyReview>, s: seq<Entry<LegacyReview>>): (r: seq<Entry<LegacyReview>>)
    requires NewestFirst(s)
    ensures NewestFirst(r)
    ensures multiset(r) == multiset(s) + multiset{e}
    ensures forall x :: x in r ==> x == e || x in s
  {
    if s == [] || e.doc.createdAt >= s[0].doc.createdAt then [e] + s
    else
      var rest := InsertNewestFirst(e, s[1..]);
      assert s == [s[0]] + s[1..];
      assert forall x :: x in rest ==> x.doc.createdAt <= s[0].doc.createdAt;
      [s[0]] + rest
  }

  /**
   * `.sort({ createdAt: -1 })`. The contract orders entries by timestamp only;
   * it does not promise any order among entries with equal timestamps, which
   * MongoDB leaves open as well.
   */
  function SortNewestFirst(s: seq<Entry<LegacyReview>>): (r: seq<Entry<LegacyReview>>)
    ensures NewestFirst(r)
    ensures multiset(r) == multiset(s)
  {
    if s == [] then []
    else
      assert s == [s[0]] + s[1..];
      InsertNewestFirst(s[0], SortNewestFirst(s[1..]))
  }

  /** A value that occurs twice in a sequence is counted twice by its multiset. */
  lemma {:induction false} RepeatCounted<T>(s: seq<T>, i: nat, j: nat)
    requires i < j < |s| && s[i] == s[j]
    ensures multiset(s)[s[i]] >= 2
  {
    assert s == s[..j] + s[j..];
    assert s[i] in s[..j];
    assert s[j] == s[j..][0];
  }

  /** A sequence with pairwise different ids holds each entry at most once. */
  lemma {:induction false} DistinctIdsCountedOnce<D>(s: seq<Entry<D>>, e: Entry<D>)
    requires forall i, j :: 0 <= i < j < |s| ==> s[i].id < s[j].id
    ensures multiset(s)[e] <= 1
  {
    if s != [] {
      assert s == [s[0]] + s[1..];
      DistinctIdsCountedOnce(s[1..], e);
      if s[0] == e {
        assert e !in s[1..];
      }
    }
  }

  /** Two sequences with the same multiset have the same members. */
  lemma SameMembers<T>(a: seq<T>, b: seq<T>)
    requires multiset(a) == multiset(b)
    ensures forall x :: x in a <==> x in b
  {
    forall x ensures x in a <==> x in b {
      assert x in a <==> x in multiset(a);
      assert x in b <==> x in multiset(b);
    }
  }

  /**
   * Reordering a query result whose ids increase and whose entries are stored
   * documents keeps the same entries, each still exactly once.
   */
  lemma PermutedListing<D>(docs: map<ObjectId, D>, found: seq<Entry<D>>, r: seq<Entry<D>>)
    requires forall i, j :: 0 <= i < j < |found| ==> found[i].id < found[j].id
    requires forall e :: e in found ==> e.id in docs && docs[e.id] == e.doc
    requires multiset(r) == multiset(found)
    ensures forall e :: e in r <==> e in found
    ensures forall i, j :: 0 <= i < j < |r| ==> r[i].id != r[j].id
  {
    SameMembers(r, found);
    forall i, j | 0 <= i < j < |r| ensures r[i].id != r[j].id {
      if r[i].id == r[j].id {
        assert r[i] in found && r[j] in found;
        RepeatCounted(r, i, j);
        DistinctIdsCountedOnce(found, r[i]);
        assert false;
      }
    }
  }

  class ReviewDb {
    var reviews: map<ObjectId, LegacyReview>
    var nextId: ObjectId
    /** The ids of the Vendor collection; these handlers only look vendors up. */
    var vendors: set<ObjectId>

    ghost predicate Valid()
      reads this
    {
      Bounded(reviews, nextId)
    }

    constructor (vendors: set<ObjectId>)
      ensures Valid() && reviews == map[] && this.vendors == vendors
    {
      reviews := map[];
      nextId := 0;
      this.vendors := vendors;
    }

    /**
     * `createReview` by `caller` at time `now`. A vendorId of None is looked up
     * like any other id and not found.
     */
    method CreateReview(caller: ObjectId, body: ReviewBody, now: int) returns (reply: Reply<Entry<LegacyReview>>)
      requires Valid()
      modifies this`reviews, this`nextId
      ensures Valid()
      ensures body.vendorId.None? || body.vendorId.value !in vendors ==>
        reply == Message(404, "Vendor not found") && reviews == old(reviews)
      ensures body.vendorId.Some? && body.vendorId.value in vendors ==>
        && reply.Json? && reply.status == 201 && reply.body.id !in old(reviews)
        && reply.body.doc == LegacyReview(body.vendorId.value, caller, body.rating, body.comment, now)
        && reviews == old(reviews)[reply.body.id := reply.body.doc]
    {
      if body.vendorId.None? || body.vendorId.value !in vendors {
        return Message(404, "Vendor not found");
      }
      var review := LegacyReview(body.vendorId.value, caller, body.rating, body.comment, now);
      var id := nextId;
      reviews := reviews[id := review];
      nextId := nextId + 1;
      reply := Json(201, Entry(id, review));
    }

    /** `getReviewsByVendor`: each stored review of `vendorId` exactly once, newest first. */
    function GetReviewsByVendor(vendorId: ObjectId): (r: Reply<seq<Entry<LegacyReview>>>)
      reads this
      requires Valid()
      ensures r.Json? && r.status == 200
      ensures forall e :: e in r.body <==> e.id in reviews && reviews[e.id] == e.doc && e.doc.vendor == vendorId
      ensures forall i, j :: 0 <= i < j < |r.body| ==> r.body[i].id != r.body[j].id
      ensures NewestFirst(r.body)
    {
      var found := Find(reviews, (rv: LegacyReview) => rv.vendor == vendorId, nextId);
      var sorted := SortNewestFirst(found);
      PermutedListing(reviews, found, sorted);
      Json(200, sorted)
    }

    /** `deleteReview` of review `id` by `caller`. */
    method DeleteReview(caller: ObjectId, id: ObjectId) returns (reply: Reply<()>)
      requires Valid()
      modifies this`reviews
      ensures Valid()
      ensures id !in old(reviews) ==> reply == Message(404, "Review not found") && reviews == old(reviews)
      ensures id in old(reviews) && old(reviews)[id].user != caller ==>
        reply == Message(403, "Not authorized to delete this review") && reviews == old(reviews)
      ensures id in old(reviews) && old(reviews)[id].user == caller ==>
        reply == Message(200, "Review deleted") && reviews == old(reviews) - {id}
    {
      if id !in reviews {
        return Message(404, "Review not found");
      }
      if reviews[id].user != caller {
        return Message(403, "Not authorized to delete this review");
      }
      reviews := reviews - {id};
      reply := Message(200, "Review deleted");
    }
  }

  /** Without a duplicate check, a second review by the same user for the same vendor is stored and listed too. */
  method DuplicateReviewScenario(vendor: ObjectId, user: ObjectId)
    returns (first: Reply<Entry<LegacyReview>>, second: Reply<Entry<LegacyReview>>, listing: seq<Entry<LegacyReview>>)
    ensures first.Json? && first.status == 201 && second.Json? && second.status == 201
    ensures first.body.id != second.body.id
    ensures first.body in listing && second.body in listing
    ensures forall e :: e in listing ==> e.doc.user == user
  {
    var db := new ReviewDb({vendor});
    first := db.CreateReview(user, ReviewBody(Some(vendor), Some(4), None), 1);
    ghost var afterFirst := db.reviews;
    second := db.CreateReview(user, ReviewBody(Some(vendor), Some(2), None), 2);
    assert second.body.id !in afterFirst;
    assert db.reviews == map[first.body.id := first.body.doc, second.body.id := second.body.doc];
    assert forall id :: id in db.reviews ==> db.reviews[id].user == user;
    assert db.reviews[first.body.id] == first.body.doc && first.body.doc.vendor == vendor;
    assert db.reviews[second.body.id] == second.body.doc && second.body.doc.vendor == vendor;
    var reply := db.GetReviewsByVendor(vendor);
    listing := reply.body;
  }
}
