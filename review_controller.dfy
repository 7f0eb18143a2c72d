/**
 * The review handlers of src/controllers/reviewController.js over the Review
 * collection of src/models/reviewModel.js. Each mutating handler runs an ordered
 * chain of checks; the first that fails decides the reply and nothing is written.
 */
module ReviewController {
  import opened Wrappers
  import opened Http
  import opened Store

  /** A stored review: its author, the vendor it is about, a rating and an optional comment. */
  datatype Review = Review(userId: ObjectId, vendorId: ObjectId, rating: int, comment: Option<string>)

  /**
   * The body of a create request. A vendorId of None is undefined, null or "":
   * the handler's first test, `!vendorId`, treats the three alike.
   */
  datatype ReviewBody = ReviewBody(vendorId: Option<ObjectId>, rating: Option<int>, comment: Option<string>)

  /** The body of an update request. */
  datatype Edit = Edit(rating: Option<int>, comment: Option<string>)

  /** The schema's `min: 1, max: 5` on rating. */
  predicate RatingInRange(rating: int) {
    1 <= rating <= 5
  }

  /** No user has two reviews of the same vendor. */
  ghost predicate OnePerAuthor(reviews: map<ObjectId, Review>) {
    forall a, b ::
      a in reviews && b in reviews && reviews[a].userId == reviews[b].userId && reviews[a].vendorId == reviews[b].vendorId
      ==> a == b
  }

  ghost predicate HasReviewed(reviews: map<ObjectId, Review>, user: ObjectId, vendor: ObjectId) {
    exists id :: id in reviews && reviews[id].userId == user && reviews[id].vendorId == vendor
  }

  /**
   * `review.rating = rating || review.rating; review.comment = comment || review.comment`:
   * a field of the edit replaces the stored one only when it is truthy.
   */
  function Apply(review: Review, edit: Edit): (r: Review)
    ensures r.userId == review.userId && r.vendorId == review.vendorId
  {
    review.(rating := if TruthyNumber(edit.rating) then edit.rating.value else review.rating,
            comment := if TruthyString(edit.comment) then edit.comment else review.comment)
  }

  /** A truthy field of the edit replaces the stored value. */
  lemma TruthyFieldsReplace(review: Review, edit: Edit)
    ensures TruthyNumber(edit.rating) ==> Apply(review, edit).rating == edit.rating.value
    ensures TruthyString(edit.comment) ==> Apply(review, edit).comment == edit.comment
  {
  }

  /** A falsy field of the edit keeps the stored value, whatever the other field holds. */
  lemma FalsyFieldKept(review: Review, edit: Edit)
    ensures !TruthyNumber(edit.rating) ==> Apply(review, edit).rating == review.rating
    ensures !TruthyString(edit.comment) ==> Apply(review, edit).comment == review.comment
  {
  }

  /** An edit can never turn a non-empty comment into an empty one, nor remove it. */
  lemma EditCannotClearComment(review: Review, edit: Edit)
    requires TruthyString(review.comment)
    ensures TruthyString(Apply(review, edit).comment)
  {
  }

  /** An edit whose fields are all falsy leaves the review as it was. */
  lemma FalsyEditIsNoOp(review: Review, edit: Edit)
    requires !TruthyNumber(edit.rating) && !TruthyString(edit.comment)
    ensures Apply(review, edit) == review
  {
  }

  class ReviewDb {
    var reviews: map<ObjectId, Review>
    var nextId: ObjectId
    /** The ids of the Vendor collection; these handlers only look vendors up. */
    var vendors: set<ObjectId>

    ghost predicate Valid()
      reads this
    {
      && Bounded(reviews, nextId)
      && (forall id :: id in reviews ==> RatingInRange(reviews[id].rating))
      && OnePerAuthor(reviews)
    }

    constructor (vendors: set<ObjectId>)
      ensures Valid() && reviews == map[] && this.vendors == vendors
    {
      reviews := map[];
      nextId := 0;
      this.vendors := vendors;
    }

    /** `createReview`, on behalf of the authenticated user `caller`. */
    method CreateReview(caller: ObjectId, body: ReviewBody) returns (reply: Reply<Entry<Review>>)
      requires Valid()
      modifies this`reviews, this`nextId
      ensures Valid()
      ensures body.vendorId.None? || !TruthyNumber(body.rating) ==>
        reply == Message(400, "Vendor and rating are required") && reviews == old(reviews)
      ensures body.vendorId.Some? && TruthyNumber(body.rating) ==>
        var vendor, rating := body.vendorId.value, body.rating.value;
        if vendor !in vendors then
          reply == Message(404, "Vendor not found") && reviews == old(reviews)
        else if HasReviewed(old(reviews), caller, vendor) then
          reply == Message(400, "You have already reviewed this vendor") && reviews == old(reviews)
        else if !RatingInRange(rating) then
          reply == Message(500, "Error creating review") && reviews == old(reviews)
        else
          && reply.Json? && reply.status == 201 && reply.body.id !in old(reviews)
          && reply.body.doc == Review(caller, vendor, rating, body.comment)
          && reviews == old(reviews)[reply.body.id := reply.body.doc]
    {
      if body.vendorId.None? || !TruthyNumber(body.rating) {
        return Message(400, "Vendor and rating are required");
      }
      var vendor, rating := body.vendorId.value, body.rating.value;
      if vendor !in vendors {
        return Message(404, "Vendor not found");
      }
      var existing := FindOne(reviews, (r: Review) => r.vendorId == vendor && r.userId == caller, nextId);
      if existing.Some? {
        return Message(400, "You have already reviewed this vendor");
      }
      if !RatingInRange(rating) {
        // the schema validator throws and the handler's catch answers
        return Message(500, "Error creating review");
      }
      var review := Review(caller, vendor, rating, body.comment);
      var id := nextId;
      reviews := reviews[id := review];
      nextId := nextId + 1;
      reply := Json(201, Entry(id, review));
    }

    /** `getVendorReviews`: every stored review of `vendorId`, in creation order. */
    function GetVendorReviews(vendorId: ObjectId): (r: Reply<seq<Entry<Review>>>)
      reads this
      requires Valid()
      ensures r.Json? && r.status == 200
      ensures forall e :: e in r.body <==> e.id in reviews && reviews[e.id] == e.doc && e.doc.vendorId == vendorId
      ensures forall i, j :: 0 <= i < j < |r.body| ==> r.body[i].id < r.body[j].id
    {
      Json(200, Find(reviews, (rv: Review) => rv.vendorId == vendorId, nextId))
    }

    /** `updateReview` of review `id` by `caller`. */
    method UpdateReview(caller: ObjectId, id: ObjectId, edit: Edit) returns (reply: Reply<Entry<Review>>)
      requires Valid()
      modifies this`reviews
      ensures Valid()
      ensures id !in old(reviews) ==> reply == Message(404, "Review not found") && reviews == old(reviews)
      ensures id in old(reviews) && old(reviews)[id].userId != caller ==>
        reply == Message(403, "Not authorized to edit this review") && reviews == old(reviews)
      ensures id in old(reviews) && old(reviews)[id].userId == caller ==>
        var edited := Apply(old(reviews)[id], edit);
        if !RatingInRange(edited.rating) then
          reply == Message(500, "Error updating review") && reviews == old(reviews)
        else
          reply == Json(200, Entry(id, edited)) && reviews == old(reviews)[id := edited]
    {
      if id !in reviews {
        return Message(404, "Review not found");
      }
      var review := reviews[id];
      if review.userId != caller {
        return Message(403, "Not authorized to edit this review");
      }
      var edited := Apply(review, edit);
      if !RatingInRange(edited.rating) {
        // save() runs the schema validator, which throws; nothing is written
        return Message(500, "Error updating review");
      }
      reviews := reviews[id := edited];
      reply := Json(200, Entry(id, edited));
    }

    /** `deleteReview` of review `id` by `caller`. */
    method DeleteReview(caller: ObjectId, id: ObjectId) returns (reply: Reply<()>)
      requires Valid()
      modifies this`reviews
      ensures Valid()
      ensures id !in old(reviews) ==> reply == Message(404, "Review not found") && reviews == old(reviews)
      ensures id in old(reviews) && old(reviews)[id].userId != caller ==>
        reply == Message(403, "Not authorized to delete this review") && reviews == old(reviews)
      ensures id in old(reviews) && old(reviews)[id].userId == caller ==>
        reply == Message(200, "Review deleted successfully") && reviews == old(reviews) - {id}
    {
      if id !in reviews {
        return Message(404, "Review not found");
      }
      if reviews[id].userId != caller {
        return Message(403, "Not authorized to delete this review");
      }
      reviews := reviews - {id};
      reply := Message(200, "Review deleted successfully");
    }
  }

  /**
   * Two creates by the same user for the same vendor: the second is refused and
   * the table keeps one review for the pair; another user's create still succeeds.
   */
  method OneReviewPerUserScenario(vendor: ObjectId, u1: ObjectId, u2: ObjectId)
    returns (first: Reply<Entry<Review>>, second: Reply<Entry<Review>>, third: Reply<Entry<Review>>, table: map<ObjectId, Review>)
    requires u1 != u2
    ensures first.Json? && first.status == 201 && first.body.doc.userId == u1
    ensures second == Message(400, "You have already reviewed this vendor")
    ensures third.Json? && third.status == 201 && third.body.doc.userId == u2
    ensures table == map[first.body.id := first.body.doc, third.body.id := third.body.doc]
    ensures forall id :: id in table && table[id].userId == u1 && table[id].vendorId == vendor ==> id == first.body.id
  {
    var db := new ReviewDb({vendor});
    first := db.CreateReview(u1, ReviewBody(Some(vendor), Some(4), Some("fast")));
    assert db.reviews[first.body.id].userId == u1;
    second := db.CreateReview(u1, ReviewBody(Some(vendor), Some(5), None));
    third := db.CreateReview(u2, ReviewBody(Some(vendor), Some(3), None));
    assert db.reviews.Keys == {first.body.id, third.body.id};
    table := db.reviews;
  }
}
