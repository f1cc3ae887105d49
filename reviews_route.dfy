/** The review endpoint: POST stores a review (approved at once) and
    notifies by e-mail when it can; GET lists the approved reviews. */
module ReviewsRoute {
  import opened Common
  import opened Validation
  import opened Tables
  import opened Ordering
  import opened Notification

  datatype ReviewBody = ReviewBody(
    name: Field<string>,
    email: Field<string>,
    rating: Field<int>,
    comment: Field<string>)

  /** `reviewSchema`, member by member in its order. Every issue names one
      of the four members, and a rating out of 1..5 is reported at `rating`. */
  function ReviewIssues(b: ReviewBody, fmt: Formats): (r: seq<Issue>)
    ensures forall i :: 0 <= i < |r| ==> r[i].path in {"name", "email", "rating", "comment"}
    ensures b.rating.Given? && !(1 <= b.rating.value <= 5) ==> exists i :: 0 <= i < |r| && r[i].path == "rating"
  {
    var name := TextIssues("name", b.name, true, [MinLength(2)], fmt);
    var email := TextIssues("email", b.email, true, [Email], fmt);
    var rating := NumberIssues("rating", b.rating, true, 1, 5);
    var comment := TextIssues("comment", b.comment, true, [MinLength(10), MaxLength(500)], fmt);
    var r := name + email + rating + comment;
    assert rating != [] ==> r[|name| + |email|] == rating[0];
    r
  }

  /** The field rules of `reviewSchema`, stated directly. */
  predicate AcceptableReview(b: ReviewBody, fmt: Formats) {
    && b.name.Given? && Utf16Length(b.name.value) >= 2
    && b.email.Given? && fmt.isEmail(b.email.value)
    && b.rating.Given? && 1 <= b.rating.value <= 5
    && b.comment.Given? && 10 <= Utf16Length(b.comment.value) <= 500
  }

  /** The schema reports no issue exactly when the field rules hold. */
  lemma ReviewIssuesAgree(b: ReviewBody, fmt: Formats)
    ensures ReviewIssues(b, fmt) == [] <==> AcceptableReview(b, fmt)
  {
    assert [MinLength(10), MaxLength(500)][0] == MinLength(10);
    assert [MinLength(10), MaxLength(500)][1] == MaxLength(500);
    var name := TextIssues("name", b.name, true, [MinLength(2)], fmt);
    var email := TextIssues("email", b.email, true, [Email], fmt);
    var rating := NumberIssues("rating", b.rating, true, 1, 5);
    var comment := TextIssues("comment", b.comment, true, [MinLength(10), MaxLength(500)], fmt);
    assert |ReviewIssues(b, fmt)| == |name| + |email| + |rating| + |comment|;
  }

  datatype SubmitResponse = Rejected(issues: seq<Issue>) | Received
  {
    function Status(): int {
      if Rejected? then 400 else 200
    }

    function Message(): string {
      if Rejected? then "Datos inválidos" else "Reseña recibida"
    }
  }

  /** The `reviews` table as POST changes it. */
  class ReviewTable {
    var rows: seq<Review>
    var nextId: int   // the AUTO_INCREMENT counter

    ghost predicate Valid()
      reads this
    {
      forall i :: 0 <= i < |rows| ==> rows[i].id < nextId
    }

    constructor()
      ensures Valid()
      ensures rows == [] && nextId == 1
    {
      rows, nextId := [], 1;
    }

    /** POST. An invalid body is answered 400 and writes nothing; a valid one
        is stored approved and answered 200, whether or not the notice goes
        out. `delivered` is what the transport would do; `now` is the
        column's default timestamp. */
    method Submit(b: ReviewBody, fmt: Formats, env: SmtpEnv, delivered: bool, now: int)
      returns (r: SubmitResponse, mail: MailOutcome)
      requires Valid()
      modifies this
      ensures Valid()
      ensures !AcceptableReview(b, fmt) ==>
        r == Rejected(ReviewIssues(b, fmt)) && mail == NotAttempted
        && rows == old(rows) && nextId == old(nextId)
      ensures AcceptableReview(b, fmt) ==>
        && rows == old(rows) + [Review(old(nextId), b.name.value, b.email.value, b.rating.value, b.comment.value, true, now)]
        && nextId == old(nextId) + 1
        && r == Received
        && mail == Notify(env, delivered)
    {
      ReviewIssuesAgree(b, fmt);
      var issues := ReviewIssues(b, fmt);
      if issues != [] {
        return Rejected(issues), NotAttempted;
      }
      rows := rows + [Review(nextId, b.name.value, b.email.value, b.rating.value, b.comment.value, true, now)];
      nextId := nextId + 1;
      r := Received;
      mail := Notify(env, delivered);
    }
  }

  /** A review as GET shows it: `SELECT id, name, rating, comment, createdAt`,
      so never the e-mail address. */
  datatype PublicReview = PublicReview(id: int, name: string, rating: int, comment: string, createdAt: int)

  function ReviewOrder(r: Review): Key {
    Key(r.createdAt, 0)
  }

  /** The approved rows, newest first. */
  function ApprovedOrdered(rows: seq<Review>): (r: seq<Review>)
    ensures SortedDesc(r, ReviewOrder)
    ensures forall i :: 0 <= i < |r| ==> r[i] in rows && r[i].approved
    ensures |r| == |Filter(rows, (x: Review) => x.approved)|
    ensures multiset(r) == multiset(Filter(rows, (x: Review) => x.approved))
  {
    var approved := Filter(rows, (x: Review) => x.approved);
    SortDescKeeps(approved, ReviewOrder);
    SortDesc(approved, ReviewOrder)
  }

  function Shown(x: Review): PublicReview {
    PublicReview(x.id, x.name, x.rating, x.comment, x.createdAt)
  }

  /** v is what GET shows of an approved row. */
  predicate ShownFromApproved(v: PublicReview, rows: seq<Review>) {
    exists k :: 0 <= k < |rows| && rows[k].approved && v == Shown(rows[k])
  }

  /** GET: `WHERE approved = 1 ORDER BY createdAt DESC`. */
  function ApprovedReviews(rows: seq<Review>): (r: seq<PublicReview>)
    ensures |r| == |Filter(rows, (x: Review) => x.approved)|
    ensures forall i :: 0 <= i < |r| ==> ShownFromApproved(r[i], rows)
    ensures forall i, j :: 0 <= i < j < |r| ==> r[i].createdAt >= r[j].createdAt
    ensures multiset(r) == multiset(Project(Filter(rows, (x: Review) => x.approved), Shown))
  {
    var ordered := ApprovedOrdered(rows);
    ProjectSort(Filter(rows, (x: Review) => x.approved), ReviewOrder, Shown);
    var r := Project(ordered, Shown);
    forall i | 0 <= i < |r|
      ensures ShownFromApproved(r[i], rows)
    {
      var k :| 0 <= k < |rows| && rows[k] == ordered[i];
    }
    forall i, j | 0 <= i < j < |r|
      ensures r[i].createdAt >= r[j].createdAt
    {
      assert AtLeast(ReviewOrder(ordered[i]), ReviewOrder(ordered[j]));
    }
    r
  }
}
