/**
 * The post counts of the statistics handler: each is a MongoDB countDocuments
 * over the posts collection with an exact match on postType, an optional exact
 * match on postStatus and a closed range on postDate. The collection is a
 * sequence of posts read in one snapshot.
 */
module Activity {
  import opened Wrappers
  import opened Buckets

  /**
   * A stored status value. Exact matching in the document store tells a number
   * from a string, so the number 2 and the string "2" are different statuses.
   */
  datatype Status = NumberStatus(n: int) | TextStatus(s: string)

  /** The three fields of a post that the statistics read; postDate is in epoch milliseconds. */
  datatype Post = Post(postType: string, postStatus: Status, postDate: int)

  /** The status code of a fulfilled post: an adopted pet, a found pet. */
  const Success: Status := NumberStatus(2)

  /** A countDocuments filter: { postType, [postStatus,] postDate: { $gte: start, $lte: end } }. */
  datatype CountQuery = CountQuery(postType: string, status: Option<Status>, window: Window)

  predicate Matches(p: Post, q: CountQuery) {
    && p.postType == q.postType
    && (q.status.Some? ==> p.postStatus == q.status.value)
    && Contains(q.window, p.postDate)
  }

  /** The number of posts the query matches. */
  function CountDocuments(posts: seq<Post>, q: CountQuery): (n: nat)
    ensures n <= |posts|
  {
    if |posts| == 0 then 0
    else (if Matches(posts[0], q) then 1 else 0) + CountDocuments(posts[1..], q)
  }

  /** The count is zero exactly when no post matches, and the size of the collection exactly when every post does. */
  lemma {:induction false} CountExtremes(posts: seq<Post>, q: CountQuery)
    ensures CountDocuments(posts, q) == 0 <==> forall i :: 0 <= i < |posts| ==> !Matches(posts[i], q)
    ensures CountDocuments(posts, q) == |posts| <==> forall i :: 0 <= i < |posts| ==> Matches(posts[i], q)
  {
    if |posts| > 0 {
      CountExtremes(posts[1..], q);
      assert forall i :: 0 < i < |posts| ==> posts[i] == posts[1..][i - 1];
    }
  }

  /** All posts of one type in a window, whatever their status. */
  function TotalQuery(postType: string, w: Window): CountQuery {
    CountQuery(postType, None, w)
  }

  /** The posts of one type in a window whose status is the success code. */
  function SuccessQuery(postType: string, w: Window): CountQuery {
    CountQuery(postType, Some(Success), w)
  }

  /** Counting with a query that matches no more posts than another never gives more. */
  lemma {:induction false} CountMonotone(posts: seq<Post>, q1: CountQuery, q2: CountQuery)
    requires forall p :: Matches(p, q1) ==> Matches(p, q2)
    ensures CountDocuments(posts, q1) <= CountDocuments(posts, q2)
  {
    if |posts| > 0 {
      CountMonotone(posts[1..], q1, q2);
    }
  }

  /** The success count of a window is at most its total count. */
  lemma SuccessAtMostTotal(posts: seq<Post>, postType: string, w: Window)
    ensures CountDocuments(posts, SuccessQuery(postType, w)) <= CountDocuments(posts, TotalQuery(postType, w))
  {
    CountMonotone(posts, SuccessQuery(postType, w), TotalQuery(postType, w));
  }

  /** Cutting a window in two adjacent pieces splits its count in two. */
  lemma {:induction false} CountSplit(posts: seq<Post>, postType: string, status: Option<Status>, a: int, m: int, b: int)
    requires a <= m + 1 <= b + 1
    ensures CountDocuments(posts, CountQuery(postType, status, Window(a, b)))
         == CountDocuments(posts, CountQuery(postType, status, Window(a, m)))
          + CountDocuments(posts, CountQuery(postType, status, Window(m + 1, b)))
  {
    if |posts| > 0 {
      CountSplit(posts[1..], postType, status, a, m, b);
    }
  }

  /** The count of a given type and status, as a measure of windows. */
  function CountIn(posts: seq<Post>, postType: string, status: Option<Status>): Window -> int {
    w => CountDocuments(posts, CountQuery(postType, status, w))
  }

  lemma CountAdditive(posts: seq<Post>, postType: string, status: Option<Status>)
    ensures Additive(CountIn(posts, postType, status))
  {
    forall a, m, b | a <= m + 1 <= b + 1
      ensures CountIn(posts, postType, status)(Window(a, b))
           == CountIn(posts, postType, status)(Window(a, m)) + CountIn(posts, postType, status)(Window(m + 1, b))
    {
      CountSplit(posts, postType, status, a, m, b);
    }
  }

  /** Conservation: over a partition of a window, no post is counted twice or dropped. */
  lemma CountPartition(posts: seq<Post>, postType: string, status: Option<Status>, ws: seq<Window>, w: Window)
    requires IsPartition(ws, w)
    ensures Sum(ws, CountIn(posts, postType, status)) == CountDocuments(posts, CountQuery(postType, status, w))
  {
    CountAdditive(posts, postType, status);
    PartitionSum(ws, w, CountIn(posts, postType, status));
  }
}
