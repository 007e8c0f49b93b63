/** The Kanban approval board: posts filtered by the selected client, split into one column
    per status, and moved between columns by dropping a card on a column. */
module Workflow {
  import opened Wrappers
  import opened Domain
  import Seqs

  /** The board's columns, left to right. "Approved" has no column. */
  const Columns: seq<PostStatus> := [Draft, Review, Scheduled, Published]

  /** `filteredPosts`: every post when no client is selected (the empty id), otherwise the posts
      of the selected client, in their original order. */
  function FilterByClient(posts: seq<Post>, selectedClientId: string): (r: seq<Post>)
    ensures selectedClientId == "" ==> r == posts
    ensures forall p | p in r :: p in posts
    ensures selectedClientId != "" ==> forall p | p in r :: p.clientId == selectedClientId
    ensures forall p | p in posts && p.clientId == selectedClientId :: p in r
  {
    if selectedClientId == "" then posts else Seqs.Filter(posts, (p: Post) => p.clientId == selectedClientId)
  }

  /** The client filter distributes over concatenation, so it keeps the original order. */
  lemma FilterByClientKeepsOrder(a: seq<Post>, b: seq<Post>, selectedClientId: string)
    ensures FilterByClient(a + b, selectedClientId) ==
            FilterByClient(a, selectedClientId) + FilterByClient(b, selectedClientId)
  {
    if selectedClientId != "" {
      Seqs.FilterAppend(a, b, (p: Post) => p.clientId == selectedClientId);
    }
  }

  /** `colPosts`: the filtered posts whose status is the column's. */
  function ColumnPosts(filtered: seq<Post>, column: PostStatus): (r: seq<Post>)
    ensures forall p | p in r :: p in filtered && p.status == column
    ensures forall p | p in filtered && p.status == column :: p in r
  {
    Seqs.Filter(filtered, (p: Post) => p.status == column)
  }

  /** No post shows in two columns. */
  lemma ColumnsAreDisjoint(filtered: seq<Post>, c1: PostStatus, c2: PostStatus, p: Post)
    requires p in ColumnPosts(filtered, c1) && p in ColumnPosts(filtered, c2)
    ensures c1 == c2
  {
  }

  /** An approved post shows in no column of the board. */
  lemma ApprovedPostsAreHidden(filtered: seq<Post>, p: Post)
    requires p.status == Approved
    ensures forall c | c in Columns :: p !in ColumnPosts(filtered, c)
  {
  }

  /** How many of the posts have the given status. */
  function CountStatus(posts: seq<Post>, status: PostStatus): nat
  {
    if posts == [] then 0
    else (if posts[0].status == status then 1 else 0) + CountStatus(posts[1..], status)
  }

  lemma {:induction false} ColumnSize(filtered: seq<Post>, column: PostStatus)
    ensures |ColumnPosts(filtered, column)| == CountStatus(filtered, column)
  {
    if filtered != [] {
      ColumnSize(filtered[1..], column);
    }
  }

  lemma {:induction false} CountsAddUp(posts: seq<Post>)
    ensures CountStatus(posts, Draft) + CountStatus(posts, Review) + CountStatus(posts, Approved)
            + CountStatus(posts, Scheduled) + CountStatus(posts, Published) == |posts|
  {
    if posts != [] {
      CountsAddUp(posts[1..]);
    }
  }

  /** The columns partition the filtered posts, except the approved ones, which no column shows. */
  lemma ColumnsPartition(filtered: seq<Post>)
    ensures |ColumnPosts(filtered, Draft)| + |ColumnPosts(filtered, Review)|
            + |ColumnPosts(filtered, Scheduled)| + |ColumnPosts(filtered, Published)|
            + CountStatus(filtered, Approved) == |filtered|
  {
    ColumnSize(filtered, Draft);
    ColumnSize(filtered, Review);
    ColumnSize(filtered, Scheduled);
    ColumnSize(filtered, Published);
    CountsAddUp(filtered);
  }

  /** `posts.map(post => post.id === id ? { ...post, status } : post)`. */
  function SetStatus(posts: seq<Post>, id: string, status: PostStatus): (r: seq<Post>)
    ensures |r| == |posts|
  {
    if posts == [] then []
    else [if posts[0].id == id then posts[0].(status := status) else posts[0]] + SetStatus(posts[1..], id, status)
  }

  /** `handleDrop(e, newStatus)`: nothing happens without a dragged post id (`null` or empty);
      otherwise every post carrying that id takes the column's status, keeping every other field,
      all other posts come back identical, and the dragged id is cleared. */
  function HandleDrop(posts: seq<Post>, draggedPostId: Option<string>, newStatus: PostStatus)
    : (r: (seq<Post>, Option<string>))
    ensures draggedPostId.None? || draggedPostId.value == "" ==> r == (posts, draggedPostId)
    ensures draggedPostId.Some? && draggedPostId.value != "" ==>
              r.1.None? && |r.0| == |posts| &&
              (forall i | 0 <= i < |posts| && posts[i].id == draggedPostId.value ::
                 r.0[i].status == newStatus && r.0[i].(status := posts[i].status) == posts[i]) &&
              (forall i | 0 <= i < |posts| && posts[i].id != draggedPostId.value :: r.0[i] == posts[i])
  {
    if draggedPostId.None? || draggedPostId.value == "" then (posts, draggedPostId)
    else
      SetStatusSpec(posts, draggedPostId.value, newStatus);
      (SetStatus(posts, draggedPostId.value, newStatus), None)
  }

  /** What a drop does, post by post: the dragged posts take the new status and keep every other
      field; all other posts come back identical; length and order are kept. */
  lemma {:induction false} SetStatusSpec(posts: seq<Post>, id: string, status: PostStatus)
    ensures |SetStatus(posts, id, status)| == |posts|
    ensures forall i | 0 <= i < |posts| && posts[i].id == id ::
              SetStatus(posts, id, status)[i].status == status &&
              SetStatus(posts, id, status)[i].(status := posts[i].status) == posts[i]
    ensures forall i | 0 <= i < |posts| && posts[i].id != id :: SetStatus(posts, id, status)[i] == posts[i]
  {
    if posts != [] {
      SetStatusSpec(posts[1..], id, status);
      var r := SetStatus(posts, id, status);
      assert forall i | 1 <= i < |posts| :: r[i] == SetStatus(posts[1..], id, status)[i - 1];
    }
  }

  /** Dropping without a dragged id leaves the board as it was. */
  lemma DropWithoutDragIsNoOp(posts: seq<Post>, newStatus: PostStatus)
    ensures HandleDrop(posts, None, newStatus).0 == posts
    ensures HandleDrop(posts, Some(""), newStatus).0 == posts
  {
  }

  /** Dropping the same card on the same column twice is the same as once. */
  lemma {:induction false} DropIdempotent(posts: seq<Post>, id: string, status: PostStatus)
    ensures SetStatus(SetStatus(posts, id, status), id, status) == SetStatus(posts, id, status)
  {
    if posts != [] {
      DropIdempotent(posts[1..], id, status);
    }
  }

  /** Moving a card back to the column it came from restores the board. */
  lemma {:induction false} DropUndo(posts: seq<Post>, id: string, from: PostStatus, to: PostStatus)
    requires forall p | p in posts && p.id == id :: p.status == from
    ensures SetStatus(SetStatus(posts, id, to), id, from) == posts
  {
    if posts != [] {
      assert posts[0] in posts;
      DropUndo(posts[1..], id, from, to);
      assert [posts[0]] + posts[1..] == posts;
    }
  }

  /** A status change does not affect which posts the client filter keeps: filtering the board
      after a drop is the same as dropping on the filtered board. */
  lemma {:induction false} DropCommutesWithClientFilter(posts: seq<Post>, id: string, status: PostStatus, selectedClientId: string)
    ensures FilterByClient(SetStatus(posts, id, status), selectedClientId) ==
            SetStatus(FilterByClient(posts, selectedClientId), id, status)
  {
    if selectedClientId != "" && posts != [] {
      var keep := (p: Post) => p.clientId == selectedClientId;
      DropCommutesWithClientFilter(posts[1..], id, status, selectedClientId);
      var head := if posts[0].id == id then posts[0].(status := status) else posts[0];
      assert SetStatus(posts, id, status) == [head] + SetStatus(posts[1..], id, status);
      Seqs.FilterAppend([head], SetStatus(posts[1..], id, status), keep);
      Seqs.FilterAppend([posts[0]], posts[1..], keep);
      assert [posts[0]] + posts[1..] == posts;
      SetStatusAppend(Seqs.Filter([posts[0]], keep), Seqs.Filter(posts[1..], keep), id, status);
    }
  }

  lemma {:induction false} SetStatusAppend(a: seq<Post>, b: seq<Post>, id: string, status: PostStatus)
    ensures SetStatus(a + b, id, status) == SetStatus(a, id, status) + SetStatus(b, id, status)
  {
    if a == [] {
      assert a + b == b;
    } else {
      assert (a + b)[1..] == a[1..] + b;
      SetStatusAppend(a[1..], b, id, status);
    }
  }

  /** After a drop on a column, every dragged post the client filter lets through shows in that
      column, with the new status. */
  lemma DroppedPostLandsInColumn(posts: seq<Post>, id: string, newStatus: PostStatus, selectedClientId: string, p: Post)
    requires id != ""
    requires p in posts && p.id == id
    requires selectedClientId == "" || p.clientId == selectedClientId
    ensures p.(status := newStatus) in ColumnPosts(FilterByClient(HandleDrop(posts, Some(id), newStatus).0, selectedClientId), newStatus)
  {
    DropCommutesWithClientFilter(posts, id, newStatus, selectedClientId);
    var f := FilterByClient(posts, selectedClientId);
    assert p in f;
    var i :| 0 <= i < |f| && f[i] == p;
    SetStatusSpec(f, id, newStatus);
    assert SetStatus(f, id, newStatus)[i] == p.(status := newStatus);
  }
}
