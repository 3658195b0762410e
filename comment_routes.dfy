/** The REST routes for comments (backend/routes/comments.js): a comment is
    a document of its own, and each post keeps the list of its comments' ids,
    which these routes keep in step with the comments. */
module CommentRoutes {
  import opened Common
  import opened Seqs

  /** The fields of a comment document (the Comment model itself is not part
      of this model). */
  datatype Comment = Comment(content: string, author: UserId, post: PostId)

  /** `$push: { comments: id }` on the post with id `postId`; when there is no
      such post `findByIdAndUpdate` updates nothing. */
  function PushComment(posts: map<PostId, Post>, postId: PostId, id: CommentId): (r: map<PostId, Post>)
    ensures r.Keys == posts.Keys
    ensures postId in posts ==> r[postId] == posts[postId].(comments := posts[postId].comments + [id])
    ensures forall p :: p in posts && p != postId ==> r[p] == posts[p]
  {
    if postId in posts then posts[postId := posts[postId].(comments := posts[postId].comments + [id])]
    else posts
  }

  /** `$pull: { comments: id }` on the post with id `postId`: every occurrence
      leaves the list and the other ids keep their order. */
  function PullComment(posts: map<PostId, Post>, postId: PostId, id: CommentId): (r: map<PostId, Post>)
    ensures r.Keys == posts.Keys
    ensures postId in posts ==> r[postId] == posts[postId].(comments := Without(posts[postId].comments, id))
    ensures forall p :: p in posts && p != postId ==> r[p] == posts[p]
  {
    if postId in posts then posts[postId := posts[postId].(comments := Without(posts[postId].comments, id))]
    else posts
  }

  /** Pushing a fresh comment id onto a post and pulling it again gives the
      posts back as they were. */
  lemma PushThenPull(posts: map<PostId, Post>, postId: PostId, id: CommentId)
    requires forall p :: p in posts ==> id !in posts[p].comments
    ensures PullComment(PushComment(posts, postId, id), postId, id) == posts
  {
    if postId in posts {
      WithoutAppended(posts[postId].comments, id);
    }
  }

  class CommentStore {
    var comments: map<CommentId, Comment>
    var posts: map<PostId, Post>

    /** Every id on a post's list names a stored comment that belongs to that
        post. */
    ghost predicate Valid()
      reads this
    {
      forall p, i :: p in posts && 0 <= i < |posts[p].comments| ==>
        posts[p].comments[i] in comments && comments[posts[p].comments[i]].post == p
    }

    /** The two collections as they stand, each post listing only comments
        of its own. */
    constructor (comments: map<CommentId, Comment>, posts: map<PostId, Post>)
      requires forall p, i :: p in posts && 0 <= i < |posts[p].comments| ==>
        posts[p].comments[i] in comments && comments[posts[p].comments[i]].post == p
      ensures Valid() && this.comments == comments && this.posts == posts
    {
      this.comments := comments;
      this.posts := posts;
    }

    /** POST /api/comments by `requester`. `newId` is the ObjectId the
        comment receives. The comment is stored even when no post has id
        `postId`. */
    method Create(content: string, requester: UserId, postId: PostId, newId: CommentId)
      returns (r: Reply<Comment>)
      requires Valid()
      modifies this
      ensures Valid()
      ensures if newId in old(comments) then
          r == Fail(500, "Server error") && comments == old(comments) && posts == old(posts)
        else
          && r == Ok(Comment(content, requester, postId))
          && comments == old(comments)[newId := Comment(content, requester, postId)]
          && posts == PushComment(old(posts), postId, newId)
    {
      if newId in comments {
        // `save` fails on the duplicate `_id`
        return Fail(500, "Server error");
      }
      var comment := Comment(content, requester, postId);
      comments := comments[newId := comment];
      posts := PushComment(posts, postId, newId);
      r := Ok(comment);
    }

    /** DELETE /api/comments/:id by `requester`. */
    method Delete(id: CommentId, requester: UserId) returns (r: Reply<string>)
      requires Valid()
      modifies this
      ensures Valid()
      ensures if id !in old(comments) then
          r == Fail(404, "Comment not found") && comments == old(comments) && posts == old(posts)
        else if old(comments)[id].author != requester then
          r == Fail(401, "Not authorized") && comments == old(comments) && posts == old(posts)
        else
          && r == Ok("Comment deleted")
          && comments == old(comments) - {id}
          && posts == PullComment(old(posts), old(comments)[id].post, id)
      ensures r.Ok? ==> id !in comments && forall p :: p in posts ==> id !in posts[p].comments
    {
      if id !in comments {
        return Fail(404, "Comment not found");
      }
      var comment := comments[id];
      if comment.author != requester {
        return Fail(401, "Not authorized");
      }
      posts := PullComment(posts, comment.post, id);
      comments := comments - {id};
      r := Ok("Comment deleted");
    }
  }
}
