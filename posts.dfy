/** The post routes of routes/api/posts.js over an in-memory posts collection:
    listing newest first, lookup, creation, owner-only deletion, the per-user
    like set and the comment list nested in each post. Each handler loads the
    post, changes its nested array in place and saves it back; here it replaces
    the post in the collection. */
module Posts {
  import opened Js
  import opened Lists
  import opened Users

  type PostId = string
  type CommentId = string

  /** A like records only who gave it. */
  datatype Like = Like(user: UserId)

  datatype Comment = Comment(id: CommentId, user: UserId, text: string, name: string, avatar: string)

  /** A post with its author, author display snapshot, likes and comments
      (both newest first) and creation date. */
  datatype Post = Post(id: PostId, user: UserId, text: string, name: string, avatar: string,
                       likes: seq<Like>, comments: seq<Comment>, date: int)

  function LikeUser(l: Like): UserId { l.user }
  function CommentIdOf(c: Comment): CommentId { c.id }
  function PostIdOf(p: Post): PostId { p.id }

  /** The body of a create-post or add-comment request. */
  datatype PostInput = PostInput(text: string, name: string, avatar: string)

  /** What a post route answers. */
  datatype Response =
    | Saved(post: Post)
    | Removed
    | Invalid
    | PostNotFound
    | NotAuthorized
    | AlreadyLiked
    | NotLiked
    | CannotDelete

  /** `likes.filter(like => like.user === caller).length > 0` */
  predicate LikedBy(likes: seq<Like>, caller: UserId)
  {
    exists i :: 0 <= i < |likes| && likes[i].user == caller
  }

  /** `comments.filter(c => c._id === commentId && c.user === caller).length > 0` */
  predicate CommentByCaller(comments: seq<Comment>, commentId: CommentId, caller: UserId)
  {
    exists i :: 0 <= i < |comments| && comments[i].id == commentId && comments[i].user == caller
  }

  /** Every user appears at most once among a post's likes, and comment ids are distinct. */
  ghost predicate ValidPost(p: Post)
  {
    UniqueKeys(p.likes, LikeUser) && UniqueKeys(p.comments, CommentIdOf)
  }

  lemma LikedByMap(likes: seq<Like>, caller: UserId)
    ensures LikedBy(likes, caller) <==> caller in Map(likes, LikeUser)
  {
    if LikedBy(likes, caller) {
      var i :| 0 <= i < |likes| && likes[i].user == caller;
      assert Map(likes, LikeUser)[i] == caller;
    }
  }

  /** A like from a user with no like yet keeps every user liking at most once. */
  lemma LikeKeepsUnique(likes: seq<Like>, caller: UserId)
    requires UniqueKeys(likes, LikeUser)
    requires !LikedBy(likes, caller)
    ensures UniqueKeys([Like(caller)] + likes, LikeUser)
    ensures |[Like(caller)] + likes| == |likes| + 1
  {
    LikedByMap(likes, caller);
    PrependKeepsUnique(Like(caller), likes, LikeUser);
  }

  /** Unlike takes out exactly the first like by the caller: everything before
      it and everything after it stays, in order. */
  lemma UnlikeRemovesFirst(likes: seq<Like>, caller: UserId)
    requires LikedBy(likes, caller)
    ensures exists k ::
      && 0 <= k < |likes| && likes[k].user == caller
      && (forall j :: 0 <= j < k ==> likes[j].user != caller)
      && RemoveFirst(likes, LikeUser, caller) == likes[..k] + likes[k + 1..]
  {
    LikedByMap(likes, caller);
    RemoveFirstAt(likes, LikeUser, caller);
    var ks := Map(likes, LikeUser);
    var k := IndexOf(ks, caller);
    assert likes[k].user == ks[k];
    assert forall j :: 0 <= j < k ==> likes[j].user == ks[j];
  }

  /** With each user liking at most once, after an unlike the caller no longer
      likes the post and the set stays a set. */
  lemma UnlikeClearsCaller(likes: seq<Like>, caller: UserId)
    requires UniqueKeys(likes, LikeUser)
    ensures UniqueKeys(RemoveFirst(likes, LikeUser, caller), LikeUser)
    ensures !LikedBy(RemoveFirst(likes, LikeUser, caller), caller)
  {
    RemoveFirstUnique(likes, LikeUser, caller);
    LikedByMap(RemoveFirst(likes, LikeUser, caller), caller);
  }

  /** A like from a user who had not liked, followed by an unlike from the
      same user, gives back the original likes. */
  lemma UnlikeUndoesLike(likes: seq<Like>, caller: UserId)
    ensures RemoveFirst([Like(caller)] + likes, LikeUser, caller) == likes
  {
    assert ([Like(caller)] + likes)[1..] == likes;
  }

  /** With comment ids distinct, the comment removal takes out exactly the
      caller's comment with that id and keeps the others in order. */
  lemma RemovedCommentIsCallers(comments: seq<Comment>, commentId: CommentId, caller: UserId)
    requires UniqueKeys(comments, CommentIdOf)
    requires CommentByCaller(comments, commentId, caller)
    ensures exists k ::
      && 0 <= k < |comments| && comments[k].id == commentId && comments[k].user == caller
      && RemoveFirst(comments, CommentIdOf, commentId) == comments[..k] + comments[k + 1..]
  {
    var i :| 0 <= i < |comments| && comments[i].id == commentId && comments[i].user == caller;
    var ks := Map(comments, CommentIdOf);
    assert ks[i] == commentId;
    RemoveFirstAt(comments, CommentIdOf, commentId);
    var k := IndexOf(ks, commentId);
    assert CommentIdOf(comments[k]) == CommentIdOf(comments[i]);
    assert k == i;
    assert RemoveFirst(comments, CommentIdOf, commentId) == Cut(comments, i);
  }

  /** Removing a post keeps post ids distinct and every remaining post valid. */
  lemma RemovePostKeepsValid(ps: seq<Post>, id: PostId)
    requires UniqueKeys(ps, PostIdOf) && forall i :: 0 <= i < |ps| ==> ValidPost(ps[i])
    ensures var r := RemoveFirst(ps, PostIdOf, id);
      && UniqueKeys(r, PostIdOf) && id !in Map(r, PostIdOf)
      && forall i :: 0 <= i < |r| ==> ValidPost(r[i])
  {
    RemoveFirstUnique(ps, PostIdOf, id);
    RemoveFirstAt(ps, PostIdOf, id);
    var k := IndexOf(Map(ps, PostIdOf), id);
    var r := RemoveFirst(ps, PostIdOf, id);
    if k != -1 {
      forall j | 0 <= j < |r| ensures ValidPost(r[j]) {
        assert r[j] == ps[if j < k then j else j + 1];
      }
    }
  }

  /** Posts are listed newest first. */
  ghost predicate NewestFirst(ps: seq<Post>)
  {
    forall i, j :: 0 <= i < j < |ps| ==> ps[i].date >= ps[j].date
  }

  function InsertByDate(p: Post, ps: seq<Post>): seq<Post>
  {
    if ps == [] then [p]
    else if p.date >= ps[0].date then [p] + ps
    else [ps[0]] + InsertByDate(p, ps[1..])
  }

  /** `sort({ date: -1 })` as an insertion sort; ties keep no promised order. */
  function SortNewestFirst(ps: seq<Post>): seq<Post>
  {
    if ps == [] then [] else InsertByDate(ps[0], SortNewestFirst(ps[1..]))
  }

  lemma {:induction false} InsertByDatePerm(p: Post, ps: seq<Post>)
    ensures multiset(InsertByDate(p, ps)) == multiset(ps) + multiset{p}
  {
    if ps != [] && p.date < ps[0].date {
      InsertByDatePerm(p, ps[1..]);
      assert ps == [ps[0]] + ps[1..];
    }
  }

  lemma {:induction false} InsertByDateCorrect(p: Post, ps: seq<Post>)
    requires NewestFirst(ps)
    ensures NewestFirst(InsertByDate(p, ps))
    ensures multiset(InsertByDate(p, ps)) == multiset(ps) + multiset{p}
  {
    InsertByDatePerm(p, ps);
    if ps == [] {
    } else if p.date >= ps[0].date {
      forall j | 0 <= j < |ps| ensures p.date >= ps[j].date {
        if j > 0 {
          assert ps[0].date >= ps[j].date;
        }
      }
      ConsNewestFirst(p, ps);
    } else {
      var tail := ps[1..];
      assert NewestFirst(tail) by {
        forall i, j | 0 <= i < j < |tail| ensures tail[i].date >= tail[j].date {
          assert tail[i] == ps[i + 1] && tail[j] == ps[j + 1];
        }
      }
      InsertByDateCorrect(p, tail);
      var r' := InsertByDate(p, tail);
      assert [ps[0]] + r' == InsertByDate(p, ps);
      forall t | 0 <= t < |tail| ensures ps[0].date >= tail[t].date {
        assert tail[t] == ps[t + 1];
      }
      HeadBoundsInsert(ps[0], p, tail, r');
      ConsNewestFirst(ps[0], r');
    }
  }

  /** The head of a newest-first list is no older than anything an older post
      can be inserted among in its tail. */
  lemma HeadBoundsInsert(h: Post, p: Post, tail: seq<Post>, r: seq<Post>)
    requires p.date < h.date
    requires forall t :: 0 <= t < |tail| ==> h.date >= tail[t].date
    requires multiset(r) == multiset(tail) + multiset{p}
    ensures forall j :: 0 <= j < |r| ==> h.date >= r[j].date
  {
    forall j | 0 <= j < |r| ensures h.date >= r[j].date {
      assert r[j] in multiset(r);
      if r[j] != p {
        assert r[j] in multiset(tail);
        var t :| 0 <= t < |tail| && tail[t] == r[j];
      }
    }
  }

  /** Putting a post no older than all others in front keeps newest-first order. */
  lemma ConsNewestFirst(h: Post, r: seq<Post>)
    requires NewestFirst(r)
    requires forall j :: 0 <= j < |r| ==> h.date >= r[j].date
    ensures NewestFirst([h] + r)
  {
    var q := [h] + r;
    forall i, j | 0 <= i < j < |q| ensures q[i].date >= q[j].date {
      if i == 0 {
        assert q[j] == r[j - 1];
      } else {
        assert q[i] == r[i - 1] && q[j] == r[j - 1];
      }
    }
  }

  lemma {:induction false} SortNewestFirstCorrect(ps: seq<Post>)
    ensures NewestFirst(SortNewestFirst(ps))
    ensures multiset(SortNewestFirst(ps)) == multiset(ps)
  {
    if ps != [] {
      SortNewestFirstCorrect(ps[1..]);
      InsertByDateCorrect(ps[0], SortNewestFirst(ps[1..]));
      assert ps == [ps[0]] + ps[1..];
    }
  }

  /** The posts collection. */
  class PostStore {
    var posts: seq<Post>

    /** Post ids are distinct and every post keeps its likes a set. */
    ghost predicate Valid()
      reads this
    {
      UniqueKeys(posts, PostIdOf) && forall i :: 0 <= i < |posts| ==> ValidPost(posts[i])
    }

    constructor ()
      ensures Valid() && posts == []
    {
      posts := [];
    }

    /** `Post.findById(id)`: the position of the post with that id, or -1. */
    function IndexOfPost(id: PostId): (r: int)
      reads this
      ensures -1 <= r < |posts|
      ensures r == -1 <==> id !in Map(posts, PostIdOf)
      ensures 0 <= r ==> posts[r].id == id
    {
      IndexOf(Map(posts, PostIdOf), id)
    }

    /** GET /: every post, newest first. */
    method List() returns (r: seq<Post>)
      ensures NewestFirst(r)
      ensures multiset(r) == multiset(posts)
    {
      SortNewestFirstCorrect(posts);
      r := SortNewestFirst(posts);
    }

    /** GET /:post_id: the post with that id, or no post (the route then
        answers with an empty body, not an error). */
    method Get(id: PostId) returns (r: Option<Post>)
      ensures r.Some? <==> id in Map(posts, PostIdOf)
      ensures r.Some? ==> r.value in posts && r.value.id == id
    {
      var i := IndexOfPost(id);
      r := if i < 0 then None else Some(posts[i]);
    }

    /** POST /: a new post by the caller with no likes and no comments.
        `newId` is the fresh ObjectId and `now` the creation time. */
    method Create(caller: UserId, input: PostInput, inputValid: bool, newId: PostId, now: int)
      returns (r: Response)
      requires Valid()
      requires newId !in Map(posts, PostIdOf)
      modifies this
      ensures Valid()
      ensures !inputValid ==> r == Invalid && posts == old(posts)
      ensures inputValid ==>
        && posts == old(posts) + [Post(newId, caller, input.text, input.name, input.avatar, [], [], now)]
        && r == Saved(Post(newId, caller, input.text, input.name, input.avatar, [], [], now))
    {
      if !inputValid {
        return Invalid;
      }
      var post := Post(newId, caller, input.text, input.name, input.avatar, [], [], now);
      AppendKeepsUnique(posts, post, PostIdOf);
      posts := posts + [post];
      r := Saved(post);
    }

    /** DELETE /:post_id: only the post's owner may delete it. */
    method Delete(caller: UserId, postId: PostId) returns (r: Response)
      requires Valid()
      modifies this
      ensures Valid()
      ensures var i := old(IndexOfPost(postId));
        if i < 0 then r == PostNotFound && posts == old(posts)
        else if old(posts)[i].user != caller then r == NotAuthorized && posts == old(posts)
        else r == Removed && posts == RemoveFirst(old(posts), PostIdOf, postId)
      ensures r == Removed ==> postId !in Map(posts, PostIdOf)
    {
      var i := IndexOfPost(postId);
      if i < 0 {
        return PostNotFound;
      }
      if posts[i].user != caller {
        return NotAuthorized;
      }
      RemovePostKeepsValid(posts, postId);
      posts := RemoveFirst(posts, PostIdOf, postId);
      r := Removed;
    }

    /** Replaces the post at `i` by one with the same id that is still valid. */
    method Put(i: nat, post: Post)
      requires Valid()
      requires i < |posts| && post.id == posts[i].id && ValidPost(post)
      modifies this
      ensures Valid()
      ensures posts == old(posts)[i := post]
    {
      ReplaceKeepsUnique(posts, i, post, PostIdOf);
      posts := posts[i := post];
    }

    /** POST /like/:post_id: refused when the caller already likes the post,
        otherwise the caller's like goes in front. */
    method LikePost(caller: UserId, postId: PostId) returns (r: Response)
      requires Valid()
      modifies this
      ensures Valid()
      ensures var i := old(IndexOfPost(postId));
        if i < 0 then r == PostNotFound && posts == old(posts)
        else if LikedBy(old(posts)[i].likes, caller) then r == AlreadyLiked && posts == old(posts)
        else
          && posts == old(posts)[i := old(posts)[i].(likes := [Like(caller)] + old(posts)[i].likes)]
          && r == Saved(posts[i])
    {
      var i := IndexOfPost(postId);
      if i < 0 {
        return PostNotFound;
      }
      var post := posts[i];
      if LikedBy(post.likes, caller) {
        return AlreadyLiked;
      }
      LikeKeepsUnique(post.likes, caller);
      post := post.(likes := [Like(caller)] + post.likes);
      Put(i, post);
      r := Saved(post);
    }

    /** POST /unlike/:post_id: refused when the caller has no like on the post,
        otherwise the caller's first like is spliced out. */
    method UnlikePost(caller: UserId, postId: PostId) returns (r: Response)
      requires Valid()
      modifies this
      ensures Valid()
      ensures var i := old(IndexOfPost(postId));
        if i < 0 then r == PostNotFound && posts == old(posts)
        else if !LikedBy(old(posts)[i].likes, caller) then r == NotLiked && posts == old(posts)
        else
          && posts == old(posts)[i := old(posts)[i].(likes := RemoveFirst(old(posts)[i].likes, LikeUser, caller))]
          && r == Saved(posts[i])
    {
      var i := IndexOfPost(postId);
      if i < 0 {
        return PostNotFound;
      }
      var post := posts[i];
      var likes := post.likes;
      if !LikedBy(likes, caller) {
        return NotLiked;
      }
      // `let index;` starts undefined; the forEach sets it at every like by the caller.
      var index: Option<int> := None;
      var users := Map(likes, LikeUser);
      var j := 0;
      while j < |likes|
        invariant 0 <= j <= |likes|
        invariant index == if caller in users[..j] then Some(IndexOf(users, caller)) else None
      {
        assert users[..j + 1] == users[..j] + [users[j]];
        if caller == likes[j].user {
          index := Some(IndexOf(users, caller));
        }
        j := j + 1;
      }
      assert users[..j] == users;
      // `splice(undefined, 1)` would start at 0; the guard above rules that out.
      var start := if index.Some? then index.value else 0;
      LikedByMap(likes, caller);
      SpliceIndexOfIsRemoveFirst(likes, LikeUser, caller);
      UnlikeClearsCaller(likes, caller);
      post := post.(likes := Splice1(likes, start));
      Put(i, post);
      r := Saved(post);
    }

    /** POST /comment/:post_id: the caller's comment, with the name and avatar
        the body supplies and a fresh id, goes in front. */
    method AddComment(caller: UserId, postId: PostId, input: PostInput, inputValid: bool, newId: CommentId)
      returns (r: Response)
      requires Valid()
      requires forall i :: 0 <= i < |posts| ==> newId !in Map(posts[i].comments, CommentIdOf)
      modifies this
      ensures Valid()
      ensures var i := old(IndexOfPost(postId));
        if !inputValid then r == Invalid && posts == old(posts)
        else if i < 0 then r == PostNotFound && posts == old(posts)
        else
          var c := Comment(newId, caller, input.text, input.name, input.avatar);
          && posts == old(posts)[i := old(posts)[i].(comments := [c] + old(posts)[i].comments)]
          && r == Saved(posts[i])
    {
      if !inputValid {
        return Invalid;
      }
      var i := IndexOfPost(postId);
      if i < 0 {
        return PostNotFound;
      }
      var post := posts[i];
      var newComment := Comment(newId, caller, input.text, input.name, input.avatar);
      PrependKeepsUnique(newComment, post.comments, CommentIdOf);
      post := post.(comments := [newComment] + post.comments);
      Put(i, post);
      r := Saved(post);
    }

    /** DELETE /comment/:post_id/:comment_id: refused unless some comment has
        that id and the caller as author; then the first comment with that id
        is spliced out. */
    method RemoveComment(caller: UserId, postId: PostId, commentId: CommentId) returns (r: Response)
      requires Valid()
      modifies this
      ensures Valid()
      ensures var i := old(IndexOfPost(postId));
        if i < 0 then r == PostNotFound && posts == old(posts)
        else if !CommentByCaller(old(posts)[i].comments, commentId, caller) then r == CannotDelete && posts == old(posts)
        else
          && posts == old(posts)[i := old(posts)[i].(comments := RemoveFirst(old(posts)[i].comments, CommentIdOf, commentId))]
          && r == Saved(posts[i])
    {
      var i := IndexOfPost(postId);
      if i < 0 {
        return PostNotFound;
      }
      var post := posts[i];
      if !CommentByCaller(post.comments, commentId, caller) {
        return CannotDelete;
      }
      var ids := Map(post.comments, CommentIdOf);
      var k :| 0 <= k < |post.comments| && post.comments[k].id == commentId && post.comments[k].user == caller;
      assert ids[k] == commentId;
      var removeIndex := IndexOf(ids, commentId);
      SpliceIndexOfIsRemoveFirst(post.comments, CommentIdOf, commentId);
      RemoveFirstUnique(post.comments, CommentIdOf, commentId);
      post := post.(comments := Splice1(post.comments, removeIndex));
      Put(i, post);
      r := Saved(post);
    }
  }
}
