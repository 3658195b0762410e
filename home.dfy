/** The post list of the home page (frontend/src/components/Home.jsx): the
    `filteredPosts` filter-and-sort chain, and the like and bookmark toggles
    that update the page's state once the request behind them succeeds. */
module Home {
  import opened Common
  import opened Seqs
  import Text

  /** `text.toLowerCase().includes(term.toLowerCase())`. */
  predicate Mentions(text: string, term: string) {
    Text.Contains(Text.ToLower(text), Text.ToLower(term))
  }

  /** `term` occurs in `text` at index `i`, ignoring the case of letters. */
  predicate MatchesAt(text: string, term: string, i: int) {
    && 0 <= i <= |text| - |term|
    && forall k :: 0 <= k < |term| ==> Text.LowerChar(text[i + k]) == Text.LowerChar(term[k])
  }

  lemma MatchesAtIff(text: string, term: string, i: int)
    ensures Text.OccursAt(Text.ToLower(text), Text.ToLower(term), i) <==> MatchesAt(text, term, i)
  {
    var lowText, lowTerm := Text.ToLower(text), Text.ToLower(term);
    if 0 <= i <= |text| - |term| {
      if MatchesAt(text, term, i) {
        assert lowText[i..i + |lowTerm|] == lowTerm;
      }
      if Text.OccursAt(lowText, lowTerm, i) {
        forall k | 0 <= k < |term| ensures Text.LowerChar(text[i + k]) == Text.LowerChar(term[k]) {
          assert lowText[i..i + |lowTerm|][k] == lowTerm[k];
        }
      }
    }
  }

  /** The search is a case-insensitive substring test, and the empty term
      is found in every text. */
  lemma MentionsIff(text: string, term: string)
    ensures Mentions(text, term) <==> exists i :: MatchesAt(text, term, i)
    ensures Mentions(text, "")
  {
    Text.ContainsIff(Text.ToLower(text), Text.ToLower(term));
    forall i ensures Text.OccursAt(Text.ToLower(text), Text.ToLower(term), i) <==> MatchesAt(text, term, i) {
      MatchesAtIff(text, term, i);
    }
    assert MatchesAt(text, "", 0);
    MatchesAtIff(text, "", 0);
    Text.ContainsIff(Text.ToLower(text), Text.ToLower(""));
  }

  /** The filter of `filteredPosts`: the category is `"all"` or the post's
      own, and the search term is found in the title or the content. */
  predicate Keep(post: Post, category: string, term: string) {
    && (category == "all" || post.category == category)
    && (Mentions(post.title, term) || Mentions(post.content, term))
  }

  /** An empty search term keeps every post of the chosen category. */
  lemma EmptyTermKeepsCategory(post: Post, category: string)
    ensures Keep(post, category, "") <==> category == "all" || post.category == category
  {
    MentionsIff(post.title, "");
  }

  /** The comparator of `filteredPosts`, with `liked` the page's
      `likedPosts`. */
  function Compare(a: Post, b: Post, sortBy: string, liked: set<PostId>): int {
    if sortBy == "newest" then b.createdAt - a.createdAt
    else if sortBy == "oldest" then a.createdAt - b.createdAt
    else if sortBy == "mostComments" then |b.comments| - |a.comments|
    else if sortBy == "mostLiked" then (if b.id in liked then 1 else 0) - (if a.id in liked then 1 else 0)
    else 0
  }

  /** The integer key whose differences the comparator returns. */
  function SortKey(sortBy: string, liked: set<PostId>): Post -> int {
    (p: Post) =>
      if sortBy == "newest" then -p.createdAt
      else if sortBy == "oldest" then p.createdAt
      else if sortBy == "mostComments" then -|p.comments|
      else if sortBy == "mostLiked" then (if p.id in liked then -1 else 0)
      else 0
  }

  /** The comparator is the difference of keys, so sorting with it sorts by
      the key, ascending. */
  lemma CompareIsKeyDifference(a: Post, b: Post, sortBy: string, liked: set<PostId>)
    ensures Compare(a, b, sortBy, liked) == SortKey(sortBy, liked)(a) - SortKey(sortBy, liked)(b)
  {
  }

  /** `filteredPosts`: the kept posts, stably sorted by the comparator. */
  function FilteredPosts(posts: seq<Post>, category: string, term: string, sortBy: string,
                         liked: set<PostId>): (r: seq<Post>)
    ensures multiset(r) <= multiset(posts)
    ensures forall i :: 0 <= i < |r| ==> r[i] in posts && Keep(r[i], category, term)
    ensures forall i :: 0 <= i < |posts| && Keep(posts[i], category, term) ==> posts[i] in r
    ensures SortedByKey(r, SortKey(sortBy, liked))
  {
    var kept := Filter(posts, (p: Post) => Keep(p, category, term));
    var r := SortByKey(kept, SortKey(sortBy, liked));
    SameElements(r, kept);
    r
  }

  /** The orderings the four sort options give. */
  lemma SortOrders(posts: seq<Post>, category: string, term: string, sortBy: string, liked: set<PostId>)
    ensures var r := FilteredPosts(posts, category, term, sortBy, liked);
      && (sortBy == "newest" ==> forall i, j :: 0 <= i < j < |r| ==> r[i].createdAt >= r[j].createdAt)
      && (sortBy == "oldest" ==> forall i, j :: 0 <= i < j < |r| ==> r[i].createdAt <= r[j].createdAt)
      && (sortBy == "mostComments" ==> forall i, j :: 0 <= i < j < |r| ==> |r[i].comments| >= |r[j].comments|)
      && (sortBy == "mostLiked" ==> forall i, j :: 0 <= i < j < |r| && r[j].id in liked ==> r[i].id in liked)
  {
    var r := FilteredPosts(posts, category, term, sortBy, liked);
    var key := SortKey(sortBy, liked);
    assert forall i, j :: 0 <= i < j < |r| ==> key(r[i]) <= key(r[j]);
  }

  /** Any other sort option leaves the kept posts in their original order. */
  lemma OtherSortKeepsOrder(posts: seq<Post>, category: string, term: string, sortBy: string, liked: set<PostId>)
    requires sortBy !in {"newest", "oldest", "mostComments", "mostLiked"}
    ensures FilteredPosts(posts, category, term, sortBy, liked)
         == Filter(posts, (p: Post) => Keep(p, category, term))
  {
    var kept := Filter(posts, (p: Post) => Keep(p, category, term));
    SortByConstantKey(kept, SortKey(sortBy, liked));
  }

  /** The `setPosts` update after a like: every post with id `postId` gets
      `user` appended to its likes. */
  function Liked(posts: seq<Post>, postId: PostId, user: UserId): (r: seq<Post>)
    ensures |r| == |posts|
    ensures forall i :: 0 <= i < |posts| && posts[i].id != postId ==> r[i] == posts[i]
    ensures forall i :: 0 <= i < |posts| && posts[i].id == postId ==>
      r[i] == posts[i].(likes := posts[i].likes + [user])
  {
    seq(|posts|, i requires 0 <= i < |posts| =>
      if posts[i].id == postId then posts[i].(likes := posts[i].likes + [user]) else posts[i])
  }

  /** The `setPosts` update after an unlike: every post with id `postId`
      loses every occurrence of `user` from its likes, in place. */
  function Unliked(posts: seq<Post>, postId: PostId, user: UserId): (r: seq<Post>)
    ensures |r| == |posts|
    ensures forall i :: 0 <= i < |posts| && posts[i].id != postId ==> r[i] == posts[i]
    ensures forall i :: 0 <= i < |posts| && posts[i].id == postId ==>
      r[i] == posts[i].(likes := Without(posts[i].likes, user)) && user !in r[i].likes
  {
    seq(|posts|, i requires 0 <= i < |posts| =>
      if posts[i].id == postId then posts[i].(likes := Without(posts[i].likes, user)) else posts[i])
  }

  /** Unliking a post the user had not liked undoes liking it. */
  lemma {:induction false} LikeThenUnlike(posts: seq<Post>, postId: PostId, user: UserId)
    requires forall i :: 0 <= i < |posts| && posts[i].id == postId ==> user !in posts[i].likes
    ensures Unliked(Liked(posts, postId, user), postId, user) == posts
  {
    var r := Unliked(Liked(posts, postId, user), postId, user);
    forall i | 0 <= i < |posts| ensures r[i] == posts[i] {
      if posts[i].id == postId {
        WithoutAppended(posts[i].likes, user);
      }
    }
  }

  /** Adding `x` to a set that lacks it and deleting it from one that has it. */
  function Toggled(s: set<PostId>, x: PostId): (r: set<PostId>)
    ensures x in r <==> x !in s
    ensures r - {x} == s - {x}
  {
    if x in s then s - {x} else s + {x}
  }

  /** Toggling twice gives the set back. */
  lemma ToggleTwice(s: set<PostId>, x: PostId)
    ensures Toggled(Toggled(s, x), x) == s
  {
    var t := Toggled(s, x);
    assert Toggled(t, x) - {x} == s - {x};
    if x in s {
      assert s == (s - {x}) + {x};
    }
  }

  /** The page's state. `posts` as fetched, and the ids the user liked and
      bookmarked. */
  class HomePage {
    var posts: seq<Post>
    var likedPosts: set<PostId>
    var bookmarkedPosts: set<PostId>

    constructor (posts: seq<Post>, likedPosts: set<PostId>, bookmarkedPosts: set<PostId>)
      ensures this.posts == posts && this.likedPosts == likedPosts && this.bookmarkedPosts == bookmarkedPosts
    {
      this.posts := posts;
      this.likedPosts := likedPosts;
      this.bookmarkedPosts := bookmarkedPosts;
    }

    /** `filteredPosts` for the current controls. */
    function Visible(category: string, term: string, sortBy: string): (r: seq<Post>)
      reads this
      ensures multiset(r) <= multiset(posts)
      ensures forall i :: 0 <= i < |r| ==> Keep(r[i], category, term)
      ensures forall i :: 0 <= i < |posts| && Keep(posts[i], category, term) ==> posts[i] in r
      ensures SortedByKey(r, SortKey(sortBy, likedPosts))
    {
      FilteredPosts(posts, category, term, sortBy, likedPosts)
    }

    /** `handleLike(postId)`. `user` is the signed-in user's id, if any, and
        `requestOk` whether the like or unlike request succeeds. The result says
        whether the page navigates to the login page. */
    method HandleLike(user: Option<UserId>, postId: PostId, requestOk: bool) returns (toLogin: bool)
      modifies this
      ensures toLogin <==> user.None?
      ensures bookmarkedPosts == old(bookmarkedPosts)
      ensures if user.None? || !requestOk then
          posts == old(posts) && likedPosts == old(likedPosts)
        else if postId in old(likedPosts) then
          likedPosts == old(likedPosts) - {postId} && posts == Unliked(old(posts), postId, user.value)
        else
          likedPosts == old(likedPosts) + {postId} && posts == Liked(old(posts), postId, user.value)
    {
      if user.None? {
        return true;
      }
      toLogin := false;
      if !requestOk {
        // the request threw; the error is only logged
        return;
      }
      if postId in likedPosts {
        likedPosts := likedPosts - {postId};
        posts := Unliked(posts, postId, user.value);
      } else {
        likedPosts := likedPosts + {postId};
        posts := Liked(posts, postId, user.value);
      }
    }

    /** `handleBookmark(postId)`, with the same parameters. */
    method HandleBookmark(user: Option<UserId>, postId: PostId, requestOk: bool) returns (toLogin: bool)
      modifies this
      ensures toLogin <==> user.None?
      ensures posts == old(posts) && likedPosts == old(likedPosts)
      ensures bookmarkedPosts == if user.None? || !requestOk then old(bookmarkedPosts)
                                 else Toggled(old(bookmarkedPosts), postId)
    {
      if user.None? {
        return true;
      }
      toLogin := false;
      if !requestOk {
        return;
      }
      if postId in bookmarkedPosts {
        bookmarkedPosts := bookmarkedPosts - {postId};
      } else {
        bookmarkedPosts := bookmarkedPosts + {postId};
      }
    }
  }
}
