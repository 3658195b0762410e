/** The REST routes for users (backend/routes/users.js) over the user
    collection, kept in memory as a map from user id to user document.
    `bcrypt.compare` is the oracle `matches(plain, hash)`; the output of
    `bcrypt.hash` is passed in as a value. */
module UserRoutes {
  import opened Common
  import opened Seqs

  /** The fields of a user document that the routes read and write (the User
      model itself is not part of this model). */
  datatype User = User(username: string, email: string, password: string, bookmarks: seq<PostId>)

  /** A user as the routes send it back, never with the password: register
      and login send the summary `{ id, username, email }`; the profile
      update sends the stored document with its password field left out. */
  datatype PublicUser =
    | Summary(id: UserId, username: string, email: string)
    | Document(id: UserId, username: string, email: string, bookmarks: seq<PostId>)

  function Public(id: UserId, u: User): PublicUser {
    Summary(id, u.username, u.email)
  }

  /** `User.findById(id).select('-password')`: every field but the password. */
  function WithoutPassword(id: UserId, u: User): (r: PublicUser)
    ensures r.Document? && r.id == id
    ensures User(r.username, r.email, u.password, r.bookmarks) == u
  {
    Document(id, u.username, u.email, u.bookmarks)
  }

  /** Some stored user other than `self` has this username or this email. */
  predicate TakenByOther(users: map<UserId, User>, self: UserId, username: string, email: string) {
    exists id :: id in users && id != self && (users[id].username == username || users[id].email == email)
  }

  /** The route's refusal of a password change: a new password is sent
      without the current one. */
  predicate MissingCurrentPassword(currentPassword: string, newPassword: string) {
    newPassword != "" && currentPassword == ""
  }

  /** No two users share a username or an email. */
  predicate Distinct(users: map<UserId, User>) {
    forall a, b :: a in users && b in users && a != b ==>
      users[a].username != users[b].username && users[a].email != users[b].email
  }

  /** Storing `u` under `id` keeps usernames and emails distinct when no
      other user holds either of them. */
  lemma StoreKeepsDistinct(users: map<UserId, User>, id: UserId, u: User)
    requires Distinct(users) && !TakenByOther(users, id, u.username, u.email)
    ensures Distinct(users[id := u])
  {
    var users' := users[id := u];
    forall a, b | a in users' && b in users' && a != b
      ensures users'[a].username != users'[b].username && users'[a].email != users'[b].email
    {
      if a == id {
        assert b in users && b != id;
      } else if b == id {
        assert a in users && a != id;
      }
    }
  }

  /** GET /me/liked-posts: the posts whose `likes` list the user, newest first. */
  function LikedPosts(posts: seq<Post>, user: UserId): (r: seq<Post>)
    ensures multiset(r) <= multiset(posts)
    ensures forall i :: 0 <= i < |r| ==> user in r[i].likes
    ensures forall i :: 0 <= i < |posts| && user in posts[i].likes ==> posts[i] in r
    ensures forall i, j :: 0 <= i < j < |r| ==> r[i].createdAt >= r[j].createdAt
  {
    var liked := Filter(posts, (p: Post) => user in p.likes);
    var newestFirst := (p: Post) => -p.createdAt;
    var r := SortByKey(liked, newestFirst);
    SameElements(r, liked);
    assert forall i, j :: 0 <= i < j < |r| ==> newestFirst(r[i]) <= newestFirst(r[j]);
    r
  }

  /** The User collection. */
  class UserStore {
    var users: map<UserId, User>

    ghost predicate Valid()
      reads this
    {
      Distinct(users)
    }

    constructor ()
      ensures Valid() && users == map[]
    {
      users := map[];
    }

    /** POST /register. `hashed` is what `bcrypt.hash(password, salt)` gave and
        `newId` the ObjectId the new document receives. Signing the reply's
        token is not modelled. */
    method Register(username: string, email: string, hashed: string, newId: UserId)
      returns (r: Reply<PublicUser>)
      requires Valid()
      modifies this
      ensures Valid()
      ensures if exists id :: id in old(users) && (old(users)[id].email == email || old(users)[id].username == username) then
          r == Fail(400, "User already exists") && users == old(users)
        else if newId in old(users) then
          r == Fail(500, "Server error") && users == old(users)
        else
          && users == old(users)[newId := User(username, email, hashed, [])]
          && r == Ok(Summary(newId, username, email))
    {
      if exists id :: id in users && (users[id].email == email || users[id].username == username) {
        return Fail(400, "User already exists");
      }
      if newId in users {
        return Fail(500, "Server error");
      }
      var user := User(username, email, hashed, []);
      StoreKeepsDistinct(users, newId, user);
      users := users[newId := user];
      r := Ok(Public(newId, user));
    }

    /** POST /login. An unknown email and a wrong password give the same
        reply. Signing the reply's token is not modelled. */
    method Login(email: string, password: string, matches: (string, string) -> bool)
      returns (r: Reply<PublicUser>)
      requires Valid()
      ensures r.Ok? <==> exists id :: id in users && users[id].email == email && matches(password, users[id].password)
      ensures r.Ok? ==> r.value.id in users && r.value == Public(r.value.id, users[r.value.id])
                        && users[r.value.id].email == email
      ensures r.Fail? ==> r == Fail(400, "Invalid credentials")
    {
      if id :| id in users && users[id].email == email {
        if !matches(password, users[id].password) {
          return Fail(400, "Invalid credentials");
        }
        return Ok(Public(id, users[id]));
      }
      r := Fail(400, "Invalid credentials");
    }

    /** PUT /profile by `self`. `newHash` is what `bcrypt.hash(newPassword,
        salt)` gave. An empty `currentPassword` or `newPassword` stands for
        one that is not sent. */
    method UpdateProfile(self: UserId, username: string, email: string, currentPassword: string,
                         newPassword: string, matches: (string, string) -> bool, newHash: string)
      returns (r: Reply<PublicUser>)
      requires Valid()
      modifies this
      ensures Valid()
      ensures if self !in old(users) then
          r == Fail(500, "Server error") && users == old(users)
        else
          var u := old(users)[self];
          if (username != u.username || email != u.email) && TakenByOther(old(users), self, username, email) then
            r == Fail(400, "Username or email is already taken") && users == old(users)
          else if MissingCurrentPassword(currentPassword, newPassword) then
            r == Fail(400, "Current password is required to change password") && users == old(users)
          else if newPassword != "" && !matches(currentPassword, u.password) then
            r == Fail(400, "Current password is incorrect") && users == old(users)
          else
            var u' := u.(username := username, email := email,
                         password := if newPassword != "" then newHash else u.password);
            r == Ok(WithoutPassword(self, u')) && users == old(users)[self := u']
    {
      if self !in users {
        // `user` is null and reading its fields throws
        return Fail(500, "Server error");
      }
      var u := users[self];
      if username != u.username || email != u.email {
        if TakenByOther(users, self, username, email) {
          return Fail(400, "Username or email is already taken");
        }
      }
      var password := u.password;
      if newPassword != "" {
        if currentPassword == "" {
          return Fail(400, "Current password is required to change password");
        }
        if !matches(currentPassword, u.password) {
          return Fail(400, "Current password is incorrect");
        }
        password := newHash;
      }
      var u' := u.(username := username, email := email, password := password);
      if username == u.username && email == u.email {
        forall id | id in users && id != self
          ensures users[id].username != username && users[id].email != email
        {
          assert users[id].username != u.username && users[id].email != u.email;
        }
      }
      StoreKeepsDistinct(users, self, u');
      users := users[self := u'];
      r := Ok(WithoutPassword(self, u'));
    }

    /** POST /bookmarks/:postId by `self`. */
    method AddBookmark(self: UserId, postId: PostId) returns (r: Reply<string>)
      requires Valid()
      modifies this
      ensures Valid()
      ensures if self !in old(users) then
          r == Fail(500, "Server error") && users == old(users)
        else if postId in old(users)[self].bookmarks then
          r == Fail(400, "Post already bookmarked") && users == old(users)
        else
          && r == Ok("Post bookmarked successfully")
          && users == old(users)[self := old(users)[self].(bookmarks := old(users)[self].bookmarks + [postId])]
    {
      if self !in users {
        return Fail(500, "Server error");
      }
      var u := users[self];
      if postId in u.bookmarks {
        return Fail(400, "Post already bookmarked");
      }
      var u' := u.(bookmarks := u.bookmarks + [postId]);
      StoreKeepsDistinct(users, self, u');
      users := users[self := u'];
      r := Ok("Post bookmarked successfully");
    }

    /** DELETE /bookmarks/:postId by `self`: every occurrence of the post is
        dropped; dropping one that is not there succeeds and changes nothing. */
    method RemoveBookmark(self: UserId, postId: PostId) returns (r: Reply<string>)
      requires Valid()
      modifies this
      ensures Valid()
      ensures if self !in old(users) then
          r == Fail(500, "Server error") && users == old(users)
        else
          && r == Ok("Bookmark removed successfully")
          && users == old(users)[self := old(users)[self].(bookmarks := Without(old(users)[self].bookmarks, postId))]
    {
      if self !in users {
        return Fail(500, "Server error");
      }
      var u := users[self];
      var u' := u.(bookmarks := Without(u.bookmarks, postId));
      StoreKeepsDistinct(users, self, u');
      users := users[self := u'];
      r := Ok("Bookmark removed successfully");
    }
  }

  /** Adding a bookmark and removing it again gives back the list as it was. */
  lemma BookmarkRoundTrip(bookmarks: seq<PostId>, postId: PostId)
    requires postId !in bookmarks
    ensures Without(bookmarks + [postId], postId) == bookmarks
  {
    WithoutAppended(bookmarks, postId);
  }

  /** Removing a bookmark keeps every other bookmark, in order: removing from
      two halves of the list is removing from each half. */
  lemma RemoveBookmarkKeepsOthers(front: seq<PostId>, back: seq<PostId>, postId: PostId)
    ensures Without(front + back, postId) == Without(front, postId) + Without(back, postId)
    ensures forall other :: other != postId ==>
      Count(Without(front + back, postId), other) == Count(front + back, other)
  {
    WithoutAppend(front, back, postId);
    WithoutCounts(front + back, postId);
  }
}
