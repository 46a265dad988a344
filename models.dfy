/**
 * The three tables of the blog: users, posts and comments, each a sequence
 * of rows in insertion order (which is also ascending id order), with the
 * constraints the schema declares on them.
 */
module Models {
  import opened Wrappers
  import Query

  /** A registered account; `password` holds the hash, never the plain text. */
  datatype User = User(id: nat, username: string, password: string, email: string)

  /** A post and its owning user's id; `createdAt` is the store's ordering key. */
  datatype Post = Post(id: nat, title: string, content: string, userId: nat, createdAt: nat)

  /** A comment, its owning user's id and the id of the post it belongs to. */
  datatype Comment = Comment(id: nat, content: string, userId: nat, postId: nat, createdAt: nat)

  /** A user as serialized to JSON: the `password` field is tagged `json:"-"` and has no place here. */
  datatype PublicUser = PublicUser(id: nat, username: string, email: string)

  function Public(u: User): PublicUser {
    PublicUser(u.id, u.username, u.email)
  }

  /** The zero value an association holds when it was not preloaded. */
  const NoUser := PublicUser(0, "", "")

  function UserKey(u: User): int { u.id }
  function PostKey(p: Post): int { p.id }
  function PostTime(p: Post): int { p.createdAt }
  function CommentKey(c: Comment): int { c.id }
  function CommentTime(c: Comment): int { c.createdAt }

  function UserIds(users: seq<User>): set<int> {
    Query.Keys(users, UserKey)
  }

  function PostIds(posts: seq<Post>): set<int> {
    Query.Keys(posts, PostKey)
  }

  /** Primary keys ascend, and usernames and emails are present and unique. */
  ghost predicate UsersValid(users: seq<User>) {
    && Query.Ascending(users, UserKey)
    && (forall i :: 0 <= i < |users| ==> users[i].id >= 1 && users[i].username != "" && users[i].email != "")
    && (forall i, j :: 0 <= i < j < |users| ==> users[i].username != users[j].username)
    && (forall i, j :: 0 <= i < j < |users| ==> users[i].email != users[j].email)
  }

  /** Primary keys and creation times ascend, and every post references an existing user. */
  ghost predicate PostsValid(users: seq<User>, posts: seq<Post>) {
    && Query.Ascending(posts, PostKey)
    && Query.Ascending(posts, PostTime)
    && (forall p <- posts :: p.id >= 1 && p.userId in UserIds(users))
  }

  /** Primary keys and creation times ascend, and every comment references an existing user and post. */
  ghost predicate CommentsValid(users: seq<User>, posts: seq<Post>, comments: seq<Comment>) {
    && Query.Ascending(comments, CommentKey)
    && Query.Ascending(comments, CommentTime)
    && (forall c <- comments :: c.id >= 1 && c.userId in UserIds(users) && c.postId in PostIds(posts))
  }

  /** The schema's constraints over the whole store: unique keys, unique names and emails, foreign keys. */
  ghost predicate Consistent(users: seq<User>, posts: seq<Post>, comments: seq<Comment>) {
    UsersValid(users) && PostsValid(users, posts) && CommentsValid(users, posts, comments)
  }

  /** The register conflict query's condition: the same username or the same email. */
  function SameNameOrEmail(username: string, email: string): User -> bool {
    (u: User) => u.username == username || u.email == email
  }

  /** Some stored account meets the conflict condition. */
  predicate Taken(users: seq<User>, username: string, email: string) {
    exists i :: 0 <= i < |users| && SameNameOrEmail(username, email)(users[i])
  }

  function Named(username: string): User -> bool {
    (u: User) => u.username == username
  }

  function UserWithId(id: nat): User -> bool {
    (u: User) => u.id == id
  }

  function PostWithId(id: nat): Post -> bool {
    (p: Post) => p.id == id
  }

  function OtherThanPost(id: nat): Post -> bool {
    (p: Post) => p.id != id
  }

  function OnPost(id: nat): Comment -> bool {
    (c: Comment) => c.postId == id
  }

  function NotOnPost(id: nat): Comment -> bool {
    (c: Comment) => c.postId != id
  }

  function OtherThanUser(id: nat): User -> bool {
    (u: User) => u.id != id
  }

  function NotByUser(id: nat): Post -> bool {
    (p: Post) => p.userId != id
  }

  /** A comment survives a user's deletion if that user wrote neither it nor the post it is on. */
  function SurvivesUser(id: nat, keptPosts: set<int>): Comment -> bool {
    (c: Comment) => c.userId != id && c.postId in keptPosts
  }

  /** Lookup by username (gorm's `Where("username = ?").First`). */
  function UserNamed(users: seq<User>, username: string): Option<User> {
    match Query.Find(users, Named(username))
    case Some(k) => Some(users[k])
    case None => None
  }

  /** Lookup by primary key (gorm's `First(&post, id)`). */
  function PostWithIdIn(posts: seq<Post>, id: nat): Option<Post> {
    match Query.Find(posts, PostWithId(id))
    case Some(k) => Some(posts[k])
    case None => None
  }

  /** The author an eager load (`Preload("User")`) attaches to a row owned by `userId`. */
  function AuthorOf(users: seq<User>, userId: nat): PublicUser {
    match Query.Find(users, UserWithId(userId))
    case Some(k) => Public(users[k])
    case None => NoUser
  }

  /** With unique keys, a stored user's rows are eager-loaded with that user's public form. */
  lemma AuthorOfStored(users: seq<User>, u: User)
    requires UsersValid(users) && u in users
    ensures AuthorOf(users, u.id) == Public(u)
  {
    var j :| 0 <= j < |users| && users[j] == u;
    assert UserWithId(u.id)(users[j]);
    var k := Query.Find(users, UserWithId(u.id)).value;
    assert UserKey(users[k]) == UserKey(users[j]);
  }

  /** A row whose owner is not stored is eager-loaded with the zero user. */
  lemma AuthorOfMissing(users: seq<User>, id: nat)
    requires id !in UserIds(users)
    ensures AuthorOf(users, id) == NoUser
  {
    Query.KeysMember(users, UserKey, id);
    forall j | 0 <= j < |users| ensures !UserWithId(id)(users[j]) {
      assert UserKey(users[j]) != id;
    }
  }

  /** Since usernames are unique, the lookup by username finds exactly the user with that name. */
  lemma UserNamedExactly(users: seq<User>, username: string, u: User)
    requires UsersValid(users)
    ensures UserNamed(users, username) == Some(u) <==> u in users && u.username == username
  {
    if u in users && u.username == username {
      var k :| 0 <= k < |users| && users[k] == u;
      var f := Query.Find(users, Named(username));
      assert Named(username)(users[k]);
      assert f.Some?;
      assert users[f.value].username == username;
      assert f.value == k;
    }
  }

  /** Since primary keys are unique, the lookup by id finds exactly the post with that id. */
  lemma PostWithIdExactly(posts: seq<Post>, id: nat, p: Post)
    requires Query.Ascending(posts, PostKey)
    ensures PostWithIdIn(posts, id) == Some(p) <==> p in posts && p.id == id
  {
    if p in posts && p.id == id {
      var k :| 0 <= k < |posts| && posts[k] == p;
      var f := Query.Find(posts, PostWithId(id));
      assert PostWithId(id)(posts[k]);
      assert f.Some?;
      assert PostKey(posts[f.value]) == PostKey(posts[k]);
      assert f.value == k;
    }
  }

  /** The serialized form of a user does not depend on the stored hash. */
  lemma PublicHidesPassword(u: User, hash: string)
    ensures Public(u.(password := hash)) == Public(u)
    ensures Public(u) == PublicUser(u.id, u.username, u.email)
  {
  }

  /** A new account whose name and email are free, with a fresh key, keeps the store consistent. */
  lemma {:induction false} RegisterKeepsConsistent(users: seq<User>, posts: seq<Post>, comments: seq<Comment>, u: User)
    requires Consistent(users, posts, comments)
    requires !Taken(users, u.username, u.email) && u.username != "" && u.email != ""
    requires u.id >= 1 && forall v <- users :: v.id < u.id
    ensures Consistent(users + [u], posts, comments)
  {
    var t := users + [u];
    Query.AppendAscending(users, u, UserKey);
    forall i, j | 0 <= i < j < |t| ensures t[i].username != t[j].username && t[i].email != t[j].email {
      assert t[i] == users[i];
      if j < |users| { assert t[j] == users[j]; }
    }
    Query.KeysAppend(users, u, UserKey);
  }

  /** A post owned by an existing user, with a fresh key and a later time, keeps the store consistent. */
  lemma {:induction false} AddPostKeepsConsistent(users: seq<User>, posts: seq<Post>, comments: seq<Comment>, p: Post)
    requires Consistent(users, posts, comments)
    requires p.id >= 1 && p.userId in UserIds(users)
    requires forall q <- posts :: q.id < p.id && q.createdAt < p.createdAt
    ensures Consistent(users, posts + [p], comments)
  {
    Query.AppendAscending(posts, p, PostKey);
    Query.AppendAscending(posts, p, PostTime);
    Query.KeysAppend(posts, p, PostKey);
  }

  /** A comment by an existing user on an existing post, with a fresh key and a later time, keeps the store consistent. */
  lemma {:induction false} AddCommentKeepsConsistent(users: seq<User>, posts: seq<Post>, comments: seq<Comment>, c: Comment)
    requires Consistent(users, posts, comments)
    requires c.id >= 1 && c.userId in UserIds(users) && c.postId in PostIds(posts)
    requires forall d <- comments :: d.id < c.id && d.createdAt < c.createdAt
    ensures Consistent(users, posts, comments + [c])
  {
    Query.AppendAscending(comments, c, CommentKey);
    Query.AppendAscending(comments, c, CommentTime);
  }

  /** Overwriting a post's title and content keeps the store consistent. */
  lemma {:induction false} EditPostKeepsConsistent(users: seq<User>, posts: seq<Post>, comments: seq<Comment>,
                                                   k: nat, title: string, content: string)
    requires Consistent(users, posts, comments) && k < |posts|
    ensures Consistent(users, posts[k := posts[k].(title := title, content := content)], comments)
  {
    var q := posts[k].(title := title, content := content);
    Query.ReplaceAscending(posts, k, q, PostKey);
    Query.ReplaceAscending(posts, k, q, PostTime);
    Query.KeysReplace(posts, k, q, PostKey);
    var t := posts[k := q];
    forall x | x in t ensures x.id >= 1 && x.userId in UserIds(users) {
      var i :| 0 <= i < |t| && t[i] == x;
      assert posts[i] in posts;
    }
  }

  /** Deleting a post together with the comments on it (the declared cascade) keeps the store consistent. */
  lemma {:induction false} DeletePostKeepsConsistent(users: seq<User>, posts: seq<Post>, comments: seq<Comment>, id: nat)
    requires Consistent(users, posts, comments)
    ensures Consistent(users, Query.Filter(posts, OtherThanPost(id)), Query.Filter(comments, NotOnPost(id)))
  {
    var ps := Query.Filter(posts, OtherThanPost(id));
    var cs := Query.Filter(comments, NotOnPost(id));
    Query.FilterAscending(posts, OtherThanPost(id), PostKey);
    Query.FilterAscending(posts, OtherThanPost(id), PostTime);
    Query.FilterAscending(comments, NotOnPost(id), CommentKey);
    Query.FilterAscending(comments, NotOnPost(id), CommentTime);
    forall c | c in cs ensures c.postId in PostIds(ps) {
      Query.KeysMember(posts, PostKey, c.postId);
      var i :| 0 <= i < |posts| && posts[i].id == c.postId;
      assert OtherThanPost(id)(posts[i]);
      Query.KeysOfMember(ps, PostKey, posts[i]);
    }
  }

  /** After the delete no post carries the deleted id. */
  lemma PostGone(posts: seq<Post>, id: nat)
    ensures id !in PostIds(Query.Filter(posts, OtherThanPost(id)))
  {
    var ps := Query.Filter(posts, OtherThanPost(id));
    Query.KeysMember(ps, PostKey, id);
    assert forall i :: 0 <= i < |ps| ==> ps[i] in ps && ps[i].id != id;
  }

  /** After the delete no account carries the deleted id. */
  lemma UserGone(users: seq<User>, id: nat)
    ensures id !in UserIds(Query.Filter(users, OtherThanUser(id)))
  {
    var us := Query.Filter(users, OtherThanUser(id));
    Query.KeysMember(us, UserKey, id);
    assert forall i :: 0 <= i < |us| ==> us[i] in us && us[i].id != id;
  }

  /** Without the cascade, deleting a post that has comments would leave them pointing at nothing. */
  lemma DeletePostWithoutCascadeOrphans(users: seq<User>, posts: seq<Post>, comments: seq<Comment>, id: nat, c: Comment)
    requires c in comments && c.postId == id
    ensures !Consistent(users, Query.Filter(posts, OtherThanPost(id)), comments)
  {
    PostGone(posts, id);
  }

  /**
   * Deleting a user together with their posts, their comments and the
   * comments on their posts (the declared cascades) keeps the store consistent.
   */
  lemma {:induction false} DeleteUserKeepsConsistent(users: seq<User>, posts: seq<Post>, comments: seq<Comment>, id: nat)
    requires Consistent(users, posts, comments)
    ensures var ps := Query.Filter(posts, NotByUser(id));
            Consistent(Query.Filter(users, OtherThanUser(id)), ps, Query.Filter(comments, SurvivesUser(id, PostIds(ps))))
  {
    var us := Query.Filter(users, OtherThanUser(id));
    var ps := Query.Filter(posts, NotByUser(id));
    var cs := Query.Filter(comments, SurvivesUser(id, PostIds(ps)));
    Query.FilterAscending(users, OtherThanUser(id), UserKey);
    Query.FilterAscending(posts, NotByUser(id), PostKey);
    Query.FilterAscending(posts, NotByUser(id), PostTime);
    Query.FilterAscending(comments, SurvivesUser(id, PostIds(ps)), CommentKey);
    Query.FilterAscending(comments, SurvivesUser(id, PostIds(ps)), CommentTime);
    SubsequenceUsersValid(users, us);
    forall p | p in ps ensures p.userId in UserIds(us) {
      Query.KeysMember(users, UserKey, p.userId);
      var i :| 0 <= i < |users| && users[i].id == p.userId;
      assert OtherThanUser(id)(users[i]);
      Query.KeysOfMember(us, UserKey, users[i]);
    }
    forall c | c in cs ensures c.userId in UserIds(us) {
      Query.KeysMember(users, UserKey, c.userId);
      var i :| 0 <= i < |users| && users[i].id == c.userId;
      assert OtherThanUser(id)(users[i]);
      Query.KeysOfMember(us, UserKey, users[i]);
    }
  }

  /** Dropping accounts keeps the remaining names and emails unique (the removal keeps order). */
  lemma {:induction false} SubsequenceUsersValid(users: seq<User>, us: seq<User>)
    requires UsersValid(users)
    requires Query.Ascending(us, UserKey) && forall u <- us :: u in users
    ensures UsersValid(us)
  {
    forall i, j | 0 <= i < j < |us| ensures us[i].username != us[j].username && us[i].email != us[j].email {
      assert us[i] in users && us[j] in users;
      var a :| 0 <= a < |users| && users[a] == us[i];
      var b :| 0 <= b < |users| && users[b] == us[j];
      assert a != b;
    }
    forall i | 0 <= i < |us| ensures us[i].id >= 1 && us[i].username != "" && us[i].email != "" {
      assert us[i] in users;
    }
  }
}
