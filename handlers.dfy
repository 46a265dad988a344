/**
 * The request handlers over the blog store. Each handler is a method of the
 * store that answers with a status code and a body and, for the mutating
 * endpoints, changes the tables; every rejection leaves the store as it was.
 * Password hashing and token issuing are parameters of the handlers that
 * use them.
 */
module Handlers {
  import opened Wrappers
  import opened Models
  import Query
  import Params
  import Middleware

  /** Decoded JSON bodies; `None` is a body that is not valid JSON for the request type. */
  datatype RegisterRequest = RegisterRequest(username: string, password: string, email: string)
  datatype LoginRequest = LoginRequest(username: string, password: string)
  datatype PostRequest = PostRequest(title: string, content: string)
  datatype CommentRequest = CommentRequest(content: string)

  /** `binding:"required"` on strings: decoded, and every required field non-empty. */
  predicate RegisterBinds(b: Option<RegisterRequest>) {
    b.Some? && b.value.username != "" && b.value.password != "" && b.value.email != ""
  }

  predicate LoginBinds(b: Option<LoginRequest>) {
    b.Some? && b.value.username != "" && b.value.password != ""
  }

  predicate PostBinds(b: Option<PostRequest>) {
    b.Some? && b.value.title != "" && b.value.content != ""
  }

  predicate CommentBinds(b: Option<CommentRequest>) {
    b.Some? && b.value.content != ""
  }

  /** A post as serialized, with its `author` association. */
  datatype PostView = PostView(post: Post, author: PublicUser)

  /** A comment as serialized, with its `user` association. */
  datatype CommentView = CommentView(comment: Comment, user: PublicUser)

  /** The JSON body of a response; `ValidationError` carries the binder's own message, not modelled. */
  datatype Body =
    | ValidationError
    | ErrorBody(error: string)
    | MessageBody(message: string)
    | LoginBody(token: string, user: PublicUser)
    | PostBody(post: PostView)
    | PostsBody(posts: seq<PostView>)
    | CommentBody(comment: CommentView)
    | CommentsBody(comments: seq<CommentView>)

  datatype Response = Response(status: int, body: Body)

  const BadBody := Response(400, ValidationError)
  const BadPostId := Response(400, ErrorBody("invalid post id"))
  const PostNotFound := Response(404, ErrorBody("post not found"))
  const NotTheAuthor := Response(403, ErrorBody("not the post author"))
  const BadCredentials := Response(401, ErrorBody("invalid username or password"))

  /**
   * Posts with their authors eager-loaded: each post keeps its place and
   * carries the public form of the stored user that owns it, or the zero
   * user when no stored user has its `user_id`.
   */
  function PostViews(users: seq<User>, ps: seq<Post>): (r: seq<PostView>)
    ensures |r| == |ps|
    ensures forall i :: 0 <= i < |ps| ==> r[i].post == ps[i]
    ensures UsersValid(users) ==>
              forall i :: 0 <= i < |ps| ==> forall u <- users :: u.id == ps[i].userId ==> r[i].author == Public(u)
    ensures forall i :: 0 <= i < |ps| && ps[i].userId !in UserIds(users) ==> r[i].author == NoUser
  {
    AuthorsResolve(users);
    seq(|ps|, i requires 0 <= i < |ps| => PostView(ps[i], AuthorOf(users, ps[i].userId)))
  }

  /** Comments with their users eager-loaded, in the same way. */
  function CommentViews(users: seq<User>, cs: seq<Comment>): (r: seq<CommentView>)
    ensures |r| == |cs|
    ensures forall i :: 0 <= i < |cs| ==> r[i].comment == cs[i]
    ensures UsersValid(users) ==>
              forall i :: 0 <= i < |cs| ==> forall u <- users :: u.id == cs[i].userId ==> r[i].user == Public(u)
    ensures forall i :: 0 <= i < |cs| && cs[i].userId !in UserIds(users) ==> r[i].user == NoUser
  {
    AuthorsResolve(users);
    seq(|cs|, i requires 0 <= i < |cs| => CommentView(cs[i], AuthorOf(users, cs[i].userId)))
  }

  /** The eager load resolves every owner id: to the stored user when there is one, to the zero user otherwise. */
  lemma AuthorsResolve(users: seq<User>)
    ensures UsersValid(users) ==> forall u <- users :: AuthorOf(users, u.id) == Public(u)
    ensures forall id: nat :: id !in UserIds(users) ==> AuthorOf(users, id) == NoUser
  {
    if UsersValid(users) {
      forall u | u in users ensures AuthorOf(users, u.id) == Public(u) {
        AuthorOfStored(users, u);
      }
    }
    forall id: nat | id !in UserIds(users) ensures AuthorOf(users, id) == NoUser {
      AuthorOfMissing(users, id);
    }
  }

  /** `Order("created_at desc")` over a table kept in creation order. */
  function NewestFirst(posts: seq<Post>): seq<Post> {
    Query.Reverse(posts)
  }

  /** `Where("post_id = ?", id).Order("created_at asc")` over a table kept in creation order. */
  function CommentsOn(comments: seq<Comment>, postId: nat): seq<Comment> {
    Query.Filter(comments, OnPost(postId))
  }

  /** The newest-first listing holds every post once, from the latest creation time down. */
  lemma NewestFirstOrder(posts: seq<Post>)
    requires Query.Ascending(posts, PostTime)
    ensures |NewestFirst(posts)| == |posts|
    ensures Query.Descending(NewestFirst(posts), PostTime)
    ensures forall p :: p in NewestFirst(posts) <==> p in posts
  {
    Query.ReverseOfAscending(posts, PostTime);
  }

  /** A page of the newest-first listing shows stored posts only, from the latest creation time down. */
  lemma ListedPage(users: seq<User>, posts: seq<Post>, offset: nat, limit: Option<nat>)
    requires Query.Ascending(posts, PostTime)
    ensures var page := PostViews(users, Query.Window(NewestFirst(posts), offset, limit));
            && (forall v <- page :: v.post in posts)
            && (forall i, j :: 0 <= i < j < |page| ==> page[i].post.createdAt > page[j].post.createdAt)
  {
    var newest := NewestFirst(posts);
    NewestFirstOrder(posts);
    var listing := Query.Window(newest, offset, limit);
    assert forall i :: 0 <= i < |listing| ==> listing[i] == newest[offset + i];
  }

  /** Any listing of exactly the posts from the latest creation time down is the newest-first listing. */
  lemma NewestFirstIsTheOrder(posts: seq<Post>, listing: seq<Post>)
    requires Query.Ascending(posts, PostTime)
    requires Query.Descending(listing, PostTime)
    requires forall p :: p in listing <==> p in posts
    ensures listing == NewestFirst(posts)
  {
    NewestFirstOrder(posts);
    Query.DescendingUnique(listing, NewestFirst(posts), PostTime);
  }

  /** With at least three posts, `limit=2&offset=1` lists the second and third newest. */
  lemma SecondAndThirdNewest(posts: seq<Post>)
    requires |posts| >= 3
    ensures Query.Window(NewestFirst(posts), 1, Some(2)) == [posts[|posts| - 2], posts[|posts| - 3]]
  {
    Query.ReverseAt(posts, 1);
    Query.ReverseAt(posts, 2);
  }

  /** The comments listed for a post are exactly the comments on it, oldest first. */
  lemma CommentsOnExactly(comments: seq<Comment>, postId: nat)
    requires Query.Ascending(comments, CommentTime)
    ensures forall c :: c in CommentsOn(comments, postId) <==> c in comments && c.postId == postId
    ensures Query.Ascending(CommentsOn(comments, postId), CommentTime)
  {
    Query.FilterAscending(comments, OnPost(postId), CommentTime);
  }

  /** The routes behind the authentication middleware, with their inputs. */
  datatype ProtectedRoute =
    | CreatePostRoute(body: Option<PostRequest>)
    | UpdatePostRoute(id: string, body: Option<PostRequest>)
    | DeletePostRoute(id: string)
    | CreateCommentRoute(id: string, comment: Option<CommentRequest>)

  class Store {
    var users: seq<User>
    var posts: seq<Post>
    var comments: seq<Comment>
    /** The next primary key of each table (autoincrement, never reused). */
    var nextUserId: nat
    var nextPostId: nat
    var nextCommentId: nat
    /** The source of `created_at`: strictly increasing across inserts. */
    var clock: nat

    ghost predicate Valid()
      reads this
    {
      StoreInvariant(users, posts, comments, nextUserId, nextPostId, nextCommentId, clock)
    }

    /** The fields as one value. */
    function State(): Tables
      reads this
    {
      Tables(users, posts, comments, nextUserId, nextPostId, nextCommentId, clock)
    }

    constructor ()
      ensures Valid()
      ensures users == [] && posts == [] && comments == []
      ensures nextUserId == 1 && nextPostId == 1 && nextCommentId == 1 && clock == 0
    {
      users, posts, comments := [], [], [];
      nextUserId, nextPostId, nextCommentId := 1, 1, 1;
      clock := 0;
    }

    /** POST /register. */
    method Register(body: Option<RegisterRequest>, hash: string -> Option<string>) returns (r: Response)
      requires Valid()
      modifies this
      ensures Valid()
      ensures r.status in {201, 400, 409, 500}
      ensures !RegisterBinds(body) ==> r == BadBody && unchanged(this)
      ensures RegisterBinds(body) && Taken(old(users), body.value.username, body.value.email) ==>
                r == Response(409, ErrorBody("username or email already exists")) && unchanged(this)
      ensures RegisterBinds(body) && !Taken(old(users), body.value.username, body.value.email)
              && hash(body.value.password).None? ==>
                r == Response(500, ErrorBody("failed to hash password")) && unchanged(this)
      ensures r.status == 201 <==> RegisterBinds(body) && !Taken(old(users), body.value.username, body.value.email)
                                   && hash(body.value.password).Some?
      ensures r.status == 201 ==>
                && r.body == MessageBody("user registered")
                && users == old(users) + [User(old(nextUserId), body.value.username,
                                               hash(body.value.password).value, body.value.email)]
                && nextUserId == old(nextUserId) + 1
                && unchanged(this`posts, this`comments, this`nextPostId, this`nextCommentId, this`clock)
    {
      if !RegisterBinds(body) {
        return BadBody;
      }
      var req := body.value;
      var existing := Query.Find(users, SameNameOrEmail(req.username, req.email));
      if existing.Some? {
        return Response(409, ErrorBody("username or email already exists"));
      }
      var hashed := hash(req.password);
      if hashed.None? {
        return Response(500, ErrorBody("failed to hash password"));
      }
      var user := User(nextUserId, req.username, hashed.value, req.email);
      RegisterStep(users, posts, comments, nextUserId, nextPostId, nextCommentId, clock, user);
      users := users + [user];
      nextUserId := nextUserId + 1;
      r := Response(201, MessageBody("user registered"));
    }

    /** POST /login. */
    method Login(body: Option<LoginRequest>, check: (string, string) -> bool,
                 issue: (nat, string) -> Option<string>) returns (r: Response)
      requires Valid()
      ensures r.status in {200, 400, 401, 500}
      ensures !LoginBinds(body) ==> r == BadBody
      ensures r.status == 401 <==>
                LoginBinds(body) && !exists u <- users :: u.username == body.value.username && check(u.password, body.value.password)
      ensures r.status == 401 ==> r == BadCredentials
      ensures r.status == 200 ==>
                exists u <- users ::
                  && u.username == body.value.username && check(u.password, body.value.password)
                  && r.body.LoginBody? && r.body.user == Public(u)
                  && issue(u.id, u.username) == Some(r.body.token)
      ensures r.status == 200 <==>
                LoginBinds(body) && exists u <- users ::
                  u.username == body.value.username && check(u.password, body.value.password) && issue(u.id, u.username).Some?
      ensures r.status == 400 <==> !LoginBinds(body)
      ensures r.status == 500 <==>
                LoginBinds(body) && exists u <- users ::
                  u.username == body.value.username && check(u.password, body.value.password) && issue(u.id, u.username).None?
      ensures r.status == 500 ==> r == Response(500, ErrorBody("failed to generate token"))
    {
      if !LoginBinds(body) {
        return BadBody;
      }
      var req := body.value;
      forall u | u in users ensures UserNamed(users, req.username) == Some(u) <==> u.username == req.username {
        UserNamedExactly(users, req.username, u);
      }
      var found := UserNamed(users, req.username);
      if found.None? {
        return BadCredentials;
      }
      var user := found.value;
      UserNamedExactly(users, req.username, user);
      if !check(user.password, req.password) {
        return BadCredentials;
      }
      var token := issue(user.id, user.username);
      if token.None? {
        return Response(500, ErrorBody("failed to generate token"));
      }
      r := Response(200, LoginBody(token.value, Public(user)));
    }

    /** POST /posts, for the authenticated `userId`. */
    method CreatePost(userId: nat, body: Option<PostRequest>) returns (r: Response)
      requires Valid()
      modifies this
      ensures Valid()
      ensures r.status in {201, 400, 500}
      ensures CreatePostOutcome(userId, body, r, old(State()), State())
    {
      if !PostBinds(body) {
        return BadBody;
      }
      var req := body.value;
      var post := Post(nextPostId, req.title, req.content, userId, clock);
      if userId !in UserIds(users) {
        // the foreign key on posts.user_id refuses the insert
        return Response(500, ErrorBody("failed to create post"));
      }
      AddPostStep(users, posts, comments, nextUserId, nextPostId, nextCommentId, clock, post);
      posts := posts + [post];
      nextPostId, clock := nextPostId + 1, clock + 1;
      r := Response(201, PostBody(PostView(post, NoUser)));
    }

    /** GET /posts?limit=&offset= (an empty string stands for an absent parameter). */
    method ListPosts(limit: string, offset: string) returns (r: Response)
      requires Valid()
      ensures r.status in {200, 400}
      ensures Params.ParsePage(limit, offset).Err? ==>
                r == Response(400, ErrorBody(Params.ParsePage(limit, offset).message))
      ensures Params.ParsePage(limit, offset).Ok? ==>
                var page := Params.ParsePage(limit, offset).value;
                r == Response(200, PostsBody(PostViews(users, Query.Window(NewestFirst(posts), page.offset, page.limit))))
      ensures r.status == 200 ==>
                && (forall v <- r.body.posts :: v.post in posts)
                && (forall i, j :: 0 <= i < j < |r.body.posts| ==>
                      r.body.posts[i].post.createdAt > r.body.posts[j].post.createdAt)
    {
      var page := Params.ParsePage(limit, offset);
      if page.Err? {
        return Response(400, ErrorBody(page.message));
      }
      ListedPage(users, posts, page.value.offset, page.value.limit);
      r := Response(200, PostsBody(PostViews(users, Query.Window(NewestFirst(posts), page.value.offset, page.value.limit))));
    }

    /** GET /posts/:id. */
    method GetPost(id: string) returns (r: Response)
      requires Valid()
      ensures r.status in {200, 400, 404}
      ensures Params.ParseUint(id).None? ==> r == BadPostId
      ensures Params.ParseUint(id).Some? && Params.ParseUint(id).value !in PostIds(posts) ==> r == PostNotFound
      ensures r.status == 200 <==> Params.ParseUint(id).Some? && Params.ParseUint(id).value in PostIds(posts)
      ensures r.status == 200 ==>
                && r.body.PostBody? && r.body.post.post in posts && r.body.post.post.id == Params.ParseUint(id).value
                && r.body.post.author == AuthorOf(users, r.body.post.post.userId)
                && exists u <- users :: u.id == r.body.post.post.userId && r.body.post.author == Public(u)
    {
      var postId := Params.ParseUint(id);
      if postId.None? {
        return BadPostId;
      }
      var found := PostWithIdIn(posts, postId.value);
      FoundPost(posts, postId.value);
      if found.None? {
        return PostNotFound;
      }
      var post := found.value;
      Query.KeysMember(users, UserKey, post.userId);
      var k :| 0 <= k < |users| && users[k].id == post.userId;
      AuthorOfStored(users, users[k]);
      r := Response(200, PostBody(PostView(post, AuthorOf(users, post.userId))));
    }

    /** PUT /posts/:id, for the authenticated `userId`. */
    method UpdatePost(id: string, userId: nat, body: Option<PostRequest>) returns (r: Response)
      requires Valid()
      modifies this
      ensures Valid()
      ensures r.status in {200, 400, 403, 404}
      ensures UpdatePostOutcome(id, userId, body, r, old(State()), State())
    {
      var postId := Params.ParseUint(id);
      if postId.None? {
        return BadPostId;
      }
      var k := Query.Find(posts, PostWithId(postId.value));
      if k.None? {
        return PostNotFound;
      }
      var post := posts[k.value];
      if post.userId != userId {
        return NotTheAuthor;
      }
      if !PostBinds(body) {
        return BadBody;
      }
      var req := body.value;
      post := post.(title := req.title, content := req.content);
      EditPostStep(users, posts, comments, nextUserId, nextPostId, nextCommentId, clock, k.value, req.title, req.content);
      OnlyPostWithId(posts, k.value);
      posts := posts[k.value := post];
      r := Response(200, PostBody(PostView(post, NoUser)));
    }

    /** DELETE /posts/:id, for the authenticated `userId`; the comments on the post go with it. */
    method DeletePost(id: string, userId: nat) returns (r: Response)
      requires Valid()
      modifies this
      ensures Valid()
      ensures r.status in {200, 400, 403, 404}
      ensures DeletePostOutcome(id, userId, r, old(State()), State())
      ensures r.status == 200 ==> Params.ParseUint(id).Some? && Params.ParseUint(id).value !in PostIds(posts)
    {
      var postId := Params.ParseUint(id);
      if postId.None? {
        return BadPostId;
      }
      var found := PostWithIdIn(posts, postId.value);
      if found.None? {
        return PostNotFound;
      }
      var post := found.value;
      if post.userId != userId {
        return NotTheAuthor;
      }
      DeletePostStep(users, posts, comments, nextUserId, nextPostId, nextCommentId, clock, postId.value);
      PostGone(posts, postId.value);
      posts := Query.Filter(posts, OtherThanPost(postId.value));
      comments := Query.Filter(comments, NotOnPost(postId.value));
      r := Response(200, MessageBody("post deleted"));
    }

    /** POST /posts/:id/comments, for the authenticated `userId`. */
    method CreateComment(id: string, userId: nat, body: Option<CommentRequest>) returns (r: Response)
      requires Valid()
      modifies this
      ensures Valid()
      ensures r.status in {201, 400, 404, 500}
      ensures CreateCommentOutcome(id, userId, body, r, old(State()), State())
    {
      var postId := Params.ParseUint(id);
      if postId.None? {
        return BadPostId;
      }
      var found := PostWithIdIn(posts, postId.value);
      if found.None? {
        return PostNotFound;
      }
      var post := found.value;
      if !CommentBinds(body) {
        return BadBody;
      }
      if userId !in UserIds(users) {
        // the foreign key on comments.user_id refuses the insert
        return Response(500, ErrorBody("failed to create comment"));
      }
      FoundPost(posts, postId.value);
      var comment := AppendComment(body.value.content, userId, post.id);
      r := Response(201, CommentBody(CommentView(comment, NoUser)));
    }

    /** Inserts a comment with the next id and the current time. */
    method AppendComment(content: string, userId: nat, postId: nat) returns (c: Comment)
      requires Valid() && userId in UserIds(users) && postId in PostIds(posts)
      modifies this
      ensures Valid()
      ensures c == Comment(old(nextCommentId), content, userId, postId, old(clock))
      ensures State() == old(State()).(comments := old(comments) + [c], nextCommentId := old(nextCommentId) + 1, clock := old(clock) + 1)
    {
      c := Comment(nextCommentId, content, userId, postId, clock);
      AddCommentStep(users, posts, comments, nextUserId, nextPostId, nextCommentId, clock, c);
      comments, nextCommentId, clock := comments + [c], nextCommentId + 1, clock + 1;
    }

    /** GET /posts/:id/comments. */
    method ListComments(id: string) returns (r: Response)
      requires Valid()
      ensures r.status in {200, 400, 404}
      ensures Params.ParseUint(id).None? ==> r == BadPostId
      ensures Params.ParseUint(id).Some? && Params.ParseUint(id).value !in PostIds(posts) ==> r == PostNotFound
      ensures r.status == 200 <==> Params.ParseUint(id).Some? && Params.ParseUint(id).value in PostIds(posts)
      ensures r.status == 200 ==>
                && r == Response(200, CommentsBody(CommentViews(users, CommentsOn(comments, Params.ParseUint(id).value))))
                && (forall c :: c in CommentsOn(comments, Params.ParseUint(id).value) <==>
                                  c in comments && c.postId == Params.ParseUint(id).value)
                && (forall i, j :: 0 <= i < j < |r.body.comments| ==>
                      r.body.comments[i].comment.createdAt < r.body.comments[j].comment.createdAt)
    {
      var postId := Params.ParseUint(id);
      if postId.None? {
        return BadPostId;
      }
      FoundPost(posts, postId.value);
      if PostWithIdIn(posts, postId.value).None? {
        return PostNotFound;
      }
      var listing := CommentsOn(comments, postId.value);
      CommentsOnExactly(comments, postId.value);
      r := Response(200, CommentsBody(CommentViews(users, listing)));
    }

    /**
     * Deleting a user, which no route does: the schema's cascades remove the
     * user's posts, the user's comments and every comment on those posts.
     */
    method DeleteUser(id: nat)
      requires Valid()
      modifies this
      ensures Valid()
      ensures users == Query.Filter(old(users), OtherThanUser(id))
      ensures posts == Query.Filter(old(posts), NotByUser(id))
      ensures comments == Query.Filter(old(comments), SurvivesUser(id, PostIds(posts)))
      ensures id !in UserIds(users)
      ensures forall p <- posts :: p.userId != id
      ensures forall c <- comments :: c.userId != id
      ensures unchanged(this`nextUserId, this`nextPostId, this`nextCommentId, this`clock)
    {
      DeleteUserStep(users, posts, comments, nextUserId, nextPostId, nextCommentId, clock, id);
      UserGone(users, id);
      var ps := Query.Filter(posts, NotByUser(id));
      users, posts, comments := Query.Filter(users, OtherThanUser(id)), ps, Query.Filter(comments, SurvivesUser(id, PostIds(ps)));
    }

    /** The handler of a protected route, run for the authenticated `userId`. */
    method Dispatch(userId: nat, route: ProtectedRoute) returns (r: Response)
      requires Valid()
      modifies this
      ensures Valid()
      ensures r.status != 401
      ensures RouteOutcome(userId, route, r, old(State()), State())
    {
      match route
      case CreatePostRoute(body) =>
        r := CreatePost(userId, body);
      case UpdatePostRoute(id, body) =>
        r := UpdatePost(id, userId, body);
      case DeletePostRoute(id) =>
        r := DeletePost(id, userId);
      case CreateCommentRoute(id, body) =>
        r := CreateComment(id, userId, body);
    }

    /**
     * A protected route: the middleware classifies the `Authorization`
     * header and only an accepted identity reaches the route's handler.
     */
    method ServeProtected(header: string, verify: string -> Option<Middleware.Claims>, route: ProtectedRoute)
      returns (r: Response)
      requires Valid()
      modifies this
      ensures Valid()
      ensures r.status == 401 <==> Middleware.Classify(header, verify).Abort?
      ensures Middleware.Classify(header, verify).Abort? ==>
                r == Response(401, ErrorBody(Middleware.Classify(header, verify).message)) && unchanged(this)
      ensures Middleware.Classify(header, verify).Next? ==>
                RouteOutcome(Middleware.Classify(header, verify).userId, route, r, old(State()), State())
    {
      var outcome := Middleware.Classify(header, verify);
      if outcome.Abort? {
        return Response(outcome.status, ErrorBody(outcome.message));
      }
      r := Dispatch(outcome.userId, route);
    }
  }

  /** The post named by `id` exists and belongs to someone other than `userId`. */
  predicate OwnedByOther(posts: seq<Post>, id: string, userId: nat) {
    && Params.ParseUint(id).Some?
    && PostWithIdIn(posts, Params.ParseUint(id).value).Some?
    && PostWithIdIn(posts, Params.ParseUint(id).value).value.userId != userId
  }

  /** The store's fields as one value: the tables, their counters and the clock. */
  datatype Tables = Tables(users: seq<User>, posts: seq<Post>, comments: seq<Comment>,
                           nextUserId: nat, nextPostId: nat, nextCommentId: nat, clock: nat)

  /**
   * POST /posts for `userId`, from the tables `t0` to `t`: a bad body, then
   * an unknown user (the foreign key), each leave the tables as they were;
   * otherwise the caller's post with the next id and the current time is
   * appended and returned.
   */
  predicate CreatePostOutcome(userId: nat, body: Option<PostRequest>, r: Response, t0: Tables, t: Tables) {
    if !PostBinds(body) then r == BadBody && t == t0
    else if userId !in UserIds(t0.users) then r == Response(500, ErrorBody("failed to create post")) && t == t0
    else
      var p := Post(t0.nextPostId, body.value.title, body.value.content, userId, t0.clock);
      && r == Response(201, PostBody(PostView(p, NoUser)))
      && t == t0.(posts := t0.posts + [p], nextPostId := t0.nextPostId + 1, clock := t0.clock + 1)
  }

  /**
   * PUT /posts/:id for `userId`: a bad id, an unknown post, another user's
   * post, then a bad body, each leave the tables as they were; otherwise
   * only that post's title and content are overwritten.
   */
  predicate UpdatePostOutcome(id: string, userId: nat, body: Option<PostRequest>, r: Response, t0: Tables, t: Tables) {
    match Params.ParseUint(id)
    case None => r == BadPostId && t == t0
    case Some(postId) =>
      match PostWithIdIn(t0.posts, postId)
      case None => r == PostNotFound && t == t0
      case Some(p) =>
        if p.userId != userId then r == NotTheAuthor && t == t0
        else if !PostBinds(body) then r == BadBody && t == t0
        else
          var q := p.(title := body.value.title, content := body.value.content);
          && r == Response(200, PostBody(PostView(q, NoUser)))
          && |t.posts| == |t0.posts|
          && (forall i :: 0 <= i < |t.posts| ==> t.posts[i] == if t0.posts[i].id == postId then q else t0.posts[i])
          && t == t0.(posts := t.posts)
  }

  /**
   * DELETE /posts/:id for `userId`: a bad id, an unknown post and another
   * user's post each leave the tables as they were; otherwise the post and
   * the comments on it are removed and nothing else changes.
   */
  predicate DeletePostOutcome(id: string, userId: nat, r: Response, t0: Tables, t: Tables) {
    match Params.ParseUint(id)
    case None => r == BadPostId && t == t0
    case Some(postId) =>
      match PostWithIdIn(t0.posts, postId)
      case None => r == PostNotFound && t == t0
      case Some(p) =>
        if p.userId != userId then r == NotTheAuthor && t == t0
        else
          && r == Response(200, MessageBody("post deleted"))
          && t == t0.(posts := Query.Filter(t0.posts, OtherThanPost(postId)),
                      comments := Query.Filter(t0.comments, NotOnPost(postId)))
  }

  /**
   * POST /posts/:id/comments for `userId`: a bad id, an unknown post, a bad
   * body, then an unknown user (the foreign key), each leave the tables as
   * they were; otherwise the caller's comment on that post, with the next id
   * and the current time, is appended and returned.
   */
  predicate CreateCommentOutcome(id: string, userId: nat, body: Option<CommentRequest>, r: Response, t0: Tables, t: Tables) {
    match Params.ParseUint(id)
    case None => r == BadPostId && t == t0
    case Some(postId) =>
      match PostWithIdIn(t0.posts, postId)
      case None => r == PostNotFound && t == t0
      case Some(p) =>
        if !CommentBinds(body) then r == BadBody && t == t0
        else if userId !in UserIds(t0.users) then r == Response(500, ErrorBody("failed to create comment")) && t == t0
        else
          var c := Comment(t0.nextCommentId, body.value.content, userId, p.id, t0.clock);
          && r == Response(201, CommentBody(CommentView(c, NoUser)))
          && t == t0.(comments := t0.comments + [c], nextCommentId := t0.nextCommentId + 1, clock := t0.clock + 1)
  }

  /** What a protected route does for the authenticated `userId`: its handler's outcome. */
  predicate RouteOutcome(userId: nat, route: ProtectedRoute, r: Response, t0: Tables, t: Tables) {
    match route
    case CreatePostRoute(body) => CreatePostOutcome(userId, body, r, t0, t)
    case UpdatePostRoute(id, body) => UpdatePostOutcome(id, userId, body, r, t0, t)
    case DeletePostRoute(id) => DeletePostOutcome(id, userId, r, t0, t)
    case CreateCommentRoute(id, body) => CreateCommentOutcome(id, userId, body, r, t0, t)
  }

  /** The post named by `id` exists and belongs to `userId`. */
  predicate OwnedByCaller(posts: seq<Post>, id: string, userId: nat) {
    && Params.ParseUint(id).Some?
    && PostWithIdIn(posts, Params.ParseUint(id).value).Some?
    && PostWithIdIn(posts, Params.ParseUint(id).value).value.userId == userId
  }

  /** When a protected route takes effect, stated apart from the handlers' check order. */
  predicate RouteAccepted(userId: nat, route: ProtectedRoute, t0: Tables) {
    match route
    case CreatePostRoute(body) => PostBinds(body) && userId in UserIds(t0.users)
    case UpdatePostRoute(id, body) => OwnedByCaller(t0.posts, id, userId) && PostBinds(body)
    case DeletePostRoute(id) => OwnedByCaller(t0.posts, id, userId)
    case CreateCommentRoute(id, body) =>
      && Params.ParseUint(id).Some? && Params.ParseUint(id).value in PostIds(t0.posts)
      && CommentBinds(body) && userId in UserIds(t0.users)
  }

  /**
   * A protected route succeeds (200 or 201) exactly when it is accepted,
   * and any other answer leaves the tables as they were; update and
   * delete answer 403 exactly when the post belongs to someone else; no
   * handler answers 401.
   */
  lemma RouteSucceeds(userId: nat, route: ProtectedRoute, r: Response, t0: Tables, t: Tables)
    requires RouteOutcome(userId, route, r, t0, t)
    ensures r.status == 200 || r.status == 201 <==> RouteAccepted(userId, route, t0)
    ensures r.status != 200 && r.status != 201 ==> t == t0
    ensures r.status != 401
    ensures route.UpdatePostRoute? || route.DeletePostRoute? ==>
              (r.status == 403 <==> OwnedByOther(t0.posts, route.id, userId))
  {
    match route
    case CreateCommentRoute(id, body) =>
      if Params.ParseUint(id).Some? {
        FoundPost(t0.posts, Params.ParseUint(id).value);
      }
    case _ =>
  }

  /** Every protected route keeps the store invariant. */
  lemma RouteKeepsInvariant(userId: nat, route: ProtectedRoute, r: Response, t0: Tables, t: Tables)
    requires TablesInvariant(t0) && RouteOutcome(userId, route, r, t0, t)
    ensures TablesInvariant(t)
  {
    match route
    case CreatePostRoute(body) =>
      if t != t0 {
        AddPostStep(t0.users, t0.posts, t0.comments, t0.nextUserId, t0.nextPostId, t0.nextCommentId, t0.clock,
                    t.posts[|t0.posts|]);
      }
    case UpdatePostRoute(id, body) =>
      if t != t0 {
        var postId := Params.ParseUint(id).value;
        var k := Query.Find(t0.posts, PostWithId(postId)).value;
        OnlyPostWithId(t0.posts, k);
        EditPostStep(t0.users, t0.posts, t0.comments, t0.nextUserId, t0.nextPostId, t0.nextCommentId, t0.clock,
                     k, body.value.title, body.value.content);
        assert t.posts == t0.posts[k := t0.posts[k].(title := body.value.title, content := body.value.content)];
      }
    case DeletePostRoute(id) =>
      if t != t0 {
        DeletePostStep(t0.users, t0.posts, t0.comments, t0.nextUserId, t0.nextPostId, t0.nextCommentId, t0.clock,
                       Params.ParseUint(id).value);
      }
    case CreateCommentRoute(id, body) =>
      if t != t0 {
        FoundPost(t0.posts, Params.ParseUint(id).value);
        AddCommentStep(t0.users, t0.posts, t0.comments, t0.nextUserId, t0.nextPostId, t0.nextCommentId, t0.clock,
                       t.comments[|t0.comments|]);
      }
  }

  /** The store invariant of a value of the tables. */
  ghost predicate TablesInvariant(t: Tables) {
    StoreInvariant(t.users, t.posts, t.comments, t.nextUserId, t.nextPostId, t.nextCommentId, t.clock)
  }

  /**
   * The store's invariant: the schema's constraints over the tables, and
   * every stored key and creation time below the counter that issues the
   * next one.
   */
  ghost predicate StoreInvariant(users: seq<User>, posts: seq<Post>, comments: seq<Comment>,
                                 nextUserId: nat, nextPostId: nat, nextCommentId: nat, clock: nat)
  {
    && Consistent(users, posts, comments)
    && nextUserId >= 1 && nextPostId >= 1 && nextCommentId >= 1
    && (forall u <- users :: u.id < nextUserId)
    && (forall p <- posts :: p.id < nextPostId && p.createdAt < clock)
    && (forall c <- comments :: c.id < nextCommentId && c.createdAt < clock)
  }

  lemma RegisterStep(users: seq<User>, posts: seq<Post>, comments: seq<Comment>,
                     nextUserId: nat, nextPostId: nat, nextCommentId: nat, clock: nat, u: User)
    requires StoreInvariant(users, posts, comments, nextUserId, nextPostId, nextCommentId, clock)
    requires !Taken(users, u.username, u.email) && u.username != "" && u.email != "" && u.id == nextUserId
    ensures StoreInvariant(users + [u], posts, comments, nextUserId + 1, nextPostId, nextCommentId, clock)
  {
    RegisterKeepsConsistent(users, posts, comments, u);
  }

  lemma AddPostStep(users: seq<User>, posts: seq<Post>, comments: seq<Comment>,
                    nextUserId: nat, nextPostId: nat, nextCommentId: nat, clock: nat, p: Post)
    requires StoreInvariant(users, posts, comments, nextUserId, nextPostId, nextCommentId, clock)
    requires p.id == nextPostId && p.createdAt == clock && p.userId in UserIds(users)
    ensures StoreInvariant(users, posts + [p], comments, nextUserId, nextPostId + 1, nextCommentId, clock + 1)
  {
    AddPostKeepsConsistent(users, posts, comments, p);
  }

  lemma AddCommentStep(users: seq<User>, posts: seq<Post>, comments: seq<Comment>,
                       nextUserId: nat, nextPostId: nat, nextCommentId: nat, clock: nat, c: Comment)
    requires StoreInvariant(users, posts, comments, nextUserId, nextPostId, nextCommentId, clock)
    requires c.id == nextCommentId && c.createdAt == clock && c.userId in UserIds(users) && c.postId in PostIds(posts)
    ensures StoreInvariant(users, posts, comments + [c], nextUserId, nextPostId, nextCommentId + 1, clock + 1)
  {
    AddCommentKeepsConsistent(users, posts, comments, c);
  }

  lemma EditPostStep(users: seq<User>, posts: seq<Post>, comments: seq<Comment>,
                     nextUserId: nat, nextPostId: nat, nextCommentId: nat, clock: nat,
                     k: nat, title: string, content: string)
    requires StoreInvariant(users, posts, comments, nextUserId, nextPostId, nextCommentId, clock) && k < |posts|
    ensures StoreInvariant(users, posts[k := posts[k].(title := title, content := content)], comments,
                           nextUserId, nextPostId, nextCommentId, clock)
  {
    EditPostKeepsConsistent(users, posts, comments, k, title, content);
    var t := posts[k := posts[k].(title := title, content := content)];
    forall p | p in t ensures p.id < nextPostId && p.createdAt < clock {
      var i :| 0 <= i < |t| && t[i] == p;
      assert posts[i] in posts;
    }
  }

  lemma DeletePostStep(users: seq<User>, posts: seq<Post>, comments: seq<Comment>,
                       nextUserId: nat, nextPostId: nat, nextCommentId: nat, clock: nat, id: nat)
    requires StoreInvariant(users, posts, comments, nextUserId, nextPostId, nextCommentId, clock)
    ensures StoreInvariant(users, Query.Filter(posts, OtherThanPost(id)), Query.Filter(comments, NotOnPost(id)),
                           nextUserId, nextPostId, nextCommentId, clock)
  {
    DeletePostKeepsConsistent(users, posts, comments, id);
  }

  lemma DeleteUserStep(users: seq<User>, posts: seq<Post>, comments: seq<Comment>,
                       nextUserId: nat, nextPostId: nat, nextCommentId: nat, clock: nat, id: nat)
    requires StoreInvariant(users, posts, comments, nextUserId, nextPostId, nextCommentId, clock)
    ensures var ps := Query.Filter(posts, NotByUser(id));
            StoreInvariant(Query.Filter(users, OtherThanUser(id)), ps, Query.Filter(comments, SurvivesUser(id, PostIds(ps))),
                           nextUserId, nextPostId, nextCommentId, clock)
  {
    DeleteUserKeepsConsistent(users, posts, comments, id);
  }

  /** The lookup by id finds a post exactly when one with that id is stored. */
  lemma FoundPost(posts: seq<Post>, id: nat)
    ensures PostWithIdIn(posts, id).Some? <==> id in PostIds(posts)
    ensures PostWithIdIn(posts, id).Some? ==> PostWithIdIn(posts, id).value in posts && PostWithIdIn(posts, id).value.id == id
  {
    Query.KeysMember(posts, PostKey, id);
    if id in PostIds(posts) {
      var k :| 0 <= k < |posts| && posts[k].id == id;
      assert PostWithId(id)(posts[k]);
    }
  }

  /** With unique keys, the row at `k` is the only one carrying its id. */
  lemma OnlyPostWithId(posts: seq<Post>, k: nat)
    requires Query.Ascending(posts, PostKey) && k < |posts|
    ensures forall i :: 0 <= i < |posts| ==> (posts[i].id == posts[k].id <==> i == k)
  {
    forall i | 0 <= i < |posts| ensures posts[i].id == posts[k].id <==> i == k {
      assert i < k ==> PostKey(posts[i]) < PostKey(posts[k]);
      assert k < i ==> PostKey(posts[k]) < PostKey(posts[i]);
    }
  }

  /**
   * A client of the register contract: on an empty store, a well-formed
   * registration whose password hashes is stored as user 1 with the hash.
   */
  method RegisterFirst(req: RegisterRequest, hash: string -> Option<string>)
    requires RegisterBinds(Some(req)) && hash(req.password).Some?
  {
    var store := new Store();
    var r := store.Register(Some(req), hash);
    assert r.status == 201;
    assert store.users == [User(1, req.username, hash(req.password).value, req.email)];
  }

  /** A second registration reusing a stored email conflicts and stores nothing. */
  method RegisterSameEmail(store: Store, u: User, hash: string -> Option<string>)
    requires store.Valid() && store.users == [u]
    modifies store
  {
    var r := store.Register(Some(RegisterRequest("b", "q", u.email)), hash);
    assert Taken([u], "b", u.email);
    assert r.status == 409 && store.users == [u];
  }

  /**
   * A client of the login and create-post contracts: the registered user
   * logs in and sees only their public fields, and the post created with
   * their id is owned by them.
   */
  method LoginThenPost(store: Store, u: User, check: (string, string) -> bool, issue: (nat, string) -> Option<string>)
    requires store.Valid() && store.users == [u] && u.username != "" && check(u.password, "p")
    requires issue(u.id, u.username).Some?
    modifies store
  {
    var r := store.Login(Some(LoginRequest(u.username, "p")), check, issue);
    assert u in store.users;
    assert r.status == 200 && r.body.user == Public(u);
    r := store.CreatePost(u.id, Some(PostRequest("t", "c")));
    assert u.id in UserIds(store.users);
    assert r.status == 201 && r.body.post.post.userId == u.id;
  }

  /** Once a post is deleted none of its comments remain, and listing its comments answers 404. */
  method DeleteThenListComments(store: Store, id: string, userId: nat)
    requires store.Valid()
    modifies store
  {
    var r := store.DeletePost(id, userId);
    if r.status == 200 {
      var postId := Params.ParseUint(id).value;
      assert forall c <- store.comments :: c.postId != postId;
      var listing := store.ListComments(id);
      assert listing == PostNotFound;
    }
  }
}
