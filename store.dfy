/**
 * The backend's route handlers over its tables, in local-database mode.
 * Each table is a field of one Database object that the handlers update in
 * place: users keyed by their (unique) username, the watchlists as a set of
 * (user, anime) pairs, the manga library as a map keyed by (user, manga),
 * posts and reviews in creation order. A Session object holds
 * `req.session.user`, which signup, login and logout change.
 */
module Store {
  import opened Js
  import opened Validation

  /** `users.username VARCHAR(50)`. */
  const MaxUsernameLength: nat := 50
  /** `manga_library.status VARCHAR(30)`. */
  const MaxStatusLength: nat := 30
  /** `LIMIT` of GET /api/posts. */
  const PostListLimit: nat := 50
  /** `LIMIT` of GET /api/reviews/:targetId. */
  const ReviewListLimit: nat := 30

  datatype UserRow = UserRow(id: nat, passwordHash: string)
  datatype LibraryRow = LibraryRow(status: string, chaptersRead: int, volumesRead: int)
  datatype PostRow = PostRow(id: nat, userId: nat, content: string, category: string)
  datatype ReviewRow = ReviewRow(id: nat, userId: nat, targetId: int, targetType: string,
                                 rating: int, comment: string)

  /** What a handler answers: `{success: true}`, `{user}`, `{success, id}`, or an error status with its message. */
  datatype Reply = Done | SignedIn(username: string) | Created(id: nat) | Failed(error: HttpError)

  const InvalidCredentials: HttpError := HttpError(401, "Invalid credentials")

  /** How a username is stored: normalised, not empty, and within the column's length. */
  predicate StoredUsername(name: string) {
    name != "" && |name| <= MaxUsernameLength && IsNormalUsername(name)
  }

  predicate ValidPost(p: PostRow) {
    0 < |p.content| <= MaxTextLength && p.category in PostCategories
  }

  predicate ValidReview(r: ReviewRow) {
    r.targetId != 0 && r.targetType in ReviewTargetTypes && 1 <= r.rating <= 5
    && |r.comment| <= MaxTextLength
  }

  /**
   * Assigning a text to a `VARCHAR(n)` column: a longer value is an error
   * unless everything past its n-th character is a space, which is cut off.
   */
  function FitVarchar(s: string, n: nat): (r: Option<string>)
    ensures r.None? <==> exists k :: n <= k < |s| && s[k] != ' '
    ensures r.Some? ==> |r.value| == Min(|s|, n) && r.value == s[..|r.value|]
  {
    if |s| <= n then Some(s)
    else if forall k :: n <= k < |s| ==> s[k] == ' ' then Some(s[..n])
    else None
  }

  /** A value with no white space at its end fits exactly when it is short enough. */
  lemma FitVarcharUnpadded(s: string, n: nat)
    requires Unpadded(s)
    ensures FitVarchar(s, n).Some? <==> |s| <= n
  {
    if |s| > n {
      assert s[|s| - 1] != ' ';
    }
  }

  /** The users table with the next id its sequence hands out. */
  ghost predicate UsersTable(users: map<string, UserRow>, nextId: nat) {
    && (forall name :: name in users ==> StoredUsername(name) && users[name].id < nextId)
    && (forall a, b :: a in users && b in users && a != b ==> users[a].id != users[b].id)
  }

  /** Drawing an id leaves the table valid, and the drawn id is above every stored one. */
  lemma UsersTableDraw(users: map<string, UserRow>, nextId: nat)
    requires UsersTable(users, nextId)
    ensures UsersTable(users, nextId + 1)
    ensures forall name :: name in users ==> users[name].id < nextId
  {
  }

  /** Inserting a new stored name under an unused id already drawn keeps the users table valid. */
  lemma UsersTableInsert(users: map<string, UserRow>, nextId: nat, id: nat, name: string, hash: string)
    requires UsersTable(users, nextId) && StoredUsername(name) && name !in users && id < nextId
    requires forall other :: other in users ==> users[other].id != id
    ensures UsersTable(users[name := UserRow(id, hash)], nextId)
  {
  }

  /** Every library status fits `VARCHAR(30)`. */
  ghost predicate LibraryTable(library: map<(nat, int), LibraryRow>) {
    forall key :: key in library ==> |library[key].status| <= MaxStatusLength
  }

  /** Writing a row whose status fits, or deleting a row, keeps the library valid. */
  lemma LibraryTableWrite(library: map<(nat, int), LibraryRow>, key: (nat, int), row: LibraryRow)
    requires LibraryTable(library) && |row.status| <= MaxStatusLength
    ensures LibraryTable(library[key := row])
    ensures LibraryTable(library - {key})
  {
  }

  /** Every post passed its checks; ids increase in creation order and are already drawn. */
  ghost predicate PostsTable(posts: seq<PostRow>, nextId: nat) {
    && (forall i :: 0 <= i < |posts| ==> ValidPost(posts[i]) && posts[i].id < nextId)
    && (forall i, j :: 0 <= i < j < |posts| ==> posts[i].id < posts[j].id)
  }

  lemma PostsTableAppend(posts: seq<PostRow>, nextId: nat, p: PostRow)
    requires PostsTable(posts, nextId) && ValidPost(p) && p.id == nextId
    ensures PostsTable(posts + [p], nextId + 1)
  {
  }

  /** Every review passed its checks; ids increase in creation order and are already drawn. */
  ghost predicate ReviewsTable(reviews: seq<ReviewRow>, nextId: nat) {
    && (forall i :: 0 <= i < |reviews| ==> ValidReview(reviews[i]) && reviews[i].id < nextId)
    && (forall i, j :: 0 <= i < j < |reviews| ==> reviews[i].id < reviews[j].id)
  }

  lemma ReviewsTableAppend(reviews: seq<ReviewRow>, nextId: nat, r: ReviewRow)
    requires ReviewsTable(reviews, nextId) && ValidReview(r) && r.id == nextId
    ensures ReviewsTable(reviews + [r], nextId + 1)
  {
  }

  /**
   * `INSERT INTO manga_library ... ON CONFLICT (user_id, manga_id) DO UPDATE SET status`:
   * an existing row gets only its status overwritten, a new row starts with nothing read.
   */
  function UpsertStatus(library: map<(nat, int), LibraryRow>, key: (nat, int), status: string)
    : (r: map<(nat, int), LibraryRow>)
    ensures r.Keys == library.Keys + {key}
    ensures key in library ==> r[key] == LibraryRow(status, library[key].chaptersRead, library[key].volumesRead)
    ensures key !in library ==> r[key] == LibraryRow(status, 0, 0)
    ensures forall k :: k in library && k != key ==> r[k] == library[k]
  {
    if key in library then library[key := library[key].(status := status)]
    else library[key := LibraryRow(status, 0, 0)]
  }

  /** Adding the same manga twice with the same status is the same as adding it once. */
  lemma UpsertStatusIdempotent(library: map<(nat, int), LibraryRow>, key: (nat, int), status: string)
    ensures UpsertStatus(UpsertStatus(library, key, status), key, status) == UpsertStatus(library, key, status)
  {
  }

  /** `SET col = COALESCE($n, col)` for status, chapters and volumes: a field changes only when given. */
  function Coalesce(row: LibraryRow, patch: LibraryPatch): (r: LibraryRow)
    ensures patch.status.None? ==> r.status == row.status
    ensures patch.status.Some? ==> r.status == patch.status.value
    ensures patch.chaptersRead.None? ==> r.chaptersRead == row.chaptersRead
    ensures patch.chaptersRead.Some? ==> r.chaptersRead == patch.chaptersRead.value
    ensures patch.volumesRead.None? ==> r.volumesRead == row.volumesRead
    ensures patch.volumesRead.Some? ==> r.volumesRead == patch.volumesRead.value
  {
    LibraryRow(
      if patch.status.Some? then patch.status.value else row.status,
      if patch.chaptersRead.Some? then patch.chaptersRead.value else row.chaptersRead,
      if patch.volumesRead.Some? then patch.volumesRead.value else row.volumesRead)
  }

  /** An update with no fields leaves the row as it is, and repeating an update changes nothing more. */
  lemma CoalesceLaws(row: LibraryRow, patch: LibraryPatch)
    ensures Coalesce(row, LibraryPatch(None, None, None)) == row
    ensures Coalesce(Coalesce(row, patch), patch) == Coalesce(row, patch)
  {
  }

  /** An empty status with chapters 0: the status is kept and the chapters are reset to 0. */
  lemma UpdateEmptyStatusZeroChapters(row: LibraryRow)
    ensures Coalesce(row, UpdatePatch(Some(""), Some(0), None)) == LibraryRow(row.status, 0, row.volumesRead)
  {
  }

  function Reversed<T>(s: seq<T>): (r: seq<T>)
    ensures |r| == |s|
    ensures forall i :: 0 <= i < |s| ==> r[i] == s[|s| - 1 - i]
  {
    seq(|s|, i requires 0 <= i < |s| => s[|s| - 1 - i])
  }

  predicate ReviewMatches(r: ReviewRow, targetId: int, targetType: string) {
    r.targetId == targetId && r.targetType == targetType
  }

  /** `WHERE target_id = $1 AND target_type = $2 ORDER BY created_at DESC` over rows in creation order. */
  function NewestMatching(rows: seq<ReviewRow>, targetId: int, targetType: string): (r: seq<ReviewRow>)
    ensures |r| <= |rows|
    ensures forall x :: x in r <==> x in rows && ReviewMatches(x, targetId, targetType)
    decreases |rows|
  {
    if rows == [] then []
    else
      var last := rows[|rows| - 1];
      assert forall x :: x in rows <==> x in rows[..|rows| - 1] || x == last;
      (if ReviewMatches(last, targetId, targetType) then [last] else [])
      + NewestMatching(rows[..|rows| - 1], targetId, targetType)
  }

  /** Rows created in increasing id order come out with decreasing ids: newest first. */
  lemma {:induction false} NewestMatchingOrdered(rows: seq<ReviewRow>, targetId: int, targetType: string)
    requires forall i, j :: 0 <= i < j < |rows| ==> rows[i].id < rows[j].id
    ensures forall i, j :: 0 <= i < j < |NewestMatching(rows, targetId, targetType)| ==>
              NewestMatching(rows, targetId, targetType)[i].id > NewestMatching(rows, targetId, targetType)[j].id
    decreases |rows|
  {
    if rows != [] {
      var last, older := rows[|rows| - 1], rows[..|rows| - 1];
      NewestMatchingOrdered(older, targetId, targetType);
      forall x | x in NewestMatching(older, targetId, targetType) ensures x.id < last.id {
        var k :| 0 <= k < |older| && older[k] == x;
      }
    }
  }

  /** `LIMIT n` over rows listed newest first keeps the n newest: every row left out is older than every row kept. */
  lemma TakeNewest(rows: seq<ReviewRow>, n: nat)
    requires forall i, j :: 0 <= i < j < |rows| ==> rows[i].id > rows[j].id
    ensures forall r, s :: r in rows && r !in Take(rows, n) && s in Take(rows, n) ==> r.id < s.id
  {
    var kept := Take(rows, n);
    forall r, s | r in rows && r !in kept && s in kept ensures r.id < s.id {
      var k :| 0 <= k < |rows| && rows[k] == r;
      var i :| 0 <= i < |kept| && kept[i] == s;
      assert k >= |kept|;
    }
  }

  /** `req.session`: who is logged in on one client's session. */
  class Session {
    var user: Option<SessionUser>

    constructor ()
      ensures user == None
    {
      user := None;
    }

    /** POST /api/logout: the session is destroyed. */
    method Destroy()
      modifies this
      ensures user == None
    {
      user := None;
    }
  }

  class Database {
    var users: map<string, UserRow>
    var nextUserId: nat
    var watchlists: set<(nat, int)>
    var library: map<(nat, int), LibraryRow>
    var posts: seq<PostRow>
    var nextPostId: nat
    var reviews: seq<ReviewRow>
    var nextReviewId: nat

    /** Usernames are stored normalised and fit their column; ids are distinct and already drawn. */
    ghost predicate UsersValid()
      reads this`users, this`nextUserId
    {
      UsersTable(users, nextUserId)
    }

    ghost predicate LibraryValid()
      reads this`library
    {
      LibraryTable(library)
    }

    ghost predicate PostsValid()
      reads this`posts, this`nextPostId
    {
      PostsTable(posts, nextPostId)
    }

    ghost predicate ReviewsValid()
      reads this`reviews, this`nextReviewId
    {
      ReviewsTable(reviews, nextReviewId)
    }

    /** The table constraints and what the handlers' checks guarantee about every stored row. */
    ghost predicate Valid()
      reads this
    {
      UsersValid() && LibraryValid() && PostsValid() && ReviewsValid()
    }

    /** `initDB` on an empty database: every table empty, every SERIAL at 1. */
    constructor ()
      ensures Valid()
      ensures users == map[] && watchlists == {} && library == map[] && posts == [] && reviews == []
      ensures nextUserId == 1 && nextPostId == 1 && nextReviewId == 1
    {
      users, watchlists, library, posts, reviews := map[], {}, map[], [], [];
      nextUserId, nextPostId, nextReviewId := 1, 1, 1;
    }

    /**
     * POST /api/signup. `hash` is what the password hash function returned
     * for the password. A username longer than the column is rejected (500)
     * while the INSERT is planned, before an id is drawn; a taken username
     * is a unique violation (409) after the id is drawn.
     */
    method Signup(session: Session, username: Option<string>, password: Option<string>, hash: string)
      returns (reply: Reply)
      requires Valid()
      modifies this`users, this`nextUserId, session
      ensures Valid()
      ensures var checked := ValidateSignup(username, password);
              if checked.Reject? then
                && reply == Failed(checked.error)
                && users == old(users) && nextUserId == old(nextUserId) && session.user == old(session.user)
              else if |checked.value.username| > MaxUsernameLength then
                && reply == Failed(HttpError(500, "Server error"))
                && users == old(users) && nextUserId == old(nextUserId) && session.user == old(session.user)
              else if checked.value.username in old(users) then
                && reply == Failed(HttpError(409, "User already exists"))
                && users == old(users) && nextUserId == old(nextUserId) + 1 && session.user == old(session.user)
              else
                && reply == SignedIn(checked.value.username)
                && users == old(users)[checked.value.username := UserRow(old(nextUserId), hash)]
                && nextUserId == old(nextUserId) + 1
                && session.user == Some(SessionUser(old(nextUserId), checked.value.username))
    {
      var checked := ValidateSignup(username, password);
      if checked.Reject? {
        return Failed(checked.error);
      }
      reply := Register(session, checked.value.username, hash);
    }

    /** Signup's database part for a name that passed the checks and is already normalised. */
    method Register(session: Session, name: string, hash: string) returns (reply: Reply)
      requires Valid() && name != "" && IsNormalUsername(name)
      modifies this`users, this`nextUserId, session
      ensures Valid()
      ensures |name| > MaxUsernameLength ==>
                && reply == Failed(HttpError(500, "Server error"))
                && users == old(users) && nextUserId == old(nextUserId) && session.user == old(session.user)
      ensures |name| <= MaxUsernameLength && name in old(users) ==>
                && reply == Failed(HttpError(409, "User already exists"))
                && users == old(users) && nextUserId == old(nextUserId) + 1 && session.user == old(session.user)
      ensures |name| <= MaxUsernameLength && name !in old(users) ==>
                && reply == SignedIn(name)
                && users == old(users)[name := UserRow(old(nextUserId), hash)]
                && nextUserId == old(nextUserId) + 1
                && session.user == Some(SessionUser(old(nextUserId), name))
    {
      // The bound name is checked against VARCHAR(50) while the statement is
      // planned; the row's id is drawn from the sequence before the unique check.
      FitVarcharUnpadded(name, MaxUsernameLength);
      if FitVarchar(name, MaxUsernameLength).None? {
        return Failed(HttpError(500, "Server error"));
      }
      UsersTableDraw(users, nextUserId);
      var id := nextUserId;
      nextUserId := nextUserId + 1;
      if name in users {
        return Failed(HttpError(409, "User already exists"));
      }
      UsersTableInsert(users, nextUserId, id, name, hash);
      users := users[name := UserRow(id, hash)];
      session.user := Some(SessionUser(id, name));
      reply := SignedIn(name);
    }

    /**
     * POST /api/login. `matches(password, hash)` is the password hash
     * comparison. An unknown username and a wrong password get the same answer.
     */
    method Login(session: Session, username: Option<string>, password: Option<string>,
                 matches: (string, string) -> bool) returns (reply: Reply)
      modifies session
      ensures var name := if username.Some? then NormalizeUsername(username.value) else "";
              if username.None? || name !in users then
                reply == Failed(InvalidCredentials) && session.user == old(session.user)
              else if password.None? then
                reply == Failed(HttpError(500, "Login error")) && session.user == old(session.user)
              else if !matches(password.value, users[name].passwordHash) then
                reply == Failed(InvalidCredentials) && session.user == old(session.user)
              else
                && reply == SignedIn(name)
                && session.user == Some(SessionUser(users[name].id, name))
    {
      if username.None? {
        return Failed(InvalidCredentials);
      }
      var name := NormalizeUsername(username.value);
      if name !in users {
        return Failed(InvalidCredentials);
      }
      var row := users[name];
      if password.None? {
        return Failed(HttpError(500, "Login error"));
      }
      if !matches(password.value, row.passwordHash) {
        return Failed(InvalidCredentials);
      }
      session.user := Some(SessionUser(row.id, name));
      reply := SignedIn(name);
    }

    /** POST /api/watchlist/add: `INSERT ... ON CONFLICT DO NOTHING`; a missing id violates NOT NULL. */
    method AddToWatchlist(session: Session, animeId: Option<int>) returns (reply: Reply)
      requires Valid()
      modifies this`watchlists
      ensures Valid()
      ensures session.user.None? ==> reply == Failed(HttpError(401, "Login required")) && watchlists == old(watchlists)
      ensures session.user.Some? && animeId.None? ==>
                reply == Failed(HttpError(500, "Error adding to watchlist")) && watchlists == old(watchlists)
      ensures session.user.Some? && animeId.Some? ==>
                reply == Done && watchlists == old(watchlists) + {(session.user.value.id, animeId.value)}
    {
      var auth := RequireAuth(session.user);
      if auth.Reject? {
        return Failed(auth.error);
      }
      if animeId.None? {
        return Failed(HttpError(500, "Error adding to watchlist"));
      }
      watchlists := watchlists + {(auth.value.id, animeId.value)};
      reply := Done;
    }

    /** POST /api/watchlist/remove: deletes the caller's pair only (none when the id is missing). */
    method RemoveFromWatchlist(session: Session, animeId: Option<int>) returns (reply: Reply)
      requires Valid()
      modifies this`watchlists
      ensures Valid()
      ensures session.user.None? ==> reply == Failed(HttpError(401, "Login required")) && watchlists == old(watchlists)
      ensures session.user.Some? && animeId.None? ==> reply == Done && watchlists == old(watchlists)
      ensures session.user.Some? && animeId.Some? ==>
                reply == Done && watchlists == old(watchlists) - {(session.user.value.id, animeId.value)}
    {
      var auth := RequireAuth(session.user);
      if auth.Reject? {
        return Failed(auth.error);
      }
      if animeId.Some? {
        watchlists := watchlists - {(auth.value.id, animeId.value)};
      }
      reply := Done;
    }

    /** POST /api/manga-library/add: the whitelisted status is upserted for the caller's (user, manga) row. */
    method AddToLibrary(session: Session, mangaId: Option<int>, status: Option<string>) returns (reply: Reply)
      requires Valid()
      modifies this`library
      ensures Valid()
      ensures session.user.None? ==> reply == Failed(HttpError(401, "Login required")) && library == old(library)
      ensures session.user.Some? && mangaId.None? ==>
                reply == Failed(HttpError(500, "Error adding to manga library")) && library == old(library)
      ensures session.user.Some? && mangaId.Some? ==>
                && reply == Done
                && library == UpsertStatus(old(library), (session.user.value.id, mangaId.value), MangaStatus(status))
    {
      var auth := RequireAuth(session.user);
      if auth.Reject? {
        return Failed(auth.error);
      }
      if mangaId.None? {
        return Failed(HttpError(500, "Error adding to manga library"));
      }
      var s := MangaStatus(status);
      var key := (auth.value.id, mangaId.value);
      LibraryTableWrite(library, key, if key in library then library[key].(status := s) else LibraryRow(s, 0, 0));
      library := UpsertStatus(library, key, s);
      reply := Done;
    }

    /**
     * POST /api/manga-library/update: the `COALESCE` update of the caller's
     * row, if it exists. The status is not whitelisted here: it is fitted to
     * VARCHAR(30) while the UPDATE is planned, so one that does not fit fails
     * whether or not a row matches.
     */
    method UpdateLibrary(session: Session, mangaId: Option<int>, status: Option<string>,
                         chaptersRead: Option<int>, volumesRead: Option<int>) returns (reply: Reply)
      requires Valid()
      modifies this`library
      ensures Valid()
      ensures session.user.None? ==> reply == Failed(HttpError(401, "Login required")) && library == old(library)
      ensures session.user.Some? ==>
                var key := (session.user.value.id, if mangaId.Some? then mangaId.value else 0);
                var patch := UpdatePatch(status, chaptersRead, volumesRead);
                var fitted := if patch.status.Some? then FitVarchar(patch.status.value, MaxStatusLength) else None;
                if patch.status.Some? && fitted.None? then
                  reply == Failed(HttpError(500, "Error updating manga")) && library == old(library)
                else if mangaId.None? || key !in old(library) then
                  reply == Done && library == old(library)
                else
                  && reply == Done
                  && library == old(library)[key := Coalesce(old(library)[key], patch.(status := fitted))]
    {
      var auth := RequireAuth(session.user);
      if auth.Reject? {
        return Failed(auth.error);
      }
      var patch := UpdatePatch(status, chaptersRead, volumesRead);
      if patch.status.Some? {
        var fitted := FitVarchar(patch.status.value, MaxStatusLength);
        if fitted.None? {
          return Failed(HttpError(500, "Error updating manga"));
        }
        patch := patch.(status := fitted);
      }
      if mangaId.None? || (auth.value.id, mangaId.value) !in library {
        return Done;
      }
      var key := (auth.value.id, mangaId.value);
      LibraryTableWrite(library, key, Coalesce(library[key], patch));
      library := library[key := Coalesce(library[key], patch)];
      reply := Done;
    }

    /** POST /api/manga-library/remove: deletes the caller's row for that manga only. */
    method RemoveFromLibrary(session: Session, mangaId: Option<int>) returns (reply: Reply)
      requires Valid()
      modifies this`library
      ensures Valid()
      ensures session.user.None? ==> reply == Failed(HttpError(401, "Login required")) && library == old(library)
      ensures session.user.Some? && mangaId.None? ==> reply == Done && library == old(library)
      ensures session.user.Some? && mangaId.Some? ==>
                reply == Done && library == old(library) - {(session.user.value.id, mangaId.value)}
    {
      var auth := RequireAuth(session.user);
      if auth.Reject? {
        return Failed(auth.error);
      }
      if mangaId.Some? {
        library := library - {(auth.value.id, mangaId.value)};
      }
      reply := Done;
    }

    /** POST /api/posts: a checked post is appended with the next id, which is returned. */
    method CreatePost(session: Session, content: Option<string>, category: Option<string>) returns (reply: Reply)
      requires Valid()
      modifies this`posts, this`nextPostId
      ensures Valid()
      ensures session.user.None? ==>
                && reply == Failed(HttpError(401, "Login required"))
                && posts == old(posts) && nextPostId == old(nextPostId)
      ensures session.user.Some? && ValidatePost(content, category).Reject? ==>
                && reply == Failed(ValidatePost(content, category).error)
                && posts == old(posts) && nextPostId == old(nextPostId)
      ensures session.user.Some? && ValidatePost(content, category).Accept? ==>
                var p := ValidatePost(content, category).value;
                && reply == Created(old(nextPostId))
                && posts == old(posts) + [PostRow(old(nextPostId), session.user.value.id, p.content, p.category)]
                && nextPostId == old(nextPostId) + 1
    {
      var auth := RequireAuth(session.user);
      if auth.Reject? {
        return Failed(auth.error);
      }
      var checked := ValidatePost(content, category);
      if checked.Reject? {
        return Failed(checked.error);
      }
      var id := nextPostId;
      PostsTableAppend(posts, id, PostRow(id, auth.value.id, checked.value.content, checked.value.category));
      posts := posts + [PostRow(id, auth.value.id, checked.value.content, checked.value.category)];
      nextPostId := nextPostId + 1;
      reply := Created(id);
    }

    /** POST /api/reviews: a checked review is appended with the next id. */
    method CreateReview(session: Session, targetId: Option<int>, targetType: Option<string>,
                        rating: Option<int>, comment: Option<string>) returns (reply: Reply)
      requires Valid()
      modifies this`reviews, this`nextReviewId
      ensures Valid()
      ensures session.user.None? ==>
                && reply == Failed(HttpError(401, "Login required"))
                && reviews == old(reviews) && nextReviewId == old(nextReviewId)
      ensures session.user.Some? && ValidateReview(targetId, targetType, rating, comment).Reject? ==>
                && reply == Failed(ValidateReview(targetId, targetType, rating, comment).error)
                && reviews == old(reviews) && nextReviewId == old(nextReviewId)
      ensures session.user.Some? && ValidateReview(targetId, targetType, rating, comment).Accept? ==>
                var v := ValidateReview(targetId, targetType, rating, comment).value;
                && reply == Done
                && reviews == old(reviews) + [ReviewRow(old(nextReviewId), session.user.value.id,
                                                        v.targetId, v.targetType, v.rating, v.comment)]
                && nextReviewId == old(nextReviewId) + 1
    {
      var auth := RequireAuth(session.user);
      if auth.Reject? {
        return Failed(auth.error);
      }
      var checked := ValidateReview(targetId, targetType, rating, comment);
      if checked.Reject? {
        return Failed(checked.error);
      }
      var v := checked.value;
      var row := ReviewRow(nextReviewId, auth.value.id, v.targetId, v.targetType, v.rating, v.comment);
      ReviewsTableAppend(reviews, nextReviewId, row);
      reviews := reviews + [row];
      nextReviewId := nextReviewId + 1;
      reply := Done;
    }

    /** GET /api/watchlist for a user: the anime ids paired with that user. */
    function WatchlistOf(userId: nat): (ids: set<int>)
      reads this
      ensures forall a :: a in ids <==> (userId, a) in watchlists
    {
      set pair | pair in watchlists && pair.0 == userId :: pair.1
    }

    /** GET /api/posts: newest first, or oldest first for `?sort=oldest`; at most 50. */
    function ListPosts(sort: Option<string>): (shown: seq<PostRow>)
      reads this
      requires Valid()
      ensures |shown| == Min(|posts|, PostListLimit)
      ensures sort == Some("oldest") ==> forall i :: 0 <= i < |shown| ==> shown[i] == posts[i]
      ensures sort != Some("oldest") ==> forall i :: 0 <= i < |shown| ==> shown[i] == posts[|posts| - 1 - i]
      ensures sort == Some("oldest") ==> forall i, j :: 0 <= i < j < |shown| ==> shown[i].id < shown[j].id
      ensures sort != Some("oldest") ==> forall i, j :: 0 <= i < j < |shown| ==> shown[i].id > shown[j].id
    {
      if sort == Some("oldest") then Take(posts, PostListLimit) else Take(Reversed(posts), PostListLimit)
    }

    /** GET /api/reviews/:targetId?type=: that target's reviews (type `anime` unless given), newest first, at most 30. */
    function ReviewsFor(targetId: int, targetType: Option<string>): (shown: seq<ReviewRow>)
      reads this
      requires Valid()
      ensures |shown| <= ReviewListLimit
      ensures forall r :: r in shown ==> r in reviews && ReviewMatches(r, targetId, QueryType(targetType))
      ensures |shown| < ReviewListLimit ==>
                forall r :: r in reviews && ReviewMatches(r, targetId, QueryType(targetType)) ==> r in shown
      ensures forall i, j :: 0 <= i < j < |shown| ==> shown[i].id > shown[j].id
      ensures forall r, s ::
                r in reviews && ReviewMatches(r, targetId, QueryType(targetType)) && r !in shown && s in shown
                ==> r.id < s.id
    {
      var all := NewestMatching(reviews, targetId, QueryType(targetType));
      NewestMatchingOrdered(reviews, targetId, QueryType(targetType));
      TakeNewest(all, ReviewListLimit);
      var shown := Take(all, ReviewListLimit);
      assert forall r :: r in shown ==> r in all;
      assert |shown| < ReviewListLimit ==> shown == all;
      shown
    }
  }

  /** `req.query.type || 'anime'`: not whitelisted, only defaulted. */
  function QueryType(targetType: Option<string>): (t: string)
    ensures targetType.Some? && targetType.value != "" ==> t == targetType.value
    ensures targetType.None? || targetType.value == "" ==> t == "anime"
  {
    if targetType.Some? && targetType.value != "" then targetType.value else "anime"
  }

  /** Adding the same anime twice leaves the watchlist as one add does: one (user, anime) entry. */
  method AddTwiceKeepsOneEntry(db: Database, session: Session, animeId: int)
    requires db.Valid() && session.user.Some?
    modifies db`watchlists
    ensures db.Valid()
    ensures db.watchlists == old(db.watchlists) + {(session.user.value.id, animeId)}
  {
    var first := db.AddToWatchlist(session, Some(animeId));
    var second := db.AddToWatchlist(session, Some(animeId));
  }

  /** A second signup under the same name, padded with white space or differently cased, is a conflict. */
  method SignupTwiceConflicts(db: Database, first: Session, second: Session, name: string,
                              front: string, back: string, password: string, hash1: string, hash2: string)
    returns (reply: Reply)
    requires db.Valid()
    requires !AllWhiteSpace(name) && |name| <= MaxUsernameLength && password != ""
    requires AllWhiteSpace(front) && AllWhiteSpace(back)
    modifies db`users, db`nextUserId, first, second
    ensures reply == Failed(HttpError(409, "User already exists"))
  {
    var again := front + ToLowerCase(name) + back;
    ValidateSignupIgnoresPaddingAndCase(front, name, back, Some(password));
    var r1 := db.Signup(first, Some(name), Some(password), hash1);
    reply := db.Signup(second, Some(again), Some(password), hash2);
  }
}
