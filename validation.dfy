/**
 * The backend's request checks: the session guard and the normalisation and
 * validation each handler applies to its body before it touches a table.
 * A body field is `None` when it is missing, `undefined` or `null`.
 */
module Validation {
  import opened Js

  /** An HTTP error status with the JSON `message` the handler sends. */
  datatype HttpError = HttpError(status: nat, message: string)

  /** A request that passed its checks (with the values to store), or the error it is answered with. */
  datatype Checked<T> = Accept(value: T) | Reject(error: HttpError)

  /** `req.session.user`: who is logged in on this session. */
  datatype SessionUser = SessionUser(id: nat, username: string)

  /** `requireAuth`: 401 when the session has no user, otherwise the handler runs for that user. */
  function RequireAuth(user: Option<SessionUser>): (r: Checked<SessionUser>)
    ensures r.Reject? <==> user.None?
    ensures r.Reject? ==> r.error == HttpError(401, "Login required")
    ensures r.Accept? ==> r.value == user.value
  {
    match user
    case None => Reject(HttpError(401, "Login required"))
    case Some(u) => Accept(u)
  }

  /** `username.trim().toLowerCase()`: the form in which names are stored and looked up. */
  function NormalizeUsername(raw: string): (name: string)
    ensures |name| <= |raw|
    ensures Unpadded(name)
    ensures forall k :: 0 <= k < |name| ==> !IsUpperAscii(name[k])
    ensures name == [] <==> AllWhiteSpace(raw)
  {
    var t := Trim(raw);
    ToLowerCaseNormal(t);
    var name := ToLowerCase(t);
    name
  }

  /** A normalised name normalises to itself, so signup and login agree on every name. */
  lemma NormalizeUsernameIdempotent(raw: string)
    ensures NormalizeUsername(NormalizeUsername(raw)) == NormalizeUsername(raw)
  {
    var name := NormalizeUsername(raw);
    TrimUnpadded(name);
    ToLowerCaseNormal(Trim(raw));
  }

  /** The shape of a stored name: no white space at its ends and no upper-case letter. */
  predicate IsNormalUsername(name: string) {
    Unpadded(name) && forall k :: 0 <= k < |name| ==> !IsUpperAscii(name[k])
  }

  /** The names normalisation leaves unchanged are exactly those of the stored shape. */
  lemma NormalizeUsernameFixedPoints(name: string)
    ensures NormalizeUsername(name) == name <==> IsNormalUsername(name)
  {
    if IsNormalUsername(name) {
      TrimUnpadded(name);
      assert ToLowerCase(name) == name;
    }
  }

  /** Surrounding white space and the case of ASCII letters do not matter. */
  lemma NormalizeUsernameIgnoresPaddingAndCase(front: string, raw: string, back: string)
    requires AllWhiteSpace(front) && AllWhiteSpace(back)
    ensures NormalizeUsername(front + raw + back) == NormalizeUsername(raw)
    ensures NormalizeUsername(ToLowerCase(raw)) == NormalizeUsername(raw)
  {
    TrimIgnoresPadding(front, raw, back);
    LowerCaseCommutesWithTrim(raw);
    ToLowerCaseNormal(Trim(raw));
  }

  lemma {:induction false} LowerCaseCommutesWithTrim(s: string)
    ensures Trim(ToLowerCase(s)) == ToLowerCase(Trim(s))
  {
    var t := Trim(s);
    var front, back := TrimSplit(s);
    ToLowerCaseAppend(front + t, back);
    ToLowerCaseAppend(front, t);
    ToLowerCaseKeepsWhiteSpace(front);
    ToLowerCaseKeepsWhiteSpace(back);
    TrimIgnoresPadding(ToLowerCase(front), ToLowerCase(t), ToLowerCase(back));
    ToLowerCaseNormal(t);
    TrimUnpadded(ToLowerCase(t));
  }

  datatype Credentials = Credentials(username: string, password: string)

  /** Signup's checks: 400 "Missing fields" unless both a (non-blank) username and a password are given. */
  function ValidateSignup(username: Option<string>, password: Option<string>): (r: Checked<Credentials>)
    ensures r.Reject? <==>
              username.None? || AllWhiteSpace(username.value) || password.None? || password.value == ""
    ensures r.Reject? ==> r.error == HttpError(400, "Missing fields")
    ensures r.Accept? ==> r.value == Credentials(NormalizeUsername(username.value), password.value)
    ensures r.Accept? ==> r.value.username != ""
  {
    var name := if username.Some? then NormalizeUsername(username.value) else "";
    if name == "" || password.None? || password.value == "" then Reject(HttpError(400, "Missing fields"))
    else Accept(Credentials(name, password.value))
  }

  /** Signup checks a padded or lower-cased variant of a name exactly as the name itself. */
  lemma ValidateSignupIgnoresPaddingAndCase(front: string, name: string, back: string, password: Option<string>)
    requires AllWhiteSpace(front) && AllWhiteSpace(back)
    ensures ValidateSignup(Some(front + ToLowerCase(name) + back), password) == ValidateSignup(Some(name), password)
  {
    NormalizeUsernameIgnoresPaddingAndCase(front, ToLowerCase(name), back);
    NormalizeUsernameIgnoresPaddingAndCase([], name, []);
  }

  /** `allowed.includes(value) ? value : fallback`. */
  function Whitelist(value: Option<string>, allowed: seq<string>, fallback: string): (r: string)
    requires fallback in allowed
    ensures r in allowed
    ensures value.Some? && value.value in allowed ==> r == value.value
    ensures value.None? || value.value !in allowed ==> r == fallback
  {
    if value.Some? && value.value in allowed then value.value else fallback
  }

  const MangaStatuses: seq<string> := ["reading", "completed", "plan_to_read", "on_hold", "dropped"]
  const PostCategories: seq<string> := ["discussion", "review", "recommendation", "question", "meme"]
  const ReviewTargetTypes: seq<string> := ["anime", "manga"]

  /** The status manga-library/add stores: one of the five, `plan_to_read` for anything else. */
  function MangaStatus(status: Option<string>): (s: string)
    ensures s in MangaStatuses
    ensures status.Some? && status.value in MangaStatuses ==> s == status.value
    ensures status.None? || status.value !in MangaStatuses ==> s == "plan_to_read"
  {
    Whitelist(status, MangaStatuses, "plan_to_read")
  }

  /** The category a post is stored with: one of the five, `discussion` for anything else. */
  function PostCategory(category: Option<string>): (c: string)
    ensures c in PostCategories
    ensures category.Some? && category.value in PostCategories ==> c == category.value
    ensures category.None? || category.value !in PostCategories ==> c == "discussion"
  {
    Whitelist(category, PostCategories, "discussion")
  }

  /** The target type a review is stored with: `manga` when asked for, `anime` otherwise. */
  function ReviewTargetType(targetType: Option<string>): (t: string)
    ensures t == "manga" <==> targetType == Some("manga")
    ensures t != "manga" ==> t == "anime"
  {
    Whitelist(targetType, ReviewTargetTypes, "anime")
  }

  /** Longest post content or review comment that is stored. */
  const MaxTextLength: nat := 2000

  /** `text.trim().substring(0, 2000)`. */
  function StoredText(text: string): (stored: string)
    ensures |stored| <= MaxTextLength
    ensures |stored| == Min(|Trim(text)|, MaxTextLength)
    ensures forall k :: 0 <= k < |stored| ==> stored[k] == Trim(text)[k]
    ensures stored == [] <==> AllWhiteSpace(text)
  {
    Take(Trim(text), MaxTextLength)
  }

  datatype NewPost = NewPost(content: string, category: string)

  /** POST /api/posts: 400 for missing or blank content; otherwise the text and category to store. */
  function ValidatePost(content: Option<string>, category: Option<string>): (r: Checked<NewPost>)
    ensures r.Reject? <==> content.None? || AllWhiteSpace(content.value)
    ensures r.Reject? ==> r.error == HttpError(400, "Content is required")
    ensures r.Accept? ==> r.value == NewPost(StoredText(content.value), PostCategory(category))
    ensures r.Accept? ==> 0 < |r.value.content| <= MaxTextLength && r.value.category in PostCategories
  {
    if content.None? || Trim(content.value) == "" then Reject(HttpError(400, "Content is required"))
    else Accept(NewPost(StoredText(content.value), PostCategory(category)))
  }

  datatype NewReview = NewReview(targetId: int, targetType: string, rating: int, comment: string)

  /** `!targetId || !rating || !comment`: a missing field, a zero or an empty comment. */
  function MissingReviewField(targetId: Option<int>, rating: Option<int>, comment: Option<string>): (missing: bool)
    ensures !missing <==> && targetId.Some? && targetId.value != 0 && rating.Some? && rating.value != 0
                          && comment.Some? && |comment.value| > 0
  {
    targetId.None? || targetId.value == 0 || rating.None? || rating.value == 0
    || comment.None? || comment.value == ""
  }

  /** POST /api/reviews: the two 400 checks in order, then the values to store. */
  function ValidateReview(targetId: Option<int>, targetType: Option<string>,
                          rating: Option<int>, comment: Option<string>): (r: Checked<NewReview>)
    ensures MissingReviewField(targetId, rating, comment) ==>
              r == Reject(HttpError(400, "Missing fields"))
    ensures !MissingReviewField(targetId, rating, comment) && !(1 <= rating.value <= 5) ==>
              r == Reject(HttpError(400, "Rating must be 1-5"))
    ensures r.Accept? <==> !MissingReviewField(targetId, rating, comment) && 1 <= rating.value <= 5
    ensures r.Accept? ==>
              r.value == NewReview(targetId.value, ReviewTargetType(targetType), rating.value,
                                   StoredText(comment.value))
  {
    if MissingReviewField(targetId, rating, comment) then Reject(HttpError(400, "Missing fields"))
    else if rating.value < 1 || rating.value > 5 then Reject(HttpError(400, "Rating must be 1-5"))
    else Accept(NewReview(targetId.value, ReviewTargetType(targetType), rating.value,
                          StoredText(comment.value)))
  }

  /** Ratings 0 and 6 are rejected; 1 to 5 are accepted and stored unchanged. */
  lemma RatingBounds(targetId: int, targetType: Option<string>, rating: int, comment: string)
    requires targetId != 0 && comment != ""
    ensures ValidateReview(Some(targetId), targetType, Some(0), Some(comment)).Reject?
    ensures ValidateReview(Some(targetId), targetType, Some(6), Some(comment)).Reject?
    ensures 1 <= rating <= 5 ==>
              ValidateReview(Some(targetId), targetType, Some(rating), Some(comment)).Accept?
              && ValidateReview(Some(targetId), targetType, Some(rating), Some(comment)).value.rating == rating
  {
  }

  /**
   * Unlike a post's content, a review comment is checked before it is trimmed:
   * a comment of white space only is accepted and stored empty.
   */
  lemma BlankReviewCommentStoredEmpty(targetId: int, rating: int, comment: string)
    requires targetId != 0 && 1 <= rating <= 5 && comment != "" && AllWhiteSpace(comment)
    ensures ValidateReview(Some(targetId), None, Some(rating), Some(comment))
            == Accept(NewReview(targetId, "anime", rating, ""))
  {
  }

  /** manga-library/update's fields: `status || null`, `chaptersRead ?? null`, `volumesRead ?? null`. */
  datatype LibraryPatch = LibraryPatch(status: Option<string>, chaptersRead: Option<int>, volumesRead: Option<int>)

  /** An empty status counts as absent; a 0 for chapters or volumes is still given. */
  function UpdatePatch(status: Option<string>, chaptersRead: Option<int>, volumesRead: Option<int>): (p: LibraryPatch)
    ensures p.status.Some? <==> status.Some? && status.value != ""
    ensures p.status.Some? ==> p.status == status
    ensures p.chaptersRead == chaptersRead && p.volumesRead == volumesRead
  {
    LibraryPatch(if status == Some("") then None else status, chaptersRead, volumesRead)
  }
}
