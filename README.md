# FindMyAnime core, modelled in Dafny

FindMyAnime is an anime and manga discovery site. Its browser dashboard pulls listings from the public
Jikan metadata API. Its Express backend keeps users, watchlists, a manga library, community posts and
reviews in Postgres. This project models three small cores of that code and proves what they promise.

- **The dashboard's rate-governed fetch** (`jikanFetch`, module `RateLimit`).
  - A `Limiter` class holds the module-level `lastCall`. `Reserve(now)` hands every call a slot at
    least 400 ms after the previous one.
  - `JikanFetch` retries a 429 reply after 1500 ms, with no cap on the number of retries, and fails on
    any other non-ok status.
  - Time is an explicit parameter. The network is the finite sequence of replies the successive
    attempts receive, each with its latency.
- **The dashboard's selection helpers** (module `Dashboard`).
  - Which trending card gets which badge.
  - The genre blocklist.
  - The skeleton placeholders.
  - The search minimum-length gate.
  - The "at most 24 (or 12) cards" truncations.
- **The backend's request checks and table semantics** (modules `Validation` and `Store`).
  - The session guard and username normalisation.
  - The enum whitelists with their fallbacks.
  - The trim-and-cap of free text and the review rating range.
  - The handlers, as methods of a `Database` class whose tables are fields updated in place:
    - users are a map keyed by their unique username;
    - watchlists are a set of (user, anime) pairs;
    - the manga library is a map keyed by (user, manga);
    - posts and reviews are sequences in creation order.
  - A `Session` class holds `req.session.user`.

Module `Js` holds the JavaScript built-ins the code relies on.
- `undefined`/`null` is modelled as `Option`.
- `slice(0, n)`/`substring(0, n)` is modelled as `Take`.
- `trim` uses ECMAScript's white-space and line-terminator set.
- `toLowerCase`/`toUpperCase` map ASCII letters only.
- `join('')` is modelled as `Join`.

A request body field is `None` when it is missing, `undefined` or `null`.

The model follows the code:
- List endpoints use fixed `LIMIT`s (50 posts, 30 reviews). They take no page or limit parameters, so
  nothing is clamped.
- Numeric ids are not checked to be positive integers. Reviews reject only a missing or zero
  `targetId`.
- `manga-library/update` does not whitelist its status. Any non-empty status is written. PostgreSQL
  fits a bound value to its `VARCHAR` column while it plans the statement: a status longer than 30
  characters fails with 500 whether or not the caller has a row, unless the excess is only spaces,
  which are cut off. In the same way an over-long username fails with 500 before an id is drawn.
- A review comment is tested for emptiness before it is trimmed. A comment of white space only is
  therefore accepted and stored as the empty string, while such a post is rejected.

## Model

| member | source | states |
|---|---|---|
| RateLimit.NextSlot | public/dashboard.js:10-11 | the slot is `max(now, lastCall + 400)`: never before the call, never closer than 400 ms to the previous slot |
| RateLimit.Schedule | public/dashboard.js:9-11 | calls made one after another get slots that are never before their call time and each at least 400 ms after the one before |
| RateLimit.ScheduleSpreads | public/dashboard.js:10-11 | slots i and j of a schedule are at least (j - i) * 400 ms apart |
| RateLimit.ScheduleNoWait | public/dashboard.js:10 | calls that already keep 400 ms apart are never delayed |
| RateLimit.FetchOutcome | public/dashboard.js:13-16 | leading 429 replies are retried; the first other reply decides: an ok reply gives its body, any other status fails with that status; the outcome is still pending when the replies run out |
| RateLimit.NeverSurfacesRateLimit | public/dashboard.js:14 | a 429 is never the error a fetch fails with |
| RateLimit.RateLimitedThenOk | public/dashboard.js:14-16 | k leading 429 replies then an ok reply give that reply's payload after exactly k back-offs |
| RateLimit.ErrorStopsRetrying | public/dashboard.js:15 | a reply that is neither ok nor 429 fails with its status after the preceding back-offs, and later replies play no part |
| RateLimit.TwoRateLimitsThenOk | public/dashboard.js:14-16 | replies 429, 429, 200 give the 200 payload after two back-offs |
| RateLimit.Limiter.constructor | public/dashboard.js:7 | `lastCall` starts at 0 |
| RateLimit.Limiter.Reserve | public/dashboard.js:9-11 | the wait is never negative, the new `lastCall` is `now + wait == max(now, old lastCall + 400)`, so `lastCall` grows by at least 400 ms; a call already 400 ms after the last slot waits 0 |
| RateLimit.Limiter.JikanFetch | public/dashboard.js:8-17 | the outcome is `FetchOutcome` of the replies; every attempt reserves a slot, each retry 1500 ms after the 429 reply arrived, at least 400 ms after the slot before; `lastCall` ends at the last slot |
| Dashboard.TrendingBadge | public/dashboard.js:80 | card index i gets `hot` exactly when i < 3, `new` exactly when 3 <= i < 6, no badge otherwise |
| Dashboard.BadgeClass | public/dashboard.js:28-29 | `hot`, `new` and `top` map to their badge class, every other type to the empty class |
| Dashboard.CardBadge | public/dashboard.js:28-34 | no badge exactly for an empty type; otherwise the mapped class and the type upper-cased as label |
| Dashboard.TrendingBadgeRendered | public/dashboard.js:80 | the first three trending cards show HOT with `badge-hot`, the next three NEW with `badge-new`, the rest no badge |
| Dashboard.UnknownBadgeHasNoClass | public/dashboard.js:29-30 | a non-empty type outside the map keeps its upper-cased label with an empty class |
| Dashboard.TrendingCards | public/dashboard.js:80 | at most 24 cards, the i-th being the i-th item with the badge for index i |
| Dashboard.TopRatedCards | public/dashboard.js:129-133 | at most 24 cards, the i-th being the i-th item with rank i + 1 |
| Dashboard.UnbadgedCards | public/dashboard.js:151 | at most 24 cards, the i-th being the i-th item, none with a badge |
| Dashboard.MangaCards | public/dashboard.js:174 | at most 12 cards, the i-th being the i-th item |
| Dashboard.SafeGenres | public/dashboard.js:336 | keeps exactly the genres not named Hentai, Erotica, Boys Love or Girls Love |
| Dashboard.SafeGenresAppend | public/dashboard.js:336 | filtering is done element by element, so the kept genres keep their order |
| Dashboard.SafeGenresIdempotent | public/dashboard.js:336 | filtering the filtered list changes nothing |
| Dashboard.SafeGenresKeepsSafeList | public/dashboard.js:336 | a list with no blocked genre is offered unchanged |
| Dashboard.Fill | public/dashboard.js:47 | `Array(n).fill(card)` has n elements, all equal to the card |
| Dashboard.Skeletons | public/dashboard.js:46-48 | `skeletons(0)` is empty and `skeletons(n)` is one skeleton card followed by `skeletons(n - 1)`: n copies of the card |
| Dashboard.FillJoinLength | public/dashboard.js:47 | `Array(n).fill(card).join('')` is n times the card's length, for every card and every n |
| Dashboard.SkeletonsLength | public/dashboard.js:46-48 | n placeholders are n times the card's length |
| Dashboard.SkeletonsAdd | public/dashboard.js:47 | the placeholders for m + n cards are those for m followed by those for n |
| Dashboard.SearchQuery | public/dashboard.js:262-267 | a search is scheduled exactly when the trimmed input has at least 2 characters, and it is for the trimmed input |
| Dashboard.SearchQueryUnpadded | public/dashboard.js:262 | white space around the input does not change the search, and a searched query is never blank or padded |
| Dashboard.ShowOnFocus | public/dashboard.js:254-257 | the dropdown reopens on focus exactly when the query is searchable and the dropdown is not empty (it holds what an earlier search left there: results, "No results found" or an error message) |
| Js.Trim | server.js:160 | `trim` returns the input without its leading and trailing white space: nothing but white space surrounds the result, which has none at its ends and is empty exactly for blank input |
| Js.TrimUnpadded | server.js:160 | a string with no white space at its ends is left unchanged by `trim` |
| Js.TrimIgnoresPadding | server.js:160 | white space added on either side does not change what `trim` returns |
| Js.Take | server.js:519 | `substring(0, n)` and `slice(0, n)` keep the first min(length, n) elements |
| Js.ToLowerCase | server.js:160 | same length; each ASCII capital becomes its small letter and every other character is kept |
| Js.ToUpperCase | public/dashboard.js:30 | same length; each ASCII small letter becomes its capital and every other character is kept |
| Js.Join | public/dashboard.js:47 | `join('')` of no parts is the empty string, of one part that part |
| Js.JoinAppend | public/dashboard.js:47 | joining two arrays one after the other is joining each and concatenating |
| RateLimit.IsOk | public/dashboard.js:15 | `res.ok` holds exactly for statuses 200 to 299, so never for the 429 that is retried |
| Validation.MissingReviewField | server.js:552 | the check passes exactly when the target and the rating are present and non-zero and the comment is present and non-empty |
| Validation.RequireAuth | server.js:149-154 | rejects with 401 "Login required" exactly when the session has no user, otherwise passes that user on |
| Validation.NormalizeUsername | server.js:160 | the stored name is no longer than the input, has no white space at its ends and no ASCII upper-case letters, and is empty exactly for blank input |
| Validation.NormalizeUsernameIdempotent | server.js:191 | normalising a stored name gives the same name, so login finds what signup stored |
| Validation.NormalizeUsernameIgnoresPaddingAndCase | server.js:160 | padding and ASCII case of the input do not change the stored name |
| Validation.LowerCaseCommutesWithTrim | server.js:160 | trimming and lower-casing can be done in either order |
| Validation.NormalizeUsernameFixedPoints | server.js:160 | a name is left unchanged by normalisation exactly when it has no white space at its ends and no ASCII upper-case letter |
| Validation.ValidateSignupIgnoresPaddingAndCase | server.js:160-165 | a name padded with white space or lower-cased passes or fails signup's checks exactly as the name, with the same stored name |
| Validation.ValidateSignup | server.js:160-165 | 400 "Missing fields" exactly when the username is missing or blank or the password is missing or empty; otherwise the normalised name and the password |
| Validation.Whitelist | server.js:296 | the value itself when it is allowed, the fallback otherwise; the result is always allowed |
| Validation.MangaStatus | server.js:295-296 | one of the five statuses, `plan_to_read` for anything else |
| Validation.PostCategory | server.js:513-514 | one of the five categories, `discussion` for anything else |
| Validation.ReviewTargetType | server.js:558 | `manga` exactly when `manga` is asked for, `anime` otherwise |
| Validation.StoredText | server.js:519 | the trimmed text cut to at most 2000 characters; empty exactly for blank text |
| Validation.ValidatePost | server.js:510-519 | 400 "Content is required" exactly for missing or blank content; otherwise the stored text (1 to 2000 characters) and the whitelisted category |
| Validation.ValidateReview | server.js:552-563 | 400 "Missing fields" for a missing or zero target, a missing or zero rating or an empty comment, then 400 "Rating must be 1-5"; otherwise the target, the whitelisted type, the rating and the stored comment |
| Validation.RatingBounds | server.js:555-556 | ratings 0 and 6 are rejected; 1 to 5 are accepted and stored as given |
| Validation.BlankReviewCommentStoredEmpty | server.js:552-563 | a comment of white space only passes the check and is stored empty |
| Validation.UpdatePatch | server.js:320 | an empty status counts as absent; a chapters or volumes value of 0 still counts as given |
| Store.UpsertStatus | server.js:300-302 | the key is added if new with chapters and volumes 0, an existing row gets only its status replaced, and every other row is unchanged |
| Store.UpsertStatusIdempotent | server.js:300-302 | adding the same manga twice with the same status equals adding it once |
| Store.Coalesce | server.js:316-318 | each of status, chapters and volumes takes the given value when present and keeps the old one otherwise |
| Store.CoalesceLaws | server.js:316-318 | an update with no fields leaves the row unchanged, and repeating an update changes nothing more |
| Store.UpdateEmptyStatusZeroChapters | server.js:316-320 | an empty status and chapters 0 keep the status and reset the chapters to 0 |
| Store.NewestMatching | server.js:538 | exactly the rows of that target and type |
| Store.NewestMatchingOrdered | server.js:539 | rows created in increasing id order come out with decreasing ids, newest first |
| Store.FitVarchar | server.js:474 | a value fits `VARCHAR(n)` unless a character past the n-th is not a space; a fitting value is cut to its first min(length, n) characters |
| Store.FitVarcharUnpadded | server.js:434 | a value with no white space at its ends fits exactly when it has at most n characters |
| Store.TakeNewest | server.js:539-540 | `LIMIT n` over rows listed newest first drops only rows older than every row kept |
| Store.UsersTableDraw | server.js:433 | drawing an id from the sequence keeps the users table valid, and the drawn id is above every stored id |
| Store.UsersTableInsert | server.js:434 | inserting a new normalised name of at most 50 characters under an unused id keeps names unique and ids distinct |
| Store.LibraryTableWrite | server.js:474 | writing a row whose status fits 30 characters, or deleting a row, keeps every status within the column |
| Store.PostsTableAppend | server.js:518 | appending a checked post under the next id keeps every post checked and ids increasing in creation order |
| Store.ReviewsTableAppend | server.js:562 | appending a checked review under the next id keeps every rating within 1 to 5 and ids increasing in creation order |
| Store.QueryType | server.js:533 | the `type` query parameter when given and non-empty, `anime` otherwise |
| Store.Session.constructor | server.js:226-228 | a new session has no user |
| Store.Session.Destroy | server.js:219-224 | logout leaves the session without a user |
| Store.Database.constructor | server.js:428-485 | all tables start empty and every id sequence at 1 |
| Store.Database.Signup | server.js:159-188 | 400 for missing fields; a name longer than 50 characters gets 500 without using up an id; a taken name gets 409 after using up an id; otherwise the normalised name is stored under a fresh id with the password hash, the session user is set and the reply is that name; the table invariant is kept |
| Store.Database.Register | server.js:167-183 | a name longer than 50 characters gets 500 without using up an id; a taken name gets 409 after using up an id; otherwise the name is stored under the drawn id and the session user is set |
| Store.Database.Login | server.js:190-217 | an unknown name and a wrong password get the same 401 "Invalid credentials"; a missing password for a known name gets 500 "Login error"; the session user is set only on success |
| Store.Database.AddToWatchlist | server.js:247-260 | 401 without a session; 500 when the id is missing; otherwise the (user, anime) pair is in the set, and no other entry changes |
| Store.Database.RemoveFromWatchlist | server.js:262-275 | 401 without a session; otherwise only the caller's pair for that anime is removed |
| Store.Database.AddToLibrary | server.js:293-310 | 401 without a session; 500 when the id is missing; otherwise the whitelisted status is upserted for the caller's row |
| Store.Database.UpdateLibrary | server.js:312-327 | 401 without a session; a status that does not fit 30 characters gets 500 whether or not a row matches; otherwise nothing changes if the caller has no row for the manga, and only that row is updated field by field, with a status padded by spaces cut to 30 characters |
| Store.Database.RemoveFromLibrary | server.js:329-341 | 401 without a session; otherwise only the caller's row for that manga is removed |
| Store.Database.CreatePost | server.js:508-526 | 401 without a session and the validation error when the post fails its checks, both leaving the id sequence as it was; otherwise the checked post is appended under the next id, which is returned, and the sequence moves on by one |
| Store.Database.CreateReview | server.js:550-570 | 401 without a session and the validation error when the review fails its checks, both leaving the id sequence as it was; otherwise the checked review is appended under the next id and the sequence moves on by one |
| Store.Database.WatchlistOf | server.js:233-240 | exactly the anime ids paired with that user |
| Store.Database.ListPosts | server.js:492-500 | at most 50 posts, oldest first exactly for `sort=oldest` and newest first otherwise |
| Store.Database.ReviewsFor | server.js:531-541 | at most 30 reviews of that target and type, newest first; all of them when there are fewer than 30; every matching review left out is older than every review shown, so the 30 shown are the newest |
| Store.AddTwiceKeepsOneEntry | server.js:252 | adding the same anime twice leaves the same watchlist as adding it once |
| Store.SignupTwiceConflicts | server.js:182-183 | a second signup under the same name, padded with white space or lower-cased, gets 409 |

## Left out

- Network I/O, timers, the DOM and `localStorage`. Time is a parameter, replies are an input sequence, and the markup around cards, chips and the dropdown is not modelled.
- Concurrent `jikanFetch` callers interleaving between `await`s. Only calls made one after another are modelled.
- RateLimit.FetchResult: the error carries the status only, not the `Jikan <status>` message text. The model returns the raw body as the payload; a body that `res.json()` fails to parse, which makes the source throw, is not modelled.
- `Intl.NumberFormat` compact formatting and `toFixed` on favourites. These are floating point and locale behaviour.
- Js.ToLowerCase, Js.ToUpperCase: map ASCII letters only. Full Unicode case mapping, including characters that change length, is not modelled. So `CardBadge`'s label has the type's length, which JavaScript does not keep for "ß".
- Validation.NormalizeUsername, Store.Database.Signup, Store.Database.Login: names that differ only in a non-ASCII capital ("Émile" and "émile") are different users in the model and one user in the source.
- Js.Trim, Js.Take, Dashboard.SearchQuery, Dashboard.ShowOnFocus, Validation.StoredText: lengths are counted in code points, not the UTF-16 code units JavaScript counts. The two differ only outside the Basic Multilingual Plane: a lone "😀" has length 2 in JavaScript and is searched, while the model does not search it, and `substring(0, 2000)` cuts at 2000 code units.
- Dashboard.BadgeClass: a badge type naming an inherited property of JavaScript objects, such as `constructor`, is not modelled. The source would look that property up on the badge map.
- Password hashing and comparison. The hash is an input to `Signup`, and the comparison is a function parameter of `Login`.
- The express-session and express-rate-limit middleware, and the reverse-proxy mode. These are foreign middleware and raw HTTP forwarding.
- The stats, activity, feed, `/api/me` and manga-library read queries. They are read-only SQL executed by the database.
- Postgres error handling. Errors other than a unique violation (409), a missing NOT NULL value (500) and a value that does not fit its `VARCHAR` column (500, raised while the statement is planned) are not modelled, nor are connection failures.
- Foreign keys are not modelled, and neither are the 32-bit range of `INTEGER` columns or the sequence's own limits.
- Store.Database.ListPosts: ties in `created_at` are not modelled. Creation order is taken to be id order.
- Store.Database.ReviewsFor: ties in `created_at` are not modelled. Creation order is taken to be id order.
- Request bodies whose fields are not strings or integers are not modelled. For example, a numeric `content` makes `.trim()` throw, and a fractional rating is refused by the `INTEGER` column.
