# LookNest: follow bookkeeping and gallery search, modelled in Dafny

This project models two pieces of the LookNest photo-sharing application.

The first is the user directory behind the backend's user routes. It covers accounts with
`following` and `followers` id lists, embedded profile-view records and profile fields, plus
the notification log. The handlers for follow, unfollow, follow-status, remove-follower,
profile fetch with view recording, the owner-only view list and profile update are modelled.
They live in module `Users`. The five state-changing handlers are pure transitions
`Directory -> Result<Directory, Error>`. Follow-status and the view list are queries returning
`Result<bool, Error>` and `Result<seq<ProfileView>, Error>`. Each state-changing handler is also a method of the class `UserRoutes.UserDirectory`. That method
performs the handler's reads and writes in place, and its contract ties the method to the
matching pure transition. The main invariant, `Users.Consistent`, is made of four parts:
- symmetry: `a` is among `b`'s followers exactly when `b` is among `a`'s followed accounts;
- no duplicates in either list;
- no account follows itself;
- both lists only name existing accounts.

Follow, unfollow, remove-follower, view recording and profile update all keep it.

The second is the client-side state of the masonry gallery component. It covers the search
filter, a case-insensitive substring match over title, description and the uploader's full
name or username, and the carousel's cyclic image index. Module `Gallery` holds the pure
logic and its lemmas. The component's state hooks are the fields of the class
`MasonryGridState.MasonryGrid`, whose methods are its handlers.

Inputs the model takes as parameters:
- the authenticated caller: an `Option<UserId>`, `None` when the authentication middleware
  rejects the request or, on the public profile fetch, when there is no token or it does not
  verify;
- the current time: integer milliseconds;
- the fetched photo list: an `Option<seq<Photo>>`, `None` when the request failed.

Notes on what the code does:
- Follow, unfollow and follow-status dereference the caller's record without a null check.
  A missing caller record ends in the catch-all 500, modelled as `ServerError`.
- Follow-status answers whether the target is in the caller's `following` list. In a
  consistent directory that is the same as the caller being among the target's followers.
- The view-list and remove-follower routes read the caller as `req.user.id`. The public
  profile fetch reads the viewer as `decoded.userId` from its own token verification
  (backend/routes/user.js:86-88). The other routes read `req.userId`. All of these are
  modelled as the caller id.
- The remove-follower route names the undeclared identifier `authMiddlewareMiddleware`
  (backend/routes/user.js:263). Evaluating it throws a ReferenceError while the module loads,
  so as written none of this file's routes gets registered. The model treats it as the
  ordinary authentication middleware and models every route as it would run once that name
  is corrected.
- Unfollow does not reject unfollowing oneself. The model lets it through, and the invariant
  makes it a no-op (`Users.UnlinkSelfNoOp`).
- The username check is guarded by `if (username)`, which is false for the empty string.
  So an empty username is stored without any collision check. `Users.EmptyUsernameSkipsCheck`
  shows a directory where this makes two accounts share a username. Uniqueness is proved only
  for updates that do not supply an empty username. Whether the store's own unique index
  would reject the write is not part of this model.
- Deduplication of views checks every stored entry, not the last visit. Two views less than
  an hour apart leave a single entry when the first one was recorded (`ViewTwiceWithinHour`).
  If that first view was suppressed only by an older entry, the second view is recorded once
  that older entry is more than an hour old.
- JavaScript's `%` is computed here with Dafny's `%`. The two agree because both carousel
  operands are never negative.

## Model

| member | source | states |
|---|---|---|
| `Users.Without` | backend/routes/user.js:172-176 | the filtered list holds exactly the old ids other than the removed one, each as often as before, is unchanged when the id is absent, and stays duplicate-free |
| `Users.WithoutIsSubsequence` | backend/routes/user.js:172-176 | the filter keeps the remaining ids in their original order: the result is the old list at strictly increasing positions |
| `Users.Link` | backend/routes/user.js:136-141 | both pushes of a follow: afterwards the target is in the actor's following and the actor in the target's followers, with the same accounts |
| `Users.FollowMessage` | backend/routes/user.js:148 | the notification text: the sender's full name, or "undefined" when the record has none, followed by " started following you"; `Users.FollowEffect` states the notification it appears in |
| `Users.Follow` | backend/routes/user.js:117-133 | error order: no caller gives Unauthorized; a missing target gives NotFound; following yourself is refused; an existing follow gives AlreadyFollowing; success exactly when both accounts exist, they differ and the target is not yet followed |
| `Users.FollowEffect` | backend/routes/user.js:135-150 | a successful follow appends the target to the actor's following and the actor to the target's followers, logs exactly one "follow" notification from actor to target, and changes no other field or account |
| `Users.FollowPreservesConsistency` | backend/routes/user.js:131-141 | follow keeps symmetry, duplicate-freedom, no self-follow and closure of the lists |
| `Users.FollowThenStatusAndRepeat` | backend/routes/user.js:131-133 | after a successful follow the follow-status is true and a second follow is refused as AlreadyFollowing |
| `Users.FollowStatus` | backend/routes/user.js:189-199 | answers whenever the caller's record exists; in a consistent directory the answer is true exactly when the caller is among the target's followers, and false (never NotFound) for a target with no record |
| `Users.Unfollow` | backend/routes/user.js:162-184 | Unauthorized exactly when there is no caller; NotFound exactly when the target is missing; succeeds whenever both records exist, whether or not the caller was following; never touches the notification log |
| `Users.Unlink` | backend/routes/user.js:171-177 | afterwards the actor no longer follows the target and is not among its followers; no account appears or disappears |
| `Users.UnlinkSelfNoOp` | backend/routes/user.js:167-177 | in a consistent directory, an account unfollowing itself changes nothing |
| `Users.UnlinkEffect` | backend/routes/user.js:171-177 | unfollow removes the target from the actor's following and the actor from the target's followers, and keeps every other list, profile and view record |
| `Users.UnlinkPreservesConsistency` | backend/routes/user.js:171-177 | unfollow keeps symmetry, duplicate-freedom, no self-follow and closure of the lists |
| `Users.UnfollowIdempotent` | backend/routes/user.js:167-177 | unfollow succeeds for any two existing accounts, repeating it changes nothing, and afterwards follow-status is false |
| `Users.RemoveFollower` | backend/routes/user.js:263-290 | Unauthorized exactly when there is no caller; NotFound exactly when owner or follower is missing; then success exactly when the caller is the owner and Forbidden exactly when it is anyone else; never touches the notification log |
| `Users.RemoveFollowerIsUnfollow` | backend/routes/user.js:277-283 | removing a follower leaves the directory exactly as that follower unfollowing the owner would |
| `Users.RemoveFollowerPreservesConsistency` | backend/routes/user.js:277-283 | afterwards the follower is absent from the owner's followers and the owner from the follower's following, and the invariant still holds |
| `Users.ViewProfile` | backend/routes/user.js:75-112 | the profile fetch fails, with NotFound, exactly when the owner does not exist |
| `Users.RecentlyViewed` | backend/routes/user.js:92-95 | the `find`: some stored entry is by this viewer and less than an hour old; `Users.ViewRecording` states its effect |
| `Users.ViewRecording` | backend/routes/user.js:83-104 | one entry {viewer, now} is appended exactly when the viewer is authenticated, is not the owner and has no stored entry less than an hour old; otherwise nothing changes; nothing but the owner's view list ever changes |
| `Users.ViewPreservesConsistency` | backend/routes/user.js:92-100 | recording a view keeps the follow invariant |
| `Users.ViewTwiceWithinHour` | backend/routes/user.js:92-100 | a recorded view followed by another from the same viewer less than an hour later leaves exactly one new entry |
| `Users.ViewAgainAfterWindow` | backend/routes/user.js:92-100 | a viewer with no earlier entry who comes back an hour or more later gets a second entry |
| `Users.ViewBySelfOrAnonymousChangesNothing` | backend/routes/user.js:83-90 | a fetch without a verified token, or by the owner, records nothing and still answers the profile |
| `Users.ProfileViews` | backend/routes/user.js:240-258 | Unauthorized exactly when there is no caller; then NotFound exactly when the owner is missing; then Forbidden exactly when the caller is someone else; otherwise the owner's stored list |
| `Users.UsernameHeldByOther` | backend/routes/user.js:33-34 | the `findOne` check: some account other than the caller has this username; `Users.UpdateKeepsUsernamesUnique` states what it guards |
| `Users.Supplied` | backend/routes/user.js:39-53 | the update holds a field exactly when the body carries its key, with the body's value |
| `Users.Taken` | backend/routes/user.js:32-35 | the guard `if (username)` and the `findOne` test together: a non-empty username is supplied and another account holds it; `Users.UpdateProfile` answers UsernameTaken exactly then |
| `Users.UpdateProfile` | backend/routes/user.js:27-70 | Unauthorized exactly when there is no caller; UsernameTaken exactly when a non-empty username is held by another account; then NotFound exactly when the caller's record is missing and success exactly when it exists; the notification log is left alone |
| `Users.UpdateOnlySuppliedFields` | backend/routes/user.js:39-59 | a successful update overwrites exactly the supplied fields with the body's values, keeps every other profile field, the follow lists and the view records, and no other account changes |
| `Users.UpdatePreservesConsistency` | backend/routes/user.js:55-59 | a profile update keeps the follow invariant |
| `Users.UpdateKeepsUsernamesUnique` | backend/routes/user.js:31-37 | when no empty username is supplied, the collision check keeps usernames unique |
| `Users.EmptyUsernameSkipsCheck` | backend/routes/user.js:32-37 | an empty username passes the truthiness guard and is stored although another account holds it |
| `UserRoutes.RemoveUndefined` | backend/routes/user.js:39-53 | after the deletion loop the update holds exactly the destructured fields present in the body, with the body's values |
| `UserRoutes.UserDirectory.constructor` | backend/routes/user.js:117-290 | a directory starts from any consistent set of accounts and any existing notification log, both as stored |
| `UserRoutes.UserDirectory.Follow` | backend/routes/user.js:117-157 | the in-place follow answers and updates the directory as `Users.Follow` does and keeps the invariant |
| `UserRoutes.UserDirectory.Unfollow` | backend/routes/user.js:162-184 | the in-place unfollow answers and updates the directory as `Users.Unfollow` does and keeps the invariant |
| `UserRoutes.UserDirectory.RemoveFollower` | backend/routes/user.js:263-290 | the in-place removal answers and updates the directory as `Users.RemoveFollower` does and keeps the invariant |
| `UserRoutes.UserDirectory.ViewProfile` | backend/routes/user.js:75-112 | the in-place fetch records the view as `Users.ViewProfile` does and answers the owner's record as stored afterwards |
| `UserRoutes.UserDirectory.UpdateProfile` | backend/routes/user.js:27-70 | the in-place update answers and updates the directory as `Users.UpdateProfile` does and returns the caller's new record |
| `Gallery.Lower` | looknest/src/components/MasonryGrid.js:21-24 | `toLowerCase`: same length, each character folded |
| `Gallery.Contains` | looknest/src/components/MasonryGrid.js:21-24 | `includes`: the needle occurs at some offset of the haystack |
| `Gallery.IncludesPieces` | looknest/src/components/MasonryGrid.js:21-24 | a string that includes a needle is at least as long and includes every slice of the needle |
| `Gallery.TrimStart` | looknest/src/components/MasonryGrid.js:17 | the result is a suffix of the input that does not start with white space, and everything dropped is white space |
| `Gallery.TrimEnd` | looknest/src/components/MasonryGrid.js:17 | the result is a prefix of the input that does not end with white space, and everything dropped is white space |
| `Gallery.Trim` | looknest/src/components/MasonryGrid.js:17 | `searchQuery.trim()`: no longer than the query, and neither starts nor ends with white space |
| `Gallery.TrimSlice` | looknest/src/components/MasonryGrid.js:17 | the trimmed query is a contiguous slice of the query, and everything cut off before and after it is white space |
| `Gallery.TrimEmptyIffBlank` | looknest/src/components/MasonryGrid.js:17 | a query trims to the empty string exactly when it is all white space |
| `Gallery.Matches` | looknest/src/components/MasonryGrid.js:20-25 | the filter callback: the lower-cased query occurs in the lower-cased title or description, or in the uploader's full name or username when those are present and non-empty |
| `Gallery.Filter` | looknest/src/components/MasonryGrid.js:20-25 | a photo is kept exactly when it is in the list and `Gallery.Matches` holds, each matching photo as many times as it occurs in the list and no other |
| `Gallery.FilterIsSubsequence` | looknest/src/components/MasonryGrid.js:20-26 | the filtered list is the original list at strictly increasing positions |
| `Gallery.FilterIdempotent` | looknest/src/components/MasonryGrid.js:20-26 | filtering the filtered list again with the same query changes nothing |
| `Gallery.Search` | looknest/src/components/MasonryGrid.js:16-28 | the shown photos are no more than all photos and drawn from them; for a query that does not trim to empty, exactly the matching ones |
| `Gallery.SearchSelects` | looknest/src/components/MasonryGrid.js:16-28 | a blank query shows all photos; any other query shows exactly the photos matching the untrimmed query |
| `Gallery.SearchSubsequenceIdempotent` | looknest/src/components/MasonryGrid.js:16-28 | the shown photos are an order-preserving subsequence of all photos, and the same query applied again changes nothing |
| `Gallery.MatchesNarrow` | looknest/src/components/MasonryGrid.js:20-25 | a photo that matches a query matches every query whose lower-cased form the first query's lower-cased form includes |
| `Gallery.SearchNarrows` | looknest/src/components/MasonryGrid.js:16-28 | typing more narrows the results: a query whose lower-cased form includes another's shows only photos the other query shows |
| `Gallery.SearchIgnoresCase` | looknest/src/components/MasonryGrid.js:21-24 | two queries that lower-case alike show the same photos |
| `Gallery.NextIndex` | looknest/src/components/MasonryGrid.js:129 | "next" stays in [0, n), moves one on, and wraps from n-1 to 0 |
| `Gallery.PrevIndex` | looknest/src/components/MasonryGrid.js:123 | "previous" stays in [0, n), moves one back, and wraps from 0 to n-1 |
| `Gallery.NavigationInverse` | looknest/src/components/MasonryGrid.js:123-129 | "previous" undoes "next" and "next" undoes "previous" |
| `Gallery.NextTimesIsShift` | looknest/src/components/MasonryGrid.js:129 | pressing "next" k times, for k up to n, moves k places on, wrapping past the end |
| `Gallery.FullCycle` | looknest/src/components/MasonryGrid.js:129 | n presses of "next" return to the starting image |
| `MasonryGridState.MasonryGrid.constructor` | looknest/src/components/MasonryGrid.js:5-10 | the initial state: no photos, loading, carousel closed, no photo, index 0 |
| `MasonryGridState.MasonryGrid.FetchCompleted` | looknest/src/components/MasonryGrid.js:30-41 | a successful fetch sets both lists to the data, a failed one leaves them, and loading ends either way |
| `MasonryGridState.MasonryGrid.ApplySearch` | looknest/src/components/MasonryGrid.js:16-28 | the shown photos become the search result over all photos and remain a subsequence of them; nothing else changes |
| `MasonryGridState.MasonryGrid.OpenPhoto` | looknest/src/components/MasonryGrid.js:43-47 | opening a photo makes it current, resets the image index to 0 and shows the carousel |
| `MasonryGridState.MasonryGrid.CloseCarousel` | looknest/src/components/MasonryGrid.js:110-112 | closing hides the carousel and keeps the current photo and index |
| `MasonryGridState.MasonryGrid.ShowPrevious` | looknest/src/components/MasonryGrid.js:121-126 | the index moves as `Gallery.PrevIndex` and stays within the current photo's images |
| `MasonryGridState.MasonryGrid.ShowNext` | looknest/src/components/MasonryGrid.js:127-132 | the index moves as `Gallery.NextIndex` and stays within the current photo's images |
| `MasonryGridState.MasonryGrid.SelectImage` | looknest/src/components/MasonryGrid.js:133-141 | clicking indicator k sets the index to k, which is in bounds because the indicators range over the images |
| `MasonryGridState.CarouselRoundTrip` | looknest/src/components/MasonryGrid.js:43-132 | opening a photo with three images and pressing "next" three times shows that photo's first image again |
| `MasonryGridState.NextFromLastImage` | looknest/src/components/MasonryGrid.js:127-132 | with three images, "next" on the last image shows the first |
| `MasonryGridState.PreviousFromFirstImage` | looknest/src/components/MasonryGrid.js:121-126 | with three images, "previous" on the first image shows the last |

## Left out

- Persistence: lookups, saves, `findByIdAndUpdate`, `populate` and the `select` projections become operations on an in-memory map. The password field is not modelled, so removing it from answers is not either.
- The followers and following list routes (backend/routes/user.js:204-235) and `GET /profile` (backend/routes/user.js:11-22) are read-only projections and are not modelled.
- The view list is answered as stored. Resolving each viewer to a username and picture is not modelled.
- Token verification and the authentication middleware are library code that is not part of this model. Their outcome is the caller parameter.
- Each handler is one atomic step. The separate writes, a crash between them and concurrent requests are not modelled.
- The catch-all 500 answers are not modelled, except for the missing caller record described above. This includes failed saves, and a failed view save that the inner `try` swallows.
- The notification's read flag and timestamp, and a view record's default `viewedAt`, come from schemas that are not part of this model. The view is stamped with the `now` parameter.
- Users.UpdateProfile: the request body is a map from keys to strings. A JSON `null` or non-string value, which the handler would store as it is, is not modelled.
- Users.UsernameHeldByOther: `findOne` returns one account with the username. The model asks whether any other account holds it. The two agree whenever usernames are unique.
- Gallery.Matches: a photo's title and description are strings that are always present. MasonryGrid.js:21-22 calls `toLowerCase` on both without a guard, while the render at line 86 checks `photo.description &&`. For a photo without a description whose title does not match, the effect throws a TypeError. That crash is not modelled: the model just evaluates the match.
- Gallery.Lower: `toLowerCase` is modelled on ASCII letters only. Other characters are left unchanged.
- Gallery.IsWhitespace: `trim` is modelled with the ECMAScript white-space and line-terminator characters listed in the predicate.
- The rendering of MasonryGrid.js is not modelled: the loading and empty states, the markup, CSS and the uploader-click callback. When the effect runs is decided by React. Here it is a method the caller invokes after the query or the photo list changes.
- Whole files outside the model: looknest/src/components/Profile.js and looknest/src/components/NotificationPanel.js (rendering and `fetch` calls), looknest/src/socket.js (a handle on a network client), backend/testCompassConnection.js (database connection) and backend/models/ProfileView.js (a schema with no logic that the routes do not use).
