# Social feed: visibility and interaction model

A Dafny model of the post and friendship logic of the social-feed server
(`server.js`). Each route handler is modelled as a pure function, or, for the
feed, as a method, over an immutable store. The store holds a map of users and
a map of posts keyed by document id. The modelled routes are:

- **Feed** (`GET /api/posts`): a three-tier privacy policy (public, friends,
  private) decides what a viewer sees. The result comes newest first. An
  anonymous reader sees only public posts, and an unknown viewer id is
  refused.
- **Create post** (`POST /api/posts`): only the three tier names are
  accepted. A new post starts with no likes, no likers, no comments and no
  shares.
- **Like** (`/like`): a toggle per (post, user) that keeps the `likes`
  counter equal to the length of `likedBy`, with no user listed twice.
- **Comment** (`POST /comments`): blank text is refused. On success one
  comment holding the trimmed text is appended after the existing ones.
- **Share** (`/share`): a new friends-only post that points back at the
  original. The original is left untouched.
- **Friend request and accept**: a request is an idempotent insert into the
  target's pending list. Accept adds the edge in both directions and removes
  the requester from the accepting user's pending list; the requester's own
  pending list is left alone. It does not check that a request was pending, and it
  does not skip friends who are already listed.

Modules, leaf first:

- `results.dfy`: `Option`, `Result`, and one error kind per error response,
  with its HTTP status.
- `text.dfy`: JavaScript's `trim`.
- `lists.dfy`: `indexOf`, `splice`, `filter` and `NoDup`.
- `schema.dfy`: the `User`, `Post`, `Comment` and `Share` documents, the
  parsing of the privacy tier, the schema defaults, and the store invariant
  `Valid`.
- `social_graph.dfy`, `visibility.dfy`, `feed.dfy`, `likes.dfy`,
  `comments.dfy`, `sharing.dfy` and `posts.dfy`: one module per route group.
- `invariants.dfy`: every writing route keeps `Valid`.
- `scenarios.dfy`: a worked walk through the routes on a four-user store.

How some inputs are modelled:

- Ids are naturals.
- Timestamps are passed in as naturals instead of being read from the clock.
- The fresh id the store assigns to a new post is a parameter that must not
  already be in use.
- A request field checked with `!x` (a user id or an author id) is an
  `Option`.
- An absent comment or share text is the empty string.
- `populate(...)` is the identity, so a route's response is the stored
  document, which the returned store already holds.

Behaviours of the handlers kept as written:

- An unknown post, an unknown original and an unknown feed viewer are
  answered with 404. An unknown user in the like and share routes, and an
  unknown author in the comment route, are answered with 400, like the other
  validation errors (`Results.Status`).
- A missing target in the friend routes makes the handler throw, which is
  answered with 400.
- The feed sort has no second key, so posts created at the same instant may
  come in any order. `Feed.IsFeedOf` promises only that creation times never
  increase along the feed.
- Friend and pending lists are arrays that may hold duplicates. Accept does
  not dedupe them.
- Sharing does not check that the sharer may see the original
  (`Sharing.ShareIgnoresOriginalVisibility`).
- In accept, the user's record is written before the requester's. A user
  accepting themself therefore gains two entries.

## Model

| member | source | states |
|---|---|---|
| Text.LeadingBlanks | server.js:624 | counts the whitespace the input starts with: everything before that position is whitespace and the character at it is not |
| Text.ContentEnd | server.js:624 | finds where the trailing whitespace starts: everything from there on is whitespace and the character before it is not |
| Text.Trim | server.js:650 | the input is the trimmed text between two blank strings; the trimmed text has no whitespace at either end; it is empty exactly when the input is blank |
| Lists.IndexOf | server.js:553 | returns -1 exactly when the element is absent; otherwise returns a position holding the element, with no earlier occurrence |
| Lists.RemoveAt | server.js:560 | splice(i, 1) shortens the list by one, keeps the elements before i in place and shifts those after i down by one, so exactly one copy of the element at i is gone |
| Lists.RemoveAll | server.js:339 | filter removes every occurrence of the element and keeps the count of every other element |
| Lists.RemoveAllAppend | server.js:339 | filtering a concatenation is the concatenation of the filtered parts, so the surviving elements keep their order |
| Lists.RemoveAllSingle | server.js:339 | a single element survives the filter exactly when it differs from the removed one |
| Lists.RemoveFirstOfDistinct | server.js:553-560 | on a list without duplicates, removing the first occurrence of a member gives a list without duplicates that holds every other member and not that one |
| Lists.ConsNoDup | server.js:398 | putting an element that is absent in front of a list without duplicates keeps it without duplicates, as the feed sort does when it places a post ahead of the rest |
| Lists.SnocNoDup | server.js:557 | pushing an element that is absent onto the end of a list without duplicates keeps it without duplicates, as a like appends to the likers |
| Schema.NewPost | server.js:127-139 | a new post document holds the given id, author, tier and creation time, and takes the schema defaults: no likes, no likers and no comments |
| Schema.ParsePrivacy | server.js:426-428 | a privacy string is accepted exactly when it is one of the three tier names, and each name parses to its own tier |
| SocialGraph.SendFriendRequest | server.js:316-328 | an unknown target is refused; otherwise the requester is on the target's pending list afterwards, it is appended only if absent (a repeat changes nothing), and only that list changes |
| SocialGraph.SendFriendRequestIdempotent | server.js:320-323 | sending the same request twice gives the same store as sending it once |
| SocialGraph.AcceptFriendRequest | server.js:331-347 | fails exactly when either user is unknown, and needs no pending request; the user's record gets the requester appended to its friends and its pending list filtered of the requester, and the requester's record gets the user appended to its friends (twice onto one record when a user accepts themself); friends are appended even if already present, and no other field, user or post changes |
| SocialGraph.SendFriendRequestKeepsSymmetry | server.js:316-328 | a request leaves friendship symmetric |
| SocialGraph.AcceptFriendsOf | server.js:337-338 | after an accept, one user is on another's friend list exactly when they were before or the pair is one of the two new edges |
| SocialGraph.AcceptFriendRequestKeepsSymmetry | server.js:337-338 | accept adds both edges, so symmetric friendship stays symmetric |
| Visibility.MatchesViewerQuery | server.js:388-394 | the `$or` query of a signed-in feed selects every post of the viewer's own, whatever its tier; any other post it selects is public, or friends-only by an author on the viewer's friend list |
| Visibility.ViewerQueryIsPolicy | server.js:388-394 | the `$or` query of a signed-in feed selects exactly the posts the privacy policy lets that viewer see |
| Visibility.PublicQueryIsPolicy | server.js:403-405 | the anonymous query selects exactly what the policy shows to no viewer: the public posts |
| Visibility.AnonymousSeesLess | server.js:388-405 | any post visible anonymously is visible to every viewer |
| Visibility.PrivateOnlyToAuthor | server.js:392 | a private post is visible to a viewer exactly when the viewer is its author |
| Visibility.FriendsTierSymmetric | server.js:391 | with symmetric friendship, a friends-only post is visible exactly to its author and to the author's friends |
| Visibility.AcceptGrantsVisibility | server.js:337-338 | after an accept, each of the two users sees the other's friends-only posts |
| Visibility.AcceptKeepsVisibility | server.js:337-339 | an accept never hides a post that was visible before |
| Feed.NewestFirstCons | server.js:398 | a post no older than every post of a newest-first list can be put in front of it |
| Feed.InsertNewestFirst | server.js:398 | inserting into a newest-first list gives a newest-first permutation of the list plus the post |
| Feed.InsertNewestFirstMembers | server.js:398 | after an insertion the members are those of the list plus the inserted post |
| Feed.InsertNewestFirstNoDup | server.js:398 | inserting a post that is not yet listed into a list without duplicates keeps it without duplicates |
| Feed.GetFeed | server.js:372-418 | an unknown viewer id is refused with the not-found error; otherwise the result holds each stored post the viewer may see exactly once, nothing else, newest first (only public posts when there is no viewer) |
| Likes.ToggleLike | server.js:553-561 | a non-liker is appended and the counter rises by one; for a liker, the entry at the first occurrence is spliced out, the other likers keep their order, and the counter drops by one; no other field changes |
| Likes.ToggleLikeKeepsConsistency | server.js:553-561 | if likes equals the number of likers and nobody is listed twice, both still hold after a toggle, which flips the user's state and leaves every other user's state alone |
| Likes.LikeThenUnlike | server.js:553-561 | a like then an unlike by a user who had not liked the post gives back exactly the original post |
| Likes.ToggleLikeTwice | server.js:553-561 | on a post whose likes equals the number of likers and that has no duplicate liker, toggling twice restores the counter and the set of likers, and restores the post exactly if the user had not liked it |
| Likes.LikePost | server.js:525-563 | a missing user id, an unknown post and an unknown user are refused in that order with nothing changed; otherwise only the target post is toggled |
| Comments.AddComment | server.js:621-661 | blank text, a missing author id, an unknown post and an unknown author are refused in that order with nothing changed; otherwise exactly one comment holding the trimmed non-empty text, the author and the time is appended, and the earlier comments are unchanged and stay in order |
| Sharing.SharePost | server.js:457-496 | a missing user id, an unknown original and an unknown sharer are refused in that order with nothing created; otherwise a new friends-only post by the sharer is stored, holding the text or "Shared a post", with no image, no tagged users, no likes and no comments, pointing at the original and recording one share, and every existing post is unchanged |
| Sharing.ShareIgnoresOriginalVisibility | server.js:470-489 | another user's private post can be shared, and the share is friends-only |
| Sharing.ShareIsNotReferenced | server.js:485-496 | if every share points at a stored post, this still holds after a share, and no post points at the new share, so no cycle of originals can form |
| Posts.CreatePost | server.js:421-439 | a privacy string outside the three tier names is refused with nothing stored; otherwise a post with the given fields and tier is stored, with no likes, likers, comments, shares or original, and nothing else changes |
| Invariants.CreatePostKeepsValid | server.js:431-439 | creating a post keeps the store invariants |
| Invariants.SharePostKeepsValid | server.js:485-496 | sharing keeps the store invariants |
| Invariants.LikePostKeepsValid | server.js:553-563 | liking keeps the store invariants, and in particular likes equals the number of distinct likers |
| Invariants.AddCommentKeepsValid | server.js:649-661 | commenting keeps the store invariants, and in particular every comment's author is a stored user |
| Invariants.SendFriendRequestKeepsValid | server.js:320-323 | a friend request keeps the store invariants |
| Invariants.AcceptFriendRequestKeepsValid | server.js:337-342 | accepting keeps the store invariants |
| Scenarios.WalkthroughVisibility | server.js:388-405 | Ann's public post is visible anonymously; Ben's friends-only post is visible to his friend Cal and hidden from Dee |
| Scenarios.WalkthroughFriendship | server.js:316-347 | after Dee's request and Ben's accept, Dee sees Ben's friends-only post |
| Scenarios.WalkthroughLikes | server.js:553-561 | Cal's like and unlike take the counter from 0 to 1 and back to 0 |
| Scenarios.WalkthroughShare | server.js:485-494 | Ann's share of Ben's public post with text "nice" holds that text, is friends-only and points at the original |

## Left out

- Database connection, retries, reconnects and `process.exit` (server.js:29-88): I/O plumbing.
- CORS, JSON body parsing, request logging and the error middleware (server.js:14-26, 90-97): framework glue.
- Register, login, the current-user route and the JWT `auth` middleware (server.js:255-278, 688-768): credential hashing and token signing are foreign library calls. The viewer id is taken as already authenticated.
- The location update route and the seeding of demo data (server.js:145-253, 349-369): they hold no feed or interaction logic.
- `GET /api/users` (server.js:283-303): a read of all users, except that when no user exists it first seeds the demo data (server.js:288-293), which is left out as above.
- `GET /api/users/:userId/friends`, `GET /api/posts/:id/comments` and `GET /api/posts/:id/likes`: read-only joins over the store, which `populate` and `$in` lookups resolve. The store model has no join layer.
- `populate(...)` is modelled as the identity. Resolving references to user summaries does not change stored data.
- The `!req.params.id` checks of the like and share routes: Express never passes an empty route parameter, so these checks cannot fail.
- Exceptions other than the modelled missing-user lookups: ids that are not valid ObjectIds, failed saves and the like. The post routes answer these with 500, and the catch blocks of the two friend routes answer them with 400 (server.js:326, 345). The model's ids are abstract and its store is total, so none of these arise.
- Request ids are assumed to be spelled the way the stored id prints (the lowercase hex of the ObjectId). The like and friend-request checks (server.js:320, 553) and the accept filter (server.js:339) compare the request's id string with the stored ids, while `findById` accepts any casing. An id in another spelling would slip past those checks, so a repeated like or request would append a duplicate. The model compares ids by value, so its no-duplicate results (`Likes.ToggleLikeKeepsConsistency`, `Invariants.LikePostKeepsValid`, `SocialGraph.SendFriendRequestIdempotent`) rest on this assumption.
- Absent and empty request text are both modelled as the empty string. A non-string comment text, which makes `trim` throw, is not modelled.
- The error message of the friend routes is the runtime's TypeError text. The model gives it one error kind, `NullUserRecord`. An absent target or requester id resolves to no user, so it is treated like an unknown id.
- Create post with no `authorId` stores a post without an author. The model always takes an author id.
- Characters are Unicode scalar values, not UTF-16 code units. Every character `trim` strips lies in the Basic Multilingual Plane, so trimming is unaffected.
- The `likes` counter is an unbounded integer. JavaScript numbers are exact far beyond any reachable like count.
- Concurrent read-modify-write between requests is not modelled. Each route is one sequential step on the store.
- Sharing.ShareIsNotReferenced: shows only that nothing points at a new share. It does not define or prove global acyclicity of the `originalPost` chains.
- The client files (React UI, HTTP calls, canvas image resizing) hold no core logic.
