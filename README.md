# BlogSpace core in Dafny

A model of the server and editor core of BlogSpace, a Next.js blog. It covers:

- the `posts` collection and its five operations (`lib/blog.ts`);
- the publish endpoint `POST /api/blogs`, with its token gate, required fields, excerpt and defaults;
- the registration endpoint `POST /api/register`, with its duplicate-email check and hashed password;
- the credentials sign-in and the `jwt`/`session` callbacks (`lib/auth.ts`);
- the editor page (`app/create/page.tsx`): the tag list, the submit guard, the download file names and the markdown text.

| file | module | models |
|---|---|---|
| `js.dfy` | `Js` | `Option`/`Result`, JavaScript truthiness of `\|\|` and `??` on strings, `String.prototype.trim` |
| `blog_store.dfy` | `BlogStore` | `lib/blog.ts`: the `PostTable` class and the pure listing `GetBlogPosts` |
| `publish_route.dfy` | `PublishRoute` | `app/api/blogs/route.ts` `POST` |
| `register_route.dfy` | `RegisterRoute` | `app/api/register/route.ts` `POST` and the `users` collection |
| `auth.dfy` | `Auth` | `lib/auth.ts`: `authorize` and the two callbacks |
| `editor.dfy` | `Editor` | `app/create/page.tsx`: the `EditorState` class and its helpers |

How the code is modelled:

- Each collection is a class holding a sequence of records in insertion order. Its methods change that sequence in place.
- The clock, the `_id` the driver generates and the bcrypt hash are parameters of the operations.
- A database write error becomes a `Failure` value; the route handlers turn it into the response of their `catch` branch.
- A request body that is not JSON is `None`.

Behaviours of the code worth knowing:

- **Delete has no owner check.** `deleteBlogPost` deletes by id alone, and `DeleteBlogPost` removes the post whoever wrote it. The owner-checked `deleteOne` of app/api/blogs/[id]/route.ts:34-55 works on a collection named "blogs", not on "posts", so it never removes a post that `createBlogPost` stored.
- **A fetch returns the views before its own increment.** `getBlogPost` returns the record it read *before* its `$inc`. So the first fetch of a new post shows `views` 0, not 1 (`PublishThenViewTwice`).
- **Update protects nothing but `_id`.** `updateBlogPost` applies any supplied field, including `createdAt` and `authorId`. Only the `_id` is protected, by MongoDB itself (`ApplySet`, `UpdateBlogPost`).
- **A token without an id gives `authorId` " ".** The publish handler then stores `authorId` as a single space, because of `token.id ?? " "` (`Prepare`). The NextAuth route app/api/auth/[...nextauth]/route.ts:38-46 has its own callbacks, which set `token.user` and never `token.id`; with that route serving sign-in, every post gets `authorId` " ".
- **The fetch-one and list endpoints are not in the core.** `lib/blog.ts` exposes only its functions, so the model covers those functions.

## Model

| member | source | states |
|---|---|---|
| Js.Trim | app/create/page.tsx:56 | the result is the piece `s[a..b]` of the input where everything before `a` and from `b` on is whitespace; it has no whitespace at either end, and it is empty exactly when the input is all whitespace |
| Js.TrimStart | app/create/page.tsx:56 | drops exactly the leading whitespace; the result is a suffix of the input |
| Js.TrimEnd | app/create/page.tsx:56 | drops exactly the trailing whitespace; the result is a prefix of the input |
| Js.TrimmedIsFixpoint | app/create/page.tsx:56-57 | a string with no whitespace at either end is its own trim |
| Js.TrimIdempotent | app/create/page.tsx:56-57 | trimming twice is trimming once, so a stored tag is already trimmed |
| BlogStore.Stamp | lib/blog.ts:24-30 | the inserted record keeps every caller field, has both timestamps equal to now, and both counters zero |
| BlogStore.PostTable.CreateBlogPost | lib/blog.ts:20-33 | one stamped record is appended and all existing records are kept; an `_id` already stored is a duplicate-key failure that changes nothing; ids stay unique |
| BlogStore.IndexOf | lib/blog.ts:51-54 | finds the first record with the id, or reports that none has it |
| BlogStore.Filter | lib/blog.ts:40 | keeps exactly the published posts, and only the given category when the category is truthy; never adds a record |
| BlogStore.FilterCounts | lib/blog.ts:40 | every matching record is kept exactly as often as the table holds it, every other record not at all |
| BlogStore.Insert | lib/blog.ts:42 | inserting into a newest-first list keeps it newest first and adds exactly one record |
| BlogStore.SortByCreatedAtDesc | lib/blog.ts:42 | the result is newest first and a permutation of the input |
| BlogStore.Page | lib/blog.ts:42 | skip applies before limit, and limit 0 means no limit; the page is the run of the input starting at skip |
| BlogStore.PageWithin | lib/blog.ts:42 | a page holds nothing its sequence does not |
| BlogStore.GetBlogPosts | lib/blog.ts:36-45 | the listing is newest first and holds at most `limit` posts (default 10) when the limit is positive |
| BlogStore.ListingIsSound | lib/blog.ts:40-42 | every listed post is stored and published, and of the named category when one is given |
| BlogStore.ListingIsComplete | lib/blog.ts:40-42 | with no limit and no skip, the listing holds every matching post exactly as often as the table and nothing else |
| BlogStore.ListingLength | lib/blog.ts:42 | the listing size is exact: the number of matching posts left after `skip`, capped at `limit` unless the limit is 0 |
| BlogStore.EmptyCategoryIsNoFilter | lib/blog.ts:40 | a missing or empty category filters exactly like no category |
| BlogStore.PagesAppend | lib/blog.ts:42 | two consecutive pages of size n make the page of size 2n |
| BlogStore.SortedOrderIsUnique | lib/blog.ts:42 | when no two different records share a `createdAt`, two newest-first orders of the same records are equal |
| BlogStore.ListingOrderIsUnique | lib/blog.ts:40-42 | without ties among the matching posts, every newest-first order a query may see is the listing's order |
| BlogStore.TiesAllowOverlap | lib/blog.ts:42 | with two published posts of equal `createdAt`, both orders are valid for a query, and page 0 of one equals page 1 of the other |
| BlogStore.ConsecutivePages | lib/blog.ts:36-45 | without ties, page k and page k+n of size n, each from its own query in any valid order, make the listing of size 2n from k |
| BlogStore.ConsecutivePagesDisjoint | lib/blog.ts:36-45 | without ties and with unique ids, page k and page k+n of size n, each from its own query, share no post |
| BlogStore.SortedListingDistinct | lib/blog.ts:40-42 | with unique ids, the sorted listing repeats no record |
| BlogStore.PostTable.GetBlogPost | lib/blog.ts:47-62 | a result exists exactly when a published post has the id; it is the record as read before the increment, and afterwards only that post's `views` is one higher; otherwise nothing changes |
| BlogStore.PostTable.UpdateBlogPost | lib/blog.ts:64-79 | an unknown id matches 0 and changes nothing; otherwise only the matched post changes, by the `$set`; a change of `_id` is refused and changes nothing; ids stay unique |
| BlogStore.ApplySet | lib/blog.ts:71-74 | field by field, each supplied field overwrites the stored one (`createdAt` and `authorId` included) and each absent field is kept; the `_id` is kept and `updatedAt` is now |
| BlogStore.EmptyUpdateOnlyTouches | lib/blog.ts:71-74 | an update that supplies no field changes only `updatedAt` |
| BlogStore.UpdateIsIdempotent | lib/blog.ts:64-79 | the same update repeated at the same time changes nothing more |
| BlogStore.PostTable.DeleteBlogPost | lib/blog.ts:81-87 | at most one post is deleted: exactly the post with the id, whoever owns it; the others stay in order and ids stay unique |
| BlogStore.RemoveAtMembers | lib/blog.ts:85 | removing one record of a table with unique ids removes exactly the records with its id |
| PublishRoute.Excerpt | app/api/blogs/route.ts:22 | the excerpt is the first min(200, length) characters of the content followed by "..."; short content is kept whole |
| PublishRoute.Prepare | app/api/blogs/route.ts:8-33 | no token gives 401 before anything else; a body that is not JSON gives 500; a missing or empty title or content gives 400; otherwise the post has the caller's title and content, the derived excerpt and the defaults "Anonymous", " ", "Uncategorized", [] and published |
| PublishRoute.Post | app/api/blogs/route.ts:7-40 | a refused request changes nothing; an accepted one appends exactly the prepared, stamped post and answers with its id; a write error answers 500 and changes nothing |
| PublishRoute.OnlyFourFieldsRead | app/api/blogs/route.ts:16-31 | the author, author id, date and published flag in the body are ignored: bodies that agree on title, content, category and tags are prepared alike |
| PublishRoute.PublishThenViewTwice | lib/blog.ts:47-62 | a post published as "Hi"/"World" is fetched with excerpt "World..." and `views` 0, then `views` 1 |
| RegisterRoute.FindByEmail | app/api/register/route.ts:19 | returns a stored user with the email, or reports that none has it |
| RegisterRoute.UserCollection.InsertOne | scripts/setup-mongodb.js:18 | the unique email index: the insert succeeds exactly when no stored user has the email, and emails stay unique |
| RegisterRoute.Post | app/api/register/route.ts:7-38 | a body that is not JSON gives 500, a missing or empty field 400, and a known email 409, each changing nothing; otherwise exactly one user with the hashed password is appended, the answer is 201, and emails stay unique |
| RegisterRoute.RegisterTwice | app/api/register/route.ts:19-22 | from any table in which the email is new, the first registration answers 201 and adds one user, and a second with the same email answers 409 and keeps the first user as stored |
| Auth.Authorize | lib/auth.ts:23-35 | a user is returned exactly for the demo email and password: id "1", name "Demo User", the given email |
| Auth.JwtCallback | lib/auth.ts:42-45 | with a user, the token takes the user's id; without one, it is unchanged; name and email are kept and the same token is returned |
| Auth.SessionCallback | lib/auth.ts:46-49 | when both the token and the session user exist, the session user's id becomes the token's; otherwise nothing changes |
| Auth.SignIn | lib/auth.ts:23-49 | after a demo sign-in both the token and the session carry id "1"; any other credentials leave the token id as it was and copy it to the session |
| Editor.Without | app/create/page.tsx:63 | keeps exactly the tags different from the removed one |
| Editor.WithoutCounts | app/create/page.tsx:63 | every copy of the removed tag goes and every other tag keeps its count |
| Editor.WithoutConcat | app/create/page.tsx:63 | removal works piecewise, so the remaining tags keep their order |
| Editor.WithoutWellFormed | app/create/page.tsx:62-64 | removal keeps the tags non-empty, trimmed and free of duplicates |
| Editor.WithoutNoDuplicates | app/create/page.tsx:63 | removal repeats no tag |
| Editor.AppendTag | app/create/page.tsx:56-57 | appending a new trimmed non-empty tag keeps the tags well formed |
| Editor.AppendTrimmed | app/create/page.tsx:56-57 | the trimmed input, when non-blank and new, can be appended to well-formed tags |
| Editor.EditorState.AddTag | app/create/page.tsx:55-60 | a non-empty trimmed input that is not yet a tag is appended and the input cleared; otherwise nothing changes; tags stay non-empty, trimmed and free of duplicates |
| Editor.EditorState.RemoveTag | app/create/page.tsx:62-64 | the tags become those different from the removed one, still well formed |
| Editor.EditorState.HandleSubmit | app/create/page.tsx:66-81 | nothing is sent exactly when the trimmed title or content is empty; otherwise the body carries the fields as typed, and it passes the server's required-field check |
| Editor.SafeChar | app/create/page.tsx:113 | an upper-case ASCII letter becomes its lower case, a lower-case letter or digit stays, and any other character becomes "_"; the result is always a lower-case letter, a digit or "_" |
| Editor.SafeFileName | app/create/page.tsx:113 | the name has one safe character per title character |
| Editor.SafeFileNameIdempotent | app/create/page.tsx:113 | sanitising a sanitised name changes nothing |
| Editor.JsonFileName | app/create/page.tsx:113 | the name is `SafeFileName(title)` followed by ".json", so it holds only lower-case letters, digits and "_" before the extension |
| Editor.MarkdownFileName | app/create/page.tsx:133 | the name is `SafeFileName(title)` followed by ".md", so it holds only lower-case letters, digits and "_" before the extension |
| Editor.Join | app/create/page.tsx:125 | the joined length is the tags' lengths plus one separator between each pair, and the text starts with the first tag |
| Editor.JoinSnoc | app/create/page.tsx:125 | joining one more tag appends the separator and the tag |
| Editor.Markdown | app/create/page.tsx:122-130 | the text starts with "# " and the title, carries the tag line at its fixed offset, and ends with the content |

## Left out

- The MongoDB connection, the database name and environment secrets are not modelled. Every operation works on an in-memory collection.
- Concurrent requests are not modelled. The check-then-insert of registration is atomic in the model, but two concurrent requests could both pass the `findOne` and then rely on the unique email index.
- `new ObjectId(id)` throws on a malformed id string. Ids are opaque strings here, and that throw is not modelled.
- JSON values of the wrong type (a number as `title`, a non-array `tags`) are not modelled. Fields are either a string, an array or absent.
- `getBlogPosts` with a negative `limit` or `skip` is not modelled, because both are natural numbers here.
- Posts with equal `createdAt` have no defined order in MongoDB, and two queries may order them differently. `SortByCreatedAtDesc` fixes one order for `GetBlogPosts`. `ConsecutivePages` and `ConsecutivePagesDisjoint` therefore take each query's order as a parameter and require that no two matching posts share a `createdAt`. `TiesAllowOverlap` shows that with a tie, two consecutive pages can share a post.
- bcrypt is the parameter `hash`. Its salt, its cost factor of 10 and its one-wayness are not modelled.
- The clock (`new Date()`, `toISOString`, `toLocaleDateString`) is not modelled. Dates are parameters, given as an integer time or as the formatted text.
- JavaScript strings are UTF-16, while Dafny characters are Unicode scalar values. A character outside the Basic Multilingual Plane becomes two "_" in the source's file name but one in `SafeFileName`.
- PublishRoute.Excerpt: counts 200 Unicode scalar values, while `substring(0, 200)` counts 200 UTF-16 code units. Content with a character outside the Basic Multilingual Plane before position 200 keeps fewer characters in the source than in the model, and the source can cut such a character in half.
- `JSON.stringify`, `encodeURIComponent`, the data URI, the link click and the toasts of the editor are browser effects, and they are not modelled.
- The editor's redirect and loading states are not modelled.
- The Google and GitHub providers and next-auth's own token signing are not modelled. Only the credentials provider and the two callbacks are.
- `getToken` is modelled by its outcome only: the decoded claims, or none.
- The unique `username` index (scripts/setup-mongodb.js:19) is not modelled. Users are stored without a username, so that index would refuse every registration after the first. That depends on how the database was set up, not on the core code.
- The text, category, `authorId`, `createdAt` and `published` indexes of the setup script only change speed, so they are not modelled.
- The sample documents of the setup script are not modelled.
- The list and fetch-one HTTP routes, the pages that render posts, and `lib/mongodb.ts` are not part of this model.
