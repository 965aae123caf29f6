# Blog entry store — a Dafny model

This project models the core of a small Spark blog: the in-memory entry store
(`SimpleBlogDao`), the entry and comment objects it holds (`BlogEntry`, `Comment`),
and the parts of the HTTP handlers in `Main.java` that act on them. Those parts are
the tag-field parser, the edit, comment and delete route bodies, and the one-shot
flash messenger kept in the client's session.

Layout, one module per source file or component:

- `wrappers.dfy` (`Wrappers`): `Option`, which stands for a Java reference that may be null, and `Result`, which is a value or the exception thrown instead.
- `clock.dfy` (`Clock`): `LocalDateTime`, an opaque creation date passed in by the caller.
- `comment.dfy` (`Comments`): class `Comment`.
- `blog_entry.dfy` (`BlogEntries`): class `BlogEntry`. The foreign Slugify library is a constructor parameter `slugify: string -> Option<string>`. It is deterministic because it is a function. `None` stands for its `IOException`, after which the entry keeps a null slug.
- `simple_blog_dao.dfy` (`BlogDao`): class `SimpleBlogDao`, whose `entries` field is a `seq` of entry references. It also holds the specification functions for lookup (`FirstMatch`) and delete (`WithoutSlug`) and the lemmas about them.
- `java_strings.dfy` (`JavaStrings`): `String.trim()` and `String.split(",")` as the tag parser uses them.
- `tag_input.dfy` (`TagInput`): the tag-field loop (`ParseTags`) and the tag set it builds (`TagSet`).
- `flash.dfy` (`Flash`): class `Request`, whose session is `Option<map<string, string>>` (`None` means no session yet), and the three flash operations.
- `handlers.dfy` (`Handlers`): the edit, comment and delete route bodies.
- `scenarios.dfy` (`Scenarios`): client methods that follow the seed data in `main` (same titles, tags and order of calls, shortened contents), an entry's life from creation to deletion, an entry with a null slug, and duplicate slugs. They use only the contracts above.

Behaviour of the code that a reader might not expect:

- Slugs are not unique. `addEntry` does no check. Lookup returns the first entry with the slug, and delete removes all of them (`FirstMatchAfterAppend`, `WithoutSlugCounts`, `Scenarios.DuplicateSlugs`).
- A failed slugification leaves the slug null. A later lookup or delete then dereferences null, so `FindEntryBySlug` requires `NullFreeUntilMatch` and `DeleteEntryBySlug` requires `AllSlugged`. The stream in the lookup stops at the first match, so only entries up to that match are dereferenced. `removeIf` tests every entry.
- Tag pieces that are blank only after trimming are kept as the empty tag `""`. Java's `split` drops only the trailing pieces that are empty before trimming. So `" a, b ,  ,c"` gives `{"a", "b", "", "c"}` (`BlankPieceIsKept`). An input made only of commas, such as `",,,"`, passes the not-blank guard but gives no tags (`CommasOnlyHaveNoTags`).
- `Comment` has setters for author and content. The store has no lock.

## Model

| member | source | states |
|---|---|---|
| BlogDao.SimpleBlogDao.constructor | src/main/java/com/teamtreehouse/blog/dao/SimpleBlogDao.java:11-13 | a new store holds no entries |
| BlogDao.SimpleBlogDao.AddEntry | src/main/java/com/teamtreehouse/blog/dao/SimpleBlogDao.java:17-19 | appends the entry at the end, returns true, no slug-uniqueness check |
| BlogDao.SimpleBlogDao.FindAllEntries | src/main/java/com/teamtreehouse/blog/dao/SimpleBlogDao.java:23-25 | returns the entries in insertion order as a sequence value (a copy); the store is unchanged |
| BlogDao.SimpleBlogDao.FindEntryBySlug | src/main/java/com/teamtreehouse/blog/dao/SimpleBlogDao.java:29-34 | fails with NotFoundException exactly when no entry has the slug; otherwise returns the first entry in insertion order with that slug |
| BlogDao.FirstMatch | src/main/java/com/teamtreehouse/blog/dao/SimpleBlogDao.java:30-33 | the index the stream's filter/findFirst stops at: it carries the slug and no earlier entry does; None exactly when no entry carries it |
| BlogDao.AllSluggedScansSafely | src/main/java/com/teamtreehouse/blog/dao/SimpleBlogDao.java:31 | when every entry has a non-null slug, the lookup dereferences no null, for any slug |
| BlogDao.WithoutSlug | src/main/java/com/teamtreehouse/blog/dao/SimpleBlogDao.java:42 | every survivor was in the store and has a different slug; every entry with a different slug survives |
| BlogDao.SimpleBlogDao.DeleteEntryBySlug | src/main/java/com/teamtreehouse/blog/dao/SimpleBlogDao.java:41-43 | the new entries are the old ones without those carrying the slug |
| BlogDao.WithoutSlugConcat | src/main/java/com/teamtreehouse/blog/dao/SimpleBlogDao.java:41-43 | delete distributes over concatenation, so survivors keep their relative order |
| BlogDao.WithoutAbsentSlug | src/main/java/com/teamtreehouse/blog/dao/SimpleBlogDao.java:41-43 | deleting a slug no entry has leaves the entries exactly as they were, with no failure |
| BlogDao.WithoutSlugCounts | src/main/java/com/teamtreehouse/blog/dao/SimpleBlogDao.java:41-43 | every entry with the slug is removed, every duplicate included, and every other entry keeps its number of occurrences |
| BlogDao.NotFoundAfterDelete | src/main/java/com/teamtreehouse/blog/dao/SimpleBlogDao.java:29-43 | after deleting a slug, looking it up finds nothing |
| BlogDao.FirstMatchAfterAppend | src/main/java/com/teamtreehouse/blog/dao/SimpleBlogDao.java:17-33 | after an append, an existing match is still the one found (a duplicate slug is shadowed); with no earlier match, the appended entry is found if it has the slug |
| BlogEntries.BlogEntry.constructor | src/main/java/com/teamtreehouse/blog/model/BlogEntry.java:21-34 | title, content and creation date as given; no comments; tags are the set of the arguments, duplicates collapsed; slug is slugify(title), null when slugify fails |
| BlogEntries.BlogEntry.AddComment | src/main/java/com/teamtreehouse/blog/model/BlogEntry.java:55-58 | appends the comment after the earlier ones, returns true, changes nothing else |
| BlogEntries.BlogEntry.AddTag | src/main/java/com/teamtreehouse/blog/model/BlogEntry.java:75-77 | the tag joins the set; a tag already present leaves it unchanged; nothing else changes |
| BlogEntries.BlogEntry.SetTitle | src/main/java/com/teamtreehouse/blog/model/BlogEntry.java:80-82 | changes the title only; slug, tags and comments untouched |
| BlogEntries.BlogEntry.SetContent | src/main/java/com/teamtreehouse/blog/model/BlogEntry.java:84-86 | changes the content only |
| BlogEntries.BlogEntry.SetSlug | src/main/java/com/teamtreehouse/blog/model/BlogEntry.java:88-90 | the only operation that changes the slug; nothing else changes |
| BlogEntries.BlogEntry.SetTags | src/main/java/com/teamtreehouse/blog/model/BlogEntry.java:92-94 | replaces the tag set only; the slug stays |
| Comments.Comment.constructor | src/main/java/com/teamtreehouse/blog/model/Comment.java:12-16 | author and content exactly as given; the creation date is a constant field with no setter |
| Comments.Comment.SetAuthor | src/main/java/com/teamtreehouse/blog/model/Comment.java:32-34 | changes the author only |
| Comments.Comment.SetContent | src/main/java/com/teamtreehouse/blog/model/Comment.java:36-38 | changes the content only |
| JavaStrings.TrimIsTrimmedSlice | src/main/java/com/teamtreehouse/blog/Main.java:153 | trim keeps one contiguous slice, strips only characters up to U+0020 around it, and the result neither starts nor ends with one |
| JavaStrings.TrimEmptyIffBlank | src/main/java/com/teamtreehouse/blog/Main.java:150 | `trim().isEmpty()` holds exactly for whitespace-only input |
| JavaStrings.TrimIdempotent | src/main/java/com/teamtreehouse/blog/Main.java:153 | a trimmed piece has nothing left to trim |
| JavaStrings.SplitAll | src/main/java/com/teamtreehouse/blog/Main.java:151 | at least one piece, none holds a comma, and joining them with commas gives back the input |
| JavaStrings.SplitAllJoin | src/main/java/com/teamtreehouse/blog/Main.java:151 | splitting is the inverse of joining pieces that hold no comma |
| JavaStrings.Split | src/main/java/com/teamtreehouse/blog/Main.java:151 | no piece holds a comma; an input without a comma comes back whole; otherwise the last piece is not empty |
| JavaStrings.SplitJoin | src/main/java/com/teamtreehouse/blog/Main.java:151 | joining split's pieces gives the input up to its trailing commas |
| TagInput.ParseTags | src/main/java/com/teamtreehouse/blog/Main.java:148-155 | the loop builds exactly TagSet(input) |
| TagInput.TrimmedPiecesMembers | src/main/java/com/teamtreehouse/blog/Main.java:152-154 | a string is a tag exactly when some split piece trims to it |
| TagInput.BlankInputHasNoTags | src/main/java/com/teamtreehouse/blog/Main.java:149-150 | a null or whitespace-only input yields the empty tag set |
| TagInput.NonBlankInputHasTags | src/main/java/com/teamtreehouse/blog/Main.java:150-154 | a non-blank input with a character other than a comma yields at least one tag |
| TagInput.CommasOnlyHaveNoTags | src/main/java/com/teamtreehouse/blog/Main.java:150-151 | an input of commas alone passes the guard but yields no tags |
| TagInput.TagsAreTrimmed | src/main/java/com/teamtreehouse/blog/Main.java:152-154 | no tag has leading or trailing whitespace or holds a comma |
| TagInput.BlankPieceIsKept | src/main/java/com/teamtreehouse/blog/Main.java:151-154 | `" a, b ,  ,c"` gives `{"a", "b", "", "c"}`: a piece blank after trimming gives the empty tag |
| TagInput.TrailingCommasAddNothing | src/main/java/com/teamtreehouse/blog/Main.java:151 | `"a,,"` gives `{"a"}`: trailing empty pieces are dropped before trimming |
| Flash.GetFlashMessage | src/main/java/com/teamtreehouse/blog/Main.java:269-282 | a message exactly when a session exists and holds the flash key, and then the stored value; never creates a session |
| Flash.SetFlashMessage | src/main/java/com/teamtreehouse/blog/Main.java:264-267 | creates the session if needed, overwrites any pending message, keeps the other attributes |
| Flash.CaptureFlashMessage | src/main/java/com/teamtreehouse/blog/Main.java:285-292 | returns what GetFlashMessage saw; with no message, the session (or its absence) is unchanged; with one, only the flash key is removed |
| Flash.DeliveredOnce | src/main/java/com/teamtreehouse/blog/Main.java:264-292 | set then two captures: the first returns the message, the second returns none, and the session ends as the old attributes (or an empty session) without the flash key |
| Handlers.EditEntry | src/main/java/com/teamtreehouse/blog/Main.java:139-164 | NotFoundException and no change when the slug is unknown; otherwise sets that entry's title, content and tags to the submitted values, keeps its slug and comments, changes no other entry, and redirects to /entries/ plus the unchanged slug |
| Handlers.AddCommentToEntry | src/main/java/com/teamtreehouse/blog/Main.java:171-185 | NotFoundException and no change when the slug is unknown; otherwise appends exactly one new comment with the submitted author and content to the entry found, and changes nothing else |
| Handlers.DeleteEntry | src/main/java/com/teamtreehouse/blog/Main.java:222-235 | deletes and redirects home with a success message only when `_method` is "DELETE"; otherwise leaves the store alone, sets a failure message and does not redirect; either way the session exists afterwards and keeps every other attribute |

## Left out

- Spark routing, `before` filters, `redirect`, `halt`, static files and Handlebars templates are left out. The handlers return the redirect path as a value. A NotFoundException that escapes a route is returned as a `Failure`; the error response Spark renders for it is not modelled.
- The cookie and "admin" password checks (Main.java:27-60, 204-215) and the create-entry route (Main.java:107-118) are not part of this model.
- The Slugify library is a function parameter: its transliteration rules are not modelled, only that it is deterministic and may fail.
- The `e.printStackTrace()` logging on the slugification failure path (BlogEntry.java:32) is not modelled; only its effect on the slug (left null) is.
- `LocalDateTime.now()` and `getFormattedDate` are left out: creation dates are opaque values passed in, and date formatting is not modelled.
- Concurrency is not modelled: the `ArrayList` is unsynchronised and the code has no lock.
- The `BlogDao` interface has no behaviour of its own; `SimpleBlogDao` carries its contract.
- `NotFoundException` carries no state the store uses, so it is a one-value datatype.
- BlogEntries.BlogEntry.GetComments: the model returns the comment sequence as a value, so it does not capture that Java returns the entry's live list, through which a caller could change the entry. The same holds for `GetTags`, and for `SetTags` storing the caller's own set object.
- Request parameters are strings in the model. A null title, content or author from a missing form field is not modelled; the two nullable inputs modelled are the tag field and the `_method` field of the delete form.
- The getters of `BlogEntry` and `Comment` are reader functions with no contract of their own: each returns its field.
- `getFlashMessage` casts the attribute to `String`. Session attributes here are strings, so the `ClassCastException` path is not modelled.
