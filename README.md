# Cert tracker content store

A model of the content store of the cert tracker web application and of
the handlers that write to it. A cert has a name and an exam code. From
these two fields the store derives the cert's URL `path` and the name of
its route endpoint. A cert stays unpublished until an endpoint with its
route is registered in the application. Each cert carries tags, resources
(videos, articles and the like) and courses, and each course has numbered
sections whose progress flags the user updates.

The model is an in-memory `Store` class. It keeps the certs, resources,
courses and sections tables as sequences. A row's id is its position plus
one. The application's URL map is passed in as the set of registered
endpoint names. Unique columns are stated as predicates over the tables.
A write that would break one ends in an `IntegrityError` outcome and
leaves the tables as they were. A lookup of a missing parent row
(`.first()` returning None) ends in `ParentMissing` before anything is
written; the handlers turn that into an unhandled error (`ServerError`).

Files:

- `seqs.dfy` (module `Seqs`): `Option`, order-preserving `Filter` and the
  first-match search `FirstIndex`, with their lemmas.
- `text.dfy` (module `Text`): the Python string operations the store uses.
  These are `split` and `join` with a one-character separator, ASCII
  `lower`, `strip` with Python's whitespace set, `replace(c, "")` and the
  substring test `in`.
- `models.dfy` (module `Models`): the records, the path and route
  derivation, the query functions, the store invariant and the `Store`
  class with the operations of `src/models.py`.
- `admin_views.dfy` (module `AdminViews`): the publishing page.
- `content_views.dfy` (module `ContentViews`): the create and update form
  handlers.

Each loop of the source is a Dafny loop. Its method is proved against a
function that specifies it: `Store.FindPublished` against `WithStatus`,
`Store.Find` against `Search`, `Store.CertExists` against `CertCollision`,
and so on. The properties of the program are then proved about those
functions.

## Model

| member | source | states |
|---|---|---|
| `Text.Split` | src/models.py:112 | `s.split(sep)` gives at least one piece, and no piece contains the separator |
| `Text.JoinSplit` | src/models.py:95 | joining the pieces of a split with the same separator gives the string back |
| `Text.SplitJoin` | src/models.py:112 | splitting a join of separator-free pieces gives those pieces back |
| `Text.JoinSplitReplaces` | src/models.py:95 | `"_".join(s.split(" "))` replaces every space by an underscore and changes nothing else |
| `Text.Drop` | src/models.py:99 | `replace("-", "")` leaves no hyphen, keeps every other character as often as it occurred, and keeps their order |
| `Text.Join` | src/models.py:95 | `sep.join(parts)`: the pieces with one separator between neighbours; its meaning is fixed by `JoinSplit` and `SplitJoin` |
| `Text.Lower` | src/models.py:95 | `lower()`: same length, no upper-case letter left, and every character that was not an upper-case letter unchanged |
| `Text.Strip` | src/models.py:113 | `strip()`: `lstrip` then `rstrip`; characterised by `StripSlice` |
| `Text.StripPieces` | src/models.py:112-113 | stripping pieces that lack a character leaves pieces that lack it, with no whitespace at either end |
| `Text.Contains` | src/models.py:200-210 | `q in s`; characterised by `ContainsIff` |
| `Text.TrimStartSuffix` | src/models.py:113 | `lstrip` drops exactly a whitespace prefix and stops at the first other character |
| `Text.TrimEndPrefix` | src/models.py:113 | `rstrip` drops exactly a whitespace suffix and stops at the last other character |
| `Text.StripSlice` | src/models.py:113 | `strip` gives a slice of the input with only whitespace around it, not starting or ending with whitespace |
| `Text.ContainsIff` | src/models.py:200-210 | the substring test holds exactly when the query occurs at some offset |
| `Models.FormatName` | src/models.py:95 | the formatted name has the name's length; each space becomes `_` and each letter is lower-cased |
| `Models.FormatCode` | src/models.py:96-99 | the formatted code is the formatted name of the code with exactly its hyphens removed: the other characters in order and as often as before; no hyphen, space or upper-case letter remains |
| `Models.Slug` | src/models.py:100-101 | the `{name}_{code}` part shared by path and route has no space and no upper-case letter |
| `Models.DerivePath` | src/models.py:100 | the path is "/" followed by the slug |
| `Models.DeriveRoute` | src/models.py:101 | the route is "data." followed by the slug |
| `Models.PathRouteAgree` | src/models.py:100-101 | two certs share a path exactly when they share a route |
| `Models.FormatNameTest` | src/models.py:95 | "Test" formats to "test" |
| `Models.FormatCodeTest` | src/models.py:96-99 | "tst-101" formats to "tst101" |
| `Models.DerivationExample` | src/models.py:95-101 | name "Test" with code "tst-101" gives path "/test_tst101" and route "data.test_tst101" |
| `Models.CaseCollisionExample` | src/models.py:95-101 | "A B"/"X" and "a b"/"x" differ in name and code but get the same path and route |
| `Models.ParseTags` | src/models.py:112-113 | one tag per comma-separated piece; no tag name contains a comma or begins or ends with whitespace |
| `Models.TagsRoundTrip` | src/models.py:112-113 | when no piece has whitespace around it, the tag names joined by commas give the tag text back |
| `Models.CertFromForm` | src/models.py:102-119 | the record `create_new` builds: the form's fields, the derived path and route, the parsed tags, and `published` true exactly when the route is a registered endpoint |
| `Models.CollectTags` | src/models.py:112-113 | the tag loop yields one tag per comma-separated piece, stripped, in input order |
| `Models.HasEndpoint` | src/models.py:115-117 | the scan over the registered endpoints finds a match exactly when the endpoint is registered |
| `Models.CertConflict` | src/models.py:59-62 | the commit of a new cert raises IntegrityError exactly when a stored cert has its path, route, name or code |
| `Models.CertCollision` | src/models.py:127-146 | None exactly when no cert has the name or the code; otherwise "Name" or "Code", decided by the first cert in store order that has either, name before code |
| `Models.PrecheckMissesSlug` | src/models.py:59-62 | when the pre-check finds nothing but the new cert still clashes, some stored cert already has its path or its route |
| `Models.SecondCreateRejected` | src/models.py:140-146 | once a cert is stored, asking again with its name or code is refused: the answer is the one the earlier certs already give, or, when none of them has the name or the code, "Name" when the name repeats and "Code" otherwise |
| `Models.WithStatus` | src/models.py:149-176 | exactly the certs with the given flag, in store order |
| `Models.PublishedUnpublishedPartition` | src/models.py:149-176 | the published and unpublished lists together hold every cert exactly as often as the store does |
| `Models.Search` | src/models.py:179-213 | exactly the published certs whose path, name, code or a tag name contains the query, in store order |
| `Models.SearchWithinPublished` | src/models.py:196-199 | the search is the same filter run over the published list and keeps its order |
| `Models.CertsDistinct` | src/models.py:59-62 | with the unique columns holding, no cert occurs twice in the store, in the search results or in either status list |
| `Models.FindByPath` | src/models.py:216-226 | None exactly when no cert has the path; otherwise the first cert with that path |
| `Models.RouteIndex` | src/models.py:229-239 | None exactly when no cert has the route; otherwise the position of the first cert with it |
| `Models.FindByRoute` | src/models.py:229-239 | None exactly when no cert has the route; otherwise the first cert with that route |
| `Models.LookupsFindStored` | src/models.py:216-239 | with unique columns, looking up a stored cert's route or path finds that very cert |
| `Models.SetPublished` | src/admin/views.py:40 | the cert at the position is published, its other fields are as before, and every other cert is unchanged |
| `Models.PublishIdempotent` | src/admin/views.py:40 | publishing twice is publishing once; publishing a published cert changes nothing |
| `Models.PublishMovesCert` | src/admin/views.py:37-43 | publishing an unpublished cert moves it from the unpublished list to the published one; every other cert stays in its list |
| `Models.LivenessPreserved` | src/models.py:114-119 | creating a cert, or publishing one whose route is registered, keeps every published cert's route registered |
| `Models.CourseCollision` | src/models.py:336-354 | None exactly when no course has the url or the title; otherwise "URL" or "Title", decided by the first course that has either, url before title |
| `Models.ResourceConflict` | src/models.py:277-278 | the commit of a new resource row raises IntegrityError exactly when a stored row has its url or title |
| `Models.SectionConflict` | src/models.py:366-367 | the commit of a new section raises IntegrityError exactly when a stored section has its number or title |
| `Models.NewSection` | src/models.py:381-382 | `Section(**data)`: the posted course, number and title with the timestamp, both progress flags NULL |
| `Models.CertsUnique` | src/models.py:59-62 | no two certs share a path, route, name or code |
| `Models.ResourcesUnique` | src/models.py:277-278 | no two rows of the resources table share a url or a title |
| `Models.SectionsUnique` | src/models.py:366-367 | no two sections share a number or a title |
| `Models.Consistent` | src/models.py:59-62 | the store invariant: row ids are positions plus one, the unique columns of every table hold, and every resource, course and section points at a stored parent |
| `Models.AddCertConsistent` | src/models.py:59-62 | appending a cert that clashes with no stored cert on path, route, name or code keeps the tables consistent |
| `Models.Store.CertExists` | src/models.py:127-146 | the scan returns what `CertCollision` specifies |
| `Models.Store.CreateCert` | src/models.py:87-124 | the cert built from the form (derived path and route, parsed tags, published exactly when its route is registered) is appended unless it clashes on a unique column, in which case nothing is stored; other tables are unchanged |
| `Models.Store.FindPublished` | src/models.py:149-161 | the loop returns the published certs in store order |
| `Models.Store.FindUnpublished` | src/models.py:164-176 | the loop returns the unpublished certs in store order |
| `Models.Store.Find` | src/models.py:179-213 | the loop with its early `continue` and `break` returns exactly `Search`, for a non-empty query |
| `Models.Store.FetchResources` | src/models.py:241-253 | for "course", the cert's courses; for any other type, the cert's rows of the resources table with that type; both in store order |
| `Models.Store.CreateResource` | src/models.py:286-300 | missing cert: nothing written; url or title taken: nothing written; otherwise one new row with the data and timestamp; other tables unchanged |
| `Models.Store.CourseExists` | src/models.py:336-354 | the scan returns what `CourseCollision` specifies |
| `Models.Store.CreateCourse` | src/models.py:320-333 | missing cert: nothing written; otherwise the resource is wrapped whole in a new course of that cert; other tables unchanged |
| `Models.Store.CreateSection` | src/models.py:373-386 | missing course: nothing written; number or title taken: nothing written; otherwise one new section with unset flags; other tables unchanged |
| `Models.Store.UpdateSection` | src/models.py:388-398 | the section gets exactly the two given flags; no other field and no other row changes |
| `Models.Store.Publish` | src/admin/views.py:40-41 | the cert at the position has its flag set to true and nothing else changes |
| `AdminViews.NotFoundMessage` | src/admin/views.py:45 | the message shown when no endpoint has the submitted name |
| `AdminViews.NotFoundMessageNamesRoute` | src/admin/views.py:45 | the error message contains the identifier that was asked for |
| `AdminViews.ManagePublishing` | src/admin/views.py:25-48 | GET: the unpublished certs, nothing changes. POST with no endpoint of exactly that name: the unpublished certs and the message, nothing changes. POST with a match: the first cert with that route is published and the reply redirects to the certs list, or the handler fails with nothing changed when no cert has that route. Other tables never change, and the registered-route invariant is kept |
| `ContentViews.UniqueMessage` | src/content/views.py:39 | the "<Field> must be unique" error of a failed pre-check |
| `ContentViews.Decimal` | src/content/views.py:117 | `str(n)`: the decimal digits of the number, with a leading "-" when it is negative |
| `ContentViews.FormData` | src/content/views.py:54-66 | the `data` dictionary: the form's fields, with `has_og_data` present exactly when that field was posted non-empty |
| `ContentViews.CollectResourceData` | src/content/views.py:54-66 | building the dictionary and then adding the flag gives `FormData`; the flag is set exactly when the field was posted non-empty |
| `ContentViews.Create` | src/content/views.py:27-43 | a name or code already stored gives "<Field> must be unique" with no cert added; otherwise the cert is added, or the handler fails with nothing added when its path or route is taken |
| `ContentViews.CreateResource` | src/content/views.py:46-83 | a course goes to the courses only, after the "URL"/"Title" pre-check; any other type goes to the resources table only, with "Create resource failed" and nothing added on a clash; a missing cert fails with nothing added; no row of type "course" ever enters the resources table |
| `ContentViews.CreateSection` | src/content/views.py:103-122 | a taken number or title gives "Section data must be unique" with no section added; otherwise one section is added; the reply goes to the cert's route, or fails after the write when the cert or its endpoint is missing |
| `ContentViews.UpdateSection` | src/content/views.py:125-138 | the posted section gets exactly the posted flags and the reply is empty; a missing section fails with nothing changed |

## Left out

- The OpenGraph fetch in `create_resource` (src/content/views.py:84-100) is left out: it is network I/O through a foreign library.
- Timestamps come from the clock in the source; here they are parameters of the operations.
- Flashed success messages other than the ones the handlers build from form fields are left out, and so are templates, status codes and the JSON of the pages. Replies are datatypes.
- The "Cert has been published" and "run new_route.sh" messages that `Cert.create_new` flashes (src/models.py:118-122) are presentation only and are left out.
- SQLAlchemy sessions, association tables and pickling are left out. A course stores its resource as a record, and the cert a resource or course belongs to is a field of that row.
- Tag rows are kept inside the cert as a list of names. Their own ids and table are left out.
- `Text.Lower` lower-cases ASCII letters only. Python's `str.lower` also folds other scripts.
- Form validation and the GET and invalid-form branches of the content handlers are left out. Each handler is modelled on a form that validates.
- `Models.Store.Find`: requires a non-empty query, because the search page refuses an empty one before calling it (src/certs/views.py:38-41).
- `Models.Store.UpdateSection`: takes the row position, which is the section id minus one; `ContentViews.UpdateSection` does that lookup and models the missing-section failure.
- `ContentViews.Create`: the success reply carries no message, because `create` flashes none itself; the messages flashed inside `Cert.create_new` are left out as presentation.
- Row ids are positions plus one. This assumes ids are handed out as SQLite does for an INTEGER PRIMARY KEY without AUTOINCREMENT, where a rolled-back insert uses up no id. The database behind the application is not part of this model; one that takes ids from a sequence would skip the id of a rolled-back insert.
- Queries without an ORDER BY (`Cert.query.all()`, `Course.query.all()` and `.first()`, src/models.py:140, 157, 172, 196, 226, 239, 348) are taken to return rows in insertion order, which SQLite gives for these plain table scans but SQL does not promise. The first hit that `exists`, `find_by_path` and `find_by_route` report, and the order of every list, rest on this.
- `url_for` is modelled only as a check that the endpoint name is registered; URL building is left out.
- The static JavaScript, the application factory and the `data` blueprint's `fetch_cert` are not part of this model: they render pages and hold UI state.
- Resource uniqueness is what the code enforces, not a check across both tables. A course is checked only against stored courses (`Course.exists`), and any other resource only against the unique url and title columns of the resources table.
