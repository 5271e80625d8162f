# secops_home: content routes, schemas and page logic in Dafny

This project models the content-management core of the secops_home club
website. The backend is an Express API over Mongoose schemas; the client is
a React single-page app. The model covers four things:

- the posts, classes, CTFs and members routes, including the like toggle
  on posts;
- the multer upload rules of the posts, CTFs and classes routes: the file
  filter, the size limit, the generated file name, and the precedence
  between an uploaded file and a reference sent in the body;
- the Class, CTF and Member schemas: required and trimmed paths, the
  `previewType` enum and its default, and the shape of a `contentLinks`
  entry;
- the pure decisions of the events, CTFs, posts, classes and admin pages.

Each collection is a map from id to an immutable record. A route is a pure
function from the collection and the request to an `Exchange`: the
collection afterwards, the HTTP status and the JSON body. Sorting a
collection is the one method; it builds the listing by insertion.

Module layout, following the program:

| file | module | models |
|---|---|---|
| wrappers.dfy | `Wrappers` | `Option` |
| text.dfy | `Text` | `trim`, `toLowerCase`, `path.extname`, unanchored literal regexes, `String(n)`, `join` |
| records.dfy | `Records` | the stored documents |
| schemas.dfy | `Schemas` | `backend/models/Class.js`, `CTF.js`, `Member.js` |
| uploads.dfy | `Uploads` | the multer configuration of the three upload routes |
| store.dfy | `Store` | `find().sort()`, `findById`, `findByIdAndUpdate`, `findByIdAndDelete`, `save` |
| postroutes.dfy | `PostRoutes` | `backend/routes/posts.js` |
| classroutes.dfy | `ClassRoutes` | `backend/routes/classes.js` |
| ctfroutes.dfy | `CtfRoutes` | `backend/routes/ctfs.js` |
| memberroutes.dfy | `MemberRoutes` | `backend/routes/members.js` |
| assets.dfy | `Assets` | the `/uploads` URL rule the pages share |
| eventspage.dfy | `EventsPage` | `frontend/src/pages/Events.jsx` |
| ctfspage.dfy | `CtfsPage` | `frontend/src/pages/CTFs.jsx` |
| postspage.dfy | `PostsPage` | `frontend/src/pages/Posts.jsx` |
| classespage.dfy | `ClassesPage` | `frontend/src/pages/Classes.jsx` |
| adminpage.dfy | `AdminPage` | `frontend/src/pages/Admin.jsx` |

Mongoose behaviour the model relies on:

- Keys left `undefined` in an update document are dropped (Mongoose 6 and
  later), so an absent body field leaves the stored value alone.
- `trim` setters run on updates too.
- `findByIdAndUpdate` runs no validators. An update can therefore store a
  blank title or an off-enum `previewType`; `ClassRoutes.UpdateSkipsValidation`
  and `CtfRoutes.UpdateStoresAnyPreviewType` show this.
- A `required` string path rejects `""`, and trimming happens before that
  check.
- An `:id` that is not a valid ObjectId makes the query throw, so the
  route answers 500, not 404 (`Store.IdParam.Malformed`).

Behaviour of the code worth knowing:

- A file the filter or the size limit refuses is an error passed to
  Express's default handler, which answers 500 (`Store.Body.ErrorPage`).
  No 413 or 415 is ever sent.
- The like toggle reads the post and then saves it. It is not an atomic
  update, and the model makes no atomicity claim.
- `likes == |likedBy|` is not enforced by the code. It is an invariant
  that every route keeps (`PostRoutes.Healthy`), provided it held before.

## Model

| member | source | states |
|---|---|---|
| Text.ContainsIffOccurs | backend/routes/posts.js:22-24 | the unanchored literal pattern matches exactly when the word occurs somewhere in the text |
| Text.Lower | backend/routes/posts.js:23 | the result has the same length and no capital letter: each capital becomes its lower-case letter and every other character stays |
| Text.LowerIdempotent | backend/routes/posts.js:23 | lower-casing a lower-cased extension changes nothing |
| Text.ExtName | backend/routes/posts.js:23 | the extension is empty exactly when the base name is empty, has no dot after its first character, or is ".."; otherwise it is the end of the base name from its last dot, with no slash |
| Text.Trim | backend/models/Class.js:4-8 | a trimmed value has no white space at either end and is what remains after cutting only white space from both ends |
| Text.TrimIdempotent | backend/models/Class.js:4-8 | trimming a stored trimmed value again changes nothing |
| Text.TrimEmptyIffBlank | backend/models/Class.js:4-8 | a value trims to "" exactly when it is all white space |
| Text.NatToDecimal | backend/routes/posts.js:13 | a timestamp renders as decimal digits with no leading zero, "0" only for zero |
| Text.DecimalRoundTrip | backend/routes/posts.js:13 | reading back the rendered digits gives the number |
| Text.DecimalInjective | backend/routes/posts.js:13 | different numbers render differently |
| Text.IntToDecimal | frontend/src/pages/Classes.jsx:88 | a non-negative number renders as its decimal digits with no leading zero; a negative one as a minus followed by the digits of its magnitude, again with no leading zero |
| Text.Join | frontend/src/pages/Admin.jsx:132-134 | joining nothing gives "", one item gives the item, and a longer list starts with the first item, ends with the last, and is at least as long as both plus one separator |
| Schemas.RequiredTrimmedIffFilled | backend/models/Class.js:4-8 | a required trimmed path accepts exactly the values that are present and not blank |
| Schemas.AssignTrimmed | backend/routes/classes.js:79-80 | an absent value keeps the stored one; a present one is stored trimmed |
| Schemas.NewClass | backend/models/Class.js:3-49 | a class saves iff title is not blank, description and time are non-empty, a date is given and every link has label and url; the saved class holds the trimmed title, instructor and location, the other fields as given, and the creation time |
| Schemas.NewCtf | backend/models/CTF.js:3-33 | a CTF saves iff title and author are not blank and a given previewType is image, video or link; an absent previewType becomes image; title, author and description are trimmed |
| Schemas.CtfPassesIff | backend/models/CTF.js:3-21 | the CTF validators pass exactly when title and author are present and not blank and previewType is absent or image, video or link |
| Schemas.NewMember | backend/models/Member.js:3-30 | a member saves iff name and role are not blank; both are trimmed; the four optional fields are kept as given |
| Schemas.BlankClassTitleRefused | backend/models/Class.js:4-8 | a whitespace-only title is refused whatever the other fields hold |
| Uploads.StoredName | backend/routes/posts.js:12-15 | the generated name starts with the route's prefix and a dash, ends with the original extension and has no slash |
| Uploads.StoredUnderUploads | backend/routes/ctfs.js:57 | a kept file's stored reference lies in /uploads/ |
| Uploads.ReferencePath | backend/routes/posts.js:57 | the stored reference starts with /uploads/ and the prefix, ends with the extension, and has no slash besides the two of the directory |
| Uploads.Receive | backend/routes/posts.js:18-31 | no file gives no file; a file is refused exactly when its lower-cased extension, and for images and videos its MIME type, match no allowed word or it is over the byte limit; a kept file is referenced by its generated path |
| Uploads.CreateReference | backend/routes/posts.js:57 | on create the reference is the uploaded file's path, else the non-empty body value, else "" |
| Uploads.UpdateReference | backend/routes/posts.js:77-81 | on update the reference is the uploaded file's path, else the non-empty body value, else the stored one |
| Uploads.CreateIsUpdateOfEmpty | backend/routes/posts.js:57-81 | the create rule is the update rule applied to an empty stored reference |
| Uploads.UpdateReferenceKeeps | backend/routes/classes.js:82-86 | with no file, an absent, empty or unchanged body value keeps the stored reference |
| Uploads.ClassFilterIgnoresMime | backend/routes/classes.js:21-29 | the classes filter gives the same verdict whatever MIME type is declared |
| Uploads.PostImageIsCtfPreview | backend/routes/ctfs.js:18-31 | every file the posts upload keeps, the CTF upload keeps too |
| Uploads.ClassWordsReduce | backend/routes/classes.js:22 | the classes pattern accepts exactly the extensions containing ppt or pdf; the pptx alternative adds nothing |
| Uploads.StoredNamesDistinct | backend/routes/classes.js:13-14 | two uploads with different (time, random) pairs get different names |
| Store.Fetch | backend/routes/posts.js:42-52 | get answers 200 with the document iff the id is stored, 404 with the not-found message for a missing id, 500 for a malformed one, and changes nothing |
| Store.Remove | backend/routes/posts.js:99-111 | delete succeeds iff the id is stored; exactly that document goes and the others stay; otherwise nothing changes and a missing id is 404 |
| Store.Modify | backend/routes/posts.js:83-93 | update succeeds iff the id is stored and writes the patched document under it, answering with it; otherwise nothing changes and a missing id is 404 |
| Store.Insert | backend/routes/posts.js:65-69 | a validated document is stored under its new id with 201; a refused one is a 500 with nothing stored |
| Store.RemoveThenFetch | backend/routes/posts.js:99-111 | a deleted document can no longer be fetched |
| Store.ModifyThenFetch | backend/routes/posts.js:83-93 | fetching after an update gives what the update answered |
| Store.ModifyKeepsKeyed | backend/routes/posts.js:83-87 | an update that keeps ids keeps every document under its own id |
| Store.List | backend/routes/posts.js:35 | the listing holds every stored document exactly once, each as stored, with the sort key never increasing |
| PostRoutes.RemoveAll | backend/routes/posts.js:124 | the filter removes every occurrence of the user and keeps every other id as often as it was there |
| PostRoutes.RemoveAllKeepsOthers | backend/routes/posts.js:124 | filtering out an absent id changes nothing |
| PostRoutes.RemoveAllNoDuplicates | backend/routes/posts.js:124 | filtering a list without duplicates leaves none |
| PostRoutes.RemoveAllAppended | backend/routes/posts.js:124-127 | filtering out an id just pushed onto a list without it gives the list back |
| PostRoutes.ToggleLike | backend/routes/posts.js:121-129 | a user who liked the post is removed and likes falls by one; otherwise the user is appended and likes rises by one; no other field changes |
| PostRoutes.ToggleKeepsCount | backend/routes/posts.js:121-129 | if likes equals the number of likers and no liker is listed twice, both still hold after a toggle, so likes is never negative |
| PostRoutes.ToggleTwiceRestoresLikes | backend/routes/posts.js:121-129 | two toggles by one user give the like count back, whatever likedBy holds |
| PostRoutes.ToggleTwiceRestores | backend/routes/posts.js:121-129 | on a counted post two toggles give the same post back when the user had not liked it, and the same likers and count when they had |
| PostRoutes.DuplicateLikerBreaksCount | backend/routes/posts.js:121-125 | a user listed twice is removed twice but takes only one like away |
| PostRoutes.Like | backend/routes/posts.js:113-136 | a blocked caller changes nothing; a like succeeds iff the id is stored and the toggled post validates, storing and answering the toggled post; a missing id is 404 with nothing changed |
| PostRoutes.LikeKeepsHealthy | backend/routes/posts.js:113-136 | a like request keeps every stored post counted |
| PostRoutes.Fresh | backend/routes/posts.js:59-63 | a new post has the body's title and content, the chosen image, no likes and no likers |
| PostRoutes.Create | backend/routes/posts.js:54-70 | a blocked caller or a refused file stores nothing; otherwise a validated post is stored with 201 under its new id with the image chosen by upload, body, then "" |
| PostRoutes.CreateThenFetch | backend/routes/posts.js:54-70 | a created post can be fetched by its id |
| PostRoutes.CreateKeepsHealthy | backend/routes/posts.js:54-70 | creating a post keeps every stored post counted |
| PostRoutes.Patch | backend/routes/posts.js:74-81 | an update takes title and content from the body when sent, changes image only for a file or a non-empty body image, and touches nothing else |
| PostRoutes.Update | backend/routes/posts.js:72-97 | a blocked caller or a refused file changes nothing; otherwise the update succeeds iff the id is stored, writing the patched post; a missing id is 404 |
| PostRoutes.UpdateKeepsHealthy | backend/routes/posts.js:72-97 | an update never touches the likes |
| PostRoutes.Get | backend/routes/posts.js:42-52 | get answers the stored post, or 404 for a missing id, and changes nothing |
| PostRoutes.Delete | backend/routes/posts.js:99-111 | a blocked caller changes nothing; delete removes exactly the named post and confirms; a missing id is 404 |
| PostRoutes.DeleteKeepsHealthy | backend/routes/posts.js:99-111 | deleting a post keeps the others counted |
| PostRoutes.ListPosts | backend/routes/posts.js:33-40 | the listing holds every post once, newest first |
| ClassRoutes.LinksOnCreate | backend/routes/classes.js:67 | absent or empty links become []; an array is kept; text is decoded, and an undecodable text fails |
| ClassRoutes.LinksOnUpdate | backend/routes/classes.js:88-90 | the stored links are replaced iff the field is truthy: an array, or non-empty text that decodes; undecodable text fails |
| ClassRoutes.LinksAgree | backend/routes/classes.js:67-90 | create and update read a supplied field the same way and fail on the same text |
| ClassRoutes.Create | backend/routes/classes.js:53-75 | a blocked caller, a refused file or undecodable links store nothing; otherwise the class is stored with 201 iff it validates, and the stored class is valid |
| ClassRoutes.CreatedContentFile | backend/routes/classes.js:56 | a created class holds the uploaded file's path, else the non-empty body value, else "" |
| ClassRoutes.Patch | backend/routes/classes.js:79-90 | the seven plain fields change only when sent, trimmed where the schema trims; contentFile only for a file or non-empty value; links only when supplied; id and creation time never |
| ClassRoutes.EmptyPatchKeeps | backend/routes/classes.js:79-90 | an empty update with no file leaves the class unchanged |
| ClassRoutes.Update | backend/routes/classes.js:77-106 | a blocked caller, a refused file or undecodable links change nothing, the last even for a missing id; otherwise the update succeeds iff the id is stored; a missing id is 404 |
| ClassRoutes.UpdateSkipsValidation | backend/routes/classes.js:92-96 | an update can blank out the title of a valid class |
| ClassRoutes.UpdateKeepsValid | backend/routes/classes.js:79-96 | an update whose required fields are absent or acceptable and whose links are complete keeps a class valid |
| ClassRoutes.Get | backend/routes/classes.js:41-51 | get answers the stored class, or 404 for a missing id, and changes nothing |
| ClassRoutes.Delete | backend/routes/classes.js:108-120 | delete removes exactly the named class and confirms; a missing id is 404 with nothing changed |
| ClassRoutes.ListClasses | backend/routes/classes.js:32-39 | the listing holds every class once, latest class date first |
| CtfRoutes.Create | backend/routes/ctfs.js:54-73 | a blocked caller or refused file stores nothing; otherwise a CTF is stored with 201 iff title and author are not blank and previewType is absent or listed |
| CtfRoutes.CreateCopiesFields | backend/routes/ctfs.js:56-66 | a created CTF holds the five body fields, trimmed or defaulted as the schema says, and the preview chosen by upload, body, then "" |
| CtfRoutes.Patch | backend/routes/ctfs.js:77-84 | the five text fields change only when sent; preview only for a file or non-empty value; id and creation time never |
| CtfRoutes.EmptyPatchKeeps | backend/routes/ctfs.js:77-84 | an empty update with no file leaves the CTF unchanged |
| CtfRoutes.Update | backend/routes/ctfs.js:75-100 | a blocked caller or refused file changes nothing; otherwise the update succeeds iff the id is stored; a missing id is 404 |
| CtfRoutes.UpdateStoresAnyPreviewType | backend/routes/ctfs.js:77-90 | an update stores a preview type outside the enum |
| CtfRoutes.UpdateKeepsValid | backend/routes/ctfs.js:77-90 | an update with acceptable title, author and preview type keeps a CTF valid |
| CtfRoutes.Get | backend/routes/ctfs.js:42-52 | get answers the stored CTF, or 404 for a missing id, and changes nothing |
| CtfRoutes.Delete | backend/routes/ctfs.js:102-114 | delete removes exactly the named CTF and confirms; a missing id is 404 with nothing changed |
| CtfRoutes.ListCtfs | backend/routes/ctfs.js:33-40 | the listing holds every CTF once, newest first |
| MemberRoutes.Create | backend/routes/members.js:27-45 | a blocked caller stores nothing; otherwise a member is stored with 201 iff name and role are not blank |
| MemberRoutes.CreateUsesSixFields | backend/routes/members.js:29-38 | a created member is made of the six fields, the new id and the creation time alone |
| MemberRoutes.Patch | backend/routes/members.js:49-55 | the six fields change only when sent, name and role trimmed; id and creation time never |
| MemberRoutes.EmptyPatchKeeps | backend/routes/members.js:49-55 | an empty update leaves the member unchanged |
| MemberRoutes.UpdateKeepsValid | backend/routes/members.js:49-55 | an update with acceptable name and role keeps a member valid |
| MemberRoutes.Update | backend/routes/members.js:47-65 | the update succeeds iff the id is stored; a missing id is 404 with nothing changed |
| MemberRoutes.Get | backend/routes/members.js:15-25 | get answers the stored member, or 404 for a missing id, and changes nothing |
| MemberRoutes.Delete | backend/routes/members.js:67-79 | delete removes exactly the named member and confirms; a missing id is 404 with nothing changed |
| MemberRoutes.DeleteThenFetch | backend/routes/members.js:69-75 | deleting a stored member answers "Member deleted successfully", and fetching it afterwards answers 404 "Member not found" |
| MemberRoutes.ListMembers | backend/routes/members.js:6-13 | the listing holds every member once, newest first |
| Assets.AssetUrl | frontend/src/pages/CTFs.jsx:37 | a path starting with /uploads gets the server origin in front; any other path is used unchanged |
| Assets.AssetUrlKeepsPath | frontend/src/pages/Posts.jsx:78 | the URL ends with the stored path and is empty only for an empty path |
| Assets.AssetUrlIdempotent | frontend/src/pages/CTFs.jsx:45 | resolving a resolved URL changes nothing |
| Assets.StoredUploadsResolveToServer | frontend/src/pages/Classes.jsx:98 | every reference an upload route stores resolves to the API server |
| EventsPage.Select | frontend/src/pages/Events.jsx:30-31 | each list holds only events on its side of now, and every fetched event on that side |
| EventsPage.SelectKeepsOrder | frontend/src/pages/Events.jsx:30-31 | filtering a concatenation filters each part, so the fetched order is kept |
| EventsPage.Partition | frontend/src/pages/Events.jsx:26-31 | with both passes at one clock reading, upcoming and past together hold every fetched event exactly as often as it was fetched |
| EventsPage.TwoReadings | frontend/src/pages/Events.jsx:26-31 | with the upcoming pass at t1 and the past pass at t2 >= t1, every event is listed at least once, and twice exactly when dated in [t1, t2) |
| EventsPage.TwoReadingsCount | frontend/src/pages/Events.jsx:26-31 | with readings t1 <= t2, the two lists hold every fetched event once plus, once more, each event dated between the readings |
| EventsPage.Render | frontend/src/pages/Events.jsx:26-141 | the upcoming section holds the events upcoming at the first pass's clock reading, the past section those not upcoming at the second pass's reading, and the no-events notice shows iff nothing was fetched |
| EventsPage.SectionsShown | frontend/src/pages/Events.jsx:53-141 | the upcoming section shows iff some event is upcoming at its reading, the past one iff some is not at its reading, and, the clock not running backwards, the notice iff neither shows |
| EventsPage.UndatedIsPast | frontend/src/pages/Events.jsx:26-28 | an event whose date does not parse is listed as past |
| CtfsPage.RenderPreview | frontend/src/pages/CTFs.jsx:26-52 | a link preview iff the type is link with a video link; else a video iff the type is video with a preview; else an image iff there is a preview; sources are resolved |
| CtfsPage.NothingIffEmpty | frontend/src/pages/CTFs.jsx:42-51 | a card shows nothing iff it has no preview and no usable video link |
| CtfsPage.LinkWithoutVideoShowsImage | frontend/src/pages/CTFs.jsx:27-49 | a link-type CTF without a video link shows its preview image |
| CtfsPage.TypeIsOnlyAHint | frontend/src/pages/CTFs.jsx:26-51 | a video-type CTF without a preview shows nothing, and an unlisted type renders like image |
| PostsPage.ReplaceById | frontend/src/pages/Posts.jsx:36-38 | after a like the list keeps its length and order; posts with the liked id are replaced by the answer and the others stay |
| PostsPage.ReplaceOne | frontend/src/pages/Posts.jsx:36-38 | with unique ids exactly the one matching post is replaced in place |
| PostsPage.ReplaceMissing | frontend/src/pages/Posts.jsx:36-38 | an answer for a post not on the page changes nothing |
| PostsPage.HandleLike | frontend/src/pages/Posts.jsx:28-42 | a request is sent iff a user is signed in; without a user or an answer the list is unchanged |
| PostsPage.LikeFlipsMarker | frontend/src/pages/Posts.jsx:94 | a like answered by the server's toggle flips that post's liked marker and moves its count by one, leaving the other posts |
| PostsPage.ServerAnswerShown | frontend/src/pages/Posts.jsx:35-38 | the page shows the toggled post the like route stored |
| ClassesPage.LinkHref | frontend/src/pages/Classes.jsx:115 | a link points at its url, a string link at itself, and an object without url at "[object Object]" |
| ClassesPage.LinkLabel | frontend/src/pages/Classes.jsx:121 | a link shows its label, else its url, else a string link itself; an object with neither cannot be rendered |
| ClassesPage.ValidLinksRender | frontend/src/pages/Classes.jsx:112-123 | every link of a valid class shows its own label and points at its own url |
| ClassesPage.DownloadHref | frontend/src/pages/Classes.jsx:94-105 | a download link appears iff there is a content file, resolved against the server for uploads |
| ClassesPage.MaterialsIffContent | frontend/src/pages/Classes.jsx:92 | the materials block shows iff there is a content file or at least one link |
| ClassesPage.InstructorLine | frontend/src/pages/Classes.jsx:73-78 | the instructor line shows iff the instructor is non-empty, and ends with it |
| ClassesPage.LocationLine | frontend/src/pages/Classes.jsx:79-84 | the location line shows iff the location is non-empty |
| ClassesPage.CapacityLine | frontend/src/pages/Classes.jsx:85-90 | no capacity shows nothing, a capacity of 0 shows a stray "0" and no line, any other capacity shows the line |
| ClassesPage.CapacityLineShowsNumber | frontend/src/pages/Classes.jsx:88 | the capacity line shows the stored number |
| AdminPage.EmptyFormEntries | frontend/src/pages/Admin.jsx:207-222 | every entry of a tab's blank form is the empty text, except the classes tab's empty link list and two empty string arrays and the CTF tab's previewType "image"; those are exactly the truthy entries; messages and users have no form |
| AdminPage.PartOf | frontend/src/pages/Admin.jsx:129-135 | an array under contentLinks is sent as JSON; any other entry is sent iff it is truthy |
| AdminPage.Parts | frontend/src/pages/Admin.jsx:129-135 | each entry sends at most one field and none is a file |
| AdminPage.PartsFromEntries | frontend/src/pages/Admin.jsx:129-135 | the multipart fields are exactly the parts of the entries that send one |
| AdminPage.PartsAppend | frontend/src/pages/Admin.jsx:129-135 | each entry contributes independently, in key order |
| AdminPage.BlankTextsSendNothing | frontend/src/pages/Admin.jsx:132-134 | a form of blank texts sends no field |
| AdminPage.FalsyFieldOmitted | frontend/src/pages/Admin.jsx:132-134 | a falsy entry other than the link list sends nothing under its key |
| AdminPage.LinkListAlwaysSent | frontend/src/pages/Admin.jsx:130-131 | the link list is sent even when empty |
| AdminPage.FileFieldMatchesRoute | frontend/src/pages/Admin.jsx:136-144 | the file goes under preview for CTFs, contentFile for classes and image for posts, the fields the routes read |
| AdminPage.BuildPayload | frontend/src/pages/Admin.jsx:127-147 | posts, events, classes and CTFs send multipart, the others the form itself; a picked file is one last part |
| AdminPage.BlankClassPayload | frontend/src/pages/Admin.jsx:216 | a blank class form sends the empty link list as JSON and the two empty arrays as empty fields |
| AdminPage.ArraysSent | frontend/src/pages/Admin.jsx:216 | each of the blank class form's three arrays sends one part |
| AdminPage.BlankCtfPayload | frontend/src/pages/Admin.jsx:218 | a blank CTF form sends only previewType image |
| AdminPage.SentLinksStored | frontend/src/pages/Admin.jsx:131 | a link list sent as JSON is the list the classes route stores, and an empty one clears the stored list on update |
| AdminPage.NormaliseLinks | frontend/src/pages/Admin.jsx:77-81 | editing turns each string link s into label s and url s and keeps objects, in order |
| AdminPage.NormalisedLinksRenderAlike | frontend/src/pages/Admin.jsx:77-81 | normalising a non-empty link does not change its href or label on the classes page |
| AdminPage.NormaliseKeepsObjects | frontend/src/pages/Admin.jsx:78-80 | a list of objects comes back unchanged |
| AdminPage.PreviewOnEdit | frontend/src/pages/Admin.jsx:84 | the edit preview is image, else preview, else contentFile, else "" |
| AdminCtfPreview.EditPreviewOfStoredCtf | frontend/src/pages/Admin.jsx:84 | a CTF created with a kept upload opens for editing with the stored /uploads/ path as its preview |
| AdminPage.AddLink | frontend/src/pages/Admin.jsx:497-499 | adding appends exactly one empty link at the end |
| AdminPage.RemoveLink | frontend/src/pages/Admin.jsx:485-487 | removing a valid index shortens the list by one, and any other index keeps its length |
| AdminPage.RemoveLinkIsSlice | frontend/src/pages/Admin.jsx:486 | removing index idx gives the list without that position, others in order; an index outside the list changes nothing |
| AdminPage.RemoveAddedLink | frontend/src/pages/Admin.jsx:485-499 | removing a link just added gives the list back |
| AdminPage.SetLinkText | frontend/src/pages/Admin.jsx:464-467 | editing a label changes only that entry's label |
| AdminPage.SetLinkUrl | frontend/src/pages/Admin.jsx:475-478 | editing a url changes only that entry's url |
| AdminPage.EditsCommute | frontend/src/pages/Admin.jsx:464-478 | label and url edits of one entry commute |
| AdminPage.FilledNewLinkValid | frontend/src/pages/Admin.jsx:458-499 | a new link given a label and a url passes the schema's link check |
| AdminPage.BlankNewLinkInvalid | frontend/src/pages/Admin.jsx:497-499 | a new link left blank fails the schema's link check on create |

## Left out

- Persistence, Express wiring and static file serving: the database is a map, and a route's database errors other than a malformed id are not modelled.
- The `auth` and `adminAuth` middleware are not part of this model. A route takes their decision as a `Gate`: a pass with the caller's id, or a block with an error status.
- The Post model is not part of this model. A new post starts with no likes and no likers, and the schema's validation on `save()` is a parameter `accepts`.
- `Date.now()` and `Math.random()` in file names are parameters. Whether two uploads get the same pair is chance, so name uniqueness is proved only for distinct pairs.
- The bytes of an upload, the disk write and orphaned files on a later failure are not modelled; a file is its name, MIME type and size.
- `JSON.parse` is a partial oracle `decode`, and `JSON.stringify` of the admin form's link list is kept symbolic (`AdminPage.Part.JsonField`). Text that parses to something other than a list of links is not modelled.
- Type casting of body values: `date` arrives as a timestamp or absent, and `capacity` as a number or absent. A value that fails to cast, which would be a 500, is not modelled. Dates are integer timestamps, and locale formatting is not modelled.
- `likedBy` ids are compared as strings; Mongoose's ObjectId casting inside `includes` is not modelled.
- EventsPage.Render: each filter pass is modelled with one clock reading. The page calls `new Date()` for every event, so within one pass later events may be judged a few milliseconds later; the model treats the readings inside a pass as equal, and only the two passes as apart.
- Concurrency: each request runs alone. The read-then-save like toggle can lose updates under concurrent likes, and the model does not claim otherwise.
- `toLowerCase` is modelled on ASCII letters only; other letters keep their case.
- `String(n)` is modelled for integers only; exponent notation is out of scope.
- React rendering, animation and routing are not modelled. The pages' state updates are pure functions from the state before to the state after; the alert and console logging are left out.
- The events routes, the contact and auth routes, and the Home, Contact and Members pages are outside the modelled core.
