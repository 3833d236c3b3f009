# Legal case workspace: the tRPC routers, modelled in Dafny

The application lets a signed-in lawyer keep **cases**. Each case holds **sections**, which are
ordered working areas with a type (case assessment, counter arguments, discovery plan, other).
It also holds **documents**, which are uploaded files, optionally filed under a section and
optionally summarised by a text-completion service. Three routers make up the server API:
`case`, `section` and `document`. Each procedure checks its input first. Most then run an
ownership guard: "the case exists and belongs to the caller", or, for a section or document
id, "the row exists" (NotFound otherwise) and then "its case belongs to the caller".
`case.getAll` only filters by the caller, and `case.getById`, `case.create` and a
`generateSummary` without a document id run no guard at all. Then the procedure reads or
writes the Case, Section and Document tables through the ORM.

The model is one Dafny module per source concern:

- `Common`: ids, `Option`, a three-way `Nullable` (absent / null / value), the error tags and
  `Result`, and JavaScript string truthiness (`Truthy`: present and non-empty).
- `Text`: `String.prototype.trim` over the ECMAScript white-space and line-terminator set.
- `Schema`: the three row types, the section-type enum with its wire names, the 1..100
  length bound on titles and names, and the three default sections of a new case.
- `Listing`: the `orderBy` of a `findMany`, as a sort of a table's keys by a rank.
- `Store`: the database as a class `Db` with one map field per table and a counter that
  issues fresh ids. It has:
  - a `Valid` invariant: rows are keyed by their own id, every id in use (a row's own id and
    the case id a section or document points at) is shorter than any id the counter can still
    hand out, and a document's section link points at an existing section;
  - the three ownership guards;
  - the queries `FindCases`, `FindSections` and `FindDocuments`, each proved against a
    listing predicate: every selected row, once, in the requested order;
  - `HighestOrder`, proved to return the largest order among a case's sections, or None when
    the case has none.
- `CaseRouter`, `SectionRouter`, `DocumentRouter`: one method per procedure. Each one:
  - takes the store and the session user, except `CaseRouter.GetById`, which takes no user
    because `case.getById` runs no owner check;
  - states which error it raises under exactly which condition, and that a failure writes
    nothing;
  - on success, states the new contents of every table.

Errors are tags: `Unauthorized`, `NotFound`, `BadRequest` and `InternalServerError` are the
tRPC codes. `NotAuthorized` is the untagged `Error("Not authorized")` that `case.update` and
`case.delete` throw. Zod validation failures are `BadRequest` and are checked before any read.
A Prisma `connect` to a missing row, or a transactional update of a missing id, fails as a
whole. It is modelled as `InternalServerError` with nothing written.

Behaviour of the code that the model keeps, as written:

- `case.getById` has no owner check. Any caller can read any case with its sections and documents.
- `section.reorder` checks that the caller owns `caseId`, but the listed section ids are not
  checked to belong to that case. `SectionRouter.ApplyOrdersPlaces` shows that every listed
  section is moved, whatever case it is in. An id listed twice ends at its later index.
- `section.delete` is refused while a document is filed under the section. This is what keeps
  `Db.Valid`'s link invariant.
- The summary calls go through `openai`, which `document.ts` never declares (only a Gemini
  client is built). As written, every call throws. The service is therefore a parameter of type
  `Completion` (`Failed`, or `Completed` with the text of the first choice). `Failed` is the
  as-written case. `create` then stores no summary, and `generateSummary` answers
  `InternalServerError`.

## Model

| member | source | states |
|---|---|---|
| Text.TrimStart | src/server/api/routers/document.ts:107 | the result is a suffix of the input, the dropped prefix is all white space, and the result does not start with white space |
| Text.SpaceAroundBothCuts | src/server/api/routers/document.ts:107 | cutting white space off the front and then off the back of a string leaves a slice of it with only white space cut around it |
| Text.TrimEnd | src/server/api/routers/document.ts:107 | the result is a prefix of the input, the dropped suffix is all white space, and the result does not end with white space |
| Text.Trim | src/server/api/routers/document.ts:107 | the result is a contiguous slice of the input with only white space cut on either side, and it neither starts nor ends with white space |
| Text.TrimIdempotent | src/server/api/routers/document.ts:257 | trimming twice equals trimming once |
| Text.TrimEmptyIff | src/server/api/routers/document.ts:257 | the trim is "" exactly when the input is all white space (the case where the fallbacks to "" and to null take over) |
| Text.AllSpaceTrimStart | src/server/api/routers/document.ts:107 | an all-white-space string trims to "" from the start |
| Schema.ParseSectionType | src/server/api/routers/section.ts:73 | the enum accepts exactly the four wire names, each as the type it names |
| Schema.DefaultSection | src/server/api/routers/case.ts:53-59 | the i-th default section has order i, no content, and the name and type the create call lists at position i |
| Listing.InsertMembers | src/server/api/routers/case.ts:10-12 | inserting a key into a key list adds exactly that key |
| Listing.InsertDistinct | src/server/api/routers/case.ts:10-12 | inserting a new key into a list without repeats leaves a list without repeats |
| Listing.InsertSorted | src/server/api/routers/case.ts:10-12 | inserting a key into a list sorted by rank leaves it sorted by rank |
| Listing.SortKeys | src/server/api/routers/case.ts:10-12 | every key of the table, once, in non-decreasing rank |
| Store.Db.constructor | src/server/api/routers/case.ts:48-64 | the empty store satisfies the invariant |
| Store.Db.FreshId | src/server/api/routers/case.ts:48-64 | the new id is unused in all three tables, no section or document links to it as its case, and the invariant is kept |
| Store.Db.PutCase | src/server/api/routers/case.ts:90-96 | writes exactly one case row and keeps the invariant |
| Store.Db.PutSection | src/server/api/routers/section.ts:152-159 | writes exactly one section row and keeps the invariant |
| Store.Db.PutDocument | src/server/api/routers/document.ts:171-180 | writes exactly one document row and keeps the invariant when its section link exists and its case id was issued |
| Store.Db.RemoveSection | src/server/api/routers/section.ts:202-204 | removing a section no document is filed under keeps the link invariant |
| Store.Db.RemoveDocument | src/server/api/routers/document.ts:213-215 | removes exactly one document row and keeps the invariant |
| Store.Db.CaseGuard | src/server/api/routers/section.ts:12-22 | passes exactly when the case exists and belongs to the user; otherwise it fails with the one given error for a missing and a foreign case alike |
| Store.Db.SectionGuard | src/server/api/routers/section.ts:40-64 | NotFound exactly when the section is missing, Unauthorized exactly when it exists and its case is not the user's, pass otherwise |
| Store.Db.DocumentGuard | src/server/api/routers/document.ts:41-62 | NotFound exactly when the document is missing, Unauthorized exactly when it exists and its case is not the user's, pass otherwise |
| Store.Db.FindCases | src/server/api/routers/case.ts:5-14 | the user's cases, each exactly once and nothing else, most recently updated first |
| Store.Db.FindSections | src/server/api/routers/section.ts:24-27 | the case's sections, each exactly once and nothing else, ascending by order |
| Store.Db.FindDocuments | src/server/api/routers/document.ts:29-33 | the selected documents, each exactly once and nothing else, latest upload first |
| Store.Db.HighestOrder | src/server/api/routers/section.ts:95-101 | None exactly when the case has no section; otherwise the largest order among its sections, attained by one of them |
| CaseRouter.GetAll | src/server/api/routers/case.ts:5-14 | the caller's cases, each once, most recently updated first |
| CaseRouter.GetById | src/server/api/routers/case.ts:16-36 | None exactly when no case has the id, for any caller; otherwise the case, its full section listing by order and its full document listing by upload time |
| CaseRouter.Create | src/server/api/routers/case.ts:38-67 | BadRequest with nothing written exactly when the title is outside 1..100; otherwise one fresh case owned by the caller with the given fields, plus three fresh sections that are the defaults at orders 0, 1, 2 and are exactly the sections of the new case; no document is linked to the new case |
| CaseRouter.AddDefaultSections | src/server/api/routers/case.ts:52-60 | adds three fresh, distinct sections to a case nothing linked to before, each the default at its index; the section table is the old one plus those three, which are exactly the sections of that case, and no other table changes |
| CaseRouter.OnlyDefaultsLinked | src/server/api/routers/case.ts:52-60 | after the three default sections are added to a case nothing linked to before, the sections of that case are exactly those three |
| CaseRouter.Update | src/server/api/routers/case.ts:69-97 | BadRequest exactly for a bad title; NotAuthorized exactly when the case is missing or foreign; it succeeds exactly when the title is valid and the caller owns the case, and then only that case changes: new title, description only when one is given, update time now |
| CaseRouter.Delete | src/server/api/routers/case.ts:99-117 | NotAuthorized exactly when the case is missing or foreign; otherwise exactly that case row is removed and the section and document tables are untouched |
| SectionRouter.GetAllByCaseId | src/server/api/routers/section.ts:6-33 | Unauthorized exactly when the case is missing or foreign; otherwise the case's full section listing by order, each section with its full document listing by upload time |
| SectionRouter.GetById | src/server/api/routers/section.ts:35-67 | the section guard's error on failure; otherwise the stored section, its owner and its full document listing |
| SectionRouter.Create | src/server/api/routers/section.ts:69-114 | BadRequest for a bad name or type, then Unauthorized for a missing or foreign case, with nothing written; it succeeds exactly when name and type are valid and the caller owns the case, and then adds one fresh section with the given fields and the append order (one above the highest sibling, or 0) |
| SectionRouter.NewSectionListedLast | src/server/api/routers/section.ts:94-101 | a section ordered above all its siblings is the last element of every listing of its case |
| SectionRouter.PatchSection | src/server/api/routers/section.ts:152-159 | the name changes only for a non-empty one, the content for any given one (even ""), the order for any given one; id, case and type never change |
| SectionRouter.Update | src/server/api/routers/section.ts:116-160 | BadRequest for a bad given name, then NotFound, then Unauthorized, with nothing written; it succeeds exactly when any given name is valid and the section guard passes, and then only that section changes, as PatchSection says |
| SectionRouter.Delete | src/server/api/routers/section.ts:162-205 | NotFound, then Unauthorized, then BadRequest exactly when a document is filed under the section, with nothing written; it succeeds exactly when the guard passes and no document is filed under the section, and then exactly that section row is removed |
| SectionRouter.LastIndex | src/server/api/routers/section.ts:231-235 | the last position of an id in the list, or -1 exactly when it is absent |
| SectionRouter.ApplyOrders | src/server/api/routers/section.ts:231-238 | the batched updates, applied in list order, keep the set of sections |
| SectionRouter.ApplyOrdersPlaces | src/server/api/routers/section.ts:231-238 | after the batch, each listed section has the last index it is listed at as its order, and each unlisted one is unchanged |
| SectionRouter.ReorderPutsEachAtItsIndex | src/server/api/routers/section.ts:231-235 | with distinct ids, the section listed at index i has order i |
| SectionRouter.ReorderTouchesOnlyListedOrders | src/server/api/routers/section.ts:231-235 | the batch changes no field but `order`, and nothing of an unlisted section |
| SectionRouter.ReorderIdempotent | src/server/api/routers/section.ts:207-241 | running the same reorder twice leaves the same table as running it once |
| SectionRouter.Reorder | src/server/api/routers/section.ts:207-241 | Unauthorized exactly when the case is missing or foreign; InternalServerError with nothing written exactly when a listed id names no section; it succeeds exactly when the caller owns the case and every listed id names a section, and then the section table is the batch applied |
| DocumentRouter.CompletionText | src/server/api/routers/document.ts:257 | exactly `text.trim()` of the answer (a slice of the text with only white space around it and no white space at either end), "" without a text, non-empty when the text is not all white space |
| DocumentRouter.CompletionTextIsTrimmed | src/server/api/routers/document.ts:257-263 | the stored summary is already trimmed |
| DocumentRouter.CreateSummary | src/server/api/routers/document.ts:96-112 | no summary exactly when the content is absent or empty, the service fails or the answer trims to ""; otherwise the trimmed answer |
| DocumentRouter.SectionOf | src/server/api/routers/document.ts:32 | the section row a stored document is filed under, None exactly when it has no link |
| DocumentRouter.GetAll | src/server/api/routers/document.ts:11-34 | Unauthorized exactly when the case is missing or foreign; otherwise the case's full document listing by upload time, each with its section |
| DocumentRouter.GetById | src/server/api/routers/document.ts:36-65 | the document guard's error on failure; otherwise the stored document with its case's owner, who is the caller |
| DocumentRouter.Create | src/server/api/routers/document.ts:68-132 | Unauthorized for a missing or foreign case, then InternalServerError for a named section that does not exist, with nothing written; it succeeds exactly when the caller owns the case and any non-empty section id names a section, and then adds one fresh document with the given fields, the section link only for a non-empty id, the create summary and upload time now |
| DocumentRouter.AddDocument | src/server/api/routers/document.ts:114-131 | inserts one document with a fresh id and exactly the given fields, and changes no other table |
| DocumentRouter.NewLink | src/server/api/routers/document.ts:176-178 | an absent section id keeps the link; null or "" clears it; any other id sets it |
| DocumentRouter.PatchDocument | src/server/api/routers/document.ts:171-180 | name and summary change only for non-empty values, the link as NewLink says, and nothing else changes |
| DocumentRouter.Update | src/server/api/routers/document.ts:135-181 | NotFound, then Unauthorized, then InternalServerError for a move to a missing section, with nothing written; it succeeds exactly when the guard passes and no non-empty section id names a missing section, and then only that document changes, as PatchDocument says |
| DocumentRouter.Delete | src/server/api/routers/document.ts:183-216 | the document guard's error with nothing written; otherwise exactly that document row is removed |
| DocumentRouter.GenerateSummary | src/server/api/routers/document.ts:218-275 | with a non-empty document id, NotFound or Unauthorized first; InternalServerError with nothing written when the service fails; it succeeds exactly when any non-empty document id passes the guard and the service answers, and then the trimmed answer (possibly "") is returned and, with a non-empty document id, stored as that document's summary |

## Left out

- The pages under `src/app/` (the UI), the root router (`src/server/api/root.ts`) and the tRPC context/session plumbing are not part of this model. The session user is a parameter, and every procedure is modelled as a protected one.
- The completion service and its prompt are not modelled. The prompt (built from the content) is not modelled either: the answer is a `Completion` parameter. Logging (`console.error`) and error messages are dropped, and only the error tag is kept.
- Fresh ids (cuid) and timestamps are abstract. An id comes from a counter (any injective choice would do), and "now" is a parameter.
- CaseRouter.Update: sets `updatedAt` to now, assuming the schema marks the column `@updatedAt` (the Prisma schema is not part of this model).
- CaseRouter.Delete: what happens to the case's sections and documents depends on the relation actions of the Prisma schema, which is not part of this model: the database either cascades the delete or refuses it. The model deletes the case row alone and leaves both other tables as they were. The rows it leaves without a case exist only in the model, and so do the `Unauthorized` answers that `Store.Db.SectionGuard` and `Store.Db.DocumentGuard` give for them (in the source, reading `section.case.userId` of such a row would fail instead). The contract promises that no other case and no section or document row changes; it says nothing about cascading.
- Schema.ValidName: counts characters, while zod counts UTF-16 code units. The two differ for characters outside the Basic Multilingual Plane.
- CaseRouter.Create: `include: { sections: true }` has no `orderBy`, so the database decides the order of the returned sections. The model lists them in creation order (the default at index i first at i) by its own choice.
- Store.Db.FindCases, Store.Db.FindSections, Store.Db.FindDocuments: the order of rows with equal sort keys is left unspecified, as the database leaves it.
- The file upload itself happens outside these routers and is not modelled: a document row only records its URL, type and size.
- `fileSize` and a section's `order` are unbounded integers. JavaScript number semantics (fractions, NaN, the 2^53 limit) are not modelled.
- Concurrent requests are not modelled. Each procedure runs alone against the store.
- SectionRouter.Reorder: models Prisma's transaction as all-or-nothing. The update of each id is applied by a loop, and the all-or-nothing outcome is decided by checking the ids before any write.
