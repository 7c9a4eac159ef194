# Waiver PDF listing and event documents, modelled in Dafny

This project models two pieces of an event-registration application in which
adults and their children register for events and sign waivers:

- the admin route that lists waiver PDFs kept in S3
  (`src/app/api/s3/list-pdfs/route.ts`): which key prefix is listed, which
  listed objects are reported (the PDFs), what each one is reported as, and
  which page of them the response carries;
- the event document (`src/database/eventSchema.ts`): the shapes of an event,
  of its adult and child registrations and of their waiver lists, and what the
  schema does when an event is created. It applies the declared defaults, trims
  the trimmed text fields, drops fields the schema does not declare and rejects
  input that lacks a required field.

Both files are pure once their effects are removed, so the model is
datatypes, functions and lemmas in four modules:

- `Wrappers` (`wrappers.dfy`): `Option`, with `None` for JavaScript's
  `undefined`/`null`, and `Result`.
- `JsText` (`js_text.dfy`): the JavaScript string built-ins the two files use.
  These are `trim` (with the whitespace set of sections 12.2 and 12.3 of the
  ECMAScript Language Specification), `toLowerCase`, `endsWith` and
  `split("/").pop()`.
- `ListPdfs` (`list_pdfs.dfy`): the listing route. The bucket name, the AWS
  region and the listing S3 returns are inputs. `Array.prototype.slice` is
  modelled for all whole-number arguments, negative ones included, so the
  route's functions are total. The pagination lemmas assume a positive page
  and limit.
- `EventSchema` (`event_schema.dfy`): the record datatypes, the create input
  (every field optional) and `CreateEvent`, which returns the stored event or
  the set of required paths that fail.

Behaviour of the source worth stating:

- A missing or empty `type` query parameter becomes `"template"`
  (route.ts:16), which selects `waivers/templates/`. Only a non-empty value
  other than `"template"` selects `waivers/completed/`.
- In Mongoose, the `trim` setter runs before the `required` check, and that
  check rejects an empty string. So a `title` or `location` made only of
  whitespace is rejected, the same as a missing one.
- The schema does not mark the ids inside registrations and waiver lists
  (`user`, `parent`, `childId`, `waiverId`) as required. The model keeps
  them optional, although the TypeScript interfaces declare them.
- `eventWaiverTemplates` is mandatory in `IEventCreate`, but the schema
  gives it the default `[]`, and the model follows the schema.
- These two files hold no capacity, deadline, registration, waiver-signing
  or compliance logic, so none is modelled.

## Model

| member | source | states |
|---|---|---|
| `ListPdfs.ParamOr` | src/app/api/s3/list-pdfs/route.ts:14-16 | a query parameter falls back to its default exactly when it is missing, empty or already the default; otherwise it is the value supplied |
| `ListPdfs.ListPrefix` | src/app/api/s3/list-pdfs/route.ts:23 | the listed prefix is one of `waivers/templates/` and `waivers/completed/`. It is the templates prefix exactly when the defaulted `type` is `"template"`. `PrefixByType` spells this out per parameter value |
| `ListPdfs.PrefixByType` | src/app/api/s3/list-pdfs/route.ts:16-23 | the templates prefix is listed exactly when `type` is missing, empty or `"template"`; every other value lists the completed prefix, and no third prefix exists |
| `ListPdfs.IsPdf` | src/app/api/s3/list-pdfs/route.ts:35-37 | an object passes the filter exactly when it has a key whose last four characters, lower-cased, are `.pdf`. `FilterPdfs` and `PdfIndices` state which objects are kept |
| `ListPdfs.MissingKeyDropped` | src/app/api/s3/list-pdfs/route.ts:34-37 | an object with no key or an empty key never passes the PDF filter |
| `ListPdfs.KeyOfPdf` | src/app/api/s3/list-pdfs/route.ts:35-37 | an object that passes the filter has a non-empty key |
| `ListPdfs.PdfIndices` | src/app/api/s3/list-pdfs/route.ts:34-37 | the kept positions are strictly increasing (each once, in listing order) and are exactly the positions whose lower-cased key ends with ".pdf" |
| `ListPdfs.FilterPdfs` | src/app/api/s3/list-pdfs/route.ts:34-37 | the filtered list is the listing's objects at the kept positions, in order, and nothing else |
| `ListPdfs.FilterKeepsOnlyPdfs` | src/app/api/s3/list-pdfs/route.ts:34-37 | every object the filter keeps passes the ".pdf" test and comes from the listing |
| `ListPdfs.FilterAppend` | src/app/api/s3/list-pdfs/route.ts:34-37 | filtering two listings joined end to end gives the two filtered lists joined end to end |
| `ListPdfs.ToItem` | src/app/api/s3/list-pdfs/route.ts:38-46 | an item's key is the object's key, or `""` when there is none. Its URL ends with the key as the template literal prints it. Its name holds no `/`, ends the key, and is `""` without a key. Date and size are copied. `ItemFacts` gives the whole URL for a PDF object |
| `ListPdfs.ItemFacts` | src/app/api/s3/list-pdfs/route.ts:38-46 | an item reported for a PDF object has the object's key. Its URL is `https://<bucket>.s3.<region>.amazonaws.com/` followed by that key, so it ends with the key. Its name holds no `/`, the key ends with it, and it is the whole key or follows the key's last `/`. Date and size are copied |
| `ListPdfs.AllPdfs` | src/app/api/s3/list-pdfs/route.ts:34-47 | a listing without `Contents` gives no items. Otherwise there is one item per kept position, in order, each the report of the object at that position |
| `ListPdfs.AllPdfsArePdfs` | src/app/api/s3/list-pdfs/route.ts:34-47 | every returned item's key, lower-cased, ends with ".pdf", its URL ends with its key, and its name holds no `/` and ends the key |
| `ListPdfs.SliceIndex` | src/app/api/s3/list-pdfs/route.ts:56 | a slice bound inside the sequence is kept. One past the end is clamped to the length. A negative one counts back from the end, clamped at 0 |
| `ListPdfs.Slice` | src/app/api/s3/list-pdfs/route.ts:56 | the slice holds the items from the start bound up to the end bound, and none when the end bound is not past the start bound |
| `ListPdfs.CeilDiv` | src/app/api/s3/list-pdfs/route.ts:51 | for a positive divisor the result is the least `n` with `n * limit >= total`. For a negative divisor it is the ceiling of the quotient |
| `ListPdfs.TotalPages` | src/app/api/s3/list-pdfs/route.ts:51 | `totalPages` is `null` exactly when `limit` is 0. With a positive `limit` it is the least `n >= 0` whose `n * limit` covers all the PDFs |
| `ListPdfs.Page` | src/app/api/s3/list-pdfs/route.ts:52-56 | a page for any page number holds only items of the list. It never holds more than the list, nor more than a non-negative `limit`. `PageContents` gives its exact length and items |
| `ListPdfs.PageContents` | src/app/api/s3/list-pdfs/route.ts:52-56 | with `limit > 0` and `page >= 1`, the page holds `min(limit, max(0, total - (page-1)*limit))` items, namely the ones from position `(page-1)*limit` on |
| `ListPdfs.PagesUpToPrefix` | src/app/api/s3/list-pdfs/route.ts:52-56 | pages 1 to `n` concatenated are the first `n * limit` items, or all of them when there are fewer |
| `ListPdfs.PagesCoverAll` | src/app/api/s3/list-pdfs/route.ts:50-56 | with `limit > 0`, pages 1 to `totalPages` concatenated are exactly the full filtered list, and every page after `totalPages` is empty |
| `ListPdfs.PageBeyondLast` | src/app/api/s3/list-pdfs/route.ts:52-56 | a page whose start lies at or past the end of the list is empty |
| `ListPdfs.Respond` | src/app/api/s3/list-pdfs/route.ts:50-64 | the response echoes `page` and `limit` (default 1 and 8). `totalPDFs` counts all PDFs, not the page's. `totalPages` is computed from that count. The items are that page of the full list |
| `ListPdfs.RespondPages` | src/app/api/s3/list-pdfs/route.ts:50-64 | with positive page and limit, the returned page holds at most `limit` items and at most `totalPDFs`. The pages 1 to `totalPages` of the same listing return every PDF |
| `JsText.LeadingBlanks` | src/database/eventSchema.ts:84-92 | the count is the length of the longest all-whitespace prefix |
| `JsText.TrailingBlanks` | src/database/eventSchema.ts:84-92 | the count is the length of the longest all-whitespace suffix |
| `JsText.Trim` | src/database/eventSchema.ts:84-105 | the trimmed text neither starts nor ends with whitespace. The input is that text with whitespace padding on both sides. It is empty exactly when the input is all whitespace |
| `JsText.TrimOfTrimmed` | src/database/eventSchema.ts:84-105 | trimming text that has no whitespace at either end leaves it unchanged |
| `JsText.TrimIdempotent` | src/database/eventSchema.ts:84-105 | trimming twice gives the same as trimming once |
| `JsText.ToLower` | src/app/api/s3/list-pdfs/route.ts:36 | lower-casing keeps the length and maps each character on its own |
| `JsText.LastSegment` | src/app/api/s3/list-pdfs/route.ts:39 | the last `/`-segment holds no `/` and the key ends with it. It is the whole key or follows a `/` |
| `EventSchema.MissingPaths` | src/database/eventSchema.ts:84-113 | `title` or `location` fails exactly when missing or all whitespace. `startDate`, `endDate` or `registrationDeadline` fails exactly when missing |
| `EventSchema.NormaliseWaivers` | src/database/eventSchema.ts:123-127 | a waiver list keeps its length and each entry's waiver. `signed` is as supplied, or false when left out. A missing list is empty |
| `EventSchema.NormaliseUsers` | src/database/eventSchema.ts:119-132 | the adult registrations default to none. Otherwise there is one record per supplied registration, in order. Each keeps the supplied `user` and has a waiver list of the supplied length (empty when left out). Each entry names the supplied waiver and is signed only where the input says `signed: true` |
| `EventSchema.NormaliseChildren` | src/database/eventSchema.ts:139-153 | the child registrations default to none. Otherwise there is one record per supplied registration, in order. Each keeps the supplied `parent` and `childId` and has a waiver list of the supplied length (empty when left out). Each entry names the supplied waiver and is signed only where the input says `signed: true` |
| `EventSchema.NormaliseTemplates` | src/database/eventSchema.ts:158-166 | the waiver templates default to none. Otherwise there is one entry per supplied template, in order. Each names the supplied waiver and is required unless the input says `required: false` |
| `EventSchema.CreateEvent` | src/database/eventSchema.ts:82-189 | creating fails exactly when a required path fails, and the error carries every failing path. A created event has trimmed, non-empty `title` and `location`, and a trimmed `description` when one is given |
| `EventSchema.CreateAppliesDefaults` | src/database/eventSchema.ts:106-184 | a field left out takes its declared default: capacity 0, fee 0, not a draft, `stripePaymentId` null, no description, and no images, registrations or waiver templates |
| `EventSchema.CreateKeepsSupplied` | src/database/eventSchema.ts:84-184 | a supplied field is kept: dates, numbers, the flag, the payment id and images as given, text fields trimmed, and registration and template lists of the supplied length |
| `EventSchema.CreateSignedDefaultsFalse` | src/database/eventSchema.ts:119-153 | every registration record of a created event keeps the supplied user, or parent and child. Its waiver list has the supplied length, and none when the list is left out. Each entry names the supplied waiver and is signed only when the input says `signed: true` |
| `EventSchema.CreateRequiredDefaultsTrue` | src/database/eventSchema.ts:158-166 | each waiver-template entry names the supplied waiver and is required unless the input says `required: false` |
| `EventSchema.CreateIgnoresUndeclared` | src/database/eventSchema.ts:43-60 | the uploaded waiver files of the create input (`waiverTemplates`) are not a schema path and do not affect the created event |
| `EventSchema.WaiversRoundTrip` | src/database/eventSchema.ts:123-127 | normalising a stored waiver list, given back with every field supplied, returns it unchanged |
| `EventSchema.CreateOfNormalised` | src/database/eventSchema.ts:84-189 | creating from a normalised event's own fields gives that event back unchanged |
| `EventSchema.CreateIdempotent` | src/database/eventSchema.ts:84-189 | creating again from a created event's fields gives the same event. Trimming an already trimmed field changes nothing |

## Left out

- Authentication, the S3 client and its `ListObjectsV2` request, environment
  variables and HTTP responses (route.ts:7-10, 18-31, 58-68) are I/O. The
  bucket, the region and the listing are inputs, and the response is a value.
  An undefined bucket or region, which a template literal prints as
  "undefined", is left to the caller's choice of string.
- The request's `MaxKeys: 1000` is left out. S3 returns at most one
  thousand keys per request and the route makes no continuation request. The
  model takes whatever listing is given.
- `Number.parseInt` of the `page` and `limit` parameters is left out.
  They are inputs already parsed to whole numbers, and `None` stands for
  missing or empty. NaN from an unparsable value is not modelled.
- `ListPdfs.CeilDiv`: JavaScript numbers are modelled as unbounded
  integers. Rounding beyond 2^53 and `-0` are not modelled. A zero `limit` is
  modelled only through its JSON `null`.
- `JsText.ToLower`: only the ASCII capitals are folded. Unicode case mapping,
  including letters whose lower case has a different length, is not modelled.
- `lastModified` keeps the instant S3 reports (an integer). Its
  `toISOString` formatting (route.ts:44) is Date formatting and is not
  modelled.
- The catch-all error response (route.ts:65-68) only reports failures of the
  S3 call, which is not modelled.
- Mongoose behaviour outside the schema declaration is left out because it
  belongs to persistence:
  - `_id`s of the event and its subdocuments;
  - `timestamps` (`createdAt`, `updatedAt`);
  - indexes and model registration (eventSchema.ts:186-200);
  - the `sparse` option;
  - casting of strings to dates and numbers;
  - explicitly `null` input values.
- `IEventUpdate` (eventSchema.ts:62-79) is a type only. The file holds no
  update logic to model.
- `EventSchema.CreateKeepsSupplied` only states the lengths of the
  registration and template lists. Their records and entries are stated by
  `EventSchema.CreateSignedDefaultsFalse` (each record's ids and the length
  and entries of its waiver list) and `EventSchema.CreateRequiredDefaultsTrue`.
- `capacity` and `fee` are JavaScript numbers, modelled as mathematical
  reals. NaN, the infinities and floating-point rounding are not modelled.
  Nor is the rejection by Mongoose's number cast of a value that casts to
  NaN.
- `src/app/onboarding/children/page.tsx` is React form code. Its polling of
  the signed-in user's metadata uses timers and network I/O.
