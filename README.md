# Office expense-voucher backend, modelled in Dafny

The repository is an Express/Mongoose backend for office expense vouchers.
A voucher (a "form") carries bills, recipients and uploaded scans. The
scans are merged into one PDF. Fiscal years and months can be opened and
locked by an administrator. This project models the logic inside the
route handlers of `index.js`:

- **Submission assembly** (`/postform`, `/modify`): the `TotalAmount` fold, the stored upload names, the merged-PDF name, the lenient parsing of `/modify`, and its 400 / 404 / 500 outcomes (modules `Submission` and `Forms`).
- **The merge loop**: each stored upload is classified by its lower-cased extension, and images and PDFs add pages to one output document (module `Merge`, with the class `OutputDocument` growing one page at a time).
- **Record deletion with file clean-up** (`/erase/:id`), over the `forms` collection and the two upload directories (module `Storage`, classes `FormCollection` and `FileStore`).
- **Query routes**: the date-range filter with its format check, the bill-number and employee-id filters, and sign-in (module `Queries`).
- **Option lists**: month ordering through the `monthOrder` table, the month-option de-duplication through a `Map`, the active months of a fiscal year, and the fiscal-year sort by start year (module `Ordering`, over the stable sort of module `Lists`).
- **Admin toggles**: the six upserting toggles over fiscal years, their embedded month lists and the standalone month collection (module `Admin`, classes `FyYearCollection` and `MonthCollection`).

Collections are sequences in natural order. A `findOne` is the first match
in that order. The upload directories are maps from file name to an
abstract content: an image's format and pixel size, a PDF's page count, or
bytes the libraries reject. `Date.now()`, `Math.random()` and today's date
are parameters.

Modules, one file each: `Wrappers` (Option, Reply, HTTP status), `Strings`
(split, join, trim, lower-case, decimal printing, `path.extname`), `Records`
(the stored documents), `Lists` (filter, first match, `indexOf`, stable
sort), `Submission`, `Merge`, `Storage`, `Forms`, `Queries`, `Ordering`,
`Admin`.

## Model

| member | source | states |
|---|---|---|
| Strings.Split | index.js:231 | `split` on one character gives at least one piece, and no piece holds the separator |
| Strings.CharInJoin | index.js:92 | a character not in the separator is in a join exactly when it is in one of the parts |
| Strings.JoinSplit | index.js:231 | joining the pieces of a split with the separator gives the string back |
| Strings.SplitAtSeparator | index.js:61 | splitting stops at the first separator: `a + sep + b` splits into `a` followed by the pieces of `b` |
| Strings.SplitJoin | index.js:92 | pieces free of the separator, joined and split again, come back unchanged |
| Strings.LeadingSpace | index.js:419 | the length of the run of whitespace a string starts with: every character in it is whitespace and the next one is not |
| Strings.TrailingSpace | index.js:419 | the length of the run of whitespace a string ends with: every character in it is whitespace and the one before is not |
| Strings.Trim | index.js:419 | `trim()` is the middle slice with only whitespace around it; its ends are not whitespace |
| Strings.TrimEmptyIffBlank | index.js:528 | `!s.trim()` holds exactly when every character is whitespace |
| Strings.ToLower | index.js:100 | `toLowerCase` keeps the length and lower-cases each character in place |
| Strings.ToLowerIdempotent | index.js:100 | lower-casing twice is lower-casing once |
| Strings.DecimalString | index.js:61 | a number prints in a template string as a non-empty run of digits |
| Strings.DecimalRoundTrip | index.js:61 | the printed digits read back as the number |
| Strings.PaddedDecimalRoundTrip | index.js:791 | zero padding keeps the value and reaches the requested width |
| Strings.DecimalWidth | index.js:791 | a number below 10^w padded to w digits has exactly w characters |
| Strings.Extname | index.js:100 | `path.extname`: empty, or a dot-led suffix with no further dot and at least one character before it; when empty (and the name is not `..`), no dot follows the first character; `..` has no extension |
| Strings.ExtnameToLower | index.js:100 | taking the extension commutes with lower-casing |
| Strings.ExtnameIsSuffix | index.js:104 | a name has a given dot-led extension exactly when it ends with it after at least one other character |
| Records.IndexOfId | index.js:699 | `findById`: the first record with the id, or -1 exactly when none has it |
| Records.FyIndex | index.js:884 | `findOne({fy_name})`: the first fiscal year with the name, or -1 exactly when none has it |
| Submission.FoldAmounts | index.js:89 | the `reduce` from an accumulator adds the sum of the amounts to it |
| Submission.TotalAmount | index.js:89 | the stored total is the sum of the bills' amounts, and 0 for no bills |
| Submission.TotalAmountAppend | index.js:826 | the total of two bill lists put together is the sum of their totals |
| Submission.UploadNameRoundTrip | index.js:61 | a stored upload name splits back on `-` into the time stamp and the client's file name |
| Submission.RandomSuffix | index.js:93 | `Math.floor(Math.random() * 10000)` is the integer part of u·10000, so it lies in 0..9999 |
| Submission.BillNumbers | index.js:92 | `bills.map(b => b.bill_no)` keeps the bill order |
| Submission.MergedNameFields | index.js:92-94 | the merged name ends in `.pdf` and its stem splits back on `_` into the bill numbers, the date and the random number, which reads back from its digits |
| Submission.MergedNamePlain | index.js:92-95 | the merged name holds no `/` exactly when no bill number and not the date holds one |
| Submission.IsoDay | index.js:791 | today's `toISOString().split('T')[0]` is `yyyy-mm-dd` whose digit fields read back as year, month and day |
| Merge.Classify | index.js:99-100 | each upload gets the kind its lower-cased extension selects, in upload order |
| Merge.FitInside | index.js:106-108 | the `fit: 'inside'` resize keeps the aspect ratio, fits within 595×842 and touches one side |
| Merge.CentredPage | index.js:118-123 | an image page on create is A4 with the image centred, at non-negative offsets, in its own aspect ratio |
| Merge.NativePage | index.js:806-811 | an image page on modify is the image's size with the image drawn at the origin |
| Merge.CopiedPages | index.js:131-133 | a PDF contributes all of its pages, in their order |
| Merge.FilePagesFacts | index.js:104-134 | one upload adds pages exactly when it is acceptable on the route; what it adds all comes from it |
| Merge.MergedSucceeds | index.js:99-135 | the merge fails exactly when some upload is not acceptable: a PDF that does not load, or on modify an image that does not embed |
| Merge.MergedPageCount | index.js:99-135 | pages = images that embed + the page counts of all PDFs |
| Merge.MergedInUploadOrder | index.js:99 | every page comes from an upload, and pages follow upload order |
| Merge.MergedPagesOfUpload | index.js:104-134 | per upload: nothing for another extension, all its pages for a PDF, one page for an image that embeds, and on create none for one that does not |
| Merge.MergedGeometry | index.js:118-123 | every image page is A4 and centred on create, and image-sized at the origin on modify |
| Merge.MergedFailureStays | index.js:129-131 | once an upload has failed the loop, the request fails whatever follows |
| Merge.KindOfIsExtname | index.js:100 | the kind is what the lower-cased `path.extname` selects |
| Merge.KindOfExtensionBySuffix | index.js:104-128 | `.png` is PNG; `.jpeg`/`.jpg` is JPEG; `.pdf` is a PDF; anything else is other |
| Merge.KindIgnoresCase | index.js:100 | `photo.JPG` is treated like `photo.jpg` |
| Merge.OutputDocument.constructor | index.js:97 | `PDFDocument.create()` starts with no pages |
| Merge.OutputDocument.AddPage | index.js:118 | `addPage` appends exactly one page |
| Merge.OutputDocument.CopyAllPages | index.js:131-133 | `copyPages` then `addPage` for each copy appends all the PDF's pages in order |
| Merge.ExtensionKind | index.js:100 | the extension test computes the kind of the stored name |
| Merge.AddUpload | index.js:104-134 | one loop pass fails exactly when the upload is not acceptable, and otherwise appends its pages |
| Merge.ClassifyUploads | index.js:99-100 | the classification loop computes `Classify` |
| Merge.MergeItems | index.js:99-135 | the loop over classified uploads succeeds exactly when `Merged` does and then appends its pages |
| Merge.MergeUploads | index.js:798-819 | the merge loop of both routes: success exactly when the merge succeeds, and the document grows by the merged pages |
| Lists.LastIndexOf | index.js:55-63 | the last position of a value in a sequence, or -1: for a list of writes, the write of a name that wins |
| Storage.UnlinkedRemovesExactly | index.js:725-733 | unlinking a list of names removes exactly those names, skips missing ones, and keeps every other file's content |
| Storage.WrittenHoldsLastWrite | index.js:55-63 | after a run of writes, a written name holds its last write, and every other file is unchanged |
| Storage.FileStore.constructor | index.js:55-58 | the two upload directories, as given |
| Storage.FileStore.WriteMerged | index.js:139 | `writeFileSync` creates or replaces one merged PDF and changes nothing else; the model takes the write to fail, writing nothing, exactly when the name holds a `/` (it does not resolve the path that `path.join` builds; see "## Left out") |
| Storage.FileStore.WriteUploads | index.js:55-63 | multer writes the uploads in order; the raw directory becomes `Written` of them |
| Storage.FileStore.UnlinkMerged | index.js:713-721 | the merged PDF is gone afterwards, whether or not it existed, and nothing else changes |
| Storage.FileStore.UnlinkRaw | index.js:725-733 | the `forEach` over the stored names unlinks each that exists, and nothing else changes |
| Storage.RemoveAt | index.js:699 | removing one position keeps the others in order |
| Storage.DeleteByIdRemovesExactly | index.js:699-703 | `findByIdAndDelete` finds nothing exactly when no record has the id, and then changes nothing; otherwise exactly that record goes and ids stay unique |
| Storage.ApplyUpdate | index.js:829-843 | an update keeps the id and `type`; sets the parsed fields (`null` included), the bills and the total; sets date, particulars, merged name and file list when the update carries them and keeps the stored ones when it leaves them undefined |
| Storage.UpdateByIdTouchesOnlyTarget | index.js:846-849 | `findByIdAndUpdate` touches only the record with the id, keeps ids unique, finds nothing exactly when no record has it, and repeating it changes nothing |
| Storage.FormCollection.constructor | index.js:145-162 | an empty `forms` collection, whose ids are trivially unique |
| Storage.FormCollection.Insert | index.js:162 | `save()` validates that every bill has a number (the schema's `required`) and then appends the new document, keeping ids unique; a failed validation inserts nothing |
| Storage.FormCollection.FindById | index.js:867 | the scan finds `IndexOfId` |
| Storage.FormCollection.FindByIdAndDelete | index.js:699 | the collection becomes `DeleteById` of the old one, with ids still unique |
| Storage.FormCollection.FindByIdAndUpdate | index.js:846-849 | the collection becomes `UpdateById` of the old one, with ids still unique |
| Forms.StoredNames | index.js:61 | the stored names are `<stamp>-<original name>`, one per upload, in upload order |
| Forms.Contents | index.js:55-63 | the bytes written are the uploads' contents, in upload order |
| Forms.StoredFiles | index.js:99 | the merge loop reads each stored name back from `public/pdf`, in order |
| Forms.ReceiveUploads | index.js:55-68 | more than ten files gives 500 with nothing stored; otherwise the uploads are written in order and their names returned in upload order |
| Forms.PostFormOutcomeFacts | index.js:68-171 | in the model (whose `WriteMerged` fails only on a `/`; see "## Left out"), `/postform` writes the merged PDF exactly when the request is multipart, every field is JSON, `bills` is a list, every `.pdf` loads and no bill number nor the date holds a `/`; it succeeds exactly when, in addition, every bill has a number, and otherwise answers 500 (after the write, when only that check failed); the document has images-that-embed + PDF pages; the record has the stored names, the bills, their total and the written name |
| Forms.PostForm | index.js:68-171 | the handler replies, writes the merged PDF and saves the record exactly as `PostFormOutcome` says: the collection grows by the record only on success, and the merged directory changes only by the written file |
| Forms.ModifyOutcomeFacts | index.js:747-862 | in the model (whose `WriteMerged` fails only on a `/`; see "## Left out"), `/modify` gives 400 exactly for a missing `_id`; 500 exactly when `bills` is not a list, or when there are files and one does not merge on the modify route or the merged name holds a `/`; writes the merged PDF, named after the bills and the date or today's ISO day, exactly for files that all merge; gives 404 exactly when no record has the id, leaving the collection unchanged; otherwise rewrites only that record: same id and `type`, each parsed field as parsed (`null` when it did not parse), the new bills and total, date and particulars kept when not sent, the written merged name, and the file list replaced when the request was multipart |
| Forms.ModifyForm | index.js:747-862 | the handler replies and leaves the collection and the merged directory exactly as `ModifyOutcome` says |
| Forms.EraseRemovesRecordAndFiles | index.js:696-742 | `/erase` gives 404 exactly for an unknown id and then changes nothing; otherwise the record goes, every other stays, and its merged PDF and raw files are gone while other files are untouched |
| Forms.Erase | index.js:696-742 | the handler leaves the collection and both directories as `EraseOutcome` says |
| Lists.Filter | index.js:891 | `filter` gives the elements at exactly the selected positions, in increasing position order, once each; so exactly the elements satisfying the predicate |
| Lists.Selected | index.js:891 | the positions where the predicate holds: strictly increasing, each satisfying it, and every satisfying position listed |
| Lists.FilterAppend | index.js:891 | filtering a concatenation is the concatenation of the filtered parts, in order |
| Lists.FindFirst | index.js:31-37 | the first element satisfying the predicate, or -1 exactly when none does |
| Lists.IndexOf | index.js:469 | `indexOf`: the first position of the element, or -1 exactly when it is absent |
| Lists.SortByOrders | index.js:468-470 | the comparator sort orders by the key |
| Lists.SortByPermutes | index.js:468-470 | the sort keeps every element as often as before |
| Lists.SortByIsStable | index.js:468-470 | elements with equal keys keep their relative order |
| Lists.SortBySpec | index.js:894 | sorted, a permutation, and stable, all at once |
| Lists.SameMembers | index.js:894 | two permutations of each other hold the same members |
| Queries.LexLeReflexive | index.js:214-216 | string order is reflexive |
| Queries.LexLeTotal | index.js:214-216 | any two strings compare one way or the other |
| Queries.LexLeAntisymmetric | index.js:214-216 | strings ordered both ways are equal |
| Queries.LexLeTransitive | index.js:214-216 | string order is transitive |
| Queries.DayTextShaped | index.js:207 | a day printed as `dd-MM-yyyy` passes the format check and reads back |
| Queries.DateFilter | index.js:203-226 | 400 exactly when either bound fails the `dd-MM-yyyy` check; otherwise exactly the forms whose date lies between the bounds in string order, in natural order, each once |
| Queries.FirstDifference | index.js:214-216 | string order is decided at the first differing character |
| Queries.DateRangeIsNotCalendarRange | index.js:214-216 | string order on `dd-MM-yyyy` is not calendar order: a 2023 date falls in a 2024 range, and 1 February 2024 falls outside 15 January–20 February 2024 |
| Queries.DateFilterByCalendar | index.js:203-226 | the corrected filter: same 400 rule; otherwise exactly the forms whose date lies between the bounds by calendar day, in natural order, each once |
| Queries.CalendarKeyOrdersByCalendar | index.js:214-216 | comparing `yyyyMMdd` keys as strings is calendar order on well-formed dates |
| Queries.InCalendarRangeIsCalendarOrder | index.js:214-216 | the corrected range test selects exactly the well-formed dates between the bounds in calendar order |
| Queries.LexLeConcat | index.js:214-216 | equal-length leading parts decide string order unless they are equal |
| Queries.DigitsOrder | index.js:214-216 | on equal-length digit strings, string order is numeric order |
| Queries.BillNumberList | index.js:231-235 | absent or empty `bill_nos` gives 400; otherwise at least one comma-free piece, and the pieces join back into the query text |
| Queries.FormsByBillNos | index.js:228-253 | 400 exactly for absent or empty `bill_nos`; otherwise exactly the forms with a bill whose number is one of the pieces, in natural order, each once |
| Queries.SplitCount | index.js:419 | splitting gives one piece more than the separator count |
| Queries.TrimAll | index.js:419 | `map(id => id.trim())` trims each piece in place |
| Queries.TrimKeepsOut | index.js:419 | trimming adds no character, so a trimmed piece stays comma-free |
| Queries.EmployeeIdList | index.js:413-419 | absent or empty `emp_ids` gives 400; otherwise one id per comma-separated piece, each the piece trimmed, so comma-free with no whitespace at either end |
| Queries.EmployeeIdListRoundTrip | index.js:413-419 | ids without commas or surrounding whitespace, joined with commas, read back as the same ids in the same order |
| Queries.FormsByEmployeeIds | index.js:411-438 | 400 exactly for absent or empty `emp_ids`; otherwise exactly the forms with a recipient whose id is among the trimmed pieces, in natural order, each once |
| Queries.Signin | index.js:27-52 | denied exactly when no credential matches both username and password; a grant echoes them with the stored admin flag of the first matching credential in stored order, as `findOne` returns it |
| Ordering.MonthIndex | index.js:15-18 | `monthOrder.indexOf`: the month's place in the table, or -1 exactly for a name not in it |
| Ordering.MonthNamesDistinct | index.js:15-18 | the twelve names in the table are distinct |
| Ordering.MonthIndexOfEachMonth | index.js:15-18 | each month in the table maps to its own place |
| Ordering.SortedMonths | index.js:462-475 | `/getmonth` is sorted by calendar place, unknown names first, a permutation, and stable |
| Ordering.FirstNamed | index.js:291-293 | the first entry with a name, or -1 exactly when none has it |
| Ordering.LastNamed | index.js:291-293 | the last entry with a name, or -1 exactly when none has it |
| Ordering.UniqueMonthsNames | index.js:291-293 | the `Map` keeps each name once, and exactly the names of the input |
| Ordering.UniqueMonthsKeepsLast | index.js:291-293 | the value kept under a name is its last occurrence |
| Ordering.UniqueMonthsFirstSeenOrder | index.js:291-293 | entries stay in the order their names first appear |
| Ordering.MonthsOf | index.js:292 | `data.map(doc => doc.month)`, in document order |
| Ordering.MonthOptions | index.js:279-306 | 500 exactly when a form has no month; otherwise the de-duplicated months, sorted by calendar place, a permutation of them, and stable |
| Ordering.ActiveMonths | index.js:881-900 | 404 exactly when no fiscal year has the name; otherwise that year's name and its active entries, sorted by calendar place, a permutation of them, and entries with the same place in stored order |
| Ordering.ActiveMonthsAreTheActiveEntries | index.js:891 | the months returned are exactly the active entries of the year found |
| Ordering.StartYearOfRange | index.js:261-265 | a name `<year>-<rest>` sorts by its year |
| Ordering.TrimDigits | index.js:262 | a string of digits trims to itself |
| Ordering.FyYearOptions | index.js:255-270 | the fiscal years sorted by start year, a permutation, and stable |
| Admin.EntryIndex | index.js:633-634 | the entry the positional operator picks: the first entry with the name, or -1 exactly when none has it |
| Admin.FyWithMonth | index.js:632-636 | the first fiscal year with the name that lists the month, or -1 exactly when none does |
| Admin.MonthDocIndex | index.js:585-589 | the first month document with the name, or -1 exactly when none has it |
| Admin.SetFyFlagFacts | index.js:534-538 | the upsert sets `fy_id` on the first year with the name, creating it only when none exists, and changes nothing else |
| Admin.SetFyFlagLastWins | index.js:548-569 | toggling twice leaves what the second toggle sets; the same toggle twice is one toggle |
| Admin.SetFyFlagKeepsNamesDistinct | index.js:534-538 | the upsert keeps fiscal-year names distinct |
| Admin.FyFlagRequest | index.js:524-569 | 400 exactly for a non-string or blank `fy_name`, changing nothing; otherwise the upsert on the trimmed name, and the reply is the updated year itself (`new: true`), with the trimmed name and the flag |
| Admin.SetMonthFlagFacts | index.js:585-589 | the upsert sets `month_id` on the first month with the name, creating it only when none exists, and changes nothing else |
| Admin.SetMonthFlagLastWins | index.js:599-620 | toggling a month twice leaves what the second toggle sets |
| Admin.MonthFlagRequest | index.js:574-620 | 400 exactly for a non-string `month_name`, changing nothing; otherwise the month with the flag, after the upsert |
| Admin.SetMonthInFyFacts | index.js:632-646 | the toggle targets the first year with the name that lists the month, else the first year with the name, else a new year; the target's month list becomes exactly the old list with its first entry for the month set to the flag, or the old list with the entry appended, or, for a created year, that entry alone (no id); the other years are unchanged and a year is added only when the name is missing |
| Admin.SetMonthInFyLastWins | index.js:623-691 | two toggles of one month leave what the second sets; repeating a toggle changes nothing |
| Admin.LastWinsWhenListed | index.js:632-636 | the same, when the month is already listed in the year |
| Admin.LastWinsWhenPushed | index.js:640-644 | the same, when the month is pushed onto an existing year |
| Admin.LastWinsWhenCreated | index.js:640-644 | the same, when the year is created by the upsert |
| Admin.SetMonthInFyKeepsNamesDistinct | index.js:640-644 | the month toggles keep fiscal-year names distinct |
| Admin.ActivatedMonthIsListed | index.js:623-657 | after `/activateMonth`, `/getMonthsFromFyYear` finds the year and lists the month as active |
| Admin.MonthInFyRequest | index.js:623-691 | 400 exactly when either name is not a string, changing nothing; otherwise the toggle, and the reply is the toggled year itself (`new: true`), which lists the month with the flag |
| Admin.FyYearCollection.constructor | index.js:534 | the `fy_year` collection as given |
| Admin.FyYearCollection.FindByName | index.js:884 | the scan finds `FyIndex` |
| Admin.FyYearCollection.FindWithMonth | index.js:632-636 | the scan finds `FyWithMonth`, and the entry the positional operator picks |
| Admin.FyYearCollection.ToggleYear | index.js:524-569 | the reply and the new collection are `FyFlagRequest` of the old one |
| Admin.FyYearCollection.ToggleMonth | index.js:623-691 | the reply and the new collection are `MonthInFyRequest` of the old one |
| Admin.FindEntry | index.js:634 | the scan finds `EntryIndex` |
| Admin.MonthCollection.constructor | index.js:585 | the `month` collection as given |
| Admin.MonthCollection.Toggle | index.js:574-620 | the reply and the new collection are `MonthFlagRequest` of the old one |

## Left out

- Express, cors and body-parser wiring, `app.listen` and the liveness route: plumbing with no logic.
- The routes that run a single equality query (`/getforms`, `/fy_year_month`, `/fy_year`, `/month`, `/date`, the head/sub-category, type and vehicle lookups, the plain list routes and `/getforms/:id`): each returns what one `find` selects and has no logic of its own.
- `/forms_fy_year` ($group aggregation), `/particulars/:given` ($regex built from user input) and `/amount/:given` (a query on a field the schema does not have): they rest on MongoDB's query language, which is not part of this model.
- Mongoose and MongoDB themselves: collections are sequences in natural order, and a query is the predicate it tests. A malformed ObjectId (a CastError, so 500) is not distinguished from an unknown one.
- multer, `fs`, sharp and pdf-lib: a file's bytes are abstracted to what the libraries report (image format and size, PDF page count, or rejection). Saving the merged document (`save()`) is not modelled beyond its pages.
- `Date.now()`, `Math.random()` and today's date are parameters. `RandomSuffix` takes the value `Math.random()` returned.
- Floating point: the resize and the centring offsets are on exact reals. sharp's pixel rounding is not modelled.
- Submission.TotalAmount: does not model `Number(bill.amount)` giving NaN for a non-numeric amount, because amounts are integers here.
- Ordering.FyYearOptions: keys a fiscal year by the trimmed digits before its first `-` (blank gives 0). `Number` in the comparator also reads a sign, a fraction, an exponent, a `0x`/`0o`/`0b` prefix and `Infinity` (`+2022`, `2022.5`, `1e3`, `0x7E6`), which the model keys as 0, so such names are ordered differently from the source; a start that `Number` rejects gives `NaN`, which makes the comparator inconsistent and the order engine-dependent.
- Strings.ToLower: lower-cases ASCII letters only, where `toLowerCase` also folds other scripts; a non-ASCII letter that folds onto one of the extension letters is not modelled.
- The `/` in a stored name, which `path.extname` would treat as a directory separator: multer names never carry one here.
- A `month` object without `month_name` in `/getmonthoption`: every month object is taken to carry a name.
- Duplicate query parameters (Express turns `?bill_nos=a&bill_nos=b` into an array, and `split` then throws): a query value is one string or absent.
- Merge.MergeUploads: the handlers classify and merge in one loop. The model classifies every upload first, then merges. The two agree because classification reads only names.
- Forms.ModifyOutcome: the update validators that `runValidators` turns on are not modelled; if they refuse a bill without a number, the source answers 500 where the model (and so `ModifyOutcomeFacts` and `ModifyForm`) updates the record.
- Storage.FileStore.WriteMerged: the model does not resolve paths at all; it takes every name with a `/` to fail with ENOENT, as `A1_x/y_…` does. `path.join` normalises first, so a leading `/` (`/A1_…`), `.` segments (`./A1_…`) and `..` segments that lead back into an existing directory (`x/../A1_…`, `../x`) are written by the source, where the model writes nothing.
- Storage.FileStore.WriteMerged: the model also does not capture two further ways `writeFileSync` throws: a name holding a NUL character (`ERR_INVALID_ARG_VALUE`, e.g. a bill number `"\u0000"` or a date with NUL) and a name longer than the file system's 255-byte limit (`ENAMETOOLONG`, e.g. twenty bills numbered like `INV-2024-0001`). For both the source answers 500 with nothing written, on `/postform` and on `/modify`, while the model (and so `PostFormOutcome`, `PostFormOutcomeFacts`, `PostForm`, `ModifyOutcome`, `ModifyOutcomeFacts` and `ModifyForm`) writes the file, answers 200 and saves the record.
- Forms.PostFormOutcome: by the `WriteMerged` rule, a merged name with a `/` answers 500 with nothing written; for the names the source writes after `path.join` normalises them (leading `/`, `.` segments, `..` segments that resolve), the source stores the `path.basename` and answers 200, while the model (and so `PostFormOutcomeFacts` and `PostForm`) answers 500.
- Forms.ModifyOutcome: the same `/` rule on `/modify`; for a name with a leading `/`, `.` segments or resolving `..` segments the source writes the file, stores the full name and answers 200, while the model (and so `ModifyOutcomeFacts` and `ModifyForm`) answers 500.
- Storage.ApplyUpdate: assumes the Mongoose 7 and later semantics, where a key whose value is `undefined` is dropped from the update and the stored value stays; Mongoose 6 and earlier without `omitUndefined` send such keys as `null`, which the model does not capture.
- Queries.Signin: `Records.Credential.admin` is a `bool`, while the `admin` path of the user schema is optional; a stored credential without it gets a grant whose reply has no `admin` key, which the model cannot express.
- Storage.FormCollection.Insert: validates the bill numbers only; a bill without `amount`, also `required`, cannot be written here, because amounts are integers.
- Concurrency, non-atomic multi-step updates between requests, and console logging.
- Dates with a year above 9999, which `toISOString` prints with a sign and six digits: `IsoDay` requires a four-digit year.

## Findings

| source | as written | input that shows it | evidently intended | confidence | as-written member | corrected member |
|---|---|---|---|---|---|---|
| index.js:214-216 | `{date: {$gte: from, $lte: to}}` compares `dd-MM-yyyy` strings character by character | a form dated `15-01-2023` is returned for `01-01-2024`..`31-12-2024`, and `01-02-2024` is not returned for `15-01-2024`..`20-02-2024` | dates between the bounds by calendar day | not executed | Queries.DateRangeIsNotCalendarRange | Queries.DateFilterByCalendar |
