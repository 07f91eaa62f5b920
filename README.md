# Ticket sales API — a Dafny model of its core

The system is a small serverless API for recording ticket sales. A
salesperson (an RRPP, working under a team leader) submits a sale with a
form: team leader, RRPP name, ticket quantity, an optional city and an
optional payment receipt. The receipt goes to a public `receipts` bucket in
an object store, and the sale becomes a row of the `sales` table. Two read
endpoints list the sales, each with a public link to its receipt, and
compute totals.

This project models the core of `api/index.js`:

- **`Filenames`** (`filenames.dfy`) models `sanitizeFilename`. It
  lower-cases the name, turns each run of characters outside `[a-z0-9.-]`
  into one `-`, collapses runs of `-`, and cuts one `-` off each end. It is
  proved to always return a safe name (only `a`–`z`, `0`–`9`, `.` and `-`;
  no `--`; no `-` at either end). It is also proved idempotent, the safe
  names are exactly its fixed points, and it keeps every name character in
  order.
- **`Text`** (`text.dfy`) models the JavaScript string operations the
  handler relies on:
  - ASCII `toLowerCase`;
  - `trim`, with the ECMAScript white-space and line-terminator set;
  - case-insensitive substring search, which is what the
    `/not found|No such file|bucket/i` test amounts to;
  - decimal rendering of the clock reading;
  - global `parseInt`: white space, one sign, a `0x` prefix, the longest
    digit prefix, and `NaN` as `None`.
- **`Sales`** (`sales.dfy`) models the `sales` rows and the two read
  endpoints:
  - GET /api/sales attaches `receipt_url` to each row;
  - GET /api/stats counts the rows and sums `ticket_quantity`, where a
    `null` quantity adds nothing.
- **`Submission`** (`submission.dfy`) models POST /api/sales:
  - required-field validation (400);
  - the city default;
  - the `<millis>-<sanitized name>` storage key;
  - the upload with its single create-the-bucket-and-retry fallback;
  - the insert, made only when the upload worked;
  - the mapping of failures to statuses.

  `Decide` is the handler as a function of the form, the receipt, the clock
  reading and the platform's replies. `SubmitSale` performs the same steps
  one call at a time against a `Platform` class. That class records every
  call it receives, the keys stored in the bucket and the rows of the table.
  Its invariant is that every row's receipt is in the bucket. `PostSales`
  puts multer's outcome in front of the handler, as the route is wired;
  `PostSalesCorrected` does the same with the answers the catch block
  intends (see Findings).

What the object store and the database answer is an input: the `Replies`
of a submission, a `SelectReply` for the reads, and a `publicUrl` function
standing in for `getPublicUrl`. The clock reading `Date.now()` is the
parameter `now`.

Three behaviours of the code that a reader might not expect:

- **The extension keeps a `-`.** `"My Photo (1).PNG"` sanitizes to
  `"my-photo-1-.png"`, not `"my-photo-1.png"`. The `)` before the
  extension is replaced by a `-` at `api/index.js:23`, and line 25 only
  cuts a `-` at either end. `Filenames.SanitizeKeepsHyphenBeforeExtension`
  states this for every safe stem, every disallowed character and every
  extension.
- **Upload failures are server errors.** A failed upload is always
  answered 500 (`api/index.js:138-140`), never 400.
- **Multer errors never reach the 413 branch.** The catch block at
  `api/index.js:165-170` answers 413 for an oversized receipt, but as the
  route is wired that error never reaches it; see Findings.

## Model

| member | source | states |
|---|---|---|
| Text.LowerChar | api/index.js:22 | `toLowerCase` on one ASCII character: upper-case letters move by 32, everything else is kept, and the result is never upper case |
| Text.LowerAscii | api/index.js:22 | lower-casing keeps the length and lower-cases each position |
| Text.LowerAsciiFixes | api/index.js:22 | a string without upper-case letters is its own lower-case form |
| Text.LeadingWhitespace | api/index.js:99-100 | the count of leading white space: all counted characters are white space, and the next one is not |
| Text.TrailingWhitespace | api/index.js:99-100 | the same count at the end of the string |
| Text.TrimStart | api/index.js:99-100 | a suffix of the input; only white space was dropped; it does not start with white space |
| Text.TrimEnd | api/index.js:99-100 | a prefix of the input; only white space was dropped; it does not end with white space |
| Text.Trim | api/index.js:99-100 | `String.prototype.trim`, defined as `TrimEnd` after `TrimStart`; its properties are stated by the four lemmas below |
| Text.TrimIsWhitespaceFreeSlice | api/index.js:99-100 | `trim` returns a slice of its input, with only white space cut on either side |
| Text.TrimEdgesAreNotWhitespace | api/index.js:99-100 | a trimmed string neither begins nor ends with white space |
| Text.TrimIdempotent | api/index.js:99-100 | trimming twice is trimming once |
| Text.TrimEmptyIffBlank | api/index.js:99 | `trim().length > 0` fails exactly when every character is white space |
| Text.Contains | api/index.js:121 | the left-to-right substring search; `ContainsIffOccursAt` proves it against the index definition |
| Text.ContainsIgnoringCase | api/index.js:121 | a `/…/i` alternative with a lower-case needle: the search in the ASCII lower-cased text |
| Text.ContainsIffOccursAt | api/index.js:121 | the substring search succeeds exactly when the needle occurs at some index |
| Text.DigitValue | api/index.js:150 | a digit's value is at most 36, and below 10 exactly for `0`–`9` |
| Text.DecimalDigit | api/index.js:107 | the character for a value below 10 is a decimal digit with that value |
| Text.DecimalString | api/index.js:107 | `${ts}`: at least one digit, all decimal, and no leading zero except for 0 itself |
| Text.DigitPrefix | api/index.js:150 | the longest prefix of digits in the radix: a prefix of the input, all digits, followed by a non-digit or the end |
| Text.ParseInt | api/index.js:150 | global `parseInt` without radix: leading white space, one sign, `0x`, the longest digit prefix, `NaN` as `None`; `ParseIntReadsDecimalPrefix`, `ParseIntNegatedDecimalString` and `StorageKeyStartsWithTimestamp` state what it reads |
| Text.DecimalStringValue | api/index.js:107 | reading back the decimal rendering of `n` gives `n` |
| Text.DigitPrefixStopsAfter | api/index.js:150 | the digit prefix of digits followed by a non-digit is exactly those digits |
| Text.ReadMagnitudeDecimalString | api/index.js:150 | the digits of `n` read back as `n` |
| Text.ParseIntReadsDecimalPrefix | api/index.js:150 | `parseInt` of the digits of `n`, followed by anything that is not a digit or `x`, is `n` |
| Text.ParseIntReadsDigits | api/index.js:150 | `parseInt` of decimal digits (leading zeros such as "007" included) that do not start a `0x` prefix, followed by a non-digit, is the value of exactly those digits |
| Text.ParseIntUnsigned | api/index.js:150 | text that starts with a decimal digit is read by `parseInt` as an unsigned magnitude, with no whitespace skipped and no sign taken |
| Text.ParseIntNegatedDecimalString | api/index.js:150 | `parseInt("-" + digits of n)` is `-n` |
| Text.ParseIntNegated | api/index.js:150 | a leading `-` negates whatever magnitude `parseInt` reads after it |
| Text.DecimalStringInjective | api/index.js:107 | distinct clock readings render differently |
| Filenames.DropRun | api/index.js:23-24 | drops exactly the leading run of the class: a suffix, whose dropped characters are in the class and whose first is not |
| Filenames.ReplaceRuns | api/index.js:23-24 | the first output character is `-` when the input starts in the class, else the input's first character; the whole rule is pinned down by `ReplaceRunsCollapsesRun` (a run becomes one `-`) and `ReplaceRunsKeepsPrefix` (other characters pass through) |
| Filenames.ReplaceRunsCollapsesRun | api/index.js:23-24 | a maximal run of class characters, of any length, becomes exactly one `-`, and what follows is replaced on its own |
| Filenames.DropRunOfRun | api/index.js:23-24 | dropping the leading run of a class stops exactly where the run ends |
| Filenames.ReplaceRunsAtRun | api/index.js:23-24 | an input starting in the class becomes `-` followed by the replacement of what comes after its leading run |
| Filenames.ReplaceRunsOutput | api/index.js:23-24 | every output character is `-` or outside the class; with `-` in the class, the output has no `--` |
| Filenames.ReplaceRunsWritesHyphenOrOutside | api/index.js:23-24 | every output character is `-` or a character outside the class |
| Filenames.ReplaceRunsSingleHyphens | api/index.js:24 | when `-` is in the class, the output has no `--` |
| Filenames.ReplaceRunsIdentity | api/index.js:23-24 | a string with no character in the class is left unchanged |
| Filenames.ReplaceRunsKeepsClass | api/index.js:23-24 | any class that holds `-` and all input characters also holds all output characters |
| Filenames.ReplaceRunsKeepsPrefix | api/index.js:23 | a prefix with no character in the class passes through unchanged, whatever follows it |
| Filenames.StripLeadingHyphen | api/index.js:25 | `^-` yields a suffix at most one character shorter, and shorter exactly when the input starts with `-` |
| Filenames.StripEdgeHyphens | api/index.js:25 | `^-\|-$` yields exactly the input without one leading `-` (if any) and one trailing `-` (if any, and not the same `-`); on input without `--` the result has no `-` at either end |
| Filenames.SanitizeFilename | api/index.js:20-26 | the result is a safe name: only `a`–`z`, `0`–`9`, `.`, `-`, no `--`, and no `-` at either end |
| Filenames.CollapseFixesSingleHyphens | api/index.js:24 | collapsing hyphen runs leaves a string without `--` unchanged |
| Filenames.SanitizeFixesSafeNames | api/index.js:20-26 | a safe name sanitizes to itself |
| Filenames.SanitizeIdempotent | api/index.js:20-26 | sanitizing twice is sanitizing once |
| Filenames.SanitizeFixpointsAreSafeNames | api/index.js:20-26 | the names that sanitize to themselves are exactly the safe names |
| Filenames.NameCharsDropRun | api/index.js:23-24 | dropping a run of a class with no name characters keeps the name characters |
| Filenames.NameCharsReplaceRuns | api/index.js:23-24 | both replacements keep the name characters (`a`–`z`, `0`–`9`, `.`) in order |
| Filenames.NameCharsStrip | api/index.js:25 | cutting edge hyphens keeps the name characters |
| Filenames.SanitizeKeepsNameChars | api/index.js:20-26 | the name characters of the lower-cased input are exactly those of the output, in order |
| Filenames.ReplaceLeadingSeparator | api/index.js:23 | one disallowed character in front of name characters becomes one `-` |
| Filenames.ReplaceUnsafeBeforeExtension | api/index.js:23 | a disallowed character between safe text and an extension becomes `-` |
| Filenames.SanitizeKeepsHyphenBeforeExtension | api/index.js:20-26 | a safe stem, a disallowed character, then an extension give `stem-ext`: the `-` stays before the extension |
| Sales.ReceiptUrl | api/index.js:55-62 | a row has a URL exactly when its file name is non-empty and the public URL is present and non-empty; that URL is the one returned |
| Sales.EnrichRows | api/index.js:54-64 | one listed row per row, in order, each keeping all columns and adding its `receipt_url` |
| Sales.Unlisted | api/index.js:63 | dropping `receipt_url` leaves the rows underneath, position by position |
| Sales.UnlistEnriched | api/index.js:54-64 | enrichment only adds `receipt_url`: removing it gives back the selected rows |
| Sales.EnrichRowsAppend | api/index.js:54-64 | enrichment works row by row: it distributes over concatenation |
| Sales.NoReceiptNoUrl | api/index.js:55-56 | a row with no receipt file is listed with `receipt_url: null` |
| Sales.ListSales | api/index.js:45-68 | a failed select is a 500 with its message; otherwise the listing holds the rows (`null` data as none), in order, each with the `receipt_url` of its own receipt file |
| Sales.TicketSum | api/index.js:81 | the `reduce` from 0, with a `null` quantity adding 0; its properties are stated by the four lemmas below |
| Sales.TicketSumAppend | api/index.js:81 | the sum of a concatenation is the sum of the parts |
| Sales.TicketSumSplit | api/index.js:81 | the sum of a prefix plus the sum of the rest is the whole sum |
| Sales.TicketSumWithout | api/index.js:81 | the sum is the sum without one quantity, plus that quantity |
| Sales.TicketSumOrderIndependent | api/index.js:81 | the total does not depend on the order the rows come back in |
| Sales.Stats | api/index.js:72-86 | a failed select or `null` data is a 500; otherwise `totalSales` is the row count and `totalTickets` is the sum, with `null` adding 0 |
| Sales.StatsExamples | api/index.js:80-83 | no rows give 0 and 0; quantities 2, 3 and 5 give 3 and 10 |
| Submission.HasRequiredFields | api/index.js:94 | team leader, RRPP name and ticket quantity are all sent and non-empty; `DecideOutcome` proves a 400 exactly when this fails |
| Submission.ResolveCity | api/index.js:99-101 | the trimmed city when it is non-empty, else "General"; never empty |
| Submission.ResolvedCityIsTrimmed | api/index.js:99-101 | the stored city has no surrounding white space; it is "General" exactly when the field was absent, blank or "General" once trimmed |
| Submission.SafeName | api/index.js:106 | a safe name: the sanitized original name when one was sent and is non-empty (it may sanitize to "", as "()" does); otherwise exactly "comprobante" |
| Submission.DefaultNameIsSafe | api/index.js:106 | "comprobante" is a safe name, so it passes through the sanitizer unchanged |
| Submission.StorageKey | api/index.js:105-107 | the key is the decimal clock reading, a `-`, then exactly the sanitized name; all of it is storage-safe and it is never empty |
| Submission.JoinedKeyShape | api/index.js:107 | joining digits and safe characters with `-` gives a key that is the digits, the `-` and the name, all safe characters |
| Submission.ContentType | api/index.js:115 | the declared MIME type when non-empty, else `application/octet-stream` |
| Submission.SaleToInsert | api/index.js:147-153 | the inserted columns: the raw names, `parseInt` of the quantity, the resolved city and the stored key; `DecideOutcome` states what a saved row carries |
| Submission.StampedKeyReadsStamp | api/index.js:107 | any key that starts with the decimal stamp and a `-` parses back to the stamp |
| Submission.StorageKeyStartsWithTimestamp | api/index.js:105-107 | `parseInt` of a storage key is the clock reading it was made at |
| Submission.StorageKeyInjective | api/index.js:105-107 | equal keys come from the same millisecond and the same sanitized name |
| Submission.IsBucketMissing | api/index.js:121 | `/not found\|No such file\|bucket/i` on the error message, as case-insensitive substring search |
| Submission.RetriesUpload | api/index.js:121 | the fallback runs exactly after a first upload error whose message matches |
| Submission.BucketMissingIgnoresCase | api/index.js:121 | the fallback test gives the same answer for a message and its lower-case form |
| Submission.MentionOfBucketMatches | api/index.js:121 | a message mentioning "bucket" anywhere, in any case, triggers the fallback |
| Submission.FinalUploadError | api/index.js:118-136 | the error left after the fallback: none after a successful first upload, the retry's error after a retry, else the first error |
| Submission.UploadFailureText | api/index.js:139 | the upload failure message: the fixed prefix, then the error's message, or its string form when the message is empty |
| Submission.ServerErrorText | api/index.js:171 | the error's message, or "Error interno del servidor" when it is empty |
| Submission.UploadCalls | api/index.js:110-136 | the upload calls of one receipt; `UploadCallsCount`, `UploadCallsOrder` and `StoreReceipt` state what they are |
| Submission.CountAppend | api/index.js:110-156 | call counts add up over concatenated call logs |
| Submission.UploadCallsCount | api/index.js:110-136 | as many uploads as attempts (two exactly when retrying, else one), one bucket creation exactly when retrying, and never an insert |
| Submission.UploadCallsOrder | api/index.js:110-136 | the first and last call are the same upload of the key with the receipt's content type; exactly when retrying there are three calls, with the creation of the public receipts bucket in the middle; otherwise the upload alone |
| Submission.InsertStep | api/index.js:145-162 | the insert is the last call; 200 with the row's id exactly when a row was saved; a failed insert saves nothing and answers 500 with the database error's message |
| Submission.WithReceipt | api/index.js:103-162 | with a receipt: the upload calls, then the insert only when no upload error is left; the key is stored exactly then; a final upload error is a 500 naming it with nothing saved; a row is saved exactly when the upload worked and the database accepted it, and then it is the form's row with the key as `receipt_filename`, answered 200 with its id; a database error is a 500 with its message |
| Submission.WithoutReceipt | api/index.js:144-162 | without a receipt: exactly one call, the insert, and nothing stored; a row is saved exactly when the database accepted it, with a `null` receipt file name, answered 200 with its id; a database error is a 500 with its message |
| Submission.Decide | api/index.js:92-162 | the handler body as a function of form, receipt, clock and replies; `DecideOutcome`, `DecideCallProtocol` and `SubmitSale` state its properties |
| Submission.DecideOutcome | api/index.js:92-171 | 400 exactly when a required field is missing, with no calls; the status is 200, 400 or 500; a failed upload is a 500 with nothing saved; the key is stored exactly when a complete submission's upload worked; 200 exactly when a row was saved; a saved row carries the database id, the resolved city and the stored key |
| Submission.DecideCallProtocol | api/index.js:103-156 | at most two uploads, one bucket creation and one insert; uploads only for a complete submission with a receipt; the bucket only after a first failure naming it; a second upload exactly when a bucket was created; the insert exactly when nothing failed before it, and always last, carrying the form's values |
| Submission.InsertCallCounts | api/index.js:145-154 | appending the insert adds one insert call and no other calls |
| Submission.Platform.constructor | api/index.js:31-34 | a fresh platform has made no calls and holds no objects and no rows |
| Submission.Platform.Upload | api/index.js:111-117 | logs the upload; the key is stored exactly when the upload worked; rows are unchanged |
| Submission.Platform.CreateBucket | api/index.js:123 | logs the bucket creation; objects and rows are unchanged |
| Submission.Platform.Insert | api/index.js:145-154 | logs the insert; the row is appended exactly when the database accepted it |
| Submission.StoreReceipt | api/index.js:110-136 | the upload with its fallback issues the calls the model specifies, leaves the final upload error, and stores the key exactly when no error is left |
| Submission.SaveSale | api/index.js:145-162 | logs the insert; when the database accepts it, 200 with the new id and the row appended; when it fails, 500 with the message and no row |
| Submission.SubmitWithoutReceipt | api/index.js:144-162 | the handler without a receipt makes the calls, stores, saves and answers what `WithoutReceipt` says |
| Submission.SubmitWithReceipt | api/index.js:103-162 | the handler with a receipt makes the calls, stores, saves and answers what `WithReceipt` says |
| Submission.SubmitSale | api/index.js:92-162 | the handler's response, calls, stored objects and saved rows are those of `Decide`, and every row's receipt stays in the bucket |
| Submission.MulterRejection | api/index.js:165-170 | the intended answer to a multer error: 413 with the size message for an oversized file, otherwise 400 with the prefixed message |
| Submission.MulterRejectionAsWired | api/index.js:90 | as wired, every multer error is answered 500 by the framework's default handler |
| Submission.OversizedReceiptAsWired | api/index.js:166-167 | an oversized receipt gets 500 where the catch block intends 413 |
| Submission.MulterErrorsAsWiredDiffer | api/index.js:165-170 | for every multer error, the wired answer is 500 while the intended one is a 4xx, so they never agree |
| Submission.PostSales | api/index.js:90-172 | the route as wired: a multer error is answered 500 by the default handler and leaves the platform untouched; otherwise the handler runs as `Decide` says |
| Submission.PostSalesCorrected | api/index.js:90-172 | the route with the catch block's intended 413/400 answers to multer errors; otherwise as `PostSales` |

## Left out

- The Express application, CORS, JSON body parsing, the health endpoint
  and the development `listen`: these are framework wiring and I/O with no
  decision logic of their own.
- The Supabase client and its configuration from environment variables.
  Each reply (upload, retry, insert, select, `getPublicUrl`) is an input.
- Submission.Platform.CreateBucket: its reply is ignored, as in the code. A
  client call that throws, rather than returning an `error`, is not
  distinguished from an upload error.
- `Date.now()` is the parameter `now`. Two submissions in the same
  millisecond with equal sanitized names would collide, and the model does
  not decide what the store then answers.
- Text.LowerChar: only ASCII letters are lower-cased, because JavaScript's
  full Unicode case mapping is outside the model. Most non-ASCII characters
  are disallowed either way and end up as `-`. The exceptions are the
  characters that `toLowerCase` maps into ASCII: U+212A KELVIN SIGN becomes
  `k`, and U+0130 becomes `i` followed by U+0307. For names with them,
  `sanitizeFilename` keeps a `k` or an `i` where the model writes `-`:
  `"\u212A.png"` is `"k.png"` in the program and `".png"` here.
- Text.ParseInt: the result is an exact integer. JavaScript's `parseInt`
  rounds magnitudes above 2^53 to a double.
- Sales.Stats: `totalTickets` is an exact integer sum. JavaScript adds
  doubles.
- Form fields that arrive as arrays or other non-strings are not modelled:
  each field is a string or absent. For `city`, absent stands for any
  non-string.
- multer itself is left out. Its parsing of the multipart body and its
  4 MiB check are summarised by `MulterOutcome`, and an accepted receipt
  is assumed to be within the limit.
- The `order('created_at', descending)` of the listing is the database's
  doing: the model lists rows in the order the select returns them.
- Submission.InsertStep: the insert reply is assumed to carry the new row
  when it has no error. An empty `data` array, which would make `data[0].id`
  throw, is not modelled.
- Object contents are not tracked. The bucket is a set of keys, and the
  content and content type appear only in the call log.

## Findings

| source | as written | input that shows it | evidently intended | confidence | as-written member | corrected member |
|---|---|---|---|---|---|---|
| api/index.js:165-170 | multer runs as route middleware (line 90), so its errors go to `next(err)` and Express's default handler answers 500; the handler's catch block, with its 413 and 400 branches, never sees a `MulterError` | a `receipt` of 4 MiB + 1 byte | 413 "El archivo es demasiado grande. Máximo 4MB." for size, 400 "Error de carga: …" for other multer errors | not executed | Submission.MulterRejectionAsWired | Submission.MulterRejection |
