# Guest list and QR check-in — a Dafny model

This project models the core of an event guest-list application.

- **Invitation tokens.** Each guest gets a token made of the guest id and a hex HMAC-SHA256 signature. The signature covers the id and the lowercased email.
- **Check-in.** The check-in endpoint looks a token up in the `guests` collection, verifies it against the stored email, and marks the guest checked in once.
- **Phone normalisation.** WhatsApp and phone numbers are normalised to E.164.
- **Bulk sends.** Two routes send invitations over WhatsApp to every guest: one over the self-hosted per-guest endpoint with a single retry, one directly.
- **Spreadsheet import.** A bulk import updates guests whose email is already stored and creates the others with a freshly signed token.
- **Guest routes.** The guests route lists guests newest first, and creates one guest after validation and a duplicate-email check.
- **Admin page.** The admin page normalises spreadsheet headers, maps rows, filters the list and exports it as CSV.
- **Scanner page.** The scanner page extracts a token from a QR code and guards against submitting it twice.

## How the model is built

- **Source files and modules.** Each core source file is one Dafny module: `Sign`, `CheckinRoute`, `Phone`, `Wasender`, `SendAllWhatsapp`, `SendAll`, `Bulk`, `GuestsRoute`, `Page` and `ScanPage`. `Store` holds the guest record and the collection. `Wrappers` and `Text` hold `Option` and the JavaScript string operations the sources use (`||`, `toLowerCase`, `trim`, `split`, `join`, `includes`, `replace(/[^\d+]/g, "")`).
- **The collection.** The document store's collection is the class `Store.GuestStore`.
  - Its documents are a sequence in document order, so a `limit(1)` query returns the first match.
  - A ghost counter tracks the number of writes.
  - Route handlers that write are methods on it, proved equal to a pure step function.
- **HMAC-SHA256.** The MAC is an oracle inside `Sign.Signer`, together with the `CHECKIN_SECRET` value. The hex encoding and Node's hex decoding are concrete.
- **Oracles.** Anything else the code cannot see is an oracle parameter:
  - the network, e-mail, QR rendering and upload;
  - the document store's auto-ids (`newId`) and the clock;
  - URL and JSON parsing, the e-mail format check, and `toLocaleString`.
- **Loops.** The loops of the sources are methods with loop invariants, each proved equal to a fold over the input:
  - `callOne`'s retry;
  - both send-all loops;
  - the bulk import's row loop and its write commit;
  - the `forEach` that fills an imported row.
- **The bulk import.** Its writes go through a bulk writer that is only closed at the end. The model therefore plans all writes against the snapshot taken before the import and applies them at close.
- **The CSV export.** Each field is quoted with inner quotes doubled, as section 2 of RFC 4180 prescribes, but the records are separated by a bare LF rather than the CRLF that section requires. A reader for quoted, comma-separated, LF-separated records is proved to recover the header and one six-field record per guest.

## Model

| member | source | states |
|---|---|---|
| Sign.Secret | lib/sign.ts:4 | The key is `CHECKIN_SECRET` when set and non-empty, else `"dev-secret"`; never empty |
| Sign.Hex | lib/sign.ts:6 | The hex digest has two lower-case hex digits per byte |
| Sign.HexDecode | lib/sign.ts:16-17 | `Buffer.from(s, "hex")` yields at most one byte per two characters |
| Sign.HexRoundTrip | lib/sign.ts:6-17 | Decoding the hex digest gives back the digest bytes |
| Sign.HexDecodeSameValues | lib/sign.ts:16-17 | Decoding depends only on the digit values, so digit case cannot change the bytes |
| Sign.HexDecodeAt | lib/sign.ts:16-17 | An even-length run of hex digits decodes to one byte per pair, high nibble first |
| Sign.HexDecodeAppend | lib/sign.ts:16 | What follows a complete run of hex pairs is decoded separately and appended |
| Sign.NoDotInHex | lib/sign.ts:7-11 | Hex digits never contain the `.` separator |
| Sign.SignToken | lib/sign.ts:3-8 | The token is the id, a dot and 64 lower-case hex digits, which decode to HMAC(secret, id + "." + lowercased email) |
| Sign.SignedParts | lib/sign.ts:7-11 | For an id without `.`, splitting a token on `.` gives exactly the id and the hex signature |
| Sign.SignTokenIgnoresEmailCase | lib/sign.ts:5 | Emails equal up to case give the same token, which is the token of the lowercased email |
| Sign.VerifyToken | lib/sign.ts:10-23 | `{ok: false, guestId: null}` when the first or second segment is missing or empty; otherwise the guest id is returned whatever the verdict; `ok` holds exactly when the decoded signature equals the expected digest, and never when its length differs from 32 bytes |
| Sign.VerifySigned | lib/sign.ts:10-22 | Round trip: a token for a non-empty, dot-free id verifies against any email equal up to case, returning that id |
| Sign.VerifyRejectsOtherEmail | lib/sign.ts:14-20 | Against an email with a different expected digest, the token fails but still reports its id |
| Sign.VerifyAcceptsUppercaseSignature | lib/sign.ts:16-20 | A token whose signature digits are upper-cased still verifies |
| Sign.ChangedDigitDecodesDifferently | lib/sign.ts:16-17 | Changing one digit to a digit of another value changes the decoded bytes |
| Sign.VerifyRejectsChangedDigit | lib/sign.ts:16-20 | Replacing one signature digit by a digit of another value makes verification fail |
| Sign.VerifyIgnoresTrailingJunk | lib/sign.ts:11-20 | A signed token followed by dot-free text that does not start with a hex pair still verifies |
| Store.FirstWhere | app/api/checkin/route.ts:12 | The first document whose queried field holds the value; none exactly when no document holds it |
| Store.FirstWithToken | app/api/checkin/route.ts:12 | The first document holding the token; none exactly when no document holds it |
| Store.FirstWithEmail | app/api/guests/bulk/route.ts:28 | The first document holding the email; none exactly when no document holds it |
| Store.Upsert | app/api/guests/route.ts:62 | `set` keeps ids unique, stores the record, leaves documents with other ids unchanged and adds nothing else |
| Store.GuestStore.UpdateAt | app/api/checkin/route.ts:25 | One write replaces one existing document, keeping its id |
| Store.GuestStore.Set | app/api/guests/route.ts:62 | One write upserts the document with the record's id |
| CheckinRoute.MarkCheckedIn | app/api/checkin/route.ts:24-25 | The update sets status `checked_in`, `checkInAt` and `updatedAt` to now, and nothing else |
| CheckinRoute.Step | app/api/checkin/route.ts:8-26 | Returns 400 exactly for a missing or empty token. Returns 404 exactly when no record holds the token. Returns 403 exactly when the first record holding it fails verification against its own email. Past that check, the outcome is already-checked-in exactly when that first record is checked in, and the stored record itself is reported. Otherwise it is checked-in-now. Only a first check-in writes, and it changes exactly that first record |
| CheckinRoute.Post | app/api/checkin/route.ts:6-26 | The handler's outcome and collection are those of `Step`, with one write exactly on a first check-in |
| CheckinRoute.CheckinIdempotent | app/api/checkin/route.ts:20-26 | After a first check-in, the same token reports "already checked in" for the same guest, writes nothing and keeps the first time |
| CheckinRoute.StepKeepsCheckInConsistent | app/api/checkin/route.ts:20-25 | "Check-in time recorded iff checked in" is preserved for every record |
| CheckinRoute.IssuedTokenAccepted | app/api/checkin/route.ts:12-26 | A token issued for a stored guest is accepted: checked in now, or reported as already checked in |
| Phone.DropFirstPlus | lib/phone.ts:6 | `replace("+", "")` removes only the first `+` |
| Phone.ToE164 | lib/phone.ts:1-8 | Null for a falsy input or one without digits or `+`. Otherwise: the cleaned number when it starts with `+`; `+` and the number when it starts with the code's digits; else the code followed by the number |
| Phone.ToE164Alphabet | lib/phone.ts:3-7 | A result holds only digits, `+` and characters of the country code |
| Phone.ToE164OnlyDialCharsMatter | lib/phone.ts:3-7 | Inputs with the same digits and `+` signs normalise alike |
| Phone.ToE164Idempotent | lib/phone.ts:1-8 | With a `+digits` country code, normalising a result again changes nothing |
| Wasender.CountryCode | lib/wasender.ts:8 | `DEFAULT_COUNTRY_CODE` when set and non-empty, else `"244"` |
| Wasender.ToE164 | lib/wasender.ts:4-11 | Null exactly for a falsy input; every result starts with `+` |
| Wasender.ToE164Cases | lib/wasender.ts:6-10 | A number already starting with `+` is kept; one starting with the country code gets a `+`; any other gets `+` and the code |
| Wasender.NoDigitsGiveBareCode | lib/wasender.ts:5-10 | A non-empty input without digits becomes `+` and the country code, never null |
| Wasender.ToE164Idempotent | lib/wasender.ts:4-11 | With a digits-only country code, normalising a result again changes nothing |
| Wasender.VariantsCompared | lib/wasender.ts:4-11 | Under their default codes, the two `toE164` variants agree on inputs with a digit or `+`, and differ (null versus `"+244"`) on the others |
| SendAllWhatsapp.Protocol | app/api/guests/send-all-whatsapp/route.ts:24-27 | `x-forwarded-proto`, else `x-forwarded-protocol`, else `"http"` |
| SendAllWhatsapp.SelfOrigin | app/api/guests/send-all-whatsapp/route.ts:23-30 | The protocol and the forwarded host, else the `host` header, else `http://localhost:3000` |
| SendAllWhatsapp.Reason | app/api/guests/send-all-whatsapp/route.ts:50-54 | The first present of `error`, `details.providerMsg` and `message`, else `"Falha ao enviar"`; never empty |
| SendAllWhatsapp.CallSpec | app/api/guests/send-all-whatsapp/route.ts:32-65 | The call succeeds iff the final attempt is 2xx. A second attempt is made only after a 429 or 5xx. A failure carries a non-empty reason |
| SendAllWhatsapp.CallOne | app/api/guests/send-all-whatsapp/route.ts:37-64 | The retry loop returns `CallSpec`, after one or two requests, two exactly when the first answer is retryable |
| SendAllWhatsapp.RetryAfterTooManyRequests | app/api/guests/send-all-whatsapp/route.ts:56-61 | A 429 followed by a success is a success with the second status |
| SendAllWhatsapp.Candidates | app/api/guests/send-all-whatsapp/route.ts:77 | Exactly the guests with a WhatsApp or phone number and a token |
| SendAllWhatsapp.CandidatesAppend | app/api/guests/send-all-whatsapp/route.ts:77 | The filter keeps list order: it distributes over concatenation |
| SendAllWhatsapp.Results | app/api/guests/send-all-whatsapp/route.ts:80-93 | One result per candidate, in order |
| SendAllWhatsapp.CountsPartition | app/api/guests/send-all-whatsapp/route.ts:95-96 | Sent plus failed is the number of results |
| SendAllWhatsapp.LastFailed | app/api/guests/send-all-whatsapp/route.ts:103 | None exactly when all succeeded; otherwise a failed result of the list |
| SendAllWhatsapp.SendAll | app/api/guests/send-all-whatsapp/route.ts:67-111 | Results over the candidates; counts of sent, failed and skipped adding up to the total; `lastError` is the last failure |
| SendAllWhatsapp.OneOfEach | app/api/guests/send-all-whatsapp/route.ts:77-110 | On one deliverable, one ineligible and one failing guest, the summary counts one of each |
| SendAll.Report | app/api/guests/send-all/route.ts:33 | `lastError` is the provider diagnostics when attached, else the message |
| SendAll.SkippedExactly | app/api/guests/send-all/route.ts:22-23 | A guest is skipped exactly when it has no WhatsApp and no phone, or no token |
| SendAll.OutcomeOf | app/api/guests/send-all/route.ts:21-34 | A guest is skipped, sent or failed; it fails exactly when it is not skipped and its delivery throws, carrying that error |
| SendAll.Next | app/api/guests/send-all/route.ts:23-33 | Each guest raises exactly one counter; a failure also records its error |
| SendAll.Tally | app/api/guests/send-all/route.ts:17-35 | Sent plus skipped plus failed is the number of guests; an error is reported iff some delivery failed |
| SendAll.AttemptedExactly | app/api/guests/send-all/route.ts:20-29 | Delivery is attempted for exactly the non-skipped guests |
| SendAll.TallyConcat | app/api/guests/send-all/route.ts:20-34 | The counters over a concatenation of outcomes are the sums over the parts; the last error is the later part's when it has one |
| SendAll.TallyAppend | app/api/guests/send-all/route.ts:20-34 | A failing guest does not stop the loop: the counts over a list of guests add up over its parts, and the last error comes from the later part when it has one |
| SendAll.LastFailure | app/api/guests/send-all/route.ts:31-33 | A reported error is that of a failed outcome after which nothing fails |
| SendAll.LastErrorIsLastFailure | app/api/guests/send-all/route.ts:31-33 | The reported error is that of the last guest whose delivery failed |
| SendAll.Visit | app/api/guests/send-all/route.ts:21-33 | One pass of the loop body raises the counters as `Next` does for the guest's outcome, and attempts delivery exactly when the guest is not skipped |
| SendAll.SendAll | app/api/guests/send-all/route.ts:11-37 | The loop's counters are `Tally` of the guests' outcomes and add up to the number of guests; the delivery oracle is called for exactly the attempted guests |
| Bulk.WithContact | app/api/guests/bulk/route.ts:32-37 | The update sets name, WhatsApp, category and `updatedAt`, and nothing else |
| Bulk.Reinvite | app/api/guests/bulk/route.ts:41 | The re-invite sets `inviteSentAt` and status `invited`, and nothing else |
| Bulk.NewGuest | app/api/guests/bulk/route.ts:47-60 | A new guest has the auto-id, the lowercased email, status `invited` and no check-in; `inviteSentAt` is set iff e-mails are sent |
| Bulk.NewGuestTokenVerifies | app/api/guests/bulk/route.ts:47-48 | The new guest's token is signed for its id and email, and verifies to that id |
| Bulk.RowWrites | app/api/guests/bulk/route.ts:24-60 | A row yields writes exactly when it has a name and an email |
| Bulk.RowWritesTargets | app/api/guests/bulk/route.ts:24-60 | A row creates a guest iff its lowercased email is not stored. Otherwise it updates the stored guest with that email, and re-invites it only when e-mails are sent |
| Bulk.RowWritesUpdate | app/api/guests/bulk/route.ts:29-42 | A row for a stored email updates the first guest holding it with the row's name, contact, category and the import time. With `sendEmails` it then re-invites that guest at the clock time after the e-mail |
| Bulk.RowUpdateEffect | app/api/guests/bulk/route.ts:31-42 | Applied to the store, those writes give that guest the row's name, contact and category. With `sendEmails` the guest is invited again. No other document changes |
| Bulk.RowInvites | app/api/guests/bulk/route.ts:38-64 | One invitation per kept row when e-mails are sent, none otherwise |
| Bulk.RowInvitesCarryStoredToken | app/api/guests/bulk/route.ts:38-64 | An existing guest is re-invited with its stored token; a new one with its new token |
| Bulk.Planned | app/api/guests/bulk/route.ts:23-65 | Every update targets a guest stored before the import |
| Bulk.PlannedInvites | app/api/guests/bulk/route.ts:23-65 | At most one invitation per row, none without `sendEmails` |
| Bulk.ApplyWrite | app/api/guests/bulk/route.ts:32-60 | Applying a write keeps ids unique and loses no id |
| Bulk.ApplyAll | app/api/guests/bulk/route.ts:67 | Closing the writer keeps ids unique and loses no id |
| Bulk.UpdatesKeepIdentity | app/api/guests/bulk/route.ts:32-41 | Updates never change ids, emails, tokens, creation or check-in times |
| Bulk.ReinviteReopensCheckIn | app/api/guests/bulk/route.ts:41 | Re-inviting a checked-in guest sets status `invited` but keeps its check-in time, so its token checks it in again |
| Bulk.ApplyWriteEmails | app/api/guests/bulk/route.ts:32-60 | No stored email is lost; a create with a fresh id stores its email and adds only that id |
| Bulk.ApplyAllEmails | app/api/guests/bulk/route.ts:67 | With fresh, distinct create ids, no email is lost and every created email is stored |
| Bulk.PlannedCreatesNew | app/api/guests/bulk/route.ts:46-60 | Every create comes from a kept row whose email was not stored |
| Bulk.PlannedContains | app/api/guests/bulk/route.ts:23-65 | Every write of every row is planned |
| Bulk.PlannedFresh | app/api/guests/bulk/route.ts:47 | With fresh, distinct auto-ids, the planned creates have fresh, distinct ids |
| Bulk.PlannedOneCreatePerRow | app/api/guests/bulk/route.ts:28-60 | Two creates come from two different rows, so duplicate rows in one upload each create a guest |
| Bulk.ImportStoresEveryRow | app/api/guests/bulk/route.ts:23-67 | After the import, every kept row's lowercased email is stored and no earlier email is lost |
| Bulk.PlanRow | app/api/guests/bulk/route.ts:24-64 | The loop body issues `RowWrites` and sends `RowInvites` |
| Bulk.PlanRows | app/api/guests/bulk/route.ts:23-65 | The row loop issues `Planned` and sends `PlannedInvites` |
| Bulk.Commit | app/api/guests/bulk/route.ts:67 | Closing the writer applies the buffered writes in order, one write each |
| Bulk.Import | app/api/guests/bulk/route.ts:13-68 | A missing or empty `rows` changes nothing. Otherwise the store becomes `ApplyAll` of the planned writes and the invitations are `PlannedInvites` |
| GuestsRoute.InsertNewestFirst | app/api/guests/route.ts:18 | Inserting keeps newest-first order and the multiset of records |
| GuestsRoute.NewestFirstOrder | app/api/guests/route.ts:18 | The listing is ordered newest first and is a permutation of the collection |
| GuestsRoute.Get | app/api/guests/route.ts:17-21 | `GET` returns the collection newest first, as a permutation |
| GuestsRoute.NewRecord | app/api/guests/route.ts:42-60 | The record has the lowercased email, status `invited` and no check-in. Optional fields are stored iff present and non-empty |
| GuestsRoute.NewRecordTokenVerifies | app/api/guests/route.ts:43-44 | The new token is signed for the new id and verifies to it |
| Text.Utf16Length | app/api/guests/route.ts:8 | The JavaScript length of a string: between one and two code units per character, and exactly one per character iff none lies above U+FFFF |
| GuestsRoute.AstralNameAccepted | app/api/guests/route.ts:8 | A name of one character above U+FFFF has two code units and so passes the two-unit minimum |
| GuestsRoute.Create | app/api/guests/route.ts:23-73 | The response is invalid iff validation fails (a name of at least two UTF-16 code units and a valid email), and a duplicate iff the lowercased email is stored. Otherwise the record is upserted, and a mail failure is reported with its message or the default |
| GuestsRoute.Post | app/api/guests/route.ts:23-73 | The handler matches `Create`, including its UTF-16 name-length check, with one write exactly when the record is stored |
| GuestsRoute.CreateKeepsEmailsUnique | app/api/guests/route.ts:28-62 | Creating keeps emails unique in the collection |
| GuestsRoute.SecondCreateIsDuplicate | app/api/guests/route.ts:28-40 | After a create, another valid body with the same email up to case is a duplicate |
| GuestsRoute.CreatedGuestChecksIn | app/api/guests/route.ts:42-62 | A guest created by the route is checked in by its token |
| Page.NormalizeHeader | app/page.tsx:42-49 | Maps a header to `fullName`, `email`, `whatsapp` or `category` exactly under the source's precedence of contained words; otherwise returns the trimmed lowercased header |
| Page.NormalizeHeaderIdempotent | app/page.tsx:42-49 | A header that maps to no key normalises to itself |
| Page.TruthyArgs | app/page.tsx:52 | Exactly the non-empty arguments are kept |
| Page.TruthyArgsAppend | app/page.tsx:52 | The filter distributes over concatenation, so the kept arguments keep their order and their repeats |
| Page.TruthyArgsOne | app/page.tsx:52 | One argument is kept exactly when it is a non-empty string |
| Page.Clsx | app/page.tsx:51-53 | The class string is empty iff no argument survives |
| Page.ClsxSplits | app/page.tsx:51-53 | Splitting the class string on spaces gives back the kept arguments |
| Page.CellText | app/page.tsx:107 | A cell's text is trimmed |
| Page.RowObjectKeys | app/page.tsx:103-108 | The row record has exactly the header keys |
| Page.RowObjectTrimmed | app/page.tsx:104-107 | Every value in the row record is a trimmed cell |
| Page.RowObjectRightmostWins | app/page.tsx:104-108 | A key repeated in the header holds the cell of its rightmost column |
| Page.FillRow | app/page.tsx:103-108 | The `forEach` loop builds `RowObject` |
| Page.Keys | app/page.tsx:99 | One normalised key per header cell |
| Page.RowResult | app/page.tsx:101-117 | A row contributes exactly when it is non-empty and its name and email cells trim to non-empty text. It carries the record's four fields, trimmed, with `""` for a missing one |
| Page.ParseRows | app/page.tsx:100-117 | The parsed rows are exactly the contributions of the spreadsheet rows |
| Page.ParseRowsAppend | app/page.tsx:100-117 | Parsing distributes over concatenation of rows, so order and repeated rows are kept |
| Page.ParseRowsOne | app/page.tsx:100-117 | One spreadsheet row gives its own contribution or nothing |
| Page.ParsedRowsComplete | app/page.tsx:109-117 | Every parsed row has a name and an email, all fields trimmed |
| Page.KeepMatching | app/page.tsx:290-299 | Keeps exactly the guests whose name, email, WhatsApp or category contains the query, in order, each as many times as it occurs in the list |
| Page.Filtered | app/page.tsx:287-300 | A blank query shows the list unchanged; otherwise exactly the matching guests, in order and with their repeats |
| Page.KeepMatchingIdempotent | app/page.tsx:290-299 | Filtering twice equals filtering once |
| Page.FilteredIdempotent | app/page.tsx:287-300 | Applying the search filter twice equals applying it once |
| Page.Escape | app/page.tsx:314 | Doubling quotes never shortens a field |
| Page.GuestFields | app/page.tsx:305-312 | Six fields per guest, matching the six headers |
| Page.CsvTable | app/page.tsx:303-313 | The header row, then each guest's fields, in order |
| Page.ReadQuotedEscape | app/page.tsx:314 | A quote-doubled field body reads back up to its closing quote |
| Page.QuoteRoundTrip | app/page.tsx:314 | Unquoting an exported field gives back the original string |
| Page.ReadRecordRoundTrip | app/page.tsx:314 | A comma-joined record of quoted fields reads back as its fields |
| Page.ReadCsvRoundTrip | app/page.tsx:313-315 | Newline-joined records read back as the table |
| Page.CsvRoundTrip | app/page.tsx:303-315 | The export, with its fields quoted as in section 2 of RFC 4180 and its records LF-separated, reads back through the model's reader as the header and one six-field record per guest |
| ScanPage.ExtractToken | app/scan/page.tsx:30-43 | A URL's non-empty `token` parameter wins. Otherwise the result is the trimmed text, or null when it is blank. A token is never empty |
| ScanPage.BareTokenRead | app/scan/page.tsx:40-42 | A bare token with no surrounding spaces is read back unchanged |
| ScanPage.Scan | app/scan/page.tsx:146-176 | Nothing happens for an empty detection or while locked. A null token is an error without lock. The last token is ignored while loading or checked in. Otherwise the token is recorded and locked, and a request starts |
| ScanPage.ParseBody | app/scan/page.tsx:78-90 | The body is JSON only for a JSON content type, a non-empty body and a successful parse |
| ScanPage.ErrorText | app/scan/page.tsx:109-114 | `error`, else a string `message`, else the default; never empty |
| ScanPage.Answer | app/scan/page.tsx:107-132 | Success iff the status is 2xx; a message is always shown; the guest's name, category and check-in time (else now) on success |
| ScanPage.Resolve | app/scan/page.tsx:93-143 | Success iff the last request made answered 2xx; network failures give the network message |
| ScanPage.GetOnlyAfterFallback | app/scan/page.tsx:99-105 | The GET is consulted only after a 404 or 405 answer to the POST |
| ScanPage.Settle | app/scan/page.tsx:107-132 | The outcome sets status and message and keeps the lock; a success sets name, category and time |
| ScanPage.Unlock | app/scan/page.tsx:170-175 | The timer only releases the lock |
| ScanPage.LockedScanSendsNothing | app/scan/page.tsx:149-169 | While a request is in flight, no scan sends another |
| ScanPage.CheckedInCodeNotResent | app/scan/page.tsx:161-166 | A code that was checked in is not sent again after the lock lapses |
| ScanPage.FailedCodeRetried | app/scan/page.tsx:161-170 | A code whose check-in failed is sent again after the lock lapses |
| ScanPage.ResetReadmitsAll | app/scan/page.tsx:59-68 | After a reset any readable code is sent |
| ScanPage.Scanner.constructor | app/scan/page.tsx:46-57 | The component starts idle, empty and unlocked |
| ScanPage.Scanner.Reset | app/scan/page.tsx:59-68 | `reset` restores the idle, empty, unlocked state with no last token |
| ScanPage.Scanner.OnScan | app/scan/page.tsx:146-178 | `onScan` makes the transition `Scan` and records a sent token exactly when it starts a request |
| ScanPage.Scanner.Complete | app/scan/page.tsx:92-143 | The end of `checkIn` makes the transition `Settle` of `Resolve` |
| ScanPage.Scanner.Release | app/scan/page.tsx:172-174 | The timer's callback makes the transition `Unlock` |

## Left out

- HMAC-SHA256 and `crypto.timingSafeEqual` are an oracle and byte equality. Timing behaviour and the hash's own properties are not modelled; `VerifyRejectsOtherEmail` assumes the two digests differ.
- The document store is not modelled, beyond a sequence of documents updated one write at a time. Indexes, transactions, failures and the 500 responses of every `catch` block are left out.
- Concurrency is not modelled. The read-then-write race between two simultaneous check-ins, and between concurrent creates with the same email, is outside the model.
- The network is not modelled. That covers `fetch`, e-mail sending (`sendInviteEmail`), QR rendering, upload and WhatsApp sending, which are each an outcome oracle. Their message and caption texts are not modelled.
- Timers are not modelled: the 600 ms retry backoff, the 1.2 s scan unlock (an explicit `Release` call) and the 220 ms search debounce. `Date.now()` and `toLocaleString` are parameters.
- Case mapping and trimming are the ASCII ones (trimming also removes a few common Unicode spaces). Full Unicode `toLowerCase` is not modelled.
- Parsing is abstract. XLSX workbook decoding, `new URL` parsing, `JSON.parse` and Zod's e-mail check are oracles. JSON values of unexpected types (a non-string `error` or `message`, non-array `rows` entries) are modelled as absent.
- GuestsRoute.Create: an optional field that is `null` or not a string is read as absent, so the guest is created. Zod's `z.string().optional()` rejects such a body with 400.
- CheckinRoute.Step: a token that is a truthy non-string is not modelled. The source looks it up and answers 404, while the model can only express it as absent, which gives 400.
- Bulk.Import: `bulkWriter`'s own scheduling of writes is not modelled. The writes are applied in issue order when the writer closes.
- Bulk.Import: a failed invitation e-mail, which aborts the import in the source, is not modelled. Only the invitations issued are recorded.
- SendAllWhatsapp.SendAll: the `dryRun` and `debug` query parameters only pass through. The debug response shape is not modelled.
- GuestsRoute.NewestFirstOrder and GuestsRoute.Get: the store breaks ties between equal `createdAt` values by document id. The model accepts any newest-first permutation. Documents without `createdAt`, which `orderBy` leaves out, cannot arise: every guest record in the model has one, and both create paths set it.
- ScanPage.Scan: React state read by `onScan` may be one render stale in the source. The model reads the current state.
- The scanner sends the token as a query parameter, while the check-in route reads it from the JSON body. Each side is modelled on its own terms.
- Rendering, components, layout and configuration are outside the model.
