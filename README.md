# Symlink metadata of geesefs directories, in Dafny

geesefs keeps the symbolic links of a directory in one small JSON document stored next to
the directory's objects in the bucket. This project models that layer (`core/symlinks.go`)
and proves properties of the model.

- **The document** (`SymlinksFile`): a version number and a map from link name to target
  and modification time. It supports add/replace, remove, get, has and is-empty, and it has
  a JSON encoding.
  - The value is a datatype `Document`. The Go object whose methods change the map in place
    is the class `SymlinksFileData`.
  - `Serialize` writes the document. `ParseSymlinksFile` reads it back, following the rules
    of Go's `json.Unmarshal` that matter for this shape:
    - fields are matched by name, and unknown fields are skipped whatever they hold;
    - a later duplicate wins;
    - `null` keeps the field's value but resets the map;
    - a mismatched type is an error with Go's `UnmarshalTypeError` message, which names the
      kind of the value, the field and its Go type;
    - a number an integer field cannot hold (outside int64, or with a fraction or an
      exponent) is refused with its literal text quoted in the message;
    - invalid UTF-8 becomes U+FFFD.

    The JSON layer (`Json`, `Utf8`) exists for this round trip.
- **The key resolver** (`SymlinksStore.GetSymlinksFilePath`) gives the object key of a
  directory's symlinks file.
- **The store primitives** (`SymlinksStore`): `Load`, `Save` and `DeleteFile`. Each is a pure
  transition of the backend state, and a method performs it on the backend object. Together
  they carry the conditional-write policy:
  - no object is ever created for an empty document;
  - a document that became empty is deleted, and a missing object counts as deleted;
  - without an ETag the write is create-only (`If-None-Match: "*"`);
  - with an ETag it is replace-only-if-matching (`If-Match`).
- **The retry engine** (`SymlinksRetry`) is `SaveSymlinksFileWithRetry`, a counted loop. On
  a precondition failure that still has a retry left, it records the back-off wait, reloads
  the file, asks the caller's merge function for the document to write, and tries again
  under the reloaded ETag.
  - The loop is a method with a loop invariant, proved equal to the function `Retry`.
  - The properties of the loop are proved about `RetryFrom`, and they hold for any store
    operations (`Ops`). They are then instantiated for the directory's own `Load` and `Save`.
  - The error classifiers `IsPreconditionFailed` and `IsNotExist` are in `Errors`.
- **The backend** (`Backend`) is modelled on the conditional mock the tests use. It holds:
  - keyed objects carrying ETags;
  - a counter that mints fresh ETags;
  - a log of calls;
  - failures that can be injected into GetBlob, the body read, PutBlob and DeleteBlob. These
    express the always-conflicting and always-failing test doubles.

  Its pure transitions `Get`, `Put` and `Delete` state each call. The class `MockBackend`
  performs them.

`getSymlinksFilePath` does not reduce the prefix to exactly one "/": it appends a "/" only
when the prefix does not already end in one (core/symlinks.go:113-121), so a prefix ending
in "//" keeps both. `DoubledSeparatorKept` states this.

External inputs become parameters or recorded values:
- The clock reading of `AddSymlink` is the parameter `now`.
- The waits of the retry loop are recorded in the run's `Trace` instead of slept.
- The merge function is the pure function `Request.merge`.

## Model

| member | source | states |
|---|---|---|
| SymlinksFile.NewSymlinksFileData | core/symlinks.go:49-54 | a fresh document has version 1 and no link |
| SymlinksFile.GetSymlink | core/symlinks.go:93-99 | found exactly when the name is present; then the entry's target, otherwise the empty string |
| SymlinksFile.HasSymlink | core/symlinks.go:102-105 | true exactly when the name is a key of the map |
| SymlinksFile.IsEmpty | core/symlinks.go:108-110 | true exactly when no name has a link |
| SymlinksFile.WithSymlink | core/symlinks.go:80-85 | afterwards the name resolves to the target with the given mtime; every other name resolves as before; the key set gains only that name; the document is not empty; the version is kept |
| SymlinksFile.WithoutSymlink | core/symlinks.go:88-90 | afterwards the name is absent; every other entry is kept; the key set loses only that name |
| SymlinksFile.AddSymlinkTwice | core/symlinks.go:80-85 | adding a name twice equals adding it once with the last values; the entry count grows by one only for a new name |
| SymlinksFile.RemoveSymlinkCount | core/symlinks.go:88-90 | removing an absent name changes nothing; removing a present one drops exactly one entry |
| SymlinksFile.RemoveAfterAdd | core/symlinks.go:80-90 | removing a name right after adding it leaves the document as without that name |
| SymlinksFile.SymlinksFileData.constructor | core/symlinks.go:49-54 | the new object holds the fresh document |
| SymlinksFile.SymlinksFileData.FromDocument | core/symlinks.go:71 | the object holds exactly the parsed document |
| SymlinksFile.SymlinksFileData.AddSymlink | core/symlinks.go:80-85 | the object's new document is the old one with the link set, its mtime the clock reading |
| SymlinksFile.SymlinksFileData.RemoveSymlink | core/symlinks.go:88-90 | the object's new document is the old one without the name |
| SymlinksFile.Serialize | core/symlinks.go:75-77 | the serialisation is never empty |
| SymlinksFile.DecodeInt64 | core/symlinks.go:29-37 | an integer within int64 decodes to itself; null keeps the current value; anything else is an error. A number out of range or with a fraction or an exponent gets Go's message quoting "number" and its literal text; any other value gets the message naming its kind; both name the field and its Go type |
| SymlinksFile.DecodeString | core/symlinks.go:29-31 | a string decodes to itself; null keeps the current value; anything else is an error whose message names the value's kind, the field and its Go type |
| SymlinksFile.DecodeDocument | core/symlinks.go:62-65 | a JSON value that is neither an object nor null is refused |
| SymlinksFile.ParseSymlinksFile | core/symlinks.go:57-72 | empty content is a fresh document; content that is not JSON is refused; otherwise the result is the decoding of the JSON value |
| SymlinksFile.SerializeRoundTrip | core/symlinks.go:57-77 | printing a document with its links in any order and parsing it back gives the same version and the same name to (target, mtime) pairs |
| SymlinksFile.ParseSerialized | core/symlinks.go:57-77 | parsing what Serialize writes gives the document back, for every target string (spaces, dots, non-ASCII) |
| SymlinksFile.NullSymlinksBecomeEmpty | core/symlinks.go:67-69 | a null or missing `symlinks` field gives an empty map, never a nil one |
| SymlinksFile.NullDocument | core/symlinks.go:62-69 | the content `null` parses to Go's zero document, with an empty map |
| SymlinksFile.StringEntryRefused | core/symlinks.go:63-65 | a link entry written as a bare string makes the whole file a decoding error |
| SymlinksFile.VersionOutOfRange | core/symlinks.go:63-65 | a version outside Go's int range is refused |
| SymlinksFile.UnknownFieldSkipped | core/symlinks.go:61-69 | a member named neither `version` nor `symlinks` is skipped whatever it holds, a number such as 1.5 included: the file decodes to Go's zero document with an empty map |
| SymlinksFile.TypeErrorQuotes | core/symlinks.go:63-64 | the decoding error contains the description of the refused value |
| SymlinksFile.NumberErrorQuotesLiteral | core/symlinks.go:63-64 | a number an integer field refuses gives an error whose text contains the number's literal; when the literal contains "404", isNotExist takes the error for a missing object |
| SymlinksFile.RefusedVersionQuoted | core/symlinks.go:57-65 | a file whose version is a fraction, an exponent or an integer outside int is refused, with the number quoted in the error; "404" in its digits makes the error read as not found |
| SymlinksFile.DecodeErrorReported | core/symlinks.go:61-65 | a JSON value that does not decode makes its printed text refused with the same error |
| SymlinksFile.NotJsonRefused | core/symlinks.go:63-65 | content that starts like `null` but does not spell it, such as "not valid json", is refused |
| Json.ParsePrint | core/symlinks.go:63-76 | parsing the printed text of any JSON value gives the value back |
| Json.ParsePrintedDecimal | core/symlinks.go:63 | a number with a fraction, an exponent or both is read back exactly as written (sign, integer digits, fraction digits with their zeros, exponent letter, exponent sign and digits), whatever delimiter follows |
| Utf8.DecodeEncodeRune | core/symlinks.go:63 | decoding the UTF-8 encoding of a character gives the character and consumes exactly its bytes, whatever follows |
| Text.Contains | core/symlinks.go:229-232 | true exactly when the substring occurs at some position |
| Text.HasSuffix | core/symlinks.go:117 | true exactly when the string is something followed by the suffix |
| Text.Sorted | core/symlinks.go:76 | the names of the map, each once, in increasing order, which is how Go's encoder writes a map |
| Text.NatToStringValue | core/symlinks.go:280 | reading back the decimal rendering (%d) of a count gives the count |
| Errors.Wrap | core/symlinks.go:280 | a wrapped error's message is the prefix followed by the inner message, as %w does |
| Errors.IsPreconditionFailed | core/symlinks.go:224-233 | true exactly when the message contains one of "PreconditionFailed", "412", "Precondition Failed", "conditional request failed" |
| Errors.IsNotExist | core/symlinks.go:328-342 | ENOENT is always missing; otherwise true exactly when the message contains one of the five not-found markers |
| Errors.WrapKeepsPreconditionFailed | core/symlinks.go:280 | a wrapped conflict is still classified as a conflict |
| Errors.WrapKeepsNotExist | core/symlinks.go:336-341 | a wrapped not-found error is still classified as not found |
| Errors.Mentions404 | core/symlinks.go:338-341 | an error other than ENOENT whose message contains "404" is classified as not found |
| Errors.PreconditionFailedPrefixRecognised | core/symlinks_test.go:567-570 | a message starting with "PreconditionFailed", as the always-conflicting double's, is a conflict |
| Backend.ConditionHolds | core/symlinks.go:195-202 | If-None-Match "*" holds exactly when there is no object; If-Match holds exactly when the object carries that ETag |
| Backend.MintETag | core/symlinks_test.go:237-255 | a minted ETag is never empty and differs from the replaced object's |
| Backend.Get | core/symlinks.go:128-146 | a missing key is ENOENT (a not-found error); an injected failure is returned; otherwise the stored body (or the injected read failure) and ETag; only the call log changes |
| Backend.Put | core/symlinks.go:189-208 | it succeeds exactly when no failure is injected and the condition holds; the body is then stored under a fresh non-empty ETag that differs from the replaced one; a refused put leaves the objects alone and reports PreconditionFailed |
| Backend.Delete | core/symlinks.go:174-178 | it succeeds exactly when the key exists and no failure is injected, removing just that key; a missing key is ENOENT |
| Backend.PreconditionFailedRecognised | core/symlinks_test.go:219-235 | the refusal of a conditional put is classified as a conflict |
| Backend.GetAfterPut | core/symlinks_test.go:275-293 | after a successful put the next get returns that body and the new ETag |
| Backend.ConditionalPut | core/symlinks_test.go:219-273 | a create-only put succeeds exactly when the key is absent; an If-Match put succeeds exactly when the stored ETag matches |
| Backend.StaleETagRefused | core/symlinks_test.go:257-273 | once a put has replaced an object, a put conditioned on the replaced ETag fails |
| Backend.MockBackend.constructor | core/symlinks_test.go:204 | a new mock has no objects, an empty log and no failures |
| Backend.MockBackend.Seed | core/symlinks_test.go:222-225 | the fixture's object is placed under its key and nothing else changes |
| Backend.MockBackend.SetFaults | core/symlinks_test.go:562-580 | the doubles' failures are set and nothing else changes |
| Backend.MockBackend.GetBlob | core/symlinks.go:128-132 | the call and the new mock state are those of Get |
| Backend.MockBackend.PutBlob | core/symlinks.go:204 | the call and the new mock state are those of Put |
| Backend.MockBackend.DeleteBlob | core/symlinks.go:320 | the call and the new mock state are those of Delete |
| SymlinksStore.GetSymlinksFilePath | core/symlinks.go:113-121 | the bare file name at the root; the prefix plus the name when the prefix ends in "/"; otherwise the prefix, "/" and the name |
| SymlinksStore.PathShape | core/symlinks.go:113-121 | every key is a directory part followed by the file name, where the directory part is empty or ends in "/" and is the prefix or the prefix plus one "/" |
| SymlinksStore.DoubledSeparatorKept | core/symlinks.go:117-120 | a prefix ending in two separators keeps both |
| SymlinksStore.LoadOutcome | core/symlinks.go:134-158 | not found gives a fresh document and no ETag; any other get error, read error or parse error is returned unchanged; otherwise the parsed document with the ETag, or "" without one |
| SymlinksStore.Load | core/symlinks.go:125-159 | loading makes exactly one GetBlob of the file's key and changes nothing else |
| SymlinksStore.SaveCondition | core/symlinks.go:195-202 | no ETag means If-None-Match "*"; an ETag means If-Match on it |
| SymlinksStore.Save | core/symlinks.go:164-216 | saving keeps the failures and every object under any other key |
| SymlinksStore.DeleteFile | core/symlinks.go:318-325 | exactly one DeleteBlob; it fails exactly when the delete failed with an error that is not not-found, and then with that error |
| SymlinksStore.SaveEmptyNew | core/symlinks.go:168-170 | an empty document without an ETag makes no call, changes nothing and returns "" |
| SymlinksStore.SaveEmptyDeletes | core/symlinks.go:173-179 | an empty document with an ETag makes one DeleteBlob; without an injected failure it returns "" and the key is gone; any error returned is not a not-found |
| SymlinksStore.SaveWritesConditionally | core/symlinks.go:181-208 | a non-empty document is written once, as its serialisation, create-only without an ETag and If-Match with one; it succeeds exactly when the condition holds and no failure is injected; an injected put failure is returned as it is; a failed save leaves every object as it was |
| SymlinksStore.SaveConflict | core/symlinks.go:204-208 | a failed precondition leaves the objects unchanged and surfaces an error containing "PreconditionFailed" that is classified as a conflict |
| SymlinksStore.SaveNeverStoresEmpty | core/symlinks.go:167-179 | whatever a save puts at its key is the serialisation of a non-empty document |
| SymlinksStore.LoadAfterSave | core/symlinks.go:125-216 | after a successful save of a non-empty document the next load returns that document with the new ETag, which is non-empty and differs from the expected one |
| SymlinksStore.Version404LoadsAsNotExist | core/symlinks.go:148-151 | a stored file whose version is a number Go's int cannot hold and whose text contains "404" fails to load, with an error isNotExist takes for a missing file |
| SymlinksStore.LoadMissing | core/symlinks.go:134-138 | a missing file loads as a fresh document with no ETag and no error |
| SymlinksStore.DeleteFileRemoves | core/symlinks.go:318-325 | without an injected failure deleting succeeds and no object is left, whether or not there was one |
| SymlinksStore.LoadSymlinksFile | core/symlinks.go:125-159 | the result and the new mock state are those of Load |
| SymlinksStore.SaveSymlinksFile | core/symlinks.go:164-216 | the result and the new mock state are those of Save |
| SymlinksStore.DeleteSymlinksFile | core/symlinks.go:318-325 | the result and the new mock state are those of DeleteFile |
| SymlinksRetry.Backoff | core/symlinks.go:257-288 | every wait lies between 50 ms and 2 s |
| SymlinksRetry.NextBackoffStep | core/symlinks.go:285-288 | doubling and capping the wait before retry i gives the wait before retry i+1 |
| SymlinksRetry.BackoffSchedule | core/symlinks.go:257-288 | the waits are 50 ms times 2^i up to the sixth, then 2 s |
| SymlinksRetry.ConflictMessage | core/symlinks.go:279-281 | the give-up error is still a conflict and says "max retries" and "exceeded" |
| SymlinksRetry.Iteration | core/symlinks.go:267-310 | one pass of the loop body does what Step states and leaves the mock in the resulting state |
| SymlinksRetry.SaveSymlinksFileWithRetry | core/symlinks.go:247-315 | the loop returns the result, final mock state and trace of Retry |
| SymlinksRetry.StepShape | core/symlinks.go:267-310 | an iteration either ends the run in the shape RunShape describes, or keeps the loop's bookkeeping consistent for the next iteration |
| SymlinksRetry.RetryFromShape | core/symlinks.go:266-311 | for any store operations the run ends in one of the five returns and never falls through. The trace records each attempt's document, ETag and save result, and the waits, reloads and merged documents. Success exactly when the last save succeeded, with that save's result; a non-conflict save error is the last save's own error; every wait followed a conflict of the attempt before it and has the scheduled length; every reload the loop went on from succeeded or was not found, and the merge was handed what it found (a fresh document when not found); every later attempt saves the merge's answer under the reloaded ETag ("" when not found); the give-up error after maxRetries+1 attempts wraps the last conflict; a reload error that is not not-found and a merge error are returned wrapped with their prefixes |
| SymlinksRetry.RetryShape | core/symlinks.go:247-315 | with maxRetries >= 0 the run has the whole shape RetryFromShape states (at most maxRetries+1 attempts, each save's own result recorded and the last one returned, each retry after a conflict and the scheduled wait, each reload and merge tied to the next attempt's document and ETag, the give-up, reload and merge errors wrapped), and the first attempt is the caller's document and ETag. With maxRetries < 0 the body never runs and the unexpected-error fallthrough is returned |
| SymlinksRetry.EarlierAttemptsConflicted | core/symlinks.go:266-281 | only a conflict makes the loop go on: every attempt of a run but the last was refused because its precondition failed |
| SymlinksRetry.RetryFromConfined | core/symlinks.go:266-311 | store operations confined to one key give a run confined to that key |
| SymlinksRetry.StoreOpsConfined | core/symlinks.go:164-216 | the directory's load and save touch only its symlinks file and keep the failures |
| SymlinksRetry.RetryTouchesOnlyItsFile | core/symlinks.go:247-315 | a retried save changes no object other than the directory's symlinks file |
| SymlinksRetry.RetryFromSavedIsLoaded | core/symlinks.go:267-271 | for store operations that load what they save, a successful run ends with its last attempt stored |
| SymlinksRetry.StoreOpsLoadWhatTheySave | core/symlinks.go:125-216 | the directory's load returns what its last successful save wrote |
| SymlinksRetry.RetrySavedIsLoaded | core/symlinks.go:267-271 | after a successful run the next load returns the last document attempted, when non-empty, with the ETag the run returned |
| SymlinksRetry.RetryFromConflicts | core/symlinks.go:266-306 | under operations that always conflict and never find a file, the run ends by running out of retries |
| SymlinksRetry.RetryAlwaysConflicting | core/symlinks_test.go:474-493 | with every put refused as a conflict: maxRetries+1 attempts, maxRetries merges, and an error saying "max retries" and "exceeded" |
| SymlinksRetry.RetryFirstAttemptSucceeds | core/symlinks_test.go:425-439 | a first save that succeeds is returned at once, with one attempt, no wait and no merge |
| SymlinksRetry.RetryPutFaultReturned | core/symlinks_test.go:572-580 | with puts failing with an error that is not a conflict, as the network-error double's do, the run returns that very error after one attempt, with no wait or merge, and no object changes |
| SymlinksRetry.RetryOtherErrorReturned | core/symlinks_test.go:516-535 | an error that is not a conflict is returned unchanged after one attempt, with no wait and no merge |
| SymlinksRetry.RetryZeroRetries | core/symlinks_test.go:537-560 | with maxRetries 0 a conflict ends the run after one attempt, with no merge and a "max retries" error |
| SymlinksRetry.CreateConflictReloads | core/symlinks_test.go:441-472 | creating a file that exists fails as a conflict, and the reload returns the stored document and its ETag with the objects unchanged |
| SymlinksRetry.RetryFromReloadsAfterConflict | core/symlinks.go:278-310 | after a conflict and a successful reload the run continues with the merged document under the reloaded ETag, or stops with the merge error |
| SymlinksRetry.RetryMergeFails | core/symlinks_test.go:495-514 | a merge error after a conflict ends the run with the error prefixed "merge function failed: ", after one merge |
| SymlinksRetry.RetryFromSavedAtOnce | core/symlinks.go:268-271 | a save that succeeds ends the run with its result |
| SymlinksRetry.ContinueRecordsRetry | core/symlinks.go:266-310 | an iteration carries on only when its save was refused by a conflict with a retry left, its reload found the file or found none, and the merge accepted what it found; it records the attempt, the wait, the reload and the merged document, and the next attempt is the merge under the reloaded ETag |
| SymlinksRetry.SaveUnderCurrentETag | core/symlinks_test.go:237-255 | a save under the ETag the file carries succeeds with a non-empty ETag and is what the next load returns |
| SymlinksRetry.RetryFromResolvesConflict | core/symlinks.go:266-311 | conflict, reload, merge and a successful second save end the run after two attempts, one wait and one merge |
| SymlinksRetry.RetryMergesAfterConflict | core/symlinks_test.go:441-472 | creating over an existing file: one merge of the stored document, the merge written under the stored ETag, success, and the file then holds the merged document |

## Left out

- SymlinksFile.Serialize: the model writes compact JSON with the links in sorted name order. MarshalIndent's two-space indentation and newlines are not modelled. The parser skips whitespace between tokens, so the round trip is unaffected.
- HTML escaping of `<`, `>` and `&` by Go's encoder is not modelled. The model escapes only what JSON requires.
- Case-insensitive field matching of `json.Unmarshal` is not modelled. Fields match by exact name.
- Numbers keep their written form but not their value: a number with a fraction or an exponent is never converted, because every field reached by one refuses it and an unknown field skips it.
- The syntax errors of `json.Unmarshal` are reduced to a few fixed messages ("invalid character", "unexpected end of JSON input") without the offending character or offset. The type errors (`UnmarshalTypeError`) are spelled out.
- SymlinksFile.DecodeInt64: the field path in a type error is written one way, as the struct holding the field and the dotted path of JSON names from the document (`SymlinkEntry.symlinks.target`). Go releases differ here: some name only the last field, and none of the modelled texts includes a map key. Only the quoted value matters to the error classifiers.
- The symlinks cache (`SymlinksFileCache`) and its read-write mutex are concurrency state with no operation in the modelled file.
- `time.Now` in AddSymlink is the parameter `now`. `time.Sleep` in the retry loop is a wait recorded in the run's trace.
- SymlinksRetry.NextBackoff: the float64 product of the source is taken as an exact integer doubling. It is exact at these magnitudes.
- `io.ReadAll` and closing the body are stream plumbing. A body is a byte sequence, and a read failure is an injectable fault.
- The `err != nil` branch of Serialize cannot occur for this document shape, so Serialize returns bytes only.
- Documents are values. The aliasing of the `*SymlinksFileData` pointer between the caller and the merge function, and a nil document, are not modelled.
- The storage backend interface is not part of this model. Its behaviour is that of the conditional mock the tests use, modelled in `Backend`:
  - a get of a missing key is ENOENT;
  - a delete of a missing key is ENOENT too (the store primitives treat it as deleted);
  - ETags are minted from a counter.
- Backend.ConditionHolds: If-None-Match with a value other than "*" is given the usual HTTP meaning. The core never sends one.
- SymlinksRetry.RetryMergesAfterConflict: requires the stored ETag to be non-empty. With an empty ETag the retry would write create-only again and conflict again.
- `LoadSymlinksFileConditional` is used by the tests but defined in no modelled file, so it is not modelled.
- The integration script against a live S3 endpoint is network I/O and is not modelled.
- Go's `int` is taken as 64-bit. maxRetries is an unbounded integer, because the loop counter never exceeds it.
