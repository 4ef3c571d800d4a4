# PHPCouch core in Dafny

A model of the core of PHPCouch, a PHP client library for CouchDB. It has proofs about the model. The model covers four parts of the library:

- **The HTTP message** (`HttpMessage`, from `lib/phpcouch/http/HttpMessage.php`). This is the content and header store shared by requests and responses.
  - Every header name is normalised before it is stored or looked up. The name is lower-cased, hyphens are treated as word breaks, and each word is capitalised. `ETag` and `WWW-Authenticate` are special cases.
  - On this store sit the header operations (`setHeader`, `getHeader`, `hasHeader`, `removeHeader`, `clearHeaders`), the content-type shortcut, and the content operations.
- **The library's global registry** (`Phpcouch`, from `lib/Phpcouch.class.php`). It holds configuration options and named connections.
  - An option set with `readonly` is locked. The model proves that once a non-null value is locked, no sequence of option operations changes or removes it. This holds for the key-preserving `setOptions` the model uses. The source's `setOptions` merges with `array_merge`, which renumbers integer keys. So in the source it fails for option names such as "8" that PHP stores as integer keys (see "## Findings").
- **The namespaced database record** (`RecordDatabase`, from `lib/phpcouch/record/Database.php`).
  - It creates, retrieves, updates and deletes documents through the connection's adapter.
  - It queries views through `executeView` (`ViewQuery`). That method rewrites the view options through a fixed cleanup table and moves a `keys` option into a JSON body sent with POST.
- **The older database class** (`LegacyDatabase`, from `lib/Phpcouch/Database.class.php`). It does the same document operations with its own exception handling and a revision-aware retrieve.

Supporting modules:

- `PhpValues`: the PHP value semantics the code relies on. These are `isset`, truthiness, `intval`, `(string)`, `(array)`, `strtolower`, `str_replace`, and `array_merge` over ordered arrays.
- `Json`: a small `json_encode` and its string decoder, following section 7 of RFC 8259.
- `Exceptions`: exceptions as values.
- `Records`: records as field maps, plus the shape of one exchange with the adapter.

Every method that changes an object is a pure function here. It takes the adapter's reply as an input and returns a `Step`: the adapter call the method makes, and how the method ends. The method ends with a new document or value, or with a thrown exception. The connection's `buildUri`/`buildUrl` appear as the arguments they receive (`Uri`, `ViewUrl`), because their text is built outside this core. Global state is an explicit value (`Config`, a connection map).

## Model

| member | source | states |
|---|---|---|
| HttpMessage.NormalizeHeaderName | lib/phpcouch/http/HttpMessage.php:167-176 | any casing of `etag` gives `ETag`, any casing of `www-authenticate` gives `WWW-Authenticate`; the name keeps its length |
| HttpMessage.CapitalizeWordsIsComposedRule | lib/phpcouch/http/HttpMessage.php:173-174 | the character-wise general rule used by the model equals the source's composition: hyphens to spaces, `ucwords`, spaces to hyphens |
| HttpMessage.NormalizeIsETag | lib/phpcouch/http/HttpMessage.php:169-170 | a name normalises to `ETag` if and only if it is a casing of `etag` |
| HttpMessage.NormalizeIsWwwAuthenticate | lib/phpcouch/http/HttpMessage.php:171-172 | a name normalises to `WWW-Authenticate` if and only if it is a casing of `www-authenticate` |
| HttpMessage.NormalizeIgnoresCase | lib/phpcouch/http/HttpMessage.php:167-176 | names equal up to ASCII case normalise to the same name |
| HttpMessage.NormalizeIdempotent | lib/phpcouch/http/HttpMessage.php:167-176 | normalising twice equals normalising once exactly when the lower-cased name is not `www authenticate` (with a space) |
| HttpMessage.NormalizeCapitalizesEachWord | lib/phpcouch/http/HttpMessage.php:173-174 | for a name without whitespace, the general rule equals an independent split-capitalise-join on hyphens of the lower-cased name |
| HttpMessage.NormalizeThreeWords | lib/phpcouch/http/HttpMessage.php:173-174 | a lower-case name `a-b-c` normalises to each word capitalised and joined with hyphens (`x-custom-header` to `X-Custom-Header`) |
| HttpMessage.GetHeader | lib/phpcouch/http/HttpMessage.php:101-109 | the lookup finds values exactly when the normalised name is stored, and returns the stored values |
| HttpMessage.HasHeaderIffGetHeader | lib/phpcouch/http/HttpMessage.php:147-155 | `hasHeader` is true exactly when `getHeader` finds values, and answers the same under any casing of the name |
| HttpMessage.GetHeadersHoldsEveryHeader | lib/phpcouch/http/HttpMessage.php:119-122 | the store `getHeaders` returns holds, under the normalised name, exactly the headers `getHeader` finds, with the same values |
| HttpMessage.ClearHeaders | lib/phpcouch/http/HttpMessage.php:34-37 | afterwards no name has a header; content unchanged |
| HttpMessage.SetHeader | lib/phpcouch/http/HttpMessage.php:235-250 | as written: with replace the header holds exactly the new values (an array is spread); without replace an absent header becomes empty and a present one is kept; other headers and content unchanged |
| HttpMessage.SetHeaderAnyCasing | lib/phpcouch/http/HttpMessage.php:235-250 | a header set under one casing is found, with its values, under any other casing |
| HttpMessage.SetHeaderKeepsOthers | lib/phpcouch/http/HttpMessage.php:235-250 | setting a header never changes what a differently-normalised name returns |
| HttpMessage.SetHeaderWithoutReplaceDropsValue | lib/phpcouch/http/HttpMessage.php:235-250 | setting `X-Count: 1` without replace on an empty message leaves an empty list, where the documented append gives `["1"]` |
| HttpMessage.SetHeaderAppending | lib/phpcouch/http/HttpMessage.php:228-250 | the documented behaviour: without replace the new values are appended to the present ones, or stored when absent |
| HttpMessage.RemoveHeader | lib/phpcouch/http/HttpMessage.php:188-197 | returns what a lookup would have returned, and afterwards the header is absent; all else unchanged |
| HttpMessage.RemoveHeaderAnyCasing | lib/phpcouch/http/HttpMessage.php:188-197 | removing under any casing returns and removes a header set under another casing |
| HttpMessage.GetContentType | lib/phpcouch/http/HttpMessage.php:81-89 | null without a `Content-Type` header or with an empty one, otherwise its first value |
| HttpMessage.SetContentType | lib/phpcouch/http/HttpMessage.php:220-223 | afterwards the reported content type is the given value (the first element for an array, null for an empty one); other headers and content unchanged |
| HttpMessage.ContentTypeAnyCasing | lib/phpcouch/http/HttpMessage.php:81-89 | a `content-type` header set under any casing is the reported content type |
| HttpMessage.SetContent | lib/phpcouch/http/HttpMessage.php:207-210 | afterwards the content is the value given, `hasContent` holds exactly for values other than null and the empty string, and headers are unchanged |
| HttpMessage.GetContentReadsBack | lib/phpcouch/http/HttpMessage.php:47-50 | `getContent` returns what `setContent` stored, and null after `clearContent` |
| HttpMessage.NoContentHasNoSize | lib/phpcouch/http/HttpMessage.php:132-135 | `hasContent` is false exactly when the content is null or the empty string, and then the content size is 0 |
| HttpMessage.ClearContent | lib/phpcouch/http/HttpMessage.php:23-26 | afterwards there is no content and the content is null |
| HttpMessage.GetContentSize | lib/phpcouch/http/HttpMessage.php:60-71 | `strlen` of the content: an ASCII string's size is its length, any string's size lies between its length and four times it, an integer's size is the length of its decimal form, `true` has size 1 and `false` and no content have size 0; an array has no size |
| Json.QuoteRoundTrip | lib/phpcouch/record/Database.php:234-236 | every string `json_encode` writes decodes back to the same string |
| Json.EscapeStringIsAscii | lib/phpcouch/record/Database.php:234-236 | every character `json_encode` writes for a string lies in U+0020–U+007F: ASCII with no control character below U+0020 (U+007F is written as it is, as PHP does) |
| PhpValues.IntValOfPrintedInt | lib/phpcouch/record/Database.php:237-242 | `intval` reads back every 64-bit integer PHP prints |
| Phpcouch.GetConnection | lib/Phpcouch.class.php:54-61 | succeeds exactly for registered names, with the registered connection; otherwise the `Connection "<name>" not configured.` exception |
| Phpcouch.RegisterConnection | lib/Phpcouch.class.php:40-43 | afterwards the name yields the connection; other names are unaffected |
| Phpcouch.UnregisterConnection | lib/Phpcouch.class.php:45-52 | returns the connection exactly when the name was registered; afterwards the name throws, other names unaffected |
| Phpcouch.RegisterThenUnregister | lib/Phpcouch.class.php:40-52 | register then unregister hands back the connection and forgets the name |
| Phpcouch.GetOption | lib/Phpcouch.class.php:73-80 | the stored value when the option is set (present and not null), otherwise the default |
| Phpcouch.HasOptionIffGetOptionIgnoresDefault | lib/Phpcouch.class.php:92-95 | `hasOption` is true exactly when `getOption` ignores its default, which is exactly when `getOptions` holds a non-null value under the name |
| Phpcouch.ReadonlyIffSetOptionRefused | lib/Phpcouch.class.php:107-110 | `isOptionReadonly` is true exactly when an overwriting `setOption` is refused; a read-only option refuses every `setOption` and `removeOption` |
| Phpcouch.SetOption | lib/Phpcouch.class.php:125-136 | succeeds exactly when overwriting is allowed or the option is unset, and the option is not locked; on success the value is stored (and locked when asked); other options and locks unchanged; on failure nothing changes |
| Phpcouch.RemoveOption | lib/Phpcouch.class.php:148-156 | removes and answers true exactly when the option is set and not locked; other options and all locks unchanged |
| Phpcouch.SetOptions | lib/Phpcouch.class.php:166-169 | the corrected, key-preserving merge: keys are old plus new plus locked; locked entries keep the locked value, new values win over old ones, untouched options stay |
| Phpcouch.SetOptionsAsWrittenAgrees | lib/Phpcouch.class.php:166-169 | `setOptions` as written (two `array_merge`s over ordered arrays) gives the same options as `SetOptions` whenever no option name is an integer key |
| Phpcouch.SetOptionsLosesIntegerNamedLock | lib/Phpcouch.class.php:166-169 | as written, a lock on option "8" is broken by an empty `setOptions`: the options become `[0 => x, 1 => x]`, `getOption("8")` answers the default and `isOptionReadonly("8")` stays true |
| PhpValues.ArrayMergeWithoutIntegerKeys | lib/Phpcouch.class.php:168 | `array_merge` of arrays without integer keys keeps every key, with the second array's values winning |
| Phpcouch.ClearOptions | lib/Phpcouch.class.php:190-194 | keeps exactly the locked entries whose value equals the current one as strings, holding the locked value |
| Phpcouch.ApplyKeepsLocks | lib/Phpcouch.class.php:125-194 | each option operation keeps every lock held, and never drops a lock or changes a locked value |
| Phpcouch.LockedOptionNeverChanges | lib/Phpcouch.class.php:125-194 | after any sequence of option operations a locked option is still locked and still holds its value |
| Phpcouch.ReachableLocksHeld | lib/Phpcouch.class.php:125-194 | every configuration reached from one whose locks hold (the empty one, for instance) keeps every lock held |
| Phpcouch.LockPinsOption | lib/Phpcouch.class.php:125-136 | after any operations from the empty configuration, a successful `setOption` that locks a non-null value pins it: `getOption` returns it after any further operations |
| Phpcouch.ClearOptionsKeepsExactlyLocks | lib/Phpcouch.class.php:190-194 | while locks are held, clearing keeps every locked option with its locked value and drops every unlocked one, a null lock counting as unlocked |
| Phpcouch.NullLockDoesNotLock | lib/Phpcouch.class.php:125-136 | locking an option with null does not lock it; a later `setOption` still succeeds |
| Records.CreatePayload | lib/phpcouch/record/Database.php:46-51 | the payload is the document's fields, with `_id` dropped exactly when it is set |
| Records.CreateCall | lib/phpcouch/record/Database.php:53-62 | a PUT to the document's id exactly when `_id` is truthy, otherwise a POST to the database; the payload is the create payload |
| Records.CreateCallCarriesDocument | lib/phpcouch/record/Database.php:46-57 | for a PUT, the URI's id put back into the payload restores the whole document |
| Records.FalsyIdIsDropped | lib/phpcouch/record/Database.php:48-61 | a set but falsy `_id` such as "0" is sent as a POST without any id |
| Records.Created | lib/phpcouch/record/Database.php:64-67 | after an ok create the document's id and revision come from the response and every other field is unchanged |
| Records.CreatedDocumentReadsBack | lib/phpcouch/record/Database.php:64-67 | what the server stores for the create, hydrated into a new document, equals the document the create left behind |
| Records.Retrieved | lib/phpcouch/record/Database.php:95-103 | a response with a set `_id` becomes a document holding exactly the response's fields; otherwise no document; adapter exceptions propagate |
| Records.PassedThrough | lib/phpcouch/record/Database.php:179 | the adapter's answer to a delete, or its exception, reaches the caller unchanged |
| Records.UpdateDocument | lib/phpcouch/record/Database.php:141-154 | a PUT of the full document to its id; on an ok answer only `_rev` changes (to the response's); otherwise the document is unchanged; adapter exceptions propagate (lib/Phpcouch/Database.class.php:137-150 is the same) |
| Records.UpdatedDocumentReadsBack | lib/phpcouch/record/Database.php:141-154 | after an ok update, the stored payload with the new revision reads back as the updated document |
| RecordDatabase.CreateDocument | lib/phpcouch/record/Database.php:44-76 | succeeds exactly on an ok answer, with the created document; a non-ok answer gives the "Result not OK :(" library exception wrapped once more by the method's own catch; an adapter library exception is rewrapped keeping message, code and cause; others propagate |
| RecordDatabase.CreateFailuresAreLibraryExceptions | lib/phpcouch/record/Database.php:64-75 | a failed create raises a library exception that carries a library-exception cause, or lets a foreign exception through unchanged |
| RecordDatabase.RetrieveDocument | lib/phpcouch/record/Database.php:90-104 | a GET of the id with no query; a document exactly when the response has a set `_id`, holding exactly the response's fields; otherwise null; adapter exceptions propagate |
| RecordDatabase.RetrieveAfterCreate | lib/phpcouch/record/Database.php:44-104 | retrieving what the server stored for a create with an id returns the document the create left behind |
| RecordDatabase.DeleteDocument | lib/phpcouch/record/Database.php:169-180 | a DELETE of the document's id whose only header is `If-Match` with the document's revision; the answer is passed through |
| RecordDatabase.IfMatchIsCanonical | lib/phpcouch/record/Database.php:172 | `If-Match` is already in normalised header form |
| RecordDatabase.DeleteRevisionReachesHeader | lib/phpcouch/record/Database.php:172 | the revision sent with a delete, set as a header on a message, is found under `if-match` |
| RecordDatabase.ListDocuments | lib/phpcouch/record/Database.php:205-210 | the all-documents pattern with the database name as its only value; every option name except a set `keys` reaches the query; the request is exactly `executeView`'s for these arguments, so the query holds the cleaned option values and a set `keys` goes into a POST body |
| RecordDatabase.CallView | lib/phpcouch/record/Database.php:212-221 | the view pattern with database name, design name and view name; every option name except a set `keys` reaches the query; the request is exactly `executeView`'s for these arguments, so the query holds the cleaned option values and a set `keys` goes into a POST body |
| RecordDatabase.CallViewByDocument | lib/phpcouch/record/Database.php:214-216 | calling through the design document `_design/<name>` equals calling by `<name>` |
| ViewQuery.CleanOptions | lib/phpcouch/record/Database.php:231-247 | option names are kept; `key`/`startkey`/`endkey` become their JSON, `limit`/`skip`/`group_level` their `intval`, the four boolean options "true"/"false" by truthiness, `stale` "ok" when truthy and null otherwise; every other option is untouched |
| ViewQuery.KeysAreNotCleaned | lib/phpcouch/record/Database.php:232-247 | the `keys` option passes the cleanup unchanged |
| ViewQuery.CleanedStringKeyDecodes | lib/phpcouch/record/Database.php:234-236 | a string `key`/`startkey`/`endkey` decodes from its cleaned JSON back to itself |
| ViewQuery.CleanedIntegerReadsBack | lib/phpcouch/record/Database.php:237-242 | a cleaned integer option, printed into the query, reads back as itself |
| ViewQuery.BooleanCleanupNotIdempotent | lib/phpcouch/record/Database.php:231 | cleaning a boolean option twice turns `false` into "true", since "false" is truthy |
| ViewQuery.ExecuteView | lib/phpcouch/record/Database.php:249-256 | POST exactly when `keys` is set after cleanup, then the body is `{"keys":[...]}` typed `application/json` and `keys` leaves the query; otherwise default method, empty message and the whole cleaned query; a `keys` left in the query is always null |
| ViewQuery.ExecuteViewKeepsOptionNames | lib/phpcouch/record/Database.php:247-256 | the query holds exactly the option names, less `keys` when it is set |
| ViewQuery.KeysBodyShape | lib/phpcouch/record/Database.php:251 | the body is the object with the single member `keys` holding the keys cast to a list |
| ViewQuery.KeysBodyExample | lib/phpcouch/record/Database.php:251 | the keys "a" and "b" give the body `{"keys":["a","b"]}` |
| Records.DatabaseName | lib/Phpcouch/Database.class.php:10-13 | `getName` reports the record's `db_name` field, null when there is none; the namespaced `getName` (lib/phpcouch/record/Database.php, lines 29-32), used by `listDocuments` and `callView`, reads the same field |
| LegacyDatabase.GetDocumentCount | lib/Phpcouch/Database.class.php:15-18 | `getDocumentCount` reports the record's `doc_count` field, null when there is none |
| LegacyDatabase.GetUpdateSequence | lib/Phpcouch/Database.class.php:20-23 | `getUpdateSequence` reports the record's `update_seq` field, null when there is none |
| LegacyDatabase.AccessorsReadHydratedInfo | lib/Phpcouch/Database.class.php:10-23 | a database record hydrated with the server's information reports its name, document count and update sequence |
| LegacyDatabase.CreateDocument | lib/Phpcouch/Database.class.php:35-67 | the same request as the namespaced create; success exactly on an ok answer; a non-ok answer or an adapter error exception gives a save exception; other exceptions propagate |
| LegacyDatabase.CreateNeverLeaksErrorException | lib/Phpcouch/Database.class.php:55-66 | a failed create never raises the adapter's error exception, and a non-ok answer always gives the save exception |
| LegacyDatabase.RetrieveQuery | lib/Phpcouch/Database.class.php:84 | the query asks for exactly the given revision and the revision history |
| LegacyDatabase.RetrieveDocument | lib/Phpcouch/Database.class.php:82-96 | a GET of the id with the revision query; a document exactly when the response has a set `_id`, holding exactly the response's fields; otherwise null; adapter exceptions propagate |
| LegacyDatabase.DeleteDocument | lib/Phpcouch/Database.class.php:164-173 | a DELETE of the document's id (or of the id given) with no headers; the answer is passed through |
| LegacyDatabase.DeleteByDocumentOrId | lib/Phpcouch/Database.class.php:166-170 | deleting a document and deleting by its id make the same request |

## Left out

- Autoloading, `bootstrap`, and both classes' `retrieveAttachment`. The latter is marked as not working in the source.
- The stream branch of `getContentSize` (`fstat` on a resource). This is I/O.
- PHP arrays are mostly modelled as maps, not as ordered arrays:
  - options, query parameters and payloads are `map<string, Value>`, so the order of entries is not modelled;
  - `Config` uses the corrected, key-preserving `setOptions`. The source's `array_merge` version is modelled over ordered arrays only to compare the two (`Phpcouch.SetOptionsAsWritten`);
  - `Value.Arr` is a list only.
- `Value.Int` stands for a 64-bit PHP integer but is unbounded. Contracts that depend on the width bound it explicitly with `PhpIntMin`/`PhpIntMax`.
- PHP strings are byte strings; the model's strings are sequences of characters. `strlen` in `getContentSize` is modelled as the length of the string's UTF-8 encoding.
- `getConnection`'s default argument `'default'` is not modelled separately: the name is always passed explicitly.
- Floats, objects and resources are not values of this model.
- `intval` of a string reads the leading decimal integer only. Exponent and hexadecimal forms are not modelled.
- The connection's `buildUri`/`buildUrl`, which includes `http_build_query` dropping null parameters, and `sendRequest`. They are shown as the arguments they receive.
- The adapter and the hydration of `ViewResult`/`AllDocsResult` from the response. They are outside this core.
- `Record::hydrate`/`dehydrate` internals. These are not part of this model: hydrate is a field merge where the new data wins, dehydrate returns the fields, and a missing field reads as null.
- `callView` takes a design document's name from `getId()`. It is modelled as the string form of `_id`.
- `__toString` of both database classes returns the same `db_name` field as `getName` (`Records.DatabaseName`).
- Exception class hierarchies are not modelled: a catch clause matches exactly its named class.
- The `else` branch of the namespaced `deleteDocument`. It cannot be reached, because the parameter is typed `DocumentInterface`.
- HttpMessage.NormalizeIdempotent: idempotence is proved for every name except casings of `www authenticate` (with a space). That name normalises to `Www-Authenticate` once and to `WWW-Authenticate` twice.
- Records.CreatePayload: follows `isset`, so a document whose `_id` is present but null is sent with `"_id": null`. Nothing further about that request is claimed.

## Findings

| source | as written | input that shows it | evidently intended | confidence | as-written member | corrected member |
|---|---|---|---|---|---|---|
| lib/phpcouch/http/HttpMessage.php:235-250 | without `$replace`, `setHeader` only creates an empty entry for an absent header and never stores the value | `setHeader('X-Count', '1', false)` on an empty message leaves `X-Count` as an empty list | the doc comment at line 230: without replace, the value is appended | not executed | HttpMessage.SetHeaderWithoutReplaceDropsValue | HttpMessage.SetHeaderAppending |
| lib/Phpcouch.class.php:166-169 | `setOptions` merges with `array_merge`, which renumbers integer keys, so an option whose name PHP stores as an integer key loses its locked value | `setOption('8', 'x', true, true); setOptions(array())` leaves the options `[0 => 'x', 1 => 'x']`: `getOption('8')` answers the default while `isOptionReadonly('8')` is true | the `readonly` parameter documented at line 118 keeps a value read-only once set, so the merge should keep keys, as `array_replace` does | not executed | Phpcouch.SetOptionsLosesIntegerNamedLock | Phpcouch.SetOptions |
