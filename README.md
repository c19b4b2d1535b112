# A verified model of the cache-backed fetch service and its helpers

This project models the logic of a set of AngularJS services and directives.

- **`httpx` service, `vm.get`** (`httpx.dfy`, `storage.dfy`). One logical GET runs as follows.
  - It builds its candidate URL list from the caller's `alt_urls` option followed by the URL itself.
  - It looks the first candidate up in two storage tiers: the indexedDB wrapper `ldb`, then `localStorage`.
  - A valid stored entry settles the call at once.
  - Otherwise it sends one request per candidate. The `Content-Hash` header carries the CRC-32 of the stored data.
  - It commits exactly one outcome:
    - the first success (a 204 reply means "use the stored data");
    - or, once every request has failed, the stored data if there is any;
    - otherwise a rejection with the last error.
  - Every success saves the response under the first candidate URL, with expiry `lifetime + now`.
  - The save goes to `ldb`, falling back to `localStorage` when `ldb` is off or a write throws.
  - The call's closure state (`resolved`, `errors`, the promise's outcome) is the class `Httpx.Fetch`. Each request completion is one atomic call of `OnSuccess` or `OnError`, in any order.
  - The two tiers are the class `Storage.Store`.
  - The lookup is a pure function of a snapshot of both tiers and the current time.
- **`crc32` service** (`crc32.dfy`). It builds a 256-entry table once. Its checksum function folds the table-driven reflected CRC-32 of IEEE 802.3 (clause 3.2.9) over the low byte of each UTF-16 code unit. The class `Crc32.Hasher` holds the table as an `array<bv32>`.
- **`react` module** (`react.dfy`).
  - The `reactComponents` registry.
  - The `prefix`/`unprefix` prop-name pair.
  - The shared `props` object that `compile` registers keys in and that the link function fills.
- **`selectmore` module** (`selectmore.dfy`).
  - `selectIsValid`.
  - The "annet" trigger.
  - The attribute copy loop with its camelCase→kebab-case rename.
  - The prepended "annet" option.
- **`arrays` module** (`arrays.dfy`): `Array.prototype.hasObjWithPropVal`, a linear search over an array of objects.
- **`events` module** (`events.dfy`): the `isClick` predicate.

Shared pieces:
- `wrappers.dfy` holds `Option` and the map lookup `Get` (a property or key that is missing reads as undefined).
- `ascii.dfy` holds the ASCII letter-case helpers behind `toUpperCase`/`toLowerCase`, and the line terminators that `.` in a regular expression does not match.

The model follows the code where it behaves in ways a reader might not expect:
- The candidate list puts the alternates first and the URL last.
- A success after the promise has settled still saves its response, because a success never fires the canceler: only a rejection (line 35 of `src/httpx.js`) or the caller's timeout (lines 37-38) does.
- A 204 reply is saved like any other success, so it replaces the stored response with its own empty reply; a later call that falls back to stored data gets that reply (`Httpx.NoContentReplacesStoredData`).
- A 204 with nothing stored resolves with null; it does not fail.
- A valid `localStorage` hit resolves with the raw JSON text of the entry, not with a parsed object.

## Model

| member | source | states |
|---|---|---|
| Httpx.PreparedAltUrls | src/httpx.js:29 | a string `alt_urls` becomes a one-element list with the same alternates, and an absent option or a list is left as it is |
| Httpx.CandidateUrls | src/httpx.js:30 | the candidates are the alternates in order followed by `url`: length #alternates+1, the last is `url`, the first is the first alternate or `url` when there is none |
| Httpx.IncludesIff | src/httpx.js:49 | `includes` holds exactly when the substring occurs at some position |
| Httpx.Includes | src/httpx.js:49 | a string only includes substrings no longer than itself |
| Httpx.ContentHashInput | src/httpx.js:46 | the header hashes the stored response's JSON data, or the text "null" when nothing is stored |
| Httpx.Options.constructor | src/httpx.js:26 | an absent options object is a fresh one with the given lifetime and alternates, no headers and no credentials |
| Httpx.Fetch.constructor | src/httpx.js:26-49 | the lifetime defaults to 0; `alt_urls` gets the string→list wrap; the lookup uses the first candidate; a valid hit resolves with the stored data and issues no request; a lookup that throws for want of Web Storage is modelled as a call left pending with no requests; otherwise one request per candidate carries the checksum header, and the call stays pending with 0 errors |
| Httpx.Fetch.IssueRequests | src/httpx.js:46-49 | the loop sets the header, issues request j for candidate j with the credentials flag of its own URL, and leaves the last URL's flag in the options |
| Httpx.Fetch.OnSuccess | src/httpx.js:50-57 | the first success resolves the promise (204 with the stored data, otherwise with the response) and a settled outcome never changes; every success, late ones included, saves the response under `urls[0]` with expiry `lifetime + now` |
| Httpx.Fetch.OnError | src/httpx.js:58-69 | each error adds one, never past the number of candidates; with the promise still pending, the last error resolves with the stored data when there is some and rejects with this error when there is none; a settled outcome never changes |
| Httpx.Fetch.DoneMeansSettled | src/httpx.js:50-69 | once every issued request has completed, the promise has settled |
| Httpx.Count | src/httpx.js:60 | a count of completed requests never exceeds the number of requests |
| Httpx.CountUpdate | src/httpx.js:60 | marking one in-flight request raises the count of its new status by one and leaves the other counts alone |
| Httpx.CountFull | src/httpx.js:62 | the error count equals the number of requests exactly when every request has failed |
| Httpx.CountPositive | src/httpx.js:55 | a positive success count means some request succeeded, and conversely |
| Httpx.AllInFlight | src/httpx.js:48-50 | right after issuing, every request is in flight and nothing has succeeded or failed |
| Httpx.HeaderAfterSave | src/httpx.js:46 | after a completed save with no lifetime, the next call's header is the checksum of the saved response's data, whichever tier holds it |
| Httpx.ContentHashInputAsWritten | src/httpx.js:46 | as written, a raw `localStorage` entry has no `data`, so the checksum input is undefined and the call throws |
| Httpx.SecondCallThrowsAsWritten | src/httpx.js:46 | as written, with `localStorage` as the only tier, the call after a save with the default lifetime throws before issuing any request |
| Httpx.SecondCallHashesSavedData | src/httpx.js:46 | with the corrected header input, the same call hashes the saved response's data |
| Httpx.ReusedOptionsNeverSettleAsWritten | src/httpx.js:30 | as written, after a second call with the same options, no error count the first call can reach (at most the requests it issued) passes its all-failed test, so it never settles |
| Httpx.NoContentReplacesStoredData | src/httpx.js:52-57 | a 204 reply saved with no lifetime becomes the next call's stored data (not valid), replacing the data it stood for |
| Httpx.AllFailed | src/httpx.js:62 | the error callback's test `errors === urls.length`; its use in the finding is `ReusedOptionsNeverSettleAsWritten` |
| Httpx.WithCredentials | src/httpx.js:49 | the credentials flag of a URL; `IncludesIff` states when it holds |
| Httpx.PushedAltUrls | src/httpx.js:30 | the caller's list after the push: the URL appended to the alternates |
| Httpx.ReusedOptionsKeepAlternates | src/httpx.js:29-30 | with a fresh candidate list, a reused options object gives the next call exactly the caller's alternates followed by its URL, and the list wrap is idempotent |
| Storage.GetFromStorageIsLookup | src/httpx.js:104-132 | the mutually recursive lookup with validity required equals a decision list: a fresh `ldb` entry, else any `localStorage` entry with its own validity, else a stale `ldb` entry (not valid), else null, or `None` for the throw without Web Storage |
| Storage.ValidMeansUnexpired | src/httpx.js:108-111 | an answer reported valid is an entry whose expiry lies strictly after `now`, in `ldb` or `localStorage` |
| Storage.CallbackCalled | src/httpx.js:124-131 | with `localStorage` present the callback is always called; with neither tier the lookup throws instead (`None`) |
| Storage.MissGivesNull | src/httpx.js:127-130 | a miss in both tiers ends, after one retry without validity, in `(null, false)` |
| Storage.StaleLdbEntry | src/httpx.js:109-115 | an expired `ldb` entry is passed over for any `localStorage` entry, and is handed over as not valid only when `localStorage` has nothing |
| Storage.SaveThenHit | src/httpx.js:83-96 | a save that completes in the first tier that is on makes the next lookup before the expiry a valid hit with that response |
| Storage.SaveWithoutLifetimeIsStale | src/httpx.js:93-94 | a `localStorage` save whose expiry is not after `now` comes back as the raw text, not valid |
| Storage.OlderLocalEntryWins | src/httpx.js:84-88 | a completed `ldb` save with no lifetime does not hide an older, unexpired `localStorage` entry |
| Storage.SaveKeepsOtherUrls | src/httpx.js:83-96 | a save under one URL changes no lookup of any other URL |
| Storage.Store.constructor | src/httpx.js:13-19 | the service starts with its `ldbOn` flag fixed and both persistent tiers holding whatever earlier sessions saved |
| Storage.Store.SaveData | src/httpx.js:83-90 | writes `ldb` when it is on and falls back to `localStorage` when it is off or a write throws; a completed `ldb` write leaves `localStorage` alone, and with `ldb` off `ldb` is untouched |
| Storage.Store.SaveDataToLocalStorage | src/httpx.js:91-96 | writes data then expiry, stopping at the first that throws without letting the exception out; `ldb` is untouched |
| Storage.GetFromStorage | src/httpx.js:104-118 | an answer reported valid always carries data, and with `localStorage` present the callback is always called |
| Storage.GetFromLocalStorage | src/httpx.js:124-132 | the same two facts, for the `localStorage` half of the mutual recursion |
| Storage.WriteTier | src/httpx.js:86-87 | the data write then the expiry write under `url`, stopping at the one that throws; every other URL's entry and expiry are unchanged |
| Storage.SavedToLocal | src/httpx.js:91-96 | only `localStorage` changes, and not at all without Web Storage |
| Storage.Saved | src/httpx.js:83-90 | the flags never change; `ldb` is untouched when off or when its first write throws; `localStorage` is untouched when the `ldb` writes complete |
| Crc32.Hasher.constructor | src/crc32.js:4-11 | the table has 256 entries, entry n being n after eight shift/XOR rounds |
| Crc32.Hasher.Checksum | src/crc32.js:13-21 | the loop computes the left fold of the register step from all-ones, then the final XOR read unsigned |
| Crc32.Round | src/crc32.js:8 | one round of the table loop; `RoundsOfZero` and `EightRounds` are about it |
| Crc32.Rounds | src/crc32.js:7-9 | `k` rounds; the constructor's inner loop is proved against it |
| Crc32.TableEntry | src/crc32.js:5-10 | the table entry of `n`; `CheckEntries` and `TableEntryZero` give its values |
| Crc32.Step | src/crc32.js:17 | one register update; `StepByTable` ties the loop body to it |
| Crc32.Register | src/crc32.js:14-18 | the left fold of the step from all-ones; `Checksum`, `RegisterSnoc` and `RegisterLowByteOnly` are about it |
| Crc32.Crc | src/crc32.js:13-21 | the checksum; `CheckValue`, `EmptyChecksum` and `LowByteOnly` state its properties |
| Crc32.Index | src/crc32.js:17 | the table index is below 256 |
| Crc32.Finish | src/crc32.js:20 | the result lies in [0, 2^32) |
| Crc32.StepByTable | src/crc32.js:17 | one turn of the loop with the table entry looked up is one register step |
| Crc32.RegisterSnoc | src/crc32.js:16-18 | the register over one more code unit is one more step |
| Crc32.RoundsOfZero | src/crc32.js:7-9 | no round sets a bit of the zero register |
| Crc32.TableEntryZero | src/crc32.js:5-10 | table entry 0 is 0 |
| Crc32.EmptyChecksum | src/crc32.js:14-20 | the checksum of the empty string is 0 |
| Crc32.LowByteOnly | src/crc32.js:17 | strings of equal length whose code units agree in the low byte have equal checksums |
| Crc32.RegisterLowByteOnly | src/crc32.js:16-18 | the same for the register before the final XOR |
| Crc32.IndexLowByteOnly | src/crc32.js:17 | the table index depends only on the code unit's low byte |
| Crc32.XorLowByte | src/crc32.js:17 | the low byte of the register XOR a code unit depends only on the code unit's low byte |
| Crc32.CheckValue | src/crc32.js:5-20 | "123456789" gives 0xCBF43926, the standard CRC-32 check value |
| Crc32.CheckString | src/crc32.js:13 | the check string has nine code units |
| Crc32.CheckFirstThree | src/crc32.js:14-18 | the register after "123" is 0x77b79c2d |
| Crc32.CheckMiddleThree | src/crc32.js:16-18 | the register after "123456" is 0xf68d2c9e |
| Crc32.CheckLastThree | src/crc32.js:16-18 | the register after "123456789" is 0x340bc6d9 |
| Crc32.CheckStep | src/crc32.js:17 | a known register, index and entry determine the next register |
| Crc32.EightRounds | src/crc32.js:7-9 | the inner loop's eight rounds are eight applications of one round |
| Crc32.CheckEntries | src/crc32.js:5-10 | the eight table entries the check string visits equal the published CRC-32 table values |
| React.Prefix | src/react.js:30 | `prefix(k)` is "prop", then k's first character upper-cased, then the rest of k; its length is \|k\|+4 |
| React.Unprefix | src/react.js:31 | an attribute starting "prop" plus a non-line-terminator character loses that head, and the character is lower-cased; any other string is unchanged |
| React.UnprefixNonEmpty | src/react.js:41-42 | every key made from an attribute starting "prop" is non-empty |
| React.UnprefixPrefix | src/react.js:30-31 | `unprefix(prefix(k)) == k` for non-empty k not starting with an upper-case letter or a line terminator |
| React.UpperInitialIsLost | src/react.js:30-31 | the key "Ab" comes back as "ab" |
| React.PrefixUnprefix | src/react.js:41-45 | for an attribute `unprefix` rewrites, `prefix` gives it back exactly when the character after "prop" is not a lower-case letter |
| React.Registered | src/react.js:40-42 | the props keys after `compile`; `RegisteredKeys` states which keys and values |
| React.Registry.constructor | src/react.js:12 | the registry starts empty |
| React.Registry.Call | src/react.js:13-20 | a string name with a component stores and returns it; a string name alone returns its component or absent; anything else returns the whole map; only the first case changes the map |
| React.RegisterThenLookup | src/react.js:14-16 | a registration is seen by the next lookup of its name, and lookups of other names are unchanged |
| React.RegisteredKeys | src/react.js:40-42 | after `compile`, the keys are the old keys plus exactly the `unprefix` of each attribute starting "prop"; those hold null and the others keep their values |
| React.Props.constructor | src/react.js:29 | the shared props object starts empty |
| React.Props.Compile | src/react.js:40-42 | the loop leaves exactly the registered keys, and every key stays non-empty |
| React.Props.Link | src/react.js:45 | the keys are unchanged and each holds the evaluation of the attribute `prefix(key)` |
| SelectMore.SelectIsValid | src/selectmore.js:38 | valid exactly for the non-zero numbers and the non-empty strings other than "annet", compared case-sensitively |
| SelectMore.IsAnnetTrigger | src/selectmore.js:18 | the trigger test; `TriggerIff` characterises it |
| SelectMore.CopiedAttrs | src/selectmore.js:20-21 | the copies the loop makes, in attribute order; `CopiedAttrsIff` and `NeverCopied` state which |
| SelectMore.ModelResets | src/selectmore.js:22 | the `ngModel` resets the loop evaluates, in attribute order; `CopyAttributes` is proved against it |
| SelectMore.TriggerIff | src/selectmore.js:18 | the trigger fires exactly on "annet" or "string:annet" in any ASCII case |
| SelectMore.Kebab | src/selectmore.js:21 | the renamed attribute has no upper-case letter, one extra character per upper-case letter, and equals the name when it has none |
| SelectMore.CamelKebab | src/selectmore.js:21 | on names without '-', camel-casing undoes the rename |
| SelectMore.KebabInjective | src/selectmore.js:21 | distinct names without '-' get distinct attribute names |
| SelectMore.CopiedAttrsIff | src/selectmore.js:20-21 | an attribute is copied, under its kebab name with its value, exactly when it is own, does not start with "$" and is not `ngOptions` |
| SelectMore.NeverCopied | src/selectmore.js:21 | no copied attribute name starts with "$", and none is "ng-options" |
| SelectMore.KebabOfNgOptions | src/selectmore.js:21 | among names without '-', only `ngOptions` renames to "ng-options" |
| SelectMore.CopyAttributes | src/selectmore.js:20-22 | the loop makes the copies in attribute order and resets each `ngModel` expression |
| SelectMore.LinkedMenu | src/selectmore.js:15 | the "annet" option is prepended exactly when `ngOptions` is not an own attribute, and the menu is otherwise unchanged |
| Arrays.HasObjWithPropVal | src/arrays.js:4-7 | true exactly when some element matches, after inspecting up to and including the first match; otherwise false after inspecting every element |
| Arrays.FirstMatch | src/arrays.js:5 | the index found matches, and no earlier element does |
| Arrays.FirstMatchFindsAny | src/arrays.js:5-6 | the search finds a match exactly when one exists |
| Arrays.FirstMatchAppend | src/arrays.js:5 | appending elements does not move a match already found |
| Arrays.FirstIsLeftmost | src/arrays.js:5 | a match with none before it is the one found |
| Arrays.NoneBeforeEnd | src/arrays.js:6 | with no match anywhere the search finds nothing |
| Arrays.EmptyHasNone | src/arrays.js:6 | an empty array has no match |
| Wrappers.Get | src/arrays.js:5 | `obj[prop]` is present exactly for a key of the object, with its value |
| Ascii.ToUpper | src/react.js:30 | ASCII `toUpperCase` of one character: a lower-case letter moves to its upper-case letter, everything else is unchanged |
| Ascii.ToLower | src/react.js:31 | ASCII `toLowerCase` of one character: an upper-case letter moves to its lower-case letter, everything else is unchanged |
| Ascii.LowerString | src/selectmore.js:18 | `toLowerCase` of a string: same length, every character lower-cased |
| Ascii.LowerOfUpper | src/react.js:30-31 | lower-casing undoes upper-casing on all but the upper-case letters |
| Ascii.UpperOfLower | src/selectmore.js:21 | upper-casing undoes lower-casing on all but the lower-case letters |
| Events.EffectiveCode | events.js:4 | `keyCode \|\| charCode` is a non-zero key code when there is one, and otherwise the character code |
| Events.IsClick | events.js:4 | every "click" is a click; a "keypress" is one exactly when its non-zero key code, or else its character code, is 13 or 32; no other event type is |
| Events.OtherKeyWithEnterCharCode | events.js:4 | a key press of another non-zero key is not a click, even with character code 13 |

## Left out

- The minified indexedDB wrapper (`window.ldb`) is left out: its asynchronous open, its 100 ms polling and its transactions. A tier is a pair of maps, read synchronously at the moment of the lookup.
- An asynchronous `put` that fails after `ldb.set` returns is left out. Only a write that throws is modelled, through the `Fault` parameters.
- Storage.GetFromLocalStorage: with no Web Storage, the bare global `Storage` of the last test throws a ReferenceError. The model returns `None` (the callback is never called). With `ldb` off that throw happens synchronously and leaves `vm.get` itself; Httpx.Fetch.constructor models that case as a call that stays pending with no requests, not as an exception.
- The log lines of `saveData`/`saveDataToLocalStorage` when both tiers fail are left out.
- `ldbOn` set while `window.ldb` is missing is left out; that case throws a ReferenceError. `Store.ldbOn` is a given flag.
- `$http`, `$q` and `$timeout` are left out, and so are the canceler, `options.timeout` and the user's `timeout` option. A timed-out or cancelled request is one more `OnError` call.
- The clock is a parameter `now`.
- JSON serialisation is treated as opaque: a response carries the JSON text of its `data` as code units. `JSON.parse` of an `ldb` entry gives back the response it stored.
- The `url + "_expiry"` key is modelled as a second map of the same tier. A URL that itself ends in "_expiry" and collides with another entry's expiry key is not modelled.
- `url in localStorage` matching a `Storage` method name (such as "getItem") is not modelled.
- JavaScript coercions are left out:
  - `Number(lifetime)` and `Number(expiry)` on non-numbers, and NaN;
  - the string comparison `localStorage[url + "_expiry"] > Date.now()`, read here as a numeric comparison;
  - loose `==` in `hasObjWithPropVal`, read as strict equality of values.
- Numbers are integers.
- Calling `vm.get` with `options` undefined is the `Options` constructor called with no lifetime and no alternates.
- Httpx.Fetch.constructor: replacing the caller's own `headers` object is modelled as a new header map. The caller changing `options.lifetime` after the call, which the success callback would read, is not modelled: the lifetime is fixed when the call starts.
- Httpx.Fetch.constructor: `urls` is a fresh copy of the candidates, not the caller's list. The list as written is modelled separately (see Findings).
- Httpx.Fetch.constructor: the header uses the corrected `ContentHashInput`, not the input as written (see Findings).
- Calling `hasObjWithPropVal` on an array with a null or undefined element (which throws) is left out. So is reading an inherited property through the prototype chain.
- React.Registry.Call: the registry is a plain object, so a lookup of a name such as "constructor" or "toString" returns an inherited member, and registering "__proto__" re-links the prototype. The model's map has no prototype chain: such a lookup is `None` and "__proto__" is an ordinary key.
- React.Registry.Call: the map returned for a non-string name is a value here. In the source it is the live `components` object, which a caller could mutate.
- React.Prefix: requires a non-empty key. `key[0]` on the empty key is undefined and `toUpperCase` throws.
- React rendering (`ReactDOM.render`, `postRender`) and the `$watch` callbacks of the link function are left out. Each watch callback is a single map update like `Link`'s.
- In `selectmore`, the DOM work is left out: `blur`, building and inserting the text input, removing the tip and the select, and `$compile`. The Enter-key blur handler is also left out.
- `scope.$eval` is left out; `Link` takes the evaluation as a function parameter.
- `Object.keys` and `for ... in` order is the order of the given sequence of attribute names.
- Case mapping covers ASCII letters only. Non-ASCII letters that `toUpperCase`/`toLowerCase` would change are left out. Dafny characters stand for UTF-16 code units outside the surrogate range; a key or value holding a surrogate pair (whose `key[0]` is a lone surrogate) is left out.
- Crc32.Hasher.Checksum: the equality of the table-driven register step with a bit-at-a-time CRC over the byte is not proved. Instead, the table construction, entry 0, the eight table entries of the check string and the standard check value are proved.

## Findings

| source | as written | input that shows it | evidently intended | confidence | as-written member | corrected member |
|---|---|---|---|---|---|---|
| src/httpx.js:46 | the header is computed from `stored_data.data`, but a `localStorage` hit (lines 124-126) passes the raw JSON string; its `.data` is undefined, so `JSON.stringify` returns undefined and `crc32` throws reading `.length` | `ldb` off, `localStorage` present; one successful `get(u)` with no lifetime saves `u` with expiry = now; a later `get(u)` finds the entry expired and throws before issuing any request, so the resource is never fetched or saved again | hash the data of the stored response whichever tier it came from | high, not executed | Httpx.SecondCallThrowsAsWritten | Httpx.SecondCallHashesSavedData |
| src/httpx.js:30 | `options.alt_urls.push(url)` appends to the caller's own list and uses that list as `urls`, and the error callback (line 62) compares `errors` with its current length | `o = {alt_urls: ["a"]}`; `get("b", o)` issues 2 requests; `get("c", o)` makes the list `["a","b","c"]`; if both requests of the first call fail, `errors` is 2 and never equals 3, so the first promise never settles | build a new list of the alternates followed by `url`, leaving the caller's list alone | medium, not executed | Httpx.ReusedOptionsNeverSettleAsWritten | Httpx.ReusedOptionsKeepAlternates |
