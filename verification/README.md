# initia.js: what its core algorithms keep

A Dafny model of the parts of the initia.js SDK that are algorithms rather than network calls, with
proofs about them.

- **Request cache** (`CachedClient`, `CachedClientProofs`, `CachedClientHits`, `Keys`): the client wrapper
  that joins concurrent requests and caches answers, as a machine whose atomic steps are a call up to its
  `return`, the `.then` callback of a settled fetch, its `.finally` callback, `clearCache`, and the
  eviction of an LRU entry at any moment. The class `Client` is the code; each method is proved to
  take exactly the machine's step, and the theorems are about every run of the machine.
- **Amino and sign bytes** (`CaseConversion`, `Amino`, `AminoMeaning`, `CanonicalSort`, `JsonText`,
  `JsonReader`, `TextEncoding`, `Sign`): the tree transforms between protobuf and Amino JSON, recursive
  key sorting, the JSON text and its UTF-8 bytes with a reader for each, and the EIP-191 wrapping that
  exists twice in the code.
- **Normaliser** (`Normalize`, `NormalizeProofs`, `NormalizeMeaning`): `normalizeInit` over schemas that
  may contain themselves. The class `Normalizer` is the code with its per-schema cache; the theorems are
  about the functions it is proved equal to.
- **Literal printer** (`ObjectLiteral`, `LiteralLayout`): `formatObjectLiteral`, and a reader for
  JavaScript literals written after sections 12.9.3, 12.9.4, 13.2.4 and 13.2.5 of ECMA-262.
- **OPInit bridge** (`Watch`, `WatchProofs`, `WatchEffects`, `WaitForEvent`, `OpBridge`,
  `WithdrawalHash`): the withdrawal watcher with its re-entrant callbacks, late subscriptions and
  timers; the promise on top of it; the withdrawal status computed in batch and singly; and the hash preimage.
- **Amounts and indexes** (`Coin`, `Gas`, `CompositeProvider`): coin lists and exact decimals, gas
  arithmetic, and the first-wins index over several chain data providers.

Conventions. A JavaScript object is the sequence of its own properties in enumeration order, with
distinct names; assigning `__proto__` adds no property. A string is a sequence of Unicode scalar
values; where the code sorts, the order is that of UTF-16 code units. `toLowerCase` is a parameter of
which three laws are used (`CaseConversion.LowersCase`). A `bigint` is an integer.
Network answers, hash functions, the clock and user callbacks are parameters. Code that updates
variables in place is a class or a method with loops, proved equal to a function; the theorems are
about that function. `Bytes`, `Text`, `Hex`, `Decimal`, `Arithmetic`, `Collections`, `OrderedMap` and
`JsTree` are the shared vocabulary.

Facts the proofs brought out, where the code does something its comments do not say:

- `.finally` deletes the pending entry by key, so after `clearCache` it can remove a newer fetch's
  entry; one key can then have one outstanding fetch more for each `clearCache`, and that bound is
  reached (`CachedClientProofs.OutstandingBoundReached`).
- The two directions of the EVM denom mapping share one pending-key prefix, so asking for the contract
  of a denom that is itself a normalised address can join the fetch of the opposite direction and be
  served its value; `CachedClientProofs.CrossesExactly` and `WrongExactly` say exactly when, and
  `CrossedCallServed` gives the run.
- `sortObject` and printed object literals lose a property called `__proto__`, and nothing else
  (`CanonicalSort.SortKeepsExactly`, `ObjectLiteral.DenotedIsValue`).
- `formatObjectLiteral` does not escape line terminators, and a text with one does not read
  (`ObjectLiteral.ReadBack`).
- A callback that unsubscribes on 'waiting' leaves a timer running after clean-up, and nothing else
  does (`WatchProofs.TimersLeftExactly`); the timer delivers nothing.
- `Coin.subtract` takes the fee once for every coin of its denom in the list, and ignores a fee denom
  that is not listed (`Coin.SubtractTotals`).
- `Coin.format` puts the minus sign of a negative fraction after the point (`Coin.FormatReads`).
- Asset listings may drop an asset when a chain id contains a colon (`CompositeProvider.ColonCollides`).

## Model

| member | source | states |
|---|---|---|
| CachedClientProofs.OutstandingBound | src/client/cached-client.ts:123-139 | in every run of calls, settlements, failures, evictions and `clearCache`, the unfinished fetches of one pending key number at most 1 + the calls of `clearCache` so far |
| CachedClientProofs.OutstandingBoundReached | src/client/cached-client.ts:368-375 | the bound is tight: for every n there is a run with n clears and n + 1 fetches outstanding for one key |
| CachedClientProofs.FinishOrphans | src/client/cached-client.ts:218-225 | deleting by key may orphan a newer fetch, but the one that finishes leaves, so the fetches nobody can join do not grow in number |
| CachedClientProofs.QuiescentNothingPending | src/client/cached-client.ts:312-319 | once every fetch has finished, failed ones included, no pending entry is left to block a later request |
| CachedClientProofs.StepKeepsPending | src/client/cached-client.ts:100-141 | every step keeps: each pending entry is an unfinished fetch for its own key, and orphans are at most as many as clears |
| CachedClientProofs.CacheTextUnique | src/cache/keys.ts:123-156 | within one cache a key stands for one target, if the requests considered have different hashes |
| CachedClientProofs.PendingTextUnique | src/cache/keys.ts:159-168 | for every chain id, two targets share a pending key exactly when they are equal or are the two EVM directions met on one text |
| CachedClientProofs.CrossesExactly | src/client/cached-client.ts:263-271 | in every run the pending key of a call holds a fetch for its own target or the opposite EVM direction, and the call joins the opposite direction exactly when its cache does not answer and the fetch there is not its own |
| CachedClientProofs.WrongExactly | src/client/cached-client.ts:258-307 | a call that is served something is served a wrong value exactly when it joined the opposite direction and the two answers differ |
| CachedClientProofs.CrossedCallServed | src/client/cached-client.ts:258-319 | it happens, in both directions: one direction called, then the other on the same text, then the fetch resolves, and the second call is served the first one's value |
| CachedClientProofs.CallReturnsOwn | src/client/cached-client.ts:193-223 | after any run, a call returns a cached value that is the chain's answer for its own canonical target, or a promise for that target (or, when joining, the crossed one) |
| CachedClientProofs.ServedExactly | src/client/cached-client.ts:260-318 | in every run every call is served the answer for its own target, or for the opposite direction if it joined that fetch, or nothing |
| CachedClientProofs.ServedIsOwnAnswer | src/client/cached-client.ts:260-318 | a call is served its own answer or nothing whenever no earlier call asked for the opposite direction on its own text, whatever else the run asks for |
| CachedClientProofs.TargetsStay | src/client/cached-client.ts:274-290 | a promise never changes what it was fetched for |
| CachedClientProofs.StepKeepsValues | src/client/cached-client.ts:129-139 | every step keeps: each cached value is the answer for whichever target its key stands for, and each settled fetch delivered its own target's answer or nothing |
| CachedClientHits.CachedExactly | src/client/cached-client.ts:193-223 | in every run a call is answered from its cache exactly when a fetch for its own target has resolved with an answer and since then neither were the caches cleared nor its key evicted; it then gets that answer and no fetch starts |
| CachedClientHits.SkipCacheFetches | src/client/cached-client.ts:118-144 | a call told to skip the cache is never answered from it, and starts a fetch only if none is pending for its key |
| CachedClientHits.SettledDelivers | src/client/cached-client.ts:129-138 | a fetch that resolves delivers the answer for its target to all who wait, then and ever after; one that fails delivers nothing |
| CachedClientHits.ServedOnceResolved | src/client/cached-client.ts:205-223 | once the fetch a call waits for has resolved, the call is served exactly the answer it waits for |
| CachedClientHits.FinishFrees | src/client/cached-client.ts:135-137 | `.finally` leaves nothing pending for its key, whichever promise was there, and touches no other key and no cache |
| CachedClientHits.LateFinishOrphans | src/client/cached-client.ts:129-144 | a run in which that makes a newer running fetch unreachable, so that the next call starts a third |
| CachedClientHits.AnswerIs | src/client/cached-client.ts:274-284 | the answer for a denom's contract is the chain's with its address normalised, and none when that is no address; every other answer is the chain's own |
| CachedClient.Client.WithHeightCache | src/client/cached-client.ts:108-140 | a call with a height takes the machine's request step: cache, then pending fetch, then a new fetch |
| CachedClient.Client.Module | src/client/cached-client.ts:192-224 | refuses exactly the invalid inputs and changes nothing then; otherwise it requests the normalised address |
| CachedClient.Client.ContractAddrByDenom | src/client/cached-client.ts:259-291 | refuses an empty chain id or denom; otherwise requests the denom |
| CachedClient.Client.Denom | src/client/cached-client.ts:295-323 | refuses exactly the invalid addresses; otherwise requests the normalised address |
| CachedClient.Client.RunThen | src/client/cached-client.ts:274-284 | a resolving fetch stores its (rewritten) answer in its own cache only; a failure or a bad returned address stores nothing |
| CachedClient.Client.RunFinally | src/client/cached-client.ts:285-287 | the pending key is deleted whichever promise it holds, and the caches are untouched |
| CachedClient.Client.ClearCache | src/client/cached-client.ts:368-375 | all caches and pending entries go, running fetches stay |
| CachedClient.Client.constructor | src/client/cached-client.ts:357-363 | a new client has cached and started nothing |
| Keys.MoveAddressCanonical | src/cache/keys.ts:41-57 | two accepted Move addresses normalise alike exactly when their digits denote the same number: prefix, case and leading zeros do not matter |
| Keys.MoveAddressForm | src/cache/keys.ts:36-57 | the normal form has 66 characters, `0x` and 64 lower-case digits of the same value |
| Keys.MoveAddressIdempotent | src/cache/keys.ts:41-57 | a normalised address normalises to itself |
| Keys.EvmAddressForm | src/cache/keys.ts:59-83 | the results are exactly the strings of `0x` and 40 lower-case digits, which are the fixed points |
| Keys.EvmAddressCanonical | src/cache/keys.ts:64-83 | two accepted EVM addresses normalise alike exactly when they denote the same number |
| Keys.AddressAccepted | src/cache/keys.ts:41-83 | the texts accepted are 1 to 64 hexadecimal digits (Move) or exactly 40 (EVM), of either case, after an optional `0x` or `0X`, and no others |
| Keys.MoveAbiKeyInjective | src/cache/keys.ts:142-146 | for one chain the key determines, and is determined by, the address value and the module name |
| Keys.HeightKeyInjective | src/cache/keys.ts:123-134 | for one chain a height key determines service, method, request hash and height, where the service has no dot and method and hash no colon |
| Keys.HeightFamilyApart | src/client/cached-client.ts:124 | an `h:` key is never a `:move:` or `:denom:` key, whatever the chain id, even one made of `h` and `:` |
| CanonicalSort.SortObjectCanonical | src/tx/amino.ts:313-330 | two trees sort to the same tree exactly when they hold the same data, property order and `__proto__` properties aside |
| CanonicalSort.SortObjectSorts | src/tx/amino.ts:313-330 | keys ascend at every depth, and every property but `__proto__` and every array element is still there, arrays in order |
| CanonicalSort.SortObjectFixedPoints | src/tx/amino.ts:313-330 | the deeply sorted trees are exactly the fixed points, so sorting is idempotent |
| CanonicalSort.SortKeepsExactly | src/tx/amino.ts:313-330 | sorting keeps every property and value, nothing aside, exactly when no property at any depth is called `__proto__` |
| CanonicalSort.ProtoIsLost | src/tx/amino.ts:323-327 | two different documents, one with an own `__proto__` property, sort to the same tree |
| CanonicalSort.LessIsCodeUnitOrder | src/tx/amino.ts:323-325 | the key order used is that of UTF-16 code units |
| CanonicalSort.NotCodePointOrder | src/tx/amino.ts:323-325 | two keys that this order and code point order put the other way round |
| CanonicalSort.SortTree | src/tx/amino.ts:313-330 | the recursion over arrays and objects computes the sorted tree |
| CanonicalSort.SortProperties | src/tx/amino.ts:322-329 | assigning the properties in key order to a fresh object computes the sorted object |
| CaseConversion.CamelRoundTrip | src/tx/amino.ts:42-47 | for every name and every lawful `toLowerCase`: to snake_case and back is the identity exactly when the name starts with no capital or underscore, marks no lower-case letter with an underscore, and has no character but A-Z that `toLowerCase` changes |
| CaseConversion.SnakeRoundTrip | src/tx/amino.ts:238-240 | to camelCase and back is the identity exactly on names without a leading underscore in which `toLowerCase` changes nothing |
| AminoMeaning.LeadingCapital | src/tx/amino.ts:42-47 | a capital at the start is lowered without an underscore |
| Amino.ObjectRoundTrip | src/tx/amino.ts:245-265 | to Amino JSON and back is the identity on exactly the reversible objects: strings and booleans, nested objects, arrays (an empty one through null), names that survive case conversion, non-ASCII names included |
| Amino.ValueRoundTrip | src/tx/amino.ts:103-159 | the same for a property value and for an array element, whose rules differ: an inner array returns only when empty, an undefined element returns |
| Amino.AminoIsJson | src/tx/amino.ts:103-159 | nothing but JSON, and undefined array elements, comes out |
| AminoMeaning.LeafToAmino | src/tx/amino.ts:104-158 | a bigint becomes a text that reads as the same integer, sign included; numbers, dates and bytes their text; booleans and strings themselves; null and undefined nothing |
| AminoMeaning.ArrayToAmino | src/tx/amino.ts:124-130 | an array becomes the array of its elements converted, in order; an empty one null unless empty values are included |
| AminoMeaning.ObjectBecomes | src/tx/amino.ts:168-190 | for every object whose properties that appear have distinct snake names, the Amino object has exactly the properties that are neither internal nor null nor undefined, in order, under their snake names, each the Amino form of its own value |
| AminoMeaning.ObjectLookup | src/tx/amino.ts:174-187 | where snake names coincide, the name holds the value of the last property that appears with it |
| Amino.ObjectValueRoundTrip | src/tx/amino.ts:152-155 | an object value is converted, both ways, as an object on its own |
| AminoMeaning.LeafToProtoIs | src/tx/amino.ts:270-283 | on the way back every leaf stays as it is but null, which becomes an empty array |
| AminoMeaning.ArrayToProto | src/tx/amino.ts:251-256 | on the way back an array keeps its elements' places |
| AminoMeaning.ObjectComesBack | src/tx/amino.ts:245-265 | for every object with distinct camel names, all properties but `__proto__` come back, in order, under their camel names, each what its own value comes back as |
| AminoMeaning.NestedComesBack | src/tx/amino.ts:251-258 | nested objects come back as objects on their own, arrays in arrays as objects keyed by index |
| Amino.ConvertValue | src/tx/amino.ts:103-159 | the value conversion, its array loop included |
| Amino.ConvertObject | src/tx/amino.ts:168-190 | the loop that skips internal and undefined properties and renames the others |
| Amino.ConvertBackField | src/tx/amino.ts:248-262 | a property value on the way back |
| Amino.ConvertBackElement | src/tx/amino.ts:252-258 | an array element on the way back: an array inside an array becomes an object keyed by index |
| Amino.ConvertBackObject | src/tx/amino.ts:245-265 | the loop over properties on the way back, later names winning |
| JsonReader.PrintInjective | src/tx/amino.ts:336-338 | equal JSON texts come from equal documents, property order included |
| JsonReader.ReadBack | src/tx/sign.ts:195 | the text is JSON: a reader after RFC 8259, sections 2 to 7, reads every document back from it, property order, escapes and numerals included |
| JsonReader.PrintUnique | src/tx/amino.ts:336-338 | before a comma, a closing bracket or the end, a document's text cannot be mistaken for another's |
| TextEncoding.Utf8Decodes | src/tx/sign.ts:196 | a decoder after RFC 3629 gives every text back from its bytes |
| TextEncoding.Utf8Injective | src/tx/sign.ts:196 | equal bytes come from equal texts |
| Sign.AminoSignBytesCanonical | src/tx/sign.ts:193-197 | sign bytes agree exactly when the documents hold the same data: insertion order does not matter and nothing else is lost |
| Sign.AminoSignBytesExact | src/tx/sign.ts:193-197 | for documents without a property called `__proto__`, sign bytes agree exactly when the documents are equal up to property order, nothing aside |
| Sign.SignBytesRead | src/tx/sign.ts:193-197 | decoded as UTF-8 and read as JSON, sign bytes are the document with its keys sorted |
| Sign.StdSignDocReads | src/tx/sign.ts:166-197 | the sign bytes of a standard document, read as JSON, say each argument under its own name, the numbers as decimal text, and nothing else |
| Sign.StdSignDocCommits | src/tx/sign.ts:166-182 | the sign bytes of a standard document agree exactly when messages, fee, chain id, memo, account number and sequence all do |
| Sign.WrapAminoBytes | src/tx/sign.ts:222-233 | two in-place copies build 0x19, the Ethereum text, the decimal length and the message |
| Sign.SignPersonalBytes | src/key/key.ts:162-169 | the separately written buffer code hashes the same bytes for the same data |
| Sign.Eip191Injective | src/tx/sign.ts:222-233 | the wrapping is injective although nothing separates the decimal length from the message |
| Sign.Eip191Length | src/tx/sign.ts:224-228 | the total length is 26 plus the digits of the length plus the length |
| Sign.Eip191Layout | src/tx/sign.ts:222-233 | byte for byte: 0x19, 0x45 and the rest of the Ethereum text, a decimal text that reads as the length of the data, and the data |
| Sign.Eip191SignBytesCanonical | src/tx/sign.ts:222-233 | the wrapped bytes agree exactly when the documents hold the same data |
| NormalizeProofs.InitIsNormal | src/msgs/types.ts:400-556 | every result is in deep normal form: known fields only, coins are proto coins, no number in a 64-bit field, no string in a bytes field, Any and Timestamp well-shaped |
| NormalizeProofs.FixedPointsAreNormal | src/msgs/types.ts:400-556 | the normal forms are exactly the inputs accepted and left as they are |
| NormalizeProofs.NormalizeIdempotent | src/msgs/types.ts:400-556 | normalising a result succeeds and changes nothing |
| NormalizeMeaning.NormalizesToMeaning | src/msgs/types.ts:400-556 | the result for any init object is the normal form that means the same, and an object is refused exactly when there is none: at every depth 64-bit fields keep their integer, bytes fields hold the bytes spelt, coins keep denom and amount, a Message becomes the Any of its own type and bytes, a Date the Timestamp of the same instant, lists and maps keep their places, a single coin becomes a list of that coin, and everything else stays as it is |
| NormalizeMeaning.FieldMeans | src/msgs/types.ts:427-553 | the same for the value of one field of any kind |
| NormalizeMeaning.IntegersKept | src/msgs/types.ts:440-446 | a number for a 64-bit field, list element or map value becomes the bigint of the same integer |
| NormalizeMeaning.CoinMeans | src/msgs/types.ts:301-331 | the proto coin has the denom given, and the amount's own text or the plain numeral of its number |
| NormalizeProofs.PropertiesKept | src/msgs/types.ts:412-430 | an accepted object keeps every property but the two metadata keys, in order, each becoming what its own field makes of it |
| NormalizeProofs.AcceptedExactly | src/msgs/types.ts:414-430 | an object is accepted exactly when each property is metadata or a known field that accepts its value, independently of the others |
| NormalizeProofs.ListConverted | src/msgs/types.ts:558-567 | a list becomes the list of its converted elements, same length and order, and only if all convert |
| NormalizeProofs.MapConverted | src/msgs/types.ts:449-490 | a map is accepted exactly when every value converts; it keeps its keys and order with each value converted, but for an entry called `__proto__`, which is lost |
| NormalizeProofs.CoinConverts | src/msgs/types.ts:301-331 | a coin is accepted exactly when it names a denom and a non-negative whole amount (a number only up to 2^53 - 1, a byte array only of one byte), and the proto coin has that denom and that amount |
| NormalizeProofs.CoinNormalizes | src/msgs/types.ts:301-331 | the proto coins are exactly the coins left as they are |
| NormalizeProofs.HexExactly | src/util/hex.ts:9-28 | a text is accepted exactly when evenly many hexadecimal digits of either case follow an optional `0x`, and byte i is 16 times the value of digit 2i plus that of digit 2i + 1 |
| NormalizeProofs.HexField | src/util/hex.ts:23-27 | the lower-case text of any bytes, with or without prefix, becomes exactly those bytes |
| NormalizeProofs.FieldIsNormal | src/msgs/types.ts:427-553 | each branch on the field's kind and type ends in that field's normal form |
| NormalizeProofs.NormalFieldStays | src/msgs/types.ts:427-553 | a field value in normal form passes every branch unchanged |
| Normalize.Normalizer.AnalyzeFields | src/msgs/types.ts:362-393 | the field sets say of every name which branch applies, and the cached analysis is the one for the schema asked |
| Normalize.Normalizer.Init | src/msgs/types.ts:400-414 | the recursion computes the normal form whatever is cached already |
| Normalize.Normalizer.Properties | src/msgs/types.ts:414-556 | the loop over properties stops at the first that is refused and otherwise stores each |
| Normalize.Normalizer.FieldValue | src/msgs/types.ts:427-553 | branching on the sets first and on the descriptor after gives what the field's declaration asks for |
| Normalize.Normalizer.Entries | src/msgs/types.ts:458-489 | the loop over map entries converts each value |
| Normalize.Normalizer.Elements | src/msgs/types.ts:558-567 | mapping over a list converts each element |
| ObjectLiteral.ReadBack | src/codegen/format.ts:76-108 | at any indentation the text reads back as the value exactly when no string holds a line terminator and no property is called `__proto__` |
| ObjectLiteral.FormatInjective | src/codegen/format.ts:76-108 | values that print alike, at whatever indentations, are equal |
| ObjectLiteral.ReadFormatted | src/codegen/format.ts:80-105 | inside any text a printed value reads as what it denotes, leaving the rest, or fails exactly when some string holds a line terminator |
| ObjectLiteral.ReadEscaped | src/codegen/format.ts:84-87 | an escaped string reads back, quotes and backslashes included, exactly when it holds no line terminator |
| ObjectLiteral.DenotedIsValue | src/codegen/format.ts:95-102 | the value denoted is the value printed exactly when no property is called `__proto__` |
| LiteralLayout.FormatShifts | src/codegen/format.ts:76-108 | printed n levels deeper, a value is the same text with every line but the first moved 2n columns to the right |
| LiteralLayout.OutermostLayout | src/codegen/format.ts:89-101 | at the outermost level the first line of an array or object is two columns in, the last ends in a comma, and the bracket closes in the first column |
| LiteralLayout.RefusedExactly | src/codegen/format.ts:104 | the printer refuses exactly the values that hold, anywhere, one of a type it has no text for |
| WatchProofs.SubscriptionsEndOnce | src/bridge/watch.ts:236-246 | in every run, re-entrant unsubscribing included, each subscription made before or after clean-up ends exactly once after it, and none ends while it is held |
| WatchProofs.EventsAreOrdered | src/bridge/watch.ts:323-352 | in every prefix of every trace claimable events are at most the waiting ones and those at most the proposed ones; after clean-up neither waiting nor claimable is delivered |
| WatchProofs.StepKeeps | src/bridge/watch.ts:236-383 | every atomic step keeps the invariant behind both |
| WatchEffects.TxExactly | src/bridge/watch.ts:298-353 | a transaction is delivered event by event, all that match up to the first whose callback throws; each proposal returned from leaves one continuation; it is cleaned up exactly if one of the calls unsubscribes |
| WatchEffects.StepExactly | src/bridge/watch.ts:248-383 | every step delivers exactly so many events, reports exactly so many errors, and cleans up exactly when told: a due timer delivers one 'claimable', a continuation one 'waiting' |
| WatchEffects.FailureCleansUp | src/bridge/watch.ts:248-257 | without an error handler of the caller's own, every failure leaves the watch cleaned up |
| WatchEffects.StepMoves | src/bridge/watch.ts:335-344 | the period is known once it resolves, and a 'waiting' returned from sets exactly one timer |
| WatchEffects.SessionsClose | src/bridge/watch.ts:236-246 | in every run both sessions are open until the clean-up and closed after it, and no timeout runs on |
| WatchEffects.NothingForgotten | src/bridge/watch.ts:323-345 | in every run, until it is cleaned up: the 'waiting' events delivered and the continuations left are as many as the proposals returned from, and, where no 'waiting' callback throws, the 'claimable' events and the live timers as many as the 'waiting' ones |
| WatchProofs.TimersLeftExactly | src/bridge/watch.ts:335-345 | in every run, the timers alive after clean-up are exactly those set by a 'waiting' callback that had just unsubscribed and did not throw, and that have not fired since; one at most |
| WatchProofs.CleaningStep | src/bridge/watch.ts:236-246 | the step that cleans up leaves a timer running if and only if it is such a continuation, and then exactly the one it set |
| WatchProofs.TimerOutlivesCleanUp | src/bridge/watch.ts:335-344 | a run in which this happens; the timer delivers nothing |
| Watch.Watcher.Cleanup | src/bridge/watch.ts:236-246 | the first call ends all subscriptions, sessions and timers in order; later ones do nothing |
| Watch.Watcher.OnSubscribed | src/bridge/watch.ts:313-316 | a subscription is kept before clean-up and ended at once after it |
| Watch.Watcher.OnSubscribeFailed | src/bridge/watch.ts:317 | a failed subscription goes to the error handler, by default a clean-up |
| Watch.Watcher.OnTx | src/bridge/watch.ts:298-312 | matching events are delivered in order until a callback throws, each proposal leaving a continuation |
| Watch.Watcher.RunContinuation | src/bridge/watch.ts:335-351 | once the period is known: nothing after clean-up, else 'waiting' and then a timer; a throw goes to the error handler unless cleaned up |
| Watch.Watcher.OnTimer | src/bridge/watch.ts:341-343 | a timer delivers 'claimable' unless cleaned up |
| Watch.Watcher.OnPeriodFailed | src/bridge/watch.ts:288-291 | without a period the watch is cleaned up and the error reported |
| Watch.Watcher.OnTimeout | src/bridge/watch.ts:259-264 | the timeout cleans up, then reports |
| WaitForEvent.SettlesOnce | src/bridge/watch.ts:408-441 | in every run the promise settles at most once, is settled once the target event was delivered, resolves with no other event, and settled means unsubscribed with every subscription ended exactly once |
| WaitForEvent.SettlesExactly | src/bridge/watch.ts:408-441 | a step settles the wait exactly when the target event is delivered, an error is reported that the caller's handler returns from, or the timer fires; and it resolves, rejects or times out accordingly |
| WaitForEvent.TimerSettles | src/bridge/watch.ts:437-439 | after its timer step the wait is settled, whatever went before |
| WaitForEvent.Waiter.Settle | src/bridge/watch.ts:412-418 | only the first call settles; it unsubscribes the watch and stops the timer |
| WaitForEvent.Waiter.OnTx | src/bridge/watch.ts:430-434 | a transaction settles the wait when it carries a matching target event |
| WaitForEvent.Waiter.OnContinuation | src/bridge/watch.ts:425-434 | a continuation settles the wait when 'waiting' is the target, or when it reports that there is no period |
| WaitForEvent.Waiter.OnWatchTimer | src/bridge/watch.ts:430-434 | a timer of the watch settles the wait when 'claimable' is the target and is delivered |
| WaitForEvent.Waiter.OnSubscribeFailed | src/bridge/watch.ts:425-428 | a failed subscription rejects the wait unless the caller's handler throws first |
| WaitForEvent.Waiter.OnPeriodFailed | src/bridge/watch.ts:425-428 | without a period the wait is rejected unless the caller's handler throws first |
| WaitForEvent.Waiter.OnWaitTimer | src/bridge/watch.ts:437-439 | the timer unsubscribes and rejects unless settled |
| OpBridge.BatchAgreesWithSingle | src/bridge/op-bridge.ts:210-264 | on one L1 snapshot and clock the batch gives each withdrawal, in input order, the status asking for it alone gives, index 0, missing proposals and missing block times included |
| OpBridge.BatchReports | src/bridge/op-bridge.ts:183-264 | deduplicated proposal queries below the latest index lose nothing: each status is that of L1 |
| OpBridge.SingleReports | src/bridge/op-bridge.ts:274-324 | the single computation reports the status on L1 |
| OpBridge.SingleSucceedsExactly | src/bridge/op-bridge.ts:288-324 | a single query succeeds exactly when there is a finalisation period and none of the queries made for it fails, the claimed query being made only once the claim is due |
| OpBridge.BatchSucceedsExactly | src/bridge/op-bridge.ts:203-264 | a batch succeeds exactly when there is a period and neither the two shared queries nor one made for any of its withdrawals fails |
| OpBridge.BatchFailsAlone | src/bridge/op-bridge.ts:210-264 | where the single query succeeds, a batch with that withdrawal fails exactly when the latest-proposal query fails or one made for another withdrawal does |
| OpBridge.BothSucceed | src/bridge/op-bridge.ts:203-207 | with no query failing, both succeed exactly when the bridge has a finalisation period |
| OpBridge.StatusAdvances | src/bridge/op-bridge.ts:330-378 | in no history of new outputs, passing time and finalised claims does a status move backwards in pending, waiting, claimable, claimed |
| OpBridge.FinalizableIsReported | src/bridge/op-bridge.ts:348-378 | when L1 would accept the claim the SDK no longer says pending or waiting |
| OpBridge.FinalizedIsClaimed | src/bridge/op-bridge.ts:348-378 | a finalised withdrawal is reported claimed at once and ever after |
| OpBridge.ReportedExactly | src/bridge/op-bridge.ts:337-378 | pending exactly without a proposal that has a block time; waiting until an instant still to come and less than 2 ms early; claimable or claimed only with less than 2 ms missing, and claimed exactly if L1 says so |
| OpBridge.ClaimableInstant | src/bridge/utils.ts:10-19 | the computed instant is never later than block time plus period and less than 2 ms earlier |
| OpBridge.GetWithdrawals | src/bridge/op-bridge.ts:203-264 | the three loops compute the batch, stopping at the first query that fails otherwise than with NotFound |
| OpBridge.GetWithdrawalStatus | src/bridge/op-bridge.ts:284-324 | the single computation, with its one proposal query |
| WithdrawalHash.PreimageUnique | src/bridge/hash.ts:52-68 | two preimages agree exactly when the numbers agree modulo 2^64 and the digests agree |
| WithdrawalHash.PreimageFields | src/bridge/hash.ts:52-68 | which bytes are which field: bridge id, sequence, the digests of sender, receiver and denom, and amount |
| WithdrawalHash.HashUnique | src/bridge/hash.ts:44-72 | two withdrawals have one hash exactly when all that is encoded agrees, or the preimages or their digests collide |
| WithdrawalHash.HashInjective | src/bridge/hash.ts:44-72 | two withdrawals with one hash whose numbers fit 64 bits are the same, or exhibit a SHA3-256 collision at one of the five places where both are hashed |
| WithdrawalHash.PreimageLength | src/bridge/hash.ts:61-63 | the preimage has 120 bytes |
| WithdrawalHash.BeBytes8Read | src/bridge/hash.ts:14-21 | the eight bytes read back as the value modulo 2^64, for every integer, negative ones included |
| WithdrawalHash.BigintToBeBytes | src/bridge/hash.ts:14-21 | masking and shifting from the last byte to the first writes the big-endian bytes |
| WithdrawalHash.Concatenate | src/bridge/hash.ts:62-68 | copying at a moving offset fills the buffer with the parts in order |
| WithdrawalHash.CalculateWithdrawalHash | src/bridge/hash.ts:44-72 | the result is the double hash of the concatenation |
| Coin.MergeConserves | src/core/coin.ts:225-231 | merging keeps the total of every denom and lists each denom once, in order of first occurrence |
| Coin.MergeUnique | src/core/coin.ts:225-231 | those two facts determine the result |
| Coin.MergeIdempotent | src/core/coin.ts:225-231 | merging what is merged changes nothing |
| Coin.SubtractHolds | src/core/coin.ts:244-262 | subtraction succeeds exactly when every coin of a fee denom covers that denom's total fee; then each loses it, others are unchanged, and no coin of a fee denom is negative |
| Coin.SubtractTotals | src/core/coin.ts:244-262 | a denom's total falls by its fee once for every coin of that denom listed |
| Coin.ComputeSum | src/core/coin.ts:208-214 | the loop totals one denom |
| Coin.ComputeMerge | src/core/coin.ts:225-231 | the Map loop computes the merged list |
| Coin.ComputeSubtract | src/core/coin.ts:244-262 | the loop subtracts or stops at the first coin that falls short |
| Coin.FormatExact | src/core/coin.ts:154-175 | a non-negative amount prints exactly: read back as a decimal and scaled it is the amount, with at most d fraction digits, none a trailing zero |
| Coin.FormatReads | src/core/coin.ts:154-175 | the numeral is exact if and only if the amount is not negative or is a whole number of units |
| Coin.FormatDisplays | src/core/coin.ts:154-175 | the text returned, cut at its first space, is a numeral, exact if and only if the amount is not negative or whole, and the symbol or else the denom |
| Coin.ParseCoinHolds | src/core/coin.ts:309-322 | the accepted texts are digits followed by a denom, taken apart there |
| Gas.MulByFloatBounds | src/client/gas.ts:88-95 | for v >= 0 and real m >= 0 the result lies in [v*m, v*m + v/10^6 + 1) |
| Gas.MulByFloatMonotone | src/client/gas.ts:88-95 | the result grows with both arguments |
| Gas.MulByFloatExactly | src/client/gas.ts:88-95 | the result is the least whole number of millions that v times the multiplier in millionths, rounded up, takes |
| Gas.MulByFloatWhole | src/client/gas.ts:88-95 | where the multiplier is a whole number of millionths and the product is whole, nothing is rounded |
| Gas.FeeIs | src/client/gas.ts:75-79 | the fee has the price's denom and is the gas limit times the price rounded up so |
| Gas.PriceRead | src/client/gas.ts:75-77 | a price written with a point is read as the number it writes |
| Gas.WholePriceRead | src/client/gas.ts:75-77 | and so is one without a point |
| Gas.EstimateCovers | src/client/gas.ts:193-201 | the fee after two roundings covers gas used times multiplier times price, in the price's denom, and each rounding stays within its bound |
| Gas.ParseGasPriceHolds | src/client/gas.ts:60-70 | a text is accepted, and cut there, exactly where it is digits and points followed by a denom without line terminators that begins otherwise or is one last digit or point |
| CompositeProvider.SearchFinds | src/provider/composite-provider.ts:64-76 | linear search over the providers finds a chain at its first listing, and the provider that listed it |
| CompositeProvider.FirstsHold | src/provider/composite-provider.ts:68-75 | keeping first entries changes no lookup and keeps each key once |
| CompositeProvider.Composite.RebuildCache | src/provider/composite-provider.ts:64-76 | both maps become the first-wins index of what the providers list now, with the same ids in the same order |
| CompositeProvider.Composite.constructor | src/provider/composite-provider.ts:53-58 | a new composite is indexed |
| CompositeProvider.Composite.Refresh | src/provider/composite-provider.ts:270-273 | distinct children each have their own new data, and the index is that of what they list then |
| CompositeProvider.Composite.GetChainInfo | src/provider/composite-provider.ts:80-82 | the index answers as linear search in provider order does |
| CompositeProvider.Composite.RouteOf | src/provider/composite-provider.ts:101-105 | calls go to the first provider that lists the chain, whose first such entry is the chain shown, and there is one exactly when the chain is listed |
| CompositeProvider.Composite.ListAssets | src/provider/composite-provider.ts:160-180 | the listing is the concatenation with only the first asset of each key |
| CompositeProvider.Composite.FindAssetBySymbol | src/provider/composite-provider.ts:138-158 | the same for one symbol |
| CompositeProvider.CollectFirst | src/provider/composite-provider.ts:166-179 | a set of seen keys computes that |
| CompositeProvider.AllAssetsAt | src/provider/composite-provider.ts:169-171 | what a provider lists stands in the listing after everything earlier providers list, in its own order |
| CompositeProvider.AllWithSymbolAt | src/provider/composite-provider.ts:147-149 | the same for one symbol |
| CompositeProvider.WithSymbolAt | src/provider/composite-provider.ts:148 | for one symbol a provider lists exactly its assets of that symbol, in order |
| CompositeProvider.FirstByKeyAt | src/provider/composite-provider.ts:172-176 | what is kept are the assets at exactly the places no earlier asset has the key of, in order |
| CompositeProvider.ListingIsFirstWins | src/provider/composite-provider.ts:166-179 | the key text keeps the first of each (chain, denom) exactly when no two different assets share a key |
| CompositeProvider.ColonFreeNeverCollides | src/provider/composite-provider.ts:172 | chain ids without a colon cannot make keys collide |
| CompositeProvider.ColonCollides | src/provider/composite-provider.ts:172 | with a colon in a chain id they can |

## Left out

- Transport, gRPC, HTTP, WebSocket sessions and RPC endpoints; fetching from the executor; the memo of `getL1Client`; building deposit, withdraw and claim messages.
- Cryptography and codecs: SHA-256, SHA3-256, base64 and protobuf packing are parameters or opaque texts; keccak256, ECDSA and bech32 are not part of this model.
- Strings with lone surrogates, and array-index-like property names, which JavaScript moves to the front.
- JavaScript numbers at or above 10^21, minus zero and non-integer numbers in printed literals; property names that are not ASCII identifiers in literals; the reader covers single-character escapes only.
- The schema-driven options of `toAmino` (field names, encodings, empty-field rules per schema) and `fromAmino` dispatch; numbers, dates and byte arrays on the way to Amino are given by their text.
- Cache: LRU recency and capacity (any entry may go at any time), the map of wrapped services, calls without a height, and exceptions a service throws before returning a promise. The chain's answers are taken not to change, as the code assumes for what it caches.
- CachedClientProofs.CacheTextUnique: assumes that the finitely many requests considered have different hashes without a colon, service names without a dot and method names without a colon. A request is its JSON text: two requests with one text are one request.
- Watchers: `watchDeposit` (the same clean-up code with one subscription), parsing of event attributes and filter texts, the contents of events, and session reconnects. User callbacks are modelled by whether they unsubscribe and whether they throw.
- WaitForEvent.SettlesOnce: the caller's `onError` may throw but does not itself touch the watch, which is not handed to it.
- OpBridge.StatusAdvances: no output is deleted on L1, and the clock does not go back.
- `Number(seconds)` beyond 2^53 in time conversions, and floating-point rounding of `multiplier * 1e6` and of `parseFloat`: times are integers and multipliers exact reals.
- Amount texts: coin lists hold integers, so malformed amounts and leading zeros are outside `sum`, `merge` and `subtract`; negative `decimals` are outside `format`.
- Normaliser: the kinds and texts of its errors (one refusal stands for all), coin amounts that are plain arrays, the own properties of a `Message` given where a map or a nested object is wanted, and fields named like an index. Map values of type Any and Timestamp pass unchecked, as in the code. `timestampFromDate` comes from a library: seconds rounded down and the rest in nanoseconds.
- Composite provider: plain delegation to one child and the listing of the index's chains, children refreshing concurrently with calls, and how a child compares symbols (here: equality).
- Types that only restrict at compile time, registries, code generation around the printer, wallets, units, and the contract and BCS encoders.
