# D2T relay bot: address detection and relay, modelled in Dafny

The bot watches chat messages and forwards Solana token addresses it finds in
them. A Discord message in a monitored channel has its addresses sent to a
Telegram bot account. A Telegram message has its addresses sent to each
target channel. This project models the part of the bot that decides what is
sent, and where:

- `detectSolanaTokenAddress`, in `detection.dfy` (module `AddressDetection`).
  It first looks for a `dexscreener.com/solana/<id>` listing URL. When one is
  found, it asks the pair lookup about the id. Otherwise, or when the lookup
  finds no pairs, it returns every match of the global base-58 pattern
  `[1-9A-HJ-NP-Za-km-z]{32,44}`.
  - Both regular expressions are written out as scans over the message.
  - The global pattern has a declarative reading, `RegexMatches`: the greedy
    match at the leftmost position where a run of 32 base-58 characters
    starts, then the matches after it. The scan is proved equal to it.
  - The HTTP lookup is a function parameter with three outcomes: it throws,
    it answers with pairs, or it answers with none.
- The tracked-address store, in `store.dfy` (module `AddressStore`). It is a
  class holding a map from address to clock reading, with three operations:
  - insert-if-absent (`saveAddress`);
  - lookup (`getAddressTimestamp`);
  - an in-place age sweep (`clearOldAddresses`).

  `loadTrackedAddresses` hands the handlers the map itself, so here the
  handlers read the store object's `entries` directly and see every save at
  once.
- The per-address relay loops, in `relay.dfy` (module `Relay`). They are
  specified as functions over a trace of send attempts and the store's
  entries. Sending is an oracle of destination, address and attempt number.
  The clock is a function of the attempt number.
- The two event handlers, in `handlers.dfy` (module `Handlers`). They are
  methods with the source's nested loops, proved equal to the functions
  `DiscordFrom` and `TelegramFrom`.
  - The Discord handler works on its own store instance.
  - The Discord store functions are imported by `index.ts` but are not
    defined in `utils/utils.ts`. They are taken to behave like the Telegram
    store (`saveAddressDiscord` is not part of this model beyond that).

`wrappers.dfy` holds the `Option` type, which stands for JavaScript
`undefined`.

## Model

| member | source | states |
|---|---|---|
| AddressDetection.IsBase58 | utils/utils.ts:29 | the character class admits only digits and ASCII letters, and never `0`, `I`, `O` or `l` |
| AddressDetection.Greedy | utils/utils.ts:29 | the greedy `{32,44}` takes the run up to 44 characters: never more than the run or 44, and exactly one of them |
| AddressDetection.RunLength | utils/utils.ts:29 | the length of the longest base-58 prefix: all characters before it are in the class, the one at it is not |
| AddressDetection.GreedyMatch | utils/utils.ts:29 | where a run of 32 starts, the greedy `{32,44}` match is a prefix of the text and a candidate (32 to 44 base-58 characters, no `0`, `I`, `O` or `l`), and it is either 44 long or the whole run |
| AddressDetection.Scan | utils/utils.ts:29-30 | every string the global scan returns has length 32 to 44 and is made of base-58 characters |
| AddressDetection.KeepInRange | utils/utils.ts:31 | the filter returns no more strings than it is given, each one of them and each 32 to 44 long |
| AddressDetection.KeepInRangeKeepsCandidates | utils/utils.ts:31 | the length filter is the identity on a list of candidates |
| AddressDetection.GenericScan | utils/utils.ts:29-31 | the scan followed by the length filter returns exactly the scan's matches |
| AddressDetection.RegexMatches | utils/utils.ts:29-30 | every match of the declarative reading of the global pattern is a candidate |
| AddressDetection.ScanEmptyIff | utils/utils.ts:29-30 | the scan finds nothing exactly when no run of 32 base-58 characters occurs |
| AddressDetection.ScanIsRegexMatches | utils/utils.ts:29-30 | the scan returns the leftmost-first, greedy, non-overlapping matches of the global pattern, in order |
| AddressDetection.RunLengthStopsAt | utils/utils.ts:29 | a character outside the class ends a run |
| AddressDetection.ScanSplitsAt | utils/utils.ts:29-30 | a non-base-58 character splits the matches: those before it, then those after it |
| AddressDetection.ShortTextHasNoMatch | utils/utils.ts:29-30 | text shorter than 32 characters has no match |
| AddressDetection.ScanOfCandidate | utils/utils.ts:29-30 | a candidate alone is matched whole, once |
| AddressDetection.LongRunSplits | utils/utils.ts:29-30 | a base-58 run over 44 gives its first 44 characters, then the scan of the rest; a run under 32 gives nothing |
| AddressDetection.AppearanceOrderKept | utils/utils.ts:29-30 | candidates come back in order of appearance, duplicates kept |
| AddressDetection.DexAt | utils/utils.ts:8 | a listing-URL match at a position needs the 23-character prefix and at least 32 characters after it |
| AddressDetection.CaptureAt | utils/utils.ts:8 | the capture of the listing-URL pattern at a match is the text right after the URL prefix, a candidate, and either 44 long or the whole base-58 run there |
| AddressDetection.DexSearch | utils/utils.ts:7-9 | what the listing-URL search returns is a candidate |
| AddressDetection.DexCapture | utils/utils.ts:9 | the capture group of `message.match`, when there is one, is a candidate |
| AddressDetection.DexSearchFindsFirst | utils/utils.ts:7-9 | the search from a position is empty exactly when no match starts there or later; otherwise it is the capture at the first such match |
| AddressDetection.DexCaptureIsLeftmost | utils/utils.ts:7-9 | `message.match` of the listing-URL pattern fails exactly when no position matches, and otherwise captures at the leftmost match |
| AddressDetection.DexCaptureNeedsLongRun | utils/utils.ts:7-9 | a listing-URL match implies a run of 32 base-58 characters |
| AddressDetection.NoDotNoListingUrl | utils/utils.ts:7-9 | text without a `.` has no listing URL |
| AddressDetection.NoListingUrlWithoutD | utils/utils.ts:7-9 | no listing URL starts inside text holding no `d` |
| AddressDetection.UrlAtStart | utils/utils.ts:7-9 | a listing URL followed by a candidate and a space matches at the start and captures that candidate |
| AddressDetection.DexCaptureOfUrl | utils/utils.ts:7-13 | a listing URL for a candidate id, after text without a `d`, captures exactly that id |
| AddressDetection.Detect | utils/utils.ts:3-32 | the lookup is asked about exactly the listing URL's captured id, a candidate; each returned address is a candidate or the lookup's resolution of that id |
| AddressDetection.DetectWithoutLongRun | utils/utils.ts:7-31 | a message without a run of 32 base-58 characters gives `[]` and asks the lookup nothing |
| AddressDetection.DetectEmptyIff | utils/utils.ts:7-31 | the extractor returns `[]` exactly when the message has no run of 32 base-58 characters |
| AddressDetection.DetectResolved | utils/utils.ts:12-22 | a listing URL whose lookup has pairs gives exactly the first pair's address, after asking about the captured id |
| AddressDetection.DetectLookupFailed | utils/utils.ts:13-26 | a failed lookup gives exactly the captured id, a candidate taken at the leftmost listing URL |
| AddressDetection.DetectScansWholeMessage | utils/utils.ts:12-31 | with no listing URL, or a lookup with no pairs, the result is the global pattern's matches over the whole message, URL included; a lookup is made exactly when there is a URL |
| AddressDetection.DetectKeepsOrderAndDuplicates | utils/utils.ts:29-31 | a message with two candidates, one repeated, gives them in order with the repeat |
| AddressStore.Inserted | utils/utils.ts:37-41 | saving adds only the address; a known address keeps its reading, a new one gets the clock reading |
| AddressStore.Survivors | utils/utils.ts:52-59 | the sweep keeps exactly the entries with `now - timestamp <= maxAgeMs`, with their readings |
| AddressStore.TrackedAddresses.constructor | utils/utils.ts:35 | the store starts empty |
| AddressStore.TrackedAddresses.Save | utils/utils.ts:37-41 | the new entries are the old ones with the address inserted if absent |
| AddressStore.TrackedAddresses.Timestamp | utils/utils.ts:48-50 | the stored reading, or `undefined` exactly when the address is not stored |
| AddressStore.TrackedAddresses.ClearOld | utils/utils.ts:52-59 | deleting key by key leaves exactly the survivors of the sweep |
| AddressStore.SaveIdempotent | utils/utils.ts:37-41 | saving again changes nothing: the first reading stays |
| AddressStore.SweepBoundary | utils/utils.ts:55 | an entry exactly `maxAgeMs` old is kept; one a millisecond older is removed |
| AddressStore.SweepIdempotent | utils/utils.ts:52-59 | a second sweep at the same time removes nothing more |
| AddressStore.FreshSaveSurvives | utils/utils.ts:37-59 | an address saved at `now` survives a sweep at `now` with a non-negative limit |
| Relay.Skips | index.ts:89-90 | only an address the store holds is ever skipped; while no stored reading is `1`, the test `get(address) !== 1` skips nothing and the membership test skips exactly the stored addresses |
| Relay.Step | index.ts:136-142 | one attempt is appended with the oracle's outcome; afterwards the address is stored exactly when it was already or the attempt went through, a newly stored address carries this attempt's clock reading, and no stored reading changes |
| Relay.SendEach | index.ts:134-152 | one address gets exactly as many attempts as there are targets; the store keeps every key and gains at most that address |
| Relay.RelayEach | index.ts:130-156 | the trace does not shrink; the store keeps every key and gains only extracted addresses |
| Relay.SendEachAttempts | index.ts:134-152 | one address gets exactly one attempt per target, in target order, each with the oracle's outcome; a failure does not stop the rest |
| Relay.SendEachRecords | index.ts:136-142 | the address is recorded exactly when one of its sends went through; other entries are untouched |
| Relay.FirstDelivered | index.ts:134-152 | the first target that took the address, no earlier target having taken it |
| Relay.SendEachStampAt | index.ts:136-142 | an address new to the store whose first successful send is attempt `j` is stored with the clock reading of attempt `j` |
| Relay.SendEachStamp | index.ts:138-142 | a newly recorded address carries the clock reading taken after its first successful send |
| Relay.SendEachShape | index.ts:134-152 | one address's sends keep earlier attempts and name only that address and the targets |
| Relay.RelayEachShape | index.ts:130-152 | the loop keeps earlier attempts, sends only extracted addresses to configured destinations, records exactly the addresses with a successful send, and never changes a stored reading |
| Relay.SendEachTargets | index.ts:134-152 | one address's attempts go to every target, in target order |
| Relay.SendEachKeepsNoSentinel | index.ts:138-142 | with the clock never reading 1, saves never store the value 1 |
| Relay.SentinelNeverSkips | index.ts:132 | with stored clock readings, the test `get(address) !== 1` never skips: every extracted address, repeats and tracked ones included, goes to every destination in order |
| Relay.TrackedAddressResent | index.ts:90 | an already-tracked address is sent again, and an address repeated in a message is sent twice |
| Relay.MembershipSkipsTracked | index.ts:89 | with the membership test, an address already in the store is never attempted |
| Relay.MembershipDeliversOnce | index.ts:87-108 | with the membership test and one destination, an address once delivered is not attempted again |
| Handlers.ServerKey | index.ts:71 | a message in a server is matched under its server id; the key is `"undefined"` exactly for a message outside any server or in a server with that id |
| Handlers.Monitors | index.ts:75-77 | an entry monitors a channel exactly when it has the server and the channel is at some index of its list |
| Handlers.ExtractAndRelay | index.ts:123-126 | the lookup is asked about exactly the captured id, if any; the trace does not shrink; the store keeps its keys and gains only extracted addresses |
| Handlers.DiscordFrom | index.ts:74-110 | earlier lookups stay and at most one is added per server entry; the trace does not shrink |
| Handlers.TelegramFrom | index.ts:120-157 | earlier lookups stay and at most one is added per event; the trace does not shrink |
| Handlers.RelayToBot | index.ts:87-108 | the Discord per-address loop ends in the state `RelayEach` gives for the bot as sole destination |
| Handlers.OnDiscordMessage | index.ts:69-116 | the Discord handler's attempts, store and lookups are those of `DiscordFrom` |
| Handlers.RelayToChannels | index.ts:130-156 | the Telegram per-address loop ends in the state `RelayEach` gives for the target channels |
| Handlers.OnTelegramEvent | index.ts:118-162 | the Telegram handler's attempts, store and lookups are those of `TelegramFrom` |
| Handlers.Monitoring | index.ts:74-78 | the number of server entries monitoring the channel is 0 exactly when none does |
| Handlers.DiscordIgnoresUnmonitored | index.ts:74-78 | with no monitoring entry there is no extraction, lookup, send or save |
| Handlers.DiscordLooksUpPerEntry | index.ts:74-81 | the captured id is looked up once per monitoring entry; no lookup without a listing URL |
| Handlers.DiscordShape | index.ts:84-108 | the Discord handler sends only to the bot and only extracted addresses, records exactly those with a successful send, and changes no stored reading |
| Handlers.ExtractAndRelaySendsAll | index.ts:123-152 | with the clock never reading 1, one extraction sends every extracted address to every destination and never stores the value 1 |
| Handlers.DiscordKeepsNoSentinel | index.ts:74-108 | with the clock never reading 1, the Discord handler never stores the value 1 |
| Handlers.DiscordSendsPerEntry | index.ts:74-108 | with the clock never reading 1, the extracted addresses are sent to the bot once per monitoring entry |
| Handlers.ListingIdDetected | utils/utils.ts:13-26 | a message carrying a listing URL whose lookup throws gives exactly that id, after asking about it |
| Handlers.DiscordRelaysListingId | index.ts:69-116 | such a message in a monitored channel gives one lookup and one attempt, to the bot, saving the id if it went through |
| Handlers.TelegramIgnoresEmpty | index.ts:120 | an event without text, or with empty text, does nothing |
| Handlers.NothingFoundNothingSent | index.ts:126 | a message without a run of 32 base-58 characters, which is exactly a message whose extraction is empty, touches neither the store nor the network |
| Handlers.TelegramFansOut | index.ts:130-152 | with the clock never reading 1, every extracted address goes to every target channel, in extraction order and then channel order; recorded exactly when a send went through |

## Left out

- Client construction, login and the credential prompts: transport and terminal I/O.
- Configuration and environment loading. `MONITORED_SERVERS`, `BOT_USERNAME` and `TARGET_TELEGRAM_CHANNELS` are method parameters.
- The HTTP request to the pair API. It is a function from id to outcome.
  - A body whose first pair has no `baseToken` lands in the same catch as a network error, so it is the `Throws` outcome.
  - Repeated lookups of one id within a Discord event get the same outcome.
  - A first pair whose `baseToken` has no `address` makes the extractor return `[undefined]`, and the handlers would then send `undefined`. `Ok` carries strings only, so this outcome is not modelled.
- `sendMessage` is an oracle of destination, address and attempt number. Its side effects on Telegram are not modelled.
- `Date.now()` is a clock argument or a function of the attempt number. `setTimeout` delays are not modelled, and neither is any timing.
- Concurrent events and their interleaving, `main`, the process-level error handlers, and logging. The outer `try`/`catch` blocks only swallow errors from code outside the model.
- The iteration order of `clearOldAddresses`. The result does not depend on it, so `ClearOld` removes pending keys in any order.
- JavaScript's `in` also finds inherited properties such as `constructor`. Server ids are numeric strings or `"undefined"`, so inherited properties are not modelled. The configuration is taken to map ids to arrays.
- Numbers are unbounded integers: no floating point, no `NaN` age limit.
- The corrected skip test: the handlers keep the test as written (`get(address) !== 1`) because they model the code. The membership test is available to the relay functions as `Membership`, and its properties are proved there.

## Findings

| source | as written | input that shows it | evidently intended | confidence | as-written member | corrected member |
|---|---|---|---|---|---|---|
| index.ts:90 | skips an address only when its stored value is `1`; assuming `saveAddressDiscord`, which is not part of this model, stores `Date.now()` as `saveAddress` does (utils/utils.ts:39), nothing is ever skipped | an address saved earlier at reading 1700000000000 appears again and is sent again; a message naming the same address twice sends it twice | skip addresses already in the store (`!addressMap.has(address)`, left commented out on the line above) | not executed; rests on that assumption about `saveAddressDiscord` | Relay.TrackedAddressResent | Relay.MembershipSkipsTracked |
| index.ts:132 | the Telegram handler's copy of the same test: the store it reads holds `Date.now()` readings (written at utils/utils.ts:39), so it never skips | a message naming an address saved at reading 1700000000000 is sent to every target channel again | skip addresses already in the store | not executed | Relay.SentinelNeverSkips | Relay.MembershipSkipsTracked |
