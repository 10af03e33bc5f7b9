# Timelock transaction history

BasketDAO's timelock viewer is a single page. It lists the governance transactions that a
multisig wallet sent to the DAO's 24-hour timelock contract. The wallet's transaction history
is fetched from a block explorer and reversed so the newest comes first. Each transaction is
decoded twice: first the multisig call, then the timelock call it forwards. Everything not
sent to the timelock is dropped.

For `queueTransaction`, `cancelTransaction` and `executeTransaction`, the `data` argument is
decoded once more. The argument types for this come from the human-readable `signature`
argument. The `eta` argument is given a relative-time label.

Each row gets a fingerprint: the JSON text of its `(name, value)` parameters. The fingerprints
of the non-queue rows are folded into a fingerprint-to-hash map. Every queue row then gets a
status: Cancelled if a cancel row carries the same fingerprint, otherwise Executed if an
execute row does, otherwise Queued. A Cancelled or Executed status links to the hash in the
map.

The rows are numbered. The table then applies two checkboxes (raw data bytes, raw target
address) and two case-insensitive substring filters (on the signature and on the function
name).

The model has these modules:

- `Wrappers`: `Option` and `Result`.
- `Seqs`: `filter`, the positions a filter keeps, and `reverse`.
- `Text`: JavaScript's `toLowerCase` on ASCII letters, `includes`, `split` with a
  one-character separator, and `join`.
- `Fingerprint`: `JSON.stringify` of a list of `{k, v}` string objects, and a reader for one
  escaped character. The reader is used to prove that the fingerprint text determines the
  parameters.
- `History`: decoding and shaping of one record, and of the whole fetched batch. Any failing
  record makes the batch fail.
- `Lifecycle`: the fingerprint-to-hash map, the executed and cancelled fingerprint lists, the
  statuses, the numbering, and the end-to-end `GetHistory`.
- `TableView`: the toggles and the filters.

The ABI decoders and the relative-time formatter are outside the model. They are fields of the
`History.Collaborators` value that every decoding operation takes (`History.Process`,
`History.ShapeRecord`, `History.DecodeBatch`, `Lifecycle.GetHistory`). The decoders return `None` where the
library would return `undefined`, or throw.

## Behaviour that follows the code

On several points `components/main.tsx` does not do what a reader might expect of a timelock
history. The model follows the code.

- There is one decoder, with every ABI registered in it (`components/main.tsx:41-43`). There
  are no per-contract dialects.
- There is no per-record recovery. Any of these rejects the whole `getHistory` promise, and
  `History.DecodeBatch` then returns that failure:
  - an unknown call;
  - a missing parameter;
  - a signature without `(`;
  - data that does not decode.
- Timelock calls other than the three governance functions are kept, not discarded. Their
  `data` parameter is not re-decoded.
- The map keeps the hash of the FIRST non-queue row it meets with a fingerprint. The spread
  `{[k]: hash, ...acc}` lets an existing key override the new one. The map is not
  last-write-wins. With the batch newest first, this first row is the newest one.
- The fingerprint is the JSON of every processed parameter of the row. That means the `data`
  value as re-rendered and the `eta` value with its label attached. It is not built from a
  separate `(target, value, signature, data, eta)` tuple.
- Cancellation wins whatever the order. For an action executed after a cancellation,
  newest-first `[execute, cancel, queue]`, the queue row shows Cancelled. Its link is the
  execute transaction's hash (`Lifecycle.ExecutedAfterCancelShowsCancelled`).

## Model

| member | source | states |
|---|---|---|
| Text.Lower | components/main.tsx:26-28 | lower-casing keeps the length, turns each capital A-Z into its small letter, and changes no other character |
| Text.LowerIdempotent | components/main.tsx:327-344 | lower-casing twice equals lower-casing once; a string without capitals is its own lower case |
| Text.IncludesIff | components/main.tsx:329-341 | `includes` holds exactly when the substring occurs at some position; the empty string is included in every string |
| Text.Split | components/main.tsx:94-97 | `split` gives at least one piece, and no piece contains the separator |
| Text.SplitCount | components/main.tsx:94-97 | the number of pieces is one more than the number of separators |
| Text.JoinSplit | components/main.tsx:94-97 | joining the pieces with the separator gives back the original string |
| Text.SplitJoin | components/main.tsx:94-97 | splitting the join of separator-free pieces gives back the pieces |
| Seqs.Filter | components/main.tsx:183 | the result is no longer than the input, holds only input elements that pass, and holds every input element that passes |
| Seqs.FilterIsSubsequence | components/main.tsx:183 | the filtered list is the input at an increasing list of positions, and those are exactly the positions whose element passes |
| Seqs.PositionsPointwise | components/main.tsx:314-344 | two lists whose elements pass two filters alike, position by position, are kept at the same positions |
| Seqs.FilterAll | components/main.tsx:327-344 | a filter every element passes keeps the whole list |
| Seqs.Reverse | components/main.tsx:71 | the reversed list has the same length, and its element `i` is the input's element `n-1-i` |
| Fingerprint.EscapeChar | components/main.tsx:139-143 | the JSON escape of a character is non-empty and does not start with a quote |
| Fingerprint.UnescapeEscapeChar | components/main.tsx:139-143 | reading one escape back recovers the character and consumes exactly its escape |
| Fingerprint.EscapeCharPrefixFree | components/main.tsx:139-143 | two equal texts that start with escaped characters start with the same character and continue alike |
| Fingerprint.EscapeFirst | components/main.tsx:139-143 | an escaped string followed by a quote starts with that quote exactly when the string is empty |
| Fingerprint.EscapePrefixFree | components/main.tsx:139-143 | the escaped body of a JSON string literal ends at its closing quote: equal texts have equal strings and equal remainders |
| Fingerprint.QuotePrefixFree | components/main.tsx:139-143 | two texts that start with JSON string literals and are equal have equal strings and equal remainders |
| Fingerprint.ObjectPrefixFree | components/main.tsx:139-143 | the same for `{"k":…,"v":…}` objects: equal texts have equal pairs and equal remainders |
| Fingerprint.ElementsInjective | components/main.tsx:139-143 | equal comma-separated object lists, closed by `]`, come from equal pair lists |
| Fingerprint.StringifyInjective | components/main.tsx:139-143 | two pair lists have equal `JSON.stringify` texts if and only if they are equal |
| History.TypeListSpec | components/main.tsx:94-97 | a type list exists exactly when the signature has a `(`; it has at least one entry, no entry holds a comma, and joined with commas it is the text after the first `(` up to the next `(` or `)` |
| History.TypeListOfPrototype | components/main.tsx:94-97 | for `name(args)rest` with no `(` in the name or arguments and no `)` in the arguments, the type list is the arguments split at commas |
| History.TypeListOfTwoArguments | components/main.tsx:94-97 | `f(a,b)` gives `["a", "b"]` |
| History.TypeListOfNoArguments | components/main.tsx:94-97 | `f()` gives `[""]` |
| History.TypeListOfEmptySignature | components/main.tsx:94-95 | an empty signature has no type list |
| History.TargetCell | components/main.tsx:126-135 | a target is shown by name exactly when its lower-cased address is a known target, and then by the name the table gives that address; otherwise it is shown as the lower-cased address |
| History.KnownTargetsNamed | components/main.tsx:54-57 | an address whose lower case is the Masterchef or BDPI address is shown as "Masterchef" or "BDPI" respectively |
| History.TargetCellIgnoresCase | components/main.tsx:126-135 | an address and its lower case get the same target cell |
| History.ShapeKeepsTimelockCalls | components/main.tsx:76-84 | an undecodable record fails; a decodable one is dropped exactly when its lower-cased forwarded target is not a timelock address; a kept row has the record's hash and the timelock address |
| History.ShapeGovernanceCall | components/main.tsx:89-123 | for the three governance functions: no type list and undecodable data each fail the record; otherwise the row shows `[v1, v2, …]`, keeps the raw bytes, and has the target, value, signature and labelled eta of the call |
| History.ShapeOtherCall | components/main.tsx:86-181 | any other timelock call fails with fewer than five parameters; otherwise it is kept with its name, no raw bytes, and its signature and data as first decoded |
| History.FingerprintIdentifiesParams | components/main.tsx:139-143 | two rows have equal fingerprints if and only if their processed `(name, value)` pairs are equal, whatever their hashes, names or timestamps; equal fingerprints mean equal target, value, signature, data and eta |
| History.SameFingerprintSameAction | components/main.tsx:137-143 | the same for two kept records of a batch, stated on their processed parameters |
| History.DecodeBatchFails | components/main.tsx:75-183 | the batch fails exactly when some record fails, and then with the failure of the first failing record |
| History.DecodeBatchFilters | components/main.tsx:75-183 | a successful batch holds, in order, one row per record that the noise filter keeps, that record's row |
| History.DecodeBatchKeepsOrder | components/main.tsx:75-183 | a successful batch's row `k` is the row of the record at the `k`-th kept position; the positions increase and are exactly those of the records sent to the timelock |
| Lifecycle.FoldFirstWins | components/main.tsx:188-196 | the reduction keeps every key of the accumulator with its value, adds each row's fingerprint, and maps a new fingerprint to the hash of the first row having it |
| Lifecycle.NonQueuedRows | components/main.tsx:186-187 | the filtered non-queue rows have exactly the fingerprints of the batch's non-queue rows, and a batch row that is the first with its fingerprint is the first in the filtered list too |
| Lifecycle.NonQueuedKVFirstWins | components/main.tsx:186-196 | the map's keys are exactly the fingerprints of non-queue rows, and each maps to the hash of the first such row in the batch |
| Lifecycle.TerminatorIsNotQueue | components/main.tsx:187-204 | a cancel or execute row is not a queue row |
| Lifecycle.TerminatorsAreKeys | components/main.tsx:186-204 | every fingerprint of a cancel or execute row is a key of the map |
| Lifecycle.GovernanceKinds | components/main.tsx:47-51 | a row is a queue, cancel or execute row exactly when its name, lower-cased, is that of the corresponding governance function |
| Lifecycle.FingerprintsOf | components/main.tsx:198-204 | a fingerprint is in the executed (cancelled) list exactly when some execute (cancel) row carries it |
| Lifecycle.Correlate | components/main.tsx:206-268 | the table has one entry per row; entry `i` is numbered `i` and holds row `i` unchanged |
| Lifecycle.CorrelateStatus | components/main.tsx:206-258 | only queue rows get a status; Cancelled exactly when some cancel row shares the fingerprint; Executed exactly when none does and some execute row does; Queued exactly when neither does |
| Lifecycle.CorrelateLink | components/main.tsx:207-249 | a Cancelled or Executed status always has a link, the hash of the first non-queue row with the same fingerprint |
| Lifecycle.SameActionSameStatus | components/main.tsx:206-258 | queue rows with equal fingerprints get equal statuses |
| Lifecycle.ExecutedAfterCancelShowsCancelled | components/main.tsx:186-249 | newest-first execute, cancel, queue of one action: the queue row is Cancelled with the execute row's hash |
| Lifecycle.LinkIsLatestCancel | components/main.tsx:186-228 | newest-first two cancels and a queue of one action: the queue row is Cancelled with the newer cancel's hash |
| Lifecycle.GetHistoryRows | components/main.tsx:66-268 | the history fails exactly when some fetched record fails; otherwise entry `k` is numbered `k` and holds the row of the `k`-th record, newest first, sent to the timelock |
| TableView.ShowRaw | components/main.tsx:314-326 | the data cell becomes the raw bytes when that box is ticked; the target cell becomes the raw address when that box is ticked; nothing else changes |
| TableView.PassesIff | components/main.tsx:327-344 | a row passes exactly when each non-empty filter occurs, ignoring case, in its signature or function name respectively |
| TableView.FiltersIgnoreCase | components/main.tsx:327-344 | a filter and its lower-case form select the same rows |
| TableView.UpperCaseFilterMatches | components/main.tsx:335-341 | the function-name filter "QUEUE" keeps a `queueTransaction` row |
| TableView.LongerFilterNarrows | components/main.tsx:327-344 | a row that passes longer filters passes their prefixes |
| TableView.VisibleIsFilteredHistory | components/main.tsx:314-344 | the table is the history at an increasing list of positions, each entry shown with the toggles applied; the positions are exactly those of the entries passing the filters, whatever the toggles |
| TableView.NoFilterShowsAll | components/main.tsx:327-344 | with both filters empty every entry is shown |
| TableView.TogglesOffShowHistory | components/main.tsx:314-326 | with both toggles off the entries are shown as they are |

## Left out

- ABI decoding (`abiDecoder.decodeMethod`, `ethers.utils.defaultAbiCoder.decode`, lines 77, 87 and 99-102) is a parameter of every decoding operation. Its encoding rules are not part of this model, so no encode/decode round trip is stated.
- Decoded values are strings. The decoder's arrays for array-typed parameters, and the `toString` applied to the values decoded from `data`, are part of the decoding parameter.
- The block-explorer, Infura and multicall providers, and the fetch of the history (lines 32-38, 67-70), are network I/O. `Lifecycle.GetHistory` takes the fetched list as a parameter. It assumes that list is oldest first, so that the `reverse()` at line 71 makes it newest first.
- The `reverse()` at line 71 reverses the fetched array in place. It is modelled as a value, since the array is not read again.
- The relative-time labels of `eta` and of the timestamp (`moment`, lines 110-123 and 155) read the clock. They are the `etaLabel` and `timestampLabel` parameters.
- JSX is not modelled: links, tooltips, dots and text areas. The `to` cell's `timelockNames` display name, the Etherscan URLs and the page text are also out. A row keeps the timelock address and a target cell; a status keeps the linked hash.
- React state and effects are not modelled (lines 271-279). When `getHistory` rejects, the page stays on "Loading"; the model returns the failure instead.
- The table's row object spreads the row fields next to `index` and `queue`. The model nests the row in an `Entry`.
- Text.Lower: maps only the ASCII capitals A-Z. JavaScript's `toLowerCase` also lowers capitals of other scripts. Addresses, hex data and ABI function names are ASCII; the user's filter text may not be.
- History.ShapeOtherCall: states the function name, the raw-data cell, and the signature and data cells of the row, each when that position is not named `eta`. It does not state the other cells.
- Strings are sequences of Unicode scalar values, while JavaScript strings are UTF-16 code units. The model cannot hold a lone surrogate, which `JSON.stringify` writes as a `\uXXXX` escape.
- The timestamp label is one function for the whole batch, while the page reads the clock again for each row (line 155). Two rows with the same timestamp therefore always get the same label here.
