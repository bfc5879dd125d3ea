# solana-lut-manager, modelled in Dafny

solana-lut-manager is a web page for Solana Address Lookup Tables (LUTs). It has
three views: one creates a table from a list of addresses, one extends an existing table, and one shows a table's rows.
It also has toast notifications and explorer-link helpers. The SDK does the protocol
work: instruction encoding, transactions, signing and RPC. What this project models is the
logic around it:

- the bulk-address parse: split on `"\n"`, trim each line, drop the empty lines (`Lut`, on the ECMAScript string operations in `Strings`);
- the extend view (`Extend`):
  - the duplicate partition of the candidates against the table's current rows, a loop proved against a recursive specification;
  - the class `ExtendLut`, holding the component state and the `loadedLutRef` fetch memo as fields, updated by its handlers and effects;
  - the duplicate preview and the button enablement;
- the create view's validation and submission gate (`Create.CreateLut`);
- the view component's error classification, its row numbering and its auto-fetch condition (`View.ViewLut`);
- the toast's auto-dismiss timer, as a state machine over integer milliseconds (`Toasts.Toast`);
- the Solscan URL builder and the signature shortener (`Solscan`, over `Networks`).

Whether a string is a public key is decided by `new PublicKey(s)`, the SDK's base-58 decode.
The model takes the set of strings that decode as the parameter `publicKeys: iset<string>`.
Every awaited network or wallet call becomes an outcome parameter:

- `FetchOutcome`: found with its keys, not found, or a thrown failure;
- `SubmitResult`: confirmed, or a thrown failure;
- `CreateOutcome`: the slot and the derived table address, or a failure.

A thrown value is a `Failure`: an `Error` with its message, or something else.
The banners are the `Notice` datatype, and `Lut.Text` gives the exact wording of each one.

`handleExtendLUT` is modelled in two steps:

1. `HandleExtendLut` is the part before its first `await`. It ends by adding the built transaction to `inFlight`. It takes the `duplicateAnalysis` of the render whose closure runs as a parameter: the Proceed button passes the current one, while `handleAnalyzeAndExtend` passes the one from before its own analysis.
2. `FinishExtend` is the awaited rest, for one entry of `inFlight`.

This split makes a known quirk observable: the Proceed button has no `isLoading` guard, so a second
submission can start while the first is pending. The create and view handlers each run as one step.

## Model

| member | source | states |
|---|---|---|
| Strings.TrimInfix | components/extend-lut.tsx:135 | `trim()` returns an infix of the line with only whitespace on either side, and the result neither starts nor ends with whitespace |
| Strings.Trim | components/extend-lut.tsx:135 | `trim()` never lengthens a line; what it returns is pinned down by TrimInfix and TrimUnique |
| Strings.AlphanumericNotWhitespace | components/extend-lut.tsx:135 | the whitespace set `IsWhitespace` that `trim` removes (ECMAScript WhiteSpace and LineTerminator) holds no ASCII letter or digit, so trimming never removes a character of a base-58 address |
| Strings.TrimUnique | components/extend-lut.tsx:135 | any such infix is the trimmed line, so the characterisation is complete |
| Strings.TrimChars | components/extend-lut.tsx:135 | every character of a trimmed line occurs in the line |
| Strings.TrimEmptyIffBlank | components/extend-lut.tsx:127 | a line trims to `""` exactly when it is all whitespace |
| Strings.TrimIdempotent | components/extend-lut.tsx:135 | trimming a trimmed line changes nothing |
| Strings.SplitLinesInverse | components/extend-lut.tsx:134 | no piece of `split("\n")` holds a newline, and joining the pieces with `"\n"` gives the text back |
| Strings.SplitLinesAppend | components/extend-lut.tsx:134 | splitting `a + "\n" + b` gives the pieces of `a` followed by the pieces of `b` |
| Strings.SplitLinesSingle | components/extend-lut.tsx:134 | a text without a newline splits into itself alone |
| Strings.SplitJoin | components/extend-lut.tsx:134 | splitting undoes joining when no line holds a newline |
| Strings.SplitLines | components/extend-lut.tsx:134 | `split("\n")` yields at least one piece, even for the empty text |
| Strings.RelativeIndex | lib/solscan.ts:8 | a negative `slice` index counts back from the end; the result lies inside the string |
| Strings.Slice | lib/solscan.ts:8 | `slice` never returns more than the string |
| Strings.SliceFrom | lib/solscan.ts:8 | `slice(k)` is the suffix from k for 0 ≤ k ≤ length, the last −k characters for a negative k down to −length, the whole string below that, and empty past the end |
| Strings.ClampIndex | components/extend-lut.tsx:359 | `substring` clamps its arguments into the string |
| Strings.Substring | components/extend-lut.tsx:359 | `substring` never returns more than the string |
| Strings.SubstringFrom | components/extend-lut.tsx:359 | `substring(k)` is the suffix from k inside the string, the whole string for a negative k, and empty past the end |
| Strings.NatToString | components/extend-lut.tsx:269 | the decimal numeral has at least one digit, only digits, and no leading zero |
| Strings.DecimalRoundTrip | components/extend-lut.tsx:269 | reading the numeral back gives the number |
| Lut.ExtendedTextCount | components/extend-lut.tsx:269 | the extend success banner starts with its fixed text, followed by the numeral of the count, and the count can be read back from it |
| Lut.CreatedTextTable | components/create-lut.tsx:95 | the create success banner ends with the new table's address |
| Lut.FailureText | components/extend-lut.tsx:284 | `err instanceof Error ? err.message : fallback`: a thrown `Error` gives its own message, and any other thrown value gives the fallback |
| Lut.Text | components/extend-lut.tsx:128-284 | the wording of every banner; a banner text is empty only for a thrown `Error` whose message is empty, which `{error && …}` then does not render |
| Lut.IndexFrom | components/view-lut.tsx:60-63 | the rows have the keys' length, and row i carries index i and key i |
| Lut.IndexEntriesRoundTrip | components/view-lut.tsx:60-63 | fetched rows are numbered 0..n-1, their address column is the key list, and the row set is the key set |
| Lut.AddressSetMembers | components/extend-lut.tsx:152 | `AddressSet`, the `new Set(currentAddresses.map(...))` of the rows, holds the address of every row and nothing else |
| Lut.TooShort | components/extend-lut.tsx:57 | the test `!lutAddress`, or a length under 32, holds exactly for addresses shorter than 32 characters, so the emptiness test adds nothing |
| Lut.CleanLines | components/extend-lut.tsx:135-136 | the filter keeps no more lines than it is given |
| Lut.CleanLinesNonEmpty | components/extend-lut.tsx:136 | no kept entry is empty |
| Lut.CleanLinesEntries | components/extend-lut.tsx:135-136 | every kept entry is the trim of one of the lines |
| Lut.CleanLinesAppend | components/extend-lut.tsx:135-136 | the pipeline works line by line: the clean of a concatenation is the concatenation of the cleans |
| Lut.CleanLinesEmpty | components/extend-lut.tsx:127-140 | the clean is empty exactly when the joined lines are all whitespace |
| Lut.ParseJoined | components/extend-lut.tsx:133-136 | text made of newline-free lines parses to exactly their non-blank trims, in order, repeats kept |
| Lut.ParseAddresses | components/extend-lut.tsx:133-136 | the `split`/`trim`/`filter` pipeline; never more entries than lines; its meaning is pinned down by ParseJoined, ParseAddressesEntries, ParseAddressesAppend and ParseAddressesLine |
| Lut.ParseAddressesEntries | components/extend-lut.tsx:133-136 | every parsed entry is non-empty, has no surrounding whitespace and holds no newline |
| Lut.ParseAddressesAppend | components/extend-lut.tsx:133-136 | the parse of two blocks joined by a newline is the first block's parse followed by the second's |
| Lut.ParseAddressesLine | components/extend-lut.tsx:133-136 | one line parses to its trim, or to nothing when it is blank |
| Lut.ParseEmptyIffBlank | components/extend-lut.tsx:127-140 | the parse is empty exactly when the text is blank, so the two "enter at least one address" checks agree |
| Lut.FirstInvalid | components/create-lut.tsx:53-59 | the first entry, in list order, that is not a public key; nothing exactly when every entry is a key |
| Lut.TableAddressError | components/view-lut.tsx:38-47 | "LUT address is required" exactly for the empty address; "Invalid LUT address" exactly for a non-empty non-key; none otherwise |
| Lut.InvalidAddressError | components/extend-lut.tsx:234-240 | `Invalid address: <a>` with `a` the first entry that is not a key; none exactly when all entries are keys |
| Networks.NameInjective | components/network-selector.tsx:6 | the three network names are distinct |
| Solscan.ClusterQuery | lib/solscan.ts:2 | the cluster query is empty exactly for mainnet-beta, otherwise it is `?cluster=<name>` |
| Solscan.GetSolscanUrl | lib/solscan.ts:1-3 | the URL is the prefix, the signature, then the cluster query; for mainnet-beta it is the prefix and the signature alone; the network defaults to devnet |
| Solscan.UrlDeterminesNetwork | lib/solscan.ts:1-3 | two URLs built for the same signature are equal only when they were built for the same network |
| Solscan.TruncateSignature | lib/solscan.ts:6-8 | the signature itself when it is at most 2·length long; otherwise the first `length` characters, then `...`, then the last `length` characters, 2·length + 3 in all; with length 0, `"..."` followed by the whole signature |
| Extend.Partition | components/extend-lut.tsx:151-164 | the single pass pushes each candidate onto `duplicates` or `unique`, and its results are the `Duplicates` and `Unique` specifications |
| Extend.Unique | components/extend-lut.tsx:155-164 | the specification of `uniqueAddresses`: the candidates not in the table, in order; never longer than the candidates (membership, order and counts in the lemmas below) |
| Extend.Duplicates | components/extend-lut.tsx:155-164 | the specification of `duplicateAddresses`: the candidates in the table, in order; never longer than the candidates |
| Extend.Analyze | components/extend-lut.tsx:151-169 | the recorded analysis; its two lists together are exactly as long as the candidates |
| Extend.PartitionCounts | components/extend-lut.tsx:155-164 | every occurrence of a candidate lands in the list its membership in the table selects, and repeats are kept |
| Extend.PartitionSizes | components/extend-lut.tsx:155-164 | together the two lists are the candidates as a multiset, so `|unique| + |duplicates| = |candidates|` |
| Extend.PartitionMembership | components/extend-lut.tsx:155-164 | `duplicates` holds exactly the candidates in the table, and `unique` exactly the others |
| Extend.UniqueKeepsOrder | components/extend-lut.tsx:155-164 | `unique` keeps the candidates' relative order |
| Extend.DuplicatesKeepOrder | components/extend-lut.tsx:155-164 | `duplicates` keeps the candidates' relative order |
| Extend.SubsequenceOfSameLength | components/extend-lut.tsx:155-164 | an order-keeping selection as long as its source is the source itself |
| Extend.SubsequenceLength | components/extend-lut.tsx:155-164 | an order-keeping selection is never longer than its source |
| Extend.NoDuplicatesKeepsAll | components/extend-lut.tsx:171-177 | with no duplicates, the unique list is the whole candidate list |
| Extend.AllDuplicatesLeavesNothing | components/extend-lut.tsx:211-213 | candidates all held by the table leave nothing unique, and all of them are duplicates |
| Extend.AnalyzeExample | components/extend-lut.tsx:151-169 | against a table holding A and B, the candidates B, C, C give unique C, C and duplicate B |
| Extend.ShortAddress | components/extend-lut.tsx:359 | a badge shows the first four and the last four characters around `...` |
| Extend.DuplicatePreview | components/extend-lut.tsx:357-366 | at most the first three duplicates are shown, each shortened; a "+N more" badge appears exactly when there are more than three, with N the count not shown |
| Extend.InputError | components/extend-lut.tsx:127-149 | "enter at least one address" exactly when the parse is empty; "one or more addresses are invalid" when some entry is not a key; none exactly when the parse is non-empty and all keys |
| Extend.SubmissionError | components/extend-lut.tsx:220-240 | the table-address error comes first, then the first invalid address; none exactly when the table address and every address are keys |
| Extend.AddressesToExtend | components/extend-lut.tsx:203-208 | the unique addresses of the analysis the closure sees, or else the parse, which is empty exactly for blank text and holds only non-empty, newline-free entries |
| Extend.StaleAnalysisDropsAddresses | components/extend-lut.tsx:188-205 | from the state StaleState reaches, the handler as written submits only C for the table, while the handler as intended submits B and C (see Findings) |
| Extend.AnalyzedAgainstFirst | components/extend-lut.tsx:42-178 | mounting on a table that holds B, loading its rows and analysing text that parses to B and C records unique C and duplicate B |
| Extend.StaleState | components/extend-lut.tsx:54-178 | after Cancel, a switch to a table that holds nothing and its fetch, the rows are empty and the analysis from the first table is still recorded |
| Extend.InputAccepted | components/extend-lut.tsx:127-149 | text that parses to two keys passes the input checks |
| Extend.AsWrittenFromStale | components/extend-lut.tsx:188-205 | from that state the handler as written submits C alone |
| Extend.IntendedFromStale | components/extend-lut.tsx:188-192 | from that state the handler as intended submits B and C |
| Extend.ParseTwoLines | components/extend-lut.tsx:133-136 | the text `B\nC` parses to B and C |
| Extend.ParseLetter | components/extend-lut.tsx:133-136 | a one-character line that is not whitespace parses to itself |
| Extend.ExtendLut.constructor | components/extend-lut.tsx:42-51 | the initial state: not loading, no banners, no rows, no analysis, no confirmation, empty memo |
| Extend.ExtendLut.EditLutAddress | components/extend-lut.tsx:118 | a new table address leaves the analysis and the memo alone, and the fetch effect is due exactly when the address changed |
| Extend.ExtendLut.ChangeEndpoint | components/extend-lut.tsx:118 | a new endpoint keeps the memo, and the fetch effect is due exactly when the endpoint changed |
| Extend.ExtendLut.FetchLutAddresses | components/extend-lut.tsx:55-117 | a too-short address clears the rows and keeps the memo; a memo hit does nothing; a non-key clears the rows; a found table replaces the rows and sets the memo; not found clears the rows; a failure keeps them; the memo changes only to a table that was found |
| Extend.ExtendLut.EditAddresses | components/extend-lut.tsx:121-124 | changing the text drops the analysis and hides the confirmation; nothing else changes |
| Extend.ExtendLut.AnalyzeAddresses | components/extend-lut.tsx:126-178 | bad input sets its error and leaves the analysis; otherwise the analysis of the parse against the current rows is recorded, the result is true exactly when there are no duplicates, and the confirmation shows exactly when there are |
| Extend.ExtendLut.RecordAnalysis | components/extend-lut.tsx:151-177 | the partition of the parse against the current rows is recorded; it may proceed exactly when there are no duplicates, and the confirmation shows exactly when there are |
| Extend.ExtendLut.HandleExtendLut | components/extend-lut.tsx:196-261 | no wallet: "Wallet not connected", nothing else touched; the list is the unique addresses of the analysis its closure sees (a parameter) when there is one, else the parse; an empty list gives "No new addresses to add"; a table or address error ends loading with that error; otherwise the extension of exactly that list for the current table joins `inFlight` and loading is on |
| Extend.ExtendLut.StartExtend | components/extend-lut.tsx:216-261 | loading starts and both banners clear; a table-address error, or else the first invalid address, ends loading with that error and builds nothing; otherwise the extension of exactly the given list for the current table joins `inFlight` and loading stays on |
| Extend.ExtendLut.FinishExtend | components/extend-lut.tsx:262-287 | the submission leaves `inFlight` and loading ends; a failure sets its message; confirmation sets the count banner, drops the analysis and the panel, then the refresh replaces the rows when found, and sets an error (beside the success banner) when it fails |
| Extend.ExtendLut.HandleAnalyzeAndExtend | components/extend-lut.tsx:180-194 | the corrected handler, in which `handleExtendLUT` reads the analysis just made: clears both banners; while the confirmation shows, nothing else; otherwise the analysis, and with no duplicates the extension of exactly the parsed list, in order and with its repeats |
| Extend.ExtendLut.HandleAnalyzeAndExtendAsWritten | components/extend-lut.tsx:180-205 | the handler as written: the same gates and analysis, but the addresses are chosen from the analysis recorded before the call; what it submits is `AddressesToExtend` of that older analysis |
| Extend.ExtendLut.Cancel | components/extend-lut.tsx:372 | hides the confirmation and keeps the analysis |
| Extend.ExtendLut.MainButtonEnabled | components/extend-lut.tsx:394 | enabled exactly when not loading, with a wallet key, a table address and non-blank text; when enabled, the text parses to at least one address |
| Extend.ExtendLut.ProceedEnabled | components/extend-lut.tsx:379-380 | enabled exactly when the panel shows and some address is unique; loading does not disable it |
| Extend.ExtendLut.ConfirmationVisible | components/extend-lut.tsx:345 | `showConfirmation && duplicateAnalysis`; under the invariant the second test adds nothing |
| Extend.ExtendLut.ConfirmationPreview | components/extend-lut.tsx:345-366 | a preview exists exactly while the panel shows, and it is the preview of the recorded duplicates |
| Create.InputError | components/create-lut.tsx:43-59 | "enter at least one address" exactly for an empty parse; otherwise the first invalid address; none exactly when the parse is non-empty and all keys |
| Create.CreateLut.constructor | components/create-lut.tsx:27-29 | the initial state: not loading, no banners |
| Create.CreateLut.EditAddresses | components/create-lut.tsx:121 | only the text changes |
| Create.CreateLut.HandleCreateLut | components/create-lut.tsx:31-102 | no wallet: "Wallet not connected" with loading and success untouched; past the gate, loading ends on every path and exactly one of `error` and `success` is set (an `Error` with an empty message sets `error` to `""`, which renders no banner); an input error builds nothing; a slot failure sets its message; otherwise the extend instruction carries exactly the parsed list, and confirmation sets the banner naming the new table |
| Create.CreateLut.ButtonEnabled | components/create-lut.tsx:144 | enabled exactly when not loading and a wallet key is present |
| View.AutoFetch | components/view-lut.tsx:76 | the effect fires exactly for addresses at least 32 characters long, so the emptiness test adds nothing |
| View.ViewLut.constructor | components/view-lut.tsx:27-29 | the initial state: not loading, no error, no rows |
| View.ViewLut.EditLutAddress | components/view-lut.tsx:75-79 | the effect runs exactly when the address changed and is long enough |
| View.ViewLut.ChangeEndpoint | components/view-lut.tsx:75-79 | the effect runs exactly when the endpoint changed and the address is long enough |
| View.ViewLut.HandleViewLut | components/view-lut.tsx:31-72 | loading ends on every path; an empty or non-key address gives its error and no network call; found gives the numbered rows of the keys; not found gives "LUT not found" and no rows; a failure gives its message and no rows |
| View.ViewLut.TotalShown | components/view-lut.tsx:121-155 | the total is shown exactly when there are rows, and it is their count |
| Toasts.ProgressColor | components/ui/toast.tsx:93-101 | green exactly for success, red exactly for destructive, blue for anything else |
| Toasts.ClickCallsOnClick | components/ui/toast.tsx:82-91 | `onClick` runs exactly for a clickable toast with a handler, when the click is not inside the close button |
| Toasts.Countdown | components/ui/toast.tsx:46 | what is left is never negative, never more than what was stored, and zero exactly when the elapsed time covers it |
| Toasts.CountdownSplit | components/ui/toast.tsx:69-80 | pausing loses no time: counting down in two stretches leaves what one stretch of the total leaves |
| Toasts.Toast.constructor | components/ui/toast.tsx:32-60 | `duration` defaults to 5000 ms; the remaining time starts at `duration`, and the timer starts exactly when the duration is positive |
| Toasts.Toast.ShowsProgressBar | components/ui/toast.tsx:119 | the bar renders exactly for a positive duration; without one no timer ever exists |
| Toasts.Toast.Tick | components/ui/toast.tsx:44-55 | a tick shows the countdown of the stored time since the last start; it closes exactly when nothing is left, and then the interval stops |
| Toasts.Toast.MouseEnter | components/ui/toast.tsx:69-76 | only with an interval id: stops the interval, takes the time since the last start off the stored time, clamped at 0, and pauses; the stored time never grows |
| Toasts.Toast.MouseLeave | components/ui/toast.tsx:78-80 | unpausing starts a fresh interval now, which counts down the stored time, not `duration` |
| Toasts.Toast.RestartEffect | components/ui/toast.tsx:39-67 | a re-run of the effect restarts the countdown now from the stored time, unless paused |

## Left out

- The base-58 decode behind `new PublicKey(...)` is a foreign SDK call. It is the parameter `publicKeys`.
- `Connection`, `AddressLookupTableProgram`, `TransactionMessage`/`VersionedTransaction`, wallet signing, `sendRawTransaction` and `confirmTransaction` are network I/O and foreign calls. They are the outcome parameters; the blockhash, signing, sending and confirmation steps collapse into one `SubmitResult`.
- Async interleaving is modelled only for the extend submission (`inFlight`). Each fetch, and the create and view handlers, run as one atomic step. Overlapping fetch responses, which the source applies in arrival order, are not modelled. Because of this, the extend view's `isLoadingLut` spinner flag is never true between steps, and the spinner it drives is not modelled; the field is kept only as the component's declared state.
- The toast's progress percentage is floating point. The model keeps the integer remaining time `shown` instead.
- `Date.now`, `setInterval` and `setTimeout` are replaced by the `dt` each event carries. The clock therefore never goes backwards, and ticks are not tied to the 50 ms period.
- Toasts.Toast: `duration` is fixed for the toast's life. A change of the `duration` prop while the toast is shown is not modelled.
- String lengths and indices count Unicode scalar values, as Dafny's `string` does; JavaScript's `.length`, `slice` and `substring` count UTF-16 code units. Lut.TooShort, View.AutoFetch, Extend.ShortAddress, Solscan.TruncateSignature, Strings.Slice and Strings.Substring therefore agree with the source only on text without astral characters (a table address of 16 emoji has `.length` 32 and passes the source's length test, but not the model's), and lone surrogates cannot be represented at all.
- Solscan.TruncateSignature: its contract says nothing about a negative `length`, although the body computes it as `slice` would.
- JSX, Tailwind classes, `console` logging and clipboard access (`copyToClipboard`, components/ui/copy-button.tsx) are rendering or browser I/O.
- The view component's View button (`disabled={isLoading}`) is a rendering detail.
- components/wallet-provider.tsx is context plumbing around a foreign endpoint lookup and an environment override. components/network-selector.tsx is not part of this model beyond its `Network` type.
- app/page.tsx, app/layout.tsx, components/ui/toaster.tsx and next.config.mjs are composition, layout and build configuration.

## Findings

| source | as written | input that shows it | evidently intended | confidence | as-written member | corrected member |
|---|---|---|---|---|---|---|
| components/extend-lut.tsx:188-205 | `handleAnalyzeAndExtend` calls the `handleExtendLUT` of its own render. That closure's `duplicateAnalysis` is the value from before the analysis just made, so an earlier analysis's unique list is submitted instead of the new parse. | The table holds B, and the text is `B\nC`. Extend: the analysis shows B as a duplicate; press Cancel. Change the table address to a table holding neither address, and extend again. The new analysis finds no duplicates, but the stale analysis selects only C, so B is silently dropped. StaleAnalysisDropsAddresses runs both handlers from that state. | With no duplicates, the whole freshly parsed list is submitted. | not executed | Extend.ExtendLut.HandleAnalyzeAndExtendAsWritten, exhibited by Extend.StaleAnalysisDropsAddresses | Extend.ExtendLut.HandleAnalyzeAndExtend |
