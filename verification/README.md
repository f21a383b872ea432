# Verified model of the AgentSecrets server

The server keeps encrypted secrets for teams. Around them sit a tamper-evident forensic log, an audit export, workspaces
with members and billing accounts, a domain allowlist with its own log, telemetry, and rate limits. This project models
the parts of it that carry state or arithmetic and proves what they are for.

`dafny verify dfyconfig.toml` checks everything.

## How it is organised

| file | what it models |
|---|---|
| `Text.dfy` | options, results, string order and case, decimal numbers, and what each of them means |
| `Json.dfy`, `JsonParser.dfy`, `JsonExact.dfy` | canonical JSON text (RFC 8259, sections 4 to 7, keys sorted, no blanks, ASCII escapes), and a strict reader that takes exactly this text |
| `Digests.dfy`, `EntryBlocks.dfy`, `EntryLaws.dfy` | the content hash of a forensic record and exactly when its text can be read back |
| `Instants.dfy`, `Timestamps.dfy` | instants as the chain writes them, with padded or unpadded years; client timestamps |
| `ForensicChain.dfy`, `YearShifts.dfy`, `YearReadings.dfy` | the linkage hash and the chain it forms; exactly which records and histories it binds |
| `LinkCuts.dfy`, `InPlace.dfy` | exactly which stored records have a linkage text that can be read in one way only |
| `ForensicStore.dfy`, `IngestLaws.dfy`, `TamperEvidence.dfy` | ingestion and replay of forensic records; what each stored column is; which edits go unnoticed |
| `AuditExport.dfy` | filters and the paginated export, over a table that changes between pages |
| `RateLimit.dfy` | cached counters whose lifetime is renewed on every admitted call |
| `Allowlist.dfy` | the allowlist and its log, with bulk adds split into read and insert |
| `Tenancy.dfy` | users, workspaces, memberships and billing as one state with ten requests |
| `RequestLaws.dfy` | who may make each request, why it is refused, and what exactly it changes |
| `MembershipLaws.dfy`, `ManagerLaws.dfy`, `SeatLaws.dfy`, `BillingLaws.dfy` | what all sequences of those requests keep |
| `TenancyService.dfy` | the same requests as methods over tables, and the billing authorization scan |
| `CommandTable.dfy`, `CommandIndex.dfy`, `Commands.dfy`, `CommandNames.dfy`, `Sums.dfy`, `CommandLaws.dfy`, `CommandSigns.dfy` | cleaning, classifying and totalling telemetry command names, against the vocabulary |
| `TelemetrySync.dfy`, `SnapshotLaws.dfy` | the snapshot upsert; what each field of a snapshot is |
| `Secrets.dfy`, `SecretService.dfy` | bulk upsert of secrets against putting them one by one |
| `ProjectTransfer.dfy` | moving a project between workspaces |

Code that updates tables, counters or dictionaries is written as methods over fields or with loops, each proved equal to
a function on values. The theorems are lemmas about those functions; those named `...Exactly` say what a function answers
without naming it or its parts. A table is a map by primary key, or a sequence in creation order where the code depends on
order. A transaction is all or nothing.

SHA-256 is a parameter `H` of which only the shape of its results (64 lower-case hex digits) is assumed. Injectivity
would contradict that, so every binding theorem ends in "or these two different texts have one digest". Encryption is a
parameter as well; where decryption matters, `open(seal(n, v)) == Some(v)` is the only thing asked of it.

## What does not hold in general, and exactly when it does

* **Entry hashes.** Four blocks are hashed without a separator, so a record whose blocks include numbers can share its text
  with another one. A record's blocks are fixed by its text if and only if no number is followed by a positive number, or
  no number has a second non-zero digit (`DecodableExactly`). Objects, the intended blocks, always qualify, and then it does
  not matter what the other record holds (`EntryHashBinds`). In every other case `EntryHashShared` gives a different record
  with the same hash: one number is cut in two and two neighbours are joined (`MovedCutShares`).
* **Chain hashes.** Previous hash, id and timestamp stand behind one another without a separator, and whether `strftime`
  pads the year depends on the interpreter and its C library (CPython on Linux pads `%Y` from 3.12.5 and 3.13 on; before
  that glibc decides, and does not; the image of `Dockerfile:2` is any 3.12). The year format is a parameter, `Padded`
  or `Unpadded`. A head hash binds each record's id and timestamp as one text (`HeadBindsTexts`) and nothing else
  (`TextsFixHead`). Where years are padded that fixes ids and instants of any two histories (`PaddedHeadBindsHistory`);
  where they are not, it does so among records from year 1000 on (`HeadBindsHistory`), and both formats agree there
  (`SameFromThousand`). Against records of any year a history is fixed if and only if years are padded or each of its
  links can be read in one way: of the at most four ways to end the id and begin the year only one gives an existing day
  (`OnlyHistoryExactly`, for one link `OnlyLinkExactly`). From year 1000 on that means the year is divisible by 1000, or
  the day is a 29 February that the shorter year does not have, as in 1600 (`OneReadingFromThousand`): a record of 2024
  has the text of one of the year 24 whose id ends in `20` (`WideYearsShift`). Before year 1000 a digit can also move
  the other way (`NarrowYearsShift`).
* **Edited records.** Replay accepts a previous hash of any shape, so characters can move between it and the id in
  either direction and the record still verifies (`PrevGivesToId`, `PrevTakesFromId`). An honest record behind a digest
  is no exception: server-made ids are shorter than 64 characters and can take the digest's last character
  (`HonestRowMoves`). For one instant, previous hash and id are fixed by the text if and only if they are both one
  character long or both fill their columns (`PartsFixedExactly`); with the instant left open, the year must in addition
  be readable in one way that leaves room for both (`LinkFixedExactly`). An edit of a record that meets this is noticed
  (`SafeLinkEditsDetected`), and any other record has an edit that can be stored and verifies (`LinkEditMissed`). Edits
  that keep the id are another matter: they are noticed for every record whose id is not a number
  (`NamedEditsInPlaceDetected`), which covers all ids the server makes, for every record where years are padded
  (`PaddedEditsInPlaceDetected`), and in general if and only if the id does not stand in the text once more with a
  shorter or longer year behind it (`FixedInPlaceExactly`, `EditInPlaceMissed`).
* **Sending records again.** Entries with explicit ids leave the table as it is if and only if the ids of those accepted
  are all in it, or the call fails on a sequence number (`OfferIgnoredExactly`). That is so after the first sending
  (`ResendIgnored`), but a record is deleted with its workspace, and then the freed id can be taken by an entry that was
  ignored before (`FreedIdIsReused`; exactly when, `ResendAfterDeletion`).
* **A workspace always has an owner and a manager.** It does until one of the requests named in `DeposesOwner` and
  `LosesManagement`, and from then on it never does (`OwnersOnRuns`, `ManagersOnRuns`). Management is lost when the last
  manager, an admin, gives up the role through the role route, or when a batch of invitations resettles managers who hold no
  workspace key. `ManagersCanRunOut` is a run of the first kind, `KeylessOwnersCanBeReplaced` one of the second, after a
  workspace was created with an empty key, which the request schema accepts. Runs that always send keys never do the second
  (`KeyedManagersStay`, `KeyedOwnersStay`).
* **Summing command counts before classifying.** It equals classifying first if and only if no name that counts occurs with
  both a positive and a negative count (`ClassificationIsAdditive`).

Also found: two new keys that collide after upper-casing abort a whole bulk upsert (`CaseTwinsClash`, for `a` and `A`
`LowerAndUpperClash`); the empty billing id is accepted for anyone who manages a workspace without a reserved id
(`EmptyIdAccepted`).

## Model

| member | source | states |
|---|---|---|
| `Json.SortKeysSound` | `apps/workspaces/forensic_chain.py:39-41` | sorting keys at every depth yields the canonical form and keeps the meaning |
| `Json.CanonicalUnique` | `apps/workspaces/forensic_chain.py:39-41` | two canonical values that mean the same are the same value |
| `Json.MeaningFixesText` | `apps/workspaces/forensic_chain.py:39-41` | dicts built in different orders, at any depth, serialise identically |
| `Json.PermutedMembers` | `apps/workspaces/forensic_chain.py:39-41` | permuting the members of a dict does not change its meaning |
| `JsonParser.CharRead` | `apps/workspaces/forensic_chain.py:39-41` | every character, escaped by `json.dumps` (short escapes, `\uXXXX`, surrogate pairs), is read back by the strict reader, whatever follows it |
| `JsonParser.StringRead` | `apps/workspaces/forensic_chain.py:39-41` | every string literal reads back and leaves the rest of the text |
| `JsonParser.ValueRead` | `apps/workspaces/forensic_chain.py:39-41` | parse(print(v) + rest) = (v, rest) for every value the rest does not continue |
| `JsonParser.CanonicalFaithful` | `apps/workspaces/forensic_chain.py:39-41` | two dicts have one canonical text if and only if they mean the same |
| `JsonExact.CanonicalPrintable` | `apps/workspaces/forensic_chain.py:39-41` | every character of canonical text lies between blank and tilde, for every value |
| `JsonExact.CharExactly` | `apps/workspaces/forensic_chain.py:39-41` | a character is read from its own spelling and from no other: lower-case hexadecimal digits, `\u` only where there is no plain or short form |
| `JsonExact.StringExactly` | `apps/workspaces/forensic_chain.py:39-41` | a string literal is read as a string if and only if it is the one printed for it |
| `JsonExact.ValueExactly` | `apps/workspaces/forensic_chain.py:39-41` | a text is read as a value if and only if it is the one printed for it and the rest does not continue it |
| `Text.LessExactly` | `apps/workspaces/forensic_chain.py:39-41` | the key order: the first place where two keys differ decides, by code point |
| `Text.LettersMapped` | `apps/telemetry/commands.py:224-242` | lower and upper case map the alphabet letter by letter and leave everything else |
| `Text.StripExactly` | `apps/telemetry/commands.py:217` | stripping takes blanks off both ends and stops at what is not blank |
| `Text.ContainsExactly` | `apps/telemetry/commands.py:5-8` | a part is found if and only if it stands somewhere in the text |
| `EntryBlocks.ComputeEntryHash` | `apps/workspaces/forensic_chain.py:44-49` | feeding the hasher block by block digests the concatenated canonical texts, empty blocks as `{}` |
| `EntryBlocks.MissingExactly` | `apps/workspaces/forensic_chain.py:47-48` | a block is hashed as `{}` if and only if it is null, false, zero or empty, and otherwise as it is |
| `EntryBlocks.PreimageUnique` | `apps/workspaces/forensic_chain.py:44-49` | between lists of any two lengths in which no number is followed by a positive number: equal texts if and only if equal meanings |
| `EntryLaws.SeparableUnique` | `apps/workspaces/forensic_chain.py:44-49` | where the first list is such a one, any list with its text is at least as long, and means the same if it is as long |
| `EntryLaws.UncutUnique` | `apps/workspaces/forensic_chain.py:44-49` | where no number of the first list has a second non-zero digit, any list with its text is at most as long, and means the same if it is as long |
| `EntryLaws.DecodableExactly` | `apps/workspaces/forensic_chain.py:44-49` | blocks are the only ones of their number with their text if and only if one of these two conditions holds |
| `EntryBlocks.MeaningFixesPreimage` | `apps/workspaces/forensic_chain.py:44-49` | the preimage depends on the meaning of the blocks only |
| `EntryLaws.MovedCutShares` | `apps/workspaces/forensic_chain.py:44-49` | the failing family, complete: cutting a number elsewhere and joining two neighbours gives as many, different blocks with the same text |
| `EntryLaws.AdjacentNumbersShift` | `apps/workspaces/forensic_chain.py:44-49` | in particular a digit moves from a number of either sign to the positive number behind it |
| `EntryLaws.EntryHashBinds` | `apps/workspaces/forensic_chain.py:44-49` | equal entry hashes mean equal blocks, or a collision, whatever the second record holds, if the first meets the exact condition |
| `EntryLaws.EntryHashShared` | `apps/workspaces/forensic_chain.py:44-49` | if it does not, another record has the same text and so the same hash |
| `Instants.SameFromThousand` | `apps/workspaces/forensic_chain.py:60` | from year 1000 on padded and unpadded years give one text |
| `Instants.FormatWide` | `apps/workspaces/forensic_chain.py:60` | padded timestamps, and unpadded ones from year 1000 on, are 27 characters wide |
| `Instants.FormatInjective` | `apps/workspaces/forensic_chain.py:60` | a formatted timestamp names its instant, padded or not |
| `ForensicChain.ChainTextFixesParts` | `apps/workspaces/forensic_chain.py:52-61` | equal preimages have equal parts if and only if previous hash and id have equal lengths |
| `ForensicChain.PrevSplit` | `apps/workspaces/forensic_chain.py:52-61` | the genesis marker and a hex digest are never confused, so the text behind them is recovered |
| `ForensicChain.HeadBindsTexts` | `apps/workspaces/forensic_chain.py:52-61` | one head hash fixes the number of records and each one's id and timestamp as one text, or two of the records listed collide, whatever the years |
| `ForensicChain.TextsFixHead` | `apps/workspaces/forensic_chain.py:52-61` | chains with the same such texts have the same head |
| `ForensicChain.HeadBindsHistory` | `apps/workspaces/forensic_chain.py:52-61` | between histories with timestamps of full width, one head hash fixes number, ids and instants of all records, or two of the records listed collide |
| `ForensicChain.PaddedHeadBindsHistory` | `apps/workspaces/forensic_chain.py:52-61` | where years are padded, between histories of any years |
| `YearShifts.WideYearsShift` | `apps/workspaces/forensic_chain.py:52-61` | unpadded, the leading digits of a year from 1000 on can be read as the end of the id, on an existing day, if and only if the instant is not anchored: year divisible by 1000, or a 29 February the shorter year lacks |
| `YearReadings.OnlyLinkExactly` | `apps/workspaces/forensic_chain.py:52-61` | a link of any year is the only one with its text if and only if years are padded or one way to begin the year gives an existing day |
| `YearReadings.OneReadingFromThousand` | `apps/workspaces/forensic_chain.py:52-61` | from year 1000 on, that is if and only if the instant is anchored |
| `YearReadings.OnlyHistoryExactly` | `apps/workspaces/forensic_chain.py:52-61` | a history of any years is the only one with its texts if and only if years are padded or every link has one reading |
| `YearReadings.AllAnchoredFromThousand` | `apps/workspaces/forensic_chain.py:52-61` | from year 1000 on, if and only if every instant is anchored |
| `YearShifts.NarrowYearsShift` | `apps/workspaces/forensic_chain.py:52-61` | unpadded, for every date before year 1000 a link shares its hash with one of a later existing date, whatever the hash function |
| `LinkCuts.PartsFixedExactly` | `apps/workspaces/forensic_chain.py:52-61` | no other storable previous hash and id have the same text before one instant if and only if both are one character long or both fill 64 |
| `LinkCuts.LinkFixedExactly` | `apps/workspaces/forensic_chain.py:52-61` | a stored link of any year is the only storable one with its text if and only if there is one place to cut and, unpadded, one year to read that leaves room |
| `LinkCuts.SafeFromThousand` | `apps/workspaces/forensic_chain.py:52-61` | with timestamps of full width: if and only if both columns are full, or both hold one character and the year is padded or anchored |
| `InPlace.FixedInPlaceExactly` | `apps/workspaces/forensic_chain.py:52-61` | under one id, previous hash and instant are fixed by the text if and only if years are padded or the id does not recur before another year |
| `InPlace.NamesAreSafe` | `apps/workspaces/forensic_chain.py:52-61` | an id with a character that is no digit never recurs so |
| `Timestamps.ParseTruncates` | `apps/workspaces/forensic_chain.py:24-35` | six or more fractional digits, `Z`, `z` or `+00:00`, blanks around: the instant read is the one truncated to microseconds |
| `Timestamps.ParseCompletes` | `apps/workspaces/forensic_chain.py:24-35` | with fewer fractional digits or none the missing ones are read as zeros |
| `Timestamps.ChainTimestampReadsBack` | `apps/workspaces/forensic_chain.py:24-61` | the chain's own format reads back, and a nanosecond text yields the same chain preimage |
| `ForensicStore.ForensicTable.BulkCreate` | `apps/workspaces/services.py:996` | inserting with conflicts ignored equals inserting each row whose id is new |
| `ForensicStore.ForensicTable.IngestForensicLogs` | `apps/workspaces/services.py:902-997` | the table after a batch, and the count and ids returned; a sequence number that is none fails the call without change |
| `ForensicStore.ForensicTable.GetReplay` | `apps/workspaces/selectors.py:658-682` | the `verified` flag of a stored record, for members of its workspace only |
| `ForensicStore.AppendOnly` | `apps/workspaces/services.py:996` | stored rows never change; exactly the batch's ids are added |
| `ForensicStore.FirstWriteWins` | `apps/workspaces/services.py:996` | a new id keeps the first row offered under it |
| `ForensicStore.CountExact` | `apps/workspaces/services.py:996-997` | the count returned is the growth of the table if and only if all ids are new and different |
| `ForensicStore.BuiltRowVerifies` | `apps/workspaces/services.py:922-991` | a stored row replays as verified if and only if the supplied previous hash fitted 64 characters, or clipping it collides |
| `ForensicStore.StoredRowsVerify` | `apps/workspaces/selectors.py:672-682` | over any run of ingests every stored row stems from one entry and verifies as that entry decides |
| `IngestLaws.RowsAreEntries` | `apps/workspaces/services.py:902-997` | over any run every stored row is one entry, column by column: workspace, project, stream, number, id, the client's instant where it gave one, previous hash, the four blocks, and both hashes over these texts |
| `IngestLaws.ClientLinkKept` | `apps/workspaces/services.py:955-977` | the chain hash stored for an entry with its own id and instant is the digest of the emitter's linkage text |
| `IngestLaws.FirstEntryStored` | `apps/workspaces/services.py:921-996` | of the entries offered under a new id the first is the one stored |
| `IngestLaws.BuildsKnown` | `apps/workspaces/services.py:921-997` | the batch, and so the count answered, has one row for each entry of a known workspace |
| `IngestLaws.ReplayExactly` | `apps/workspaces/selectors.py:672-682` | a replay answers verified if and only if both stored hashes are the digests of the stored columns' texts |
| `ForensicStore.RunAppendOnly` | `apps/workspaces/services.py:902-997` | over any run of ingests, a stored row stays as it is |
| `ForensicStore.OfferIgnoredExactly` | `apps/workspaces/services.py:902-997` | entries with explicit ids change nothing if and only if every accepted id is stored, or the call fails |
| `ForensicStore.ResendIgnored` | `apps/workspaces/services.py:902-997` | sending entries with explicit ids again, with the same workspaces, changes nothing |
| `ForensicStore.ResendAfterDeletion` | `apps/workspaces/models.py:527-531` | after workspaces and with them their records were deleted, sending again changes nothing if and only if every id still accepted survived |
| `ForensicStore.FreedIdIsReused` | `apps/workspaces/models.py:527-531` | an id sent for two workspaces is stored for the first, and after that one's deletion a second sending stores it for the other |
| `ForensicStore.ReloadKeepsVerdict` | `apps/workspaces/selectors.py:672-682` | a database that reorders keys does not change the verdict |
| `TamperEvidence.BlockEditsDetected` | `apps/workspaces/selectors.py:672-682` | a verified row whose blocks are replaced by anything else no longer verifies under its hash, or collides, if the original meets the exact condition |
| `TamperEvidence.BlockEditMissed` | `apps/workspaces/selectors.py:672-682` | if it does not, a different row verifies under the same hashes |
| `TamperEvidence.SafeLinkEditsDetected` | `apps/workspaces/selectors.py:672-682` | a row whose link meets the exact condition keeps previous hash, id and instant under any edit that verifies with its hashes, or collides |
| `TamperEvidence.LinkEditMissed` | `apps/workspaces/selectors.py:672-682` | if it does not, another id, previous hash or instant can be stored and verifies under the same hashes |
| `TamperEvidence.PrevGivesToId` | `apps/workspaces/selectors.py:672-682` | one failing family: the last character of the previous hash moves to the front of the id |
| `TamperEvidence.PrevTakesFromId` | `apps/workspaces/selectors.py:672-682` | the other: the first character of the id moves to the end of the previous hash |
| `TamperEvidence.HonestRowMoves` | `apps/workspaces/selectors.py:672-682` | so a row behind a digest with an id shorter than 64 characters verifies with its cut moved |
| `TamperEvidence.LinkEditsDetected` | `apps/workspaces/selectors.py:672-682` | under one chain hash, previous hash, id and instant are unchanged if and only if the first two kept their lengths, or the texts collide |
| `TamperEvidence.WideLinkEditsDetected` | `apps/workspaces/selectors.py:672-682` | between timestamps of full width the instant is unchanged, and the previous hash if and only if the id is |
| `TamperEvidence.EditsInPlaceDetected` | `apps/workspaces/selectors.py:672-682` | two rows with timestamps of full width that verify under one id and the same hashes agree on blocks, instant and link, or collide, whatever the previous hash |
| `TamperEvidence.PaddedEditsInPlaceDetected` | `apps/workspaces/selectors.py:672-682` | where years are padded, for any two instants |
| `TamperEvidence.SafeInPlaceDetected` | `apps/workspaces/selectors.py:672-682` | padded or not, for any row that meets the exact condition for edits under its id |
| `TamperEvidence.NamedEditsInPlaceDetected` | `apps/workspaces/selectors.py:672-682` | padded or not, for every row whose id is not a number |
| `TamperEvidence.EditInPlaceMissed` | `apps/workspaces/selectors.py:672-682` | a row that does not meet it has an edit under its id that verifies |
| `TamperEvidence.EditsDetected` | `apps/workspaces/selectors.py:672-682` | between previous hashes that are both the genesis marker or a digest, as an honest emitter sends them, under any two ids: the ids agree too |
| `TamperEvidence.IdTakesFromYear` | `apps/workspaces/selectors.py:672-682` | unpadded, the leading digits of a year that is not anchored move to the end of the id and the row verifies |
| `AuditExport.ApplyFilters` | `apps/workspaces/selectors.py:322-353` | the narrowed query selects exactly the rows that meet every parameter given |
| `AuditExport.AskedExactly` | `apps/workspaces/selectors.py:322-353` | what the parameters ask for, by their names |
| `AuditExport.PageSound` | `apps/workspaces/views.py:464-470` | a page holds matching rows behind the cursor, newest first |
| `AuditExport.PageComplete` | `apps/workspaces/views.py:464-470` | a matching row behind the cursor is on the page, or older than a full page |
| `AuditExport.NextPage` | `apps/workspaces/views.py:464-480` | one query and its rows keep the export's promise, or complete it |
| `AuditExport.GenerateJsonl` | `apps/workspaces/views.py:460-480` | over a table that changes arbitrarily between pages: strictly descending output, each row from the table its page was read from, never above the cap; a row that matches from some query on and is then older than all written before is written too unless the cap was reached |
| `AuditExport.NoIdTwice` | `apps/workspaces/views.py:460-480` | while rows keep their timestamps no id is exported twice |
| `AuditExport.NewestFirst` | `apps/workspaces/views.py:440-470` | rows come by descending timestamp, and rows of one timestamp by descending id |
| `AuditExport.FixedTableExport` | `apps/workspaces/views.py:449-480` | on a fixed table the export is the first rows of the sorted matches, for every page size and cap |
| `RateLimit.Limiter.CheckRateLimit` | `apps/telemetry/services.py:47-61` | admission and the new counter of a telemetry call |
| `RateLimit.Limiter.CheckIngest` | `apps/workspaces/views.py:626-631` | admission and the new counter of an ingest call |
| `RateLimit.WithinLimit` | `apps/telemetry/services.py:57-60` | a counter never exceeds its limit |
| `RateLimit.Renewed` | `apps/telemetry/services.py:60` | the counter outlives every admitted call by a day |
| `RateLimit.BusyBound` | `apps/telemetry/services.py:57-61` | a caller that never pauses for a day is admitted at most `limit` times in all |
| `RateLimit.WindowBound` | `apps/telemetry/services.py:57-61` | any window shorter than 86400 seconds holds at most `limit` admitted calls |
| `RateLimit.QuietDayAdmits` | `apps/telemetry/services.py:57-61` | 86400 seconds without an admitted call make the next call admitted |
| `RateLimit.LimitReachable` | `apps/telemetry/services.py:57-61` | the bound is met: no call is refused before `limit` were admitted |
| `Allowlist.AllowlistService.ReadNew` | `apps/workspaces/services.py:375-386` | the read half of a bulk add: refusals, or the domains not there yet |
| `Allowlist.AllowlistService.InsertRecords` | `apps/workspaces/services.py:388-398` | the transactional half: all rows and log entries, or none on a duplicate |
| `Allowlist.AllowlistService.RemoveDomain` | `apps/workspaces/services.py:411-437` | a removal and its log entry, or an error and no change |
| `Allowlist.ReadExactly` | `apps/workspaces/services.py:375-386` | who is refused, and when there is nothing new |
| `Allowlist.NewDomainsConcat` | `apps/workspaces/services.py:384` | the new domains keep the order and repetitions of the request |
| `Allowlist.NewDomainsSingle` | `apps/workspaces/services.py:384` | a domain is new if and only if it is not there |
| `Allowlist.InsertExactly` | `apps/workspaces/services.py:388-398` | the insert succeeds if and only if the domains differ and are not there; then they are added and logged in order |
| `Allowlist.RemoveExactly` | `apps/workspaces/services.py:411-437` | a removal takes an admin and a domain that is there, in lower case, and logs it |
| `Allowlist.OnlyAdminsChange` | `apps/workspaces/services.py:368-437` | on every interleaving whatever changes the allowlist was removed by an admin or read by one |
| `Allowlist.LogTellsAllowlist` | `apps/workspaces/services.py:368-437` | under any interleaving of reads, inserts and removals each domain's entries alternate, its last entry tells whether it is there, and added minus removed is the size |
| `Allowlist.UndisturbedAdd` | `apps/workspaces/services.py:368-398` | undisturbed, the insert succeeds if and only if no new domain is named twice |
| `MembershipLaws.StepSound` | `apps/workspaces/services.py:79-360` | every request keeps owner seats with the workspace's owner |
| `MembershipLaws.OneOwnerAtMost` | `apps/workspaces/services.py:79-360` | in every reachable state an owner seat is held by the workspace's owner alone |
| `MembershipLaws.StepFrames` | `apps/workspaces/services.py:79-360` | a request leaves the seats of every workspace it does not name alone |
| `MembershipLaws.StepKeepsKeys` | `apps/workspaces/services.py:236-258` | with keys supplied on creation nobody is ever active without one |
| `RequestLaws.AcceptedExactly` | `apps/workspaces/services.py:79-360` | each of the ten requests is accepted if and only if its caller's active seat and role, the target's role, the workspace's kind and the free ids allow it |
| `RequestLaws.RefusedExactly` | `apps/workspaces/services.py:79-360` | which of the five errors a refusal carries |
| `RequestLaws.SeatsExactly` | `apps/workspaces/services.py:79-360` | every seat after every request: gone, given with this role, status and key, settled by a batch, or as it was |
| `RequestLaws.WorkspacesExactly` | `apps/workspaces/services.py:79-210` | every workspace after every request: founded, deleted, its id reserved, its tier set, or as it was |
| `RequestLaws.UsersExactly` | `apps/accounts/services.py:86-142` | users are only added, by registration, with the pool named after it |
| `RequestLaws.MigrationExactly` | `apps/secrets_app/services.py:244-323` | inviting to a project of a personal workspace leaves a new shared free one of the caller with exactly two seats, each with the key sent for its user, and the old one untouched |
| `RequestLaws.KeysWereSent` | `apps/workspaces/services.py:79-275` | in every reachable state the key in every seat is one that some request sent for that user and workspace |
| `RequestLaws.PersonalForever` | `apps/workspaces/services.py:116-127` | a personal workspace is never deleted and keeps owner and kind |
| `ManagerLaws.BatchSeats` | `apps/workspaces/services.py:232-267` | a batch sets exactly the seats that are missing, pending or without key, to role and key of the first entry that brings a key, and seats the others it names as pending |
| `ManagerLaws.OwnerKept` | `apps/workspaces/services.py:218-360` | an owner stays owner if and only if the request is not a promotion, an allowed demotion, or, for an owner without a key, an invitation with one; no request makes an owner again |
| `ManagerLaws.OwnersOnRuns` | `apps/workspaces/services.py:79-360` | on every run a workspace has its active owner if and only if no such request came since it was founded |
| `ManagerLaws.ExactlyOneOwner` | `apps/workspaces/services.py:79-360` | until then the workspace's owner is its only active owner, afterwards there is none |
| `ManagerLaws.KeyedOwnersStay` | `apps/workspaces/services.py:79-326` | runs that always send keys and never promote or demote keep every owner |
| `ManagerLaws.ManagementKept` | `apps/workspaces/services.py:218-360` | a managed workspace stays managed if and only if the request is not the last manager, an admin, giving up the role, or a batch that resettles managers without keys and makes nobody a manager |
| `ManagerLaws.ManagersOnRuns` | `apps/workspaces/services.py:79-360` | on every run a workspace has an active owner or admin if and only if no such request came since it was founded |
| `ManagerLaws.KeyedManagersStay` | `apps/workspaces/services.py:79-360` | runs that always send keys and do not use the role route keep a manager everywhere |
| `ManagerLaws.ManagersCanRunOut` | `apps/workspaces/services.py:277-360` | four accepted requests, with keys, that leave a workspace to nobody |
| `ManagerLaws.KeylessOwnersCanBeReplaced` | `apps/workspaces/services.py:232-250` | three accepted requests that do so through an empty key |
| `ManagerLaws.UnmanagedForever` | `apps/workspaces/services.py:79-360` | a workspace without a manager keeps its seats unchanged forever and is never deleted |
| `SeatLaws.OnlyManagersChangeSeats` | `apps/workspaces/services.py:116-360` | a change of an existing workspace's seats comes from one of its active owners or admins |
| `SeatLaws.NoSelfPromotion` | `apps/workspaces/services.py:218-360` | nobody becomes a manager except by another manager's request |
| `SeatLaws.RoleUpdateUndone` | `apps/workspaces/services.py:277-301` | giving back the former role restores the state if and only if the caller still manages the workspace |
| `SeatLaws.PromotionUndone` | `apps/workspaces/services.py:328-360` | demoting a freshly promoted member restores the state; the count check does not interfere |
| `SeatLaws.RemovedCanReturn` | `apps/workspaces/services.py:303-326` | a removed member is gone, others stay, and the project invitation takes the member back |
| `SeatLaws.BatchSettles` | `apps/workspaces/services.py:232-267` | after a batch every known user invited with a key is active, and without one is seated |
| `SeatLaws.ResentBatchIgnored` | `apps/workspaces/services.py:232-267` | sending a batch again changes nothing and reports every entry |
| `TenancyService.ReplyTellsChange` | `apps/workspaces/services.py:232-267` | an entry is reported without error if and only if it changed a seat, and as unknown if and only if its user is |
| `TenancyService.StatusExactly` | `apps/workspaces/services.py:187-210` | the status line is `active` for a paying account and otherwise the resolver's status in small letters, never empty |
| `TenancyService.Database.RegisterUser` | `apps/accounts/services.py:86-142` | registration with its personal workspace, or an error and no change |
| `TenancyService.Database.CreateWorkspace` | `apps/workspaces/services.py:79-103` | the new workspace and its owner's seat |
| `TenancyService.Database.DeleteWorkspace` | `apps/workspaces/services.py:116-127` | only the owner deletes, never a personal workspace; seats go with it |
| `TenancyService.Database.CheckManager` | `apps/workspaces/selectors.py:90-97` | the membership guard shared by the management routes |
| `TenancyService.Database.ProcessMemberInvites` | `apps/workspaces/services.py:218-275` | the tables after a batch, one reply per entry in order, and whether any entry took effect |
| `TenancyService.Database.InviteToProject` | `apps/secrets_app/services.py:244-323` | the membership side of a project invitation, with the move out of a personal workspace |
| `TenancyService.Database.UpdateMemberRole` | `apps/workspaces/services.py:277-301` | the role route: errors in order, one seat changed |
| `TenancyService.Database.RemoveMember` | `apps/workspaces/services.py:303-326` | the removal route: errors in order, one seat gone |
| `TenancyService.Database.ChangeMemberRole` | `apps/workspaces/services.py:328-360` | promote and demote, with the count of active managers |
| `TenancyService.Database.InitializeWorkspaceBilling` | `apps/workspaces/services.py:129-149` | reserves an id once and answers the id the workspace then holds |
| `TenancyService.Database.ReconcileWorkspaceBilling` | `apps/workspaces/services.py:151-210` | the tier, as stored and as answered, and the status line for every reply |
| `TenancyService.Database.AuthorizeBilling` | `apps/workspaces/views.py:562-590` | the scan grants if and only if some seat qualifies, and answers the first that does in the order listed |
| `BillingLaws.StepAccounts` | `apps/workspaces/services.py:129-210` | every request keeps billing ids distinct and pro workspaces reserved |
| `BillingLaws.ReservedForever` | `apps/workspaces/services.py:146-148` | a reserved id, and the owner, never change while the workspace exists |
| `BillingLaws.TierFollowsResolver` | `apps/workspaces/services.py:151-210` | on all runs a workspace is pro if and only if the resolver's last answer had plan `pro` and status `active`, letter case aside; silence and refusal change nothing |
| `BillingLaws.EffectiveFollowsResolver` | `apps/workspaces/services.py:151-210` | a workspace draws on its reserved id if the last answer was pro and active, and on its owner's pool after any other answer or none |
| `BillingLaws.EffectivePartition` | `apps/workspaces/models.py:78-92` | two workspaces share an effective id if and only if they are one, or both free with one owner |
| `BillingLaws.AccountsPartition` | `apps/workspaces/models.py:78-92` | the same in every reachable state |
| `BillingLaws.PoolIsPrivate` | `apps/workspaces/views.py:562-590` | a personal pool is accepted for its own user only, if and only if that user owns a workspace drawing on it |
| `BillingLaws.ReservedIsManaged` | `apps/workspaces/views.py:573-581` | a reserved id is accepted exactly for the active owners and admins of its workspace |
| `BillingLaws.UnknownRefused` | `apps/workspaces/views.py:562-590` | a non-empty id that belongs to nobody is accepted for nobody |
| `BillingLaws.EmptyIdAccepted` | `apps/workspaces/views.py:573-581` | the empty id is accepted exactly for those who manage a workspace without a reserved id |
| `Commands.RecoverPrefix` | `apps/telemetry/commands.py:222-226` | the first known prefix of a name that looks like a path |
| `Commands.SanitizeRawCommandName` | `apps/telemetry/commands.py:209-227` | the cleaned name |
| `Commands.ProcessCommandExecutions` | `apps/telemetry/commands.py:252-299` | the four dictionaries built by the loop |
| `Commands.LiveUsage` | `apps/telemetry/selectors.py:498-506` | the live metrics: raw counters summed over all snapshots, then classified |
| `CommandIndex.ListedOnce` | `apps/telemetry/commands.py:18-207` | no name of the vocabulary is listed twice |
| `CommandNames.SanitizeExactly` | `apps/telemetry/commands.py:209-227` | a name is kept, stripped, unless a marker occurs in it; then the first known prefix is what is left |
| `CommandNames.ClassifiedExactly` | `apps/telemetry/commands.py:229-249` | a cleaned name is the command of the one domain and action that list it, a typo if and only if none does, and discarded if and only if it is empty or ignored |
| `Sums.AddCountAdds` | `apps/telemetry/selectors.py:503` | bumping a raw counter adds that count's share to any additive total |
| `Sums.MergeAllAdds` | `apps/telemetry/selectors.py:499-503` | totalling the merged counter is totalling each snapshot |
| `Sums.OrderIrrelevant` | `apps/telemetry/selectors.py:499-503` | the order of the snapshots does not matter |
| `CommandLaws.ReportsFormMonoid` | `apps/telemetry/commands.py:252-299` | the four outputs add pointwise as a commutative monoid |
| `CommandLaws.MergedIsSummed` | `apps/telemetry/selectors.py:498-506` | summing and then classifying equals classifying and adding, in any order, for counts of any kind that adds up |
| `CommandSigns.ClassificationIsAdditive` | `apps/telemetry/commands.py:252-299` | it does, in any order, if and only if no name that is not discarded occurs with both signs |
| `CommandSigns.MixedFallsShort` | `apps/telemetry/commands.py:264-266` | for a name with both signs its figure comes out smaller when counters are summed first |
| `CommandSigns.NonNegativeIsAdditive` | `apps/telemetry/commands.py:252-299` | in particular for counts that are not negative |
| `CommandSigns.NegativeCountsBreakIt` | `apps/telemetry/commands.py:264-266` | the smallest failing family: one name, once with each sign |
| `CommandLaws.ProcessBalanced` | `apps/telemetry/commands.py:252-299` | canonical plus typo totals are the positive counts not discarded; each node's total is its canonical total and the sum of its actions |
| `CommandLaws.FiguresAreCounts` | `apps/telemetry/commands.py:252-299` | every single figure is the sum of the positive counts of the names it concerns |
| `CommandNames.FiguresByVocabulary` | `apps/telemetry/commands.py:252-299` | the same over the vocabulary itself, with the alias rule |
| `CommandNames.OnlyPositiveShown` | `apps/telemetry/commands.py:264-266` | every key shown in the totals has a positive figure |
| `CommandLaws.SanitizeUnmarked` | `apps/telemetry/commands.py:209-227` | a cleaned name holds no path or binary marker |
| `CommandLaws.ProcessClean` | `apps/telemetry/commands.py:252-299` | no key of any of the four outputs holds a marker |
| `TelemetrySync.Build` | `apps/telemetry/services.py:114-190` | items become snapshots: time, user, gaps filled from the batch, counts, typos |
| `SnapshotLaws.SnapshotExactly` | `apps/telemetry/services.py:108-190` | each field of a snapshot: the signed-in user before the address, the day before the time before the clock, gaps from the first item that fills them, the server's counts before the reported ones, found typos over reported ones |
| `SnapshotLaws.KeyExactly` | `apps/telemetry/services.py:199-213` | two snapshots share a row if and only if they are of one day and one user, or anonymous and of one system, processor, version and environment |
| `TelemetrySync.TelemetryTable.First` | `apps/telemetry/services.py:199-213` | the two queries find the newest row of the snapshot's key |
| `TelemetrySync.TelemetryTable.ProcessSyncPayload` | `apps/telemetry/services.py:63-233` | the table after a batch; created is its growth, created plus updated the batch size |
| `TelemetrySync.UpsertAt` | `apps/telemetry/services.py:215-228` | one snapshot is one write to a keyed map: an old row keeps user and time and takes the fields, a new one is added |
| `TelemetrySync.BatchIsKeyedWrites` | `apps/telemetry/services.py:195-228` | after a batch each key holds the last snapshot's fields; unnamed keys are untouched |
| `TelemetrySync.FirstTimeLastFields` | `apps/telemetry/services.py:195-228` | in every reachable state each key ever sent has exactly one row: first time, last fields |
| `TelemetrySync.ResendChangesNothing` | `apps/telemetry/services.py:195-228` | snapshots with the same keys and fields change no row |
| `TelemetrySync.DatedBatchIsIdempotent` | `apps/telemetry/services.py:114-228` | a batch whose items carry a date or time creates and changes nothing when sent again |
| `Secrets.BatchIsSequential` | `apps/secrets_app/services.py:344-370` | the transaction equals putting the secrets one by one, and fails if and only if two of them would create one row; uniqueness is kept |
| `Secrets.RowsAfter` | `apps/secrets_app/services.py:350-370` | old rows keep id, slot and policy and take the last value sent; new rows have no policy |
| `Secrets.SlotsAfter` | `apps/secrets_app/services.py:350-370` | the slots held afterwards are those held before and those requested |
| `Secrets.OthersUntouched` | `apps/secrets_app/services.py:346-370` | other projects, environments and keys are left exactly as they were |
| `Secrets.ReadBack` | `apps/secrets_app/services.py:350-370` | each key reads back, decrypted, as the last value sent under it |
| `SecretService.Vault.Fetch` | `apps/secrets_app/services.py:345-348` | the query finds the rows of the request's keys, all of them |
| `SecretService.Vault.Sort` | `apps/secrets_app/services.py:350-359` | the split into rows to create and rows to update, edited in memory |
| `SecretService.Vault.BulkCreate` | `apps/secrets_app/services.py:364-365` | creation succeeds only if every slot and id is free |
| `SecretService.Vault.BulkUpdate` | `apps/secrets_app/services.py:366-367` | every changed row takes its final value, nothing else changes |
| `SecretService.Vault.BulkUpsertSecrets` | `apps/secrets_app/services.py:331-410` | access errors, the collision that changes nothing, the table otherwise, and the counts |
| `SecretService.StandingExactly` | `apps/secrets_app/services.py:338-342` | secrets are written by active owners, admins and members; read-only members and strangers are refused, and only a missing project is not found |
| `SecretService.RequestReadBack` | `apps/secrets_app/services.py:344-370` | each key of a request, upper-cased, reads back in its project and environment as the last value sent under it |
| `SecretService.CaseTwinsClash` | `apps/secrets_app/services.py:344-365` | two new keys of a request with one upper-case form fail it as a whole |
| `SecretService.LowerAndUpperClash` | `apps/secrets_app/services.py:344-365` | the smallest request that does: `a` and `A`, neither stored |
| `ProjectTransfer.ProjectStore.Check` | `apps/secrets_app/services.py:136-165` | the refusals of a transfer, in order |
| `ProjectTransfer.RefusedExactly` | `apps/secrets_app/services.py:143-165` | a transfer takes a manager of both workspaces, another existing target and a free name; which error the first missing one has |
| `ProjectTransfer.MovedExactly` | `apps/secrets_app/services.py:172-191` | every project, secret and agent after a move, row by row |
| `ProjectTransfer.ProjectStore.Reseal` | `apps/secrets_app/services.py:178-188` | exactly the project's listed secrets take new values; their number is returned |
| `ProjectTransfer.ProjectStore.TransferProject` | `apps/secrets_app/services.py:136-195` | the whole transfer: refused without change, or project, secrets and agents moved |
| `ProjectTransfer.TransferKeepsConstraints` | `apps/secrets_app/services.py:160-188` | (workspace, name) and (project, environment, key) stay unique |
| `ProjectTransfer.SecretsConserved` | `apps/secrets_app/services.py:178-188` | ids, projects, environments, keys and policies are unchanged; listed values decrypt to what was sent |
| `ProjectTransfer.MovesCompose` | `apps/secrets_app/services.py:172-191` | two moves in a row equal one move to the last target with the lists joined |
| `ProjectTransfer.ThereAndBack` | `apps/secrets_app/services.py:172-191` | after a move all of the project's agents sit in the target; moving back restores everything if and only if they all sat in the project's workspace before |

## Left out

- HTTP, asynchronous plumbing, logging, settings, administration, database migrations and SQL generation: input and output.
- JSON floats and the fallback of `json.dumps` for other types: values are null, booleans, integers, strings of Unicode scalar values, arrays and objects.
- Encoding canonical text as UTF-8 before hashing: that text is ASCII (`JsonExact.CanonicalPrintable`), so the encoding is the identity; for linkage texts, of Unicode scalar values, it is injective.
- SHA-256, Fernet, NaCl, Argon2 and JWT internals: parameters.
- HeadBindsHistory: the chain hash covers link, id and instant, not the blocks, which the entry hash covers.
- Conversion of timestamps from other zones to UTC, and other spellings that `datetime.fromisoformat` accepts (a comma, a blank for the `T`, basic format): instants are given by their UTC calendar fields.
- ForensicStore.RunAppendOnly: runs are runs of ingests; deletion of workspaces, which removes their records, is in `Cascade` and the lemmas about it. `stream_seq` values outside the column's 64 bits, which the database refuses, are not modelled.
- ForensicStore.ForensicTable.GetReplay: the fields that the response copies from the record are left out.
- Database collation: ids are ordered by code point.
- Letters outside ASCII in command names, domains and filters: lower and upper case are ASCII only in `Text.dfy`. The bulk upsert takes `str.upper` as a parameter.
- The parsing of `since` and `until` in the audit filters: they are taken as parsed.
- Racing calls to one rate limit key, and removals from the allowlist that interleave with one another: the code checks and writes separately there; calls are taken one after the other. Bulk adds do interleave with everything.
- RateLimit.Limiter.CheckRateLimit: a counter is taken to stay in the cache until it expires. The settings name no cache, so the framework's default applies: one memory cache per process, which evicts entries beyond 300 keys and is not shared between processes. Bounds are per process and while nothing is evicted.
- The counters of unauthenticated ingest calls: nothing is ever refused by them.
- Looking up the target of a member route by membership id: it selects the same row as the user id.
- Emails as the key of users: users have numbers, and an unknown number stands for an unknown email.
- Names and descriptions of workspaces and projects, and renaming: no rule depends on them except a project's name, which the transfer models.
- TenancyService.Database.InviteToProject: the project pointer and the secrets rewritten when a project leaves a personal workspace are not part of the membership state; agents of that project stay behind in the source, and tokens keep their workspace after a transfer.
- Agent tokens as callers of billing authorization: the path compares one id and has no state.
- UnmanagedForever: administration outside the routes is not covered.
- TelemetrySync.TelemetryTable.ProcessSyncPayload: payload shapes and validation before the loop are left out, the two counting queries are given, and client times are in UTC.
- ProjectTransfer.ProjectStore.TransferProject: finding a project by name alone, without a workspace, is left out: the code then takes whichever the database lists first. Activity log entries are left out too.
- SecretService.Vault.BulkUpsertSecrets: generated ids are taken to be new, as the code does, and the activity log is left out.
- The `version` shortcut of workspace sync, the migration application, agents, metric reports and their percentages: easy or not decided by this code.
