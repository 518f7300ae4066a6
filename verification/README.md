# nikki: a model of its capture pipeline

nikki records what happens on a Mac. Providers read their sources step by step and hand over drafts
together with a cursor; one owner thread seals the drafts into a bounded table and stores the cursor in
the same transaction; a shipper drains the table against a service that may refuse, stall or answer
nonsense. What can go wrong sits where a resumable cursor, a bounded table and a batch in flight meet,
and that is what is modelled here. Operations that change things step by step are classes and methods,
each proved equal to a function of its inputs or its old state; what nikki promises is then proved about
those functions.

The line of the main results, from a byte of a transcript to the fate of its record:

1. `Reading` gives the meaning of a transcript free of budgets, as small steps and again as a list of
   complete lines; `Reading.ReadIsParse` says the two are one. `Scanning` is the loop with its three
   budgets, its line cap and its skipping flag; `Scanning.AnySlicing` says every slicing is that one read.
2. `Transcript` is the same loop in place, over a buffered reader that may return any chunk;
   `Following` follows one file through polls that find prefixes of a growing log.
3. `Tables` has the transactions of the buffer, `Effects` what they leave, field by field, `Markers` the
   length of an overflow marker, and `BufferOwner` the commands that carry them out;
   `Shipping` is the shipper; `Delivery` interleaves the two, with a ledger of every record ever sealed,
   over runs without restriction, and `Graves` says what became of the batches, told by the answers.
4. `Pipeline` puts any number of transcripts, other providers, the shipper, refusals and kills into one
   run. `Pipeline.PlayKeeps` says what is sealed for a transcript is the parse of its log before the
   stored cursor; `Pipeline.EveryLineAccounted` says where each of those records is, or what made it go missing.

Beside that line stand the browser-history poller (`History`), dedup and cursor keys (`Keys`,
`KeyForms`, `Devices`, `CursorKeys`), the git-root cache (`RepoRoots`), the process-argument parser (`Procargs`),
the observer registry (`Observers`), the debounce (`Debounce`) and the choice of a display
(`Visibility`).

Where the code is not as its documentation or its shape suggests, the model follows the code:

- The ids of `pending` are given as highest + 1, and 1 when the table is empty. If one enqueue evicts
  every row while a batch is out, the overflow marker takes id 1, and the answer to the batch can delete
  it. `Delivery.EvictsAllByCaps` says when an enqueue evicts every row: with `max_rows` = 1, or when
  the newest record alone is over `max_bytes` less the headroom. `Delivery.GuardedExactly` and
  `Delivery.ReuseExactly` say exactly which enqueues endanger a batch, `Delivery.RunLosesExactly` which
  runs lose a record, and `Delivery.RunKeeps` which records those are. Both causes do lose one:
  `Delivery.MarkerLost` with one row of room, `Delivery.OversizedLoses` with any number of rows and a
  record that is too long. Nothing bounds a record, so raising `max_rows` alone protects nobody
  (`Delivery.EveryConfigLoses`); `Delivery.RoomyRunsLoseNothing` says what does.
- README.md of nikki says the oldest go until both totals are under their limits, and then a marker
  follows. The marker holds the device name, whose length is not bounded, so it can be larger than the
  512 bytes held back for it. `Markers.CapsHoldForDevice` says for which names the caps hold: those of
  at most 209 bytes in JSON. `Markers.MarkerOverHeadroom` is a run of two enqueues after which they do not.
- Dedup fields are joined by U+001F without escaping. `Keys.KeyUniqueExactly` says which records of a
  device have a key of their own, `Devices.DevicesMeetExactly` which devices can share keys, and
  `Keys.SeparatorCollides` gives two titles of two sessions with one key.
- A history table whose highest visit id is negative counts as replaced on every poll:
  `History.SecondPollSilent`.
- An empty first argument is taken for padding by the process-argument parser:
  `Procargs.FirstArgumentExactly`.

Conventions. Strings are sequences of UTF-8 units, so that a length is a length in bytes. JSON, RFC 3339
and SHA-256 stand for functions that are parameters of the model, as does redaction: a line arrives as
the members the provider looks up, or as nothing. Times, file contents, chunk sizes, answers of the
service, which commands the buffer refuses and who accepts an observer are arguments too, so each result
holds for all of them. A transaction is one step that commits or changes nothing.

## Model

| member | source | states |
|---|---|---|
| Lines.Touched | src/providers/claude_code.rs:981-1001 | each repository and action at most once, after those already seen |
| Lines.TouchedInOrder | src/providers/claude_code.rs:981-1001 | of two touches of a line the earlier is named by a tool call before the later ever is |
| Lines.TouchedExactly | src/providers/claude_code.rs:962-1022 | a line touches a repository under an action exactly when one of its tool calls names a path in it under that action |
| Lines.CarryIsLastMessage | src/providers/claude_code.rs:920-943 | the time a line passes on is the time of the last message drafted so far; titles, touches and broken lines never move it |
| Lines.LastMessageExactly | src/providers/claude_code.rs:863-865 | the time carried is that of the last message there is, and what was carried in when there is none |
| Lines.LineKeysStable | src/providers/claude_code.rs:1136-1176 | the keys a line yields, and the time it passes on, do not depend on the time it is read under nor on the carried time |
| Lines.OneDraftPerBlock | src/providers/claude_code.rs:1063-1134 | a message line ships exactly when it is no sidechain, no meta line of the user, and has uuid, time and text; then one draft per text block, in order, text untouched, with session, uuid, block, role, kind, directory, branch and profile of the line |
| Lines.OneDraftPerTouch | src/providers/claude_code.rs:962-1022 | a touch ships exactly from a line outside sidechains that has uuid and time and names a path in the repository under the action; it carries the line's session, uuid and time |
| Lines.LineYields | src/providers/claude_code.rs:920-943 | which type of line yields what: a user or assistant line its messages, with touches when they are collected; the three title lines one title each of their own field; any other line nothing |
| Lines.TouchesInOrder | src/providers/claude_code.rs:981-1021 | of two touches shipped from a line the earlier is named before the later ever is |
| Lines.SinceExactly | src/providers/claude_code.rs:867-872 | a `since` keeps exactly the drafts not before it |
| Lines.TextCounted | src/providers/claude_code.rs:873-878 | a line counts with the whole text of its messages against the text budget, and with none for touches |
| Reading.Read | src/providers/claude_code.rs:796-881 | the read stops only where no step is left, within the file |
| Reading.NewlineAt | src/providers/claude_code.rs:405-427 | the first newline from a point on, or the end |
| Reading.SkipResumes | src/providers/claude_code.rs:800-809 | a line over the cap may be left at any byte before its newline and resumed there without changing what is read |
| Reading.ReadExtends | src/providers/claude_code.rs:725-893 | reading a file that grew is reading what was there, then going on from the mark that left |
| Reading.ReadAgrees | src/providers/claude_code.rs:780-860 | only the modification times of bytes still ahead of the mark have a part in a read |
| Reading.OverCap | src/providers/claude_code.rs:819-834 | a line over the cap is passed whole without a draft, and an unfinished one is entered as skipped |
| Reading.LinesExactly | src/providers/claude_code.rs:817-836 | the lines of a file lie end to end, each with one newline at its end, up to the unfinished one |
| Reading.ReadIsParse | src/providers/claude_code.rs:796-881 | a read is the parse of the complete lines in order, each counted by its length against the cap alone; the mark is at the unfinished line, or past it once that is over the cap |
| Scanning.TurnIsStep | src/providers/claude_code.rs:796-881 | under any budget a pass that goes on is a step of the unbudgeted read, and one that breaks stands still or stops inside a skipped line |
| Scanning.ScanIsReadOfPassed | src/providers/claude_code.rs:725-893 | under any budgets, zero included, an increment is exactly the read of the bytes it passed |
| Scanning.ScanThenRead | src/providers/claude_code.rs:725-893 | an increment followed by the read from where it stopped is the whole read |
| Scanning.ScanStops | src/providers/claude_code.rs:883-885 | with positive budgets an increment is nothing exactly when no complete line and no skippable byte is left |
| Scanning.AmpleScanIsRead | src/providers/claude_code.rs:796-798 | one increment whose budgets hold everything is the unbounded read |
| Scanning.ScanBounded | src/providers/claude_code.rs:796-815 | an increment passes no more bytes than its scan budget, or than its first line or cap-sized piece |
| Scanning.ScanOvershoot | src/providers/claude_code.rs:796-880 | less the drafts of one complete line within the cap, which it passed, an increment is within its record and text budgets |
| Scanning.ScanGoesOn | src/providers/claude_code.rs:796-846 | an increment stops only when a budget is used up, the next step would pass more than is left to scan, or nothing is left |
| Scanning.AnySlicing | src/providers/claude_code.rs:235-298 | increments under any positive budgets, changing from one to the next, until one finds nothing, come to the drafts and the mark of one unbounded read |
| Scanning.SlicingIsOneIncrement | src/providers/claude_code.rs:235-298 | any such slicing equals one increment with room for everything, mark, carried time and skipping flag included |
| Transcript.Reader.FillBuf | src/providers/claude_code.rs:409-412 | a buffer of any size from one byte up, empty exactly at the end |
| Transcript.Reader.SkipThroughNewline | src/providers/claude_code.rs:405-427 | the bytes passed and whether a newline was met depend on the file and the limit, never on the chunks |
| Transcript.Reader.ReadUntil | src/providers/claude_code.rs:817 | the bytes to the next newline under a cap, whatever the chunks |
| Transcript.Keep | src/providers/claude_code.rs:867-880 | what is kept of a line is the drafts not before `since`, and their text is counted |
| Transcript.TakeTurn | src/providers/claude_code.rs:800-880 | one pass of the loop is one turn of the budgeted scan |
| Transcript.ReadLines | src/providers/claude_code.rs:796-881 | the loop in place yields the drafts and the mark of the budgeted scan |
| Transcript.ReadIncrement | src/providers/claude_code.rs:725-893 | one increment, or nothing when nothing was passed, under either identity; where it begins is pinned by `ClaudeCode.DrainsExactly` |
| Following.ScanFollows | src/providers/claude_code.rs:725-893 | if all before the mark is parsed, an increment over any longer prefix of the log leaves all before its own mark parsed, each line under the time it was read with |
| Following.ParsedWhole | src/providers/claude_code.rs:725-893 | once no step is left, what was drafted is the parse of every complete line of the log |
| Following.HeadOfPrefix | src/providers/claude_code.rs:895-908 | the head digest of a prefix of a log is absent or the log's own |
| Following.HeadDigestExactly | src/providers/claude_code.rs:895-908 | the head is the first line if it ends within 65 536 bytes, else as many bytes if there are; without either there is no digest |
| Following.LineCountsExactly | src/providers/claude_code.rs:792-795 | a complete line of an import counts up to 33 554 432 bytes, one of a local file whatever its length |
| Following.StartsFromCursor | src/providers/claude_code.rs:741-774 | a poll of a followed file goes on from its cursor and never restarts; it waits exactly when the head is incomplete or the copy is shorter than the offset |
| Following.PollFollows | src/providers/claude_code.rs:725-893 | a poll finds nothing, or moves the cursor strictly forward and leaves all before it parsed and the file recognised |
| Following.PollCatchesUp | src/providers/claude_code.rs:235-298 | a poll of the whole log that finds nothing means every complete line has been drafted |
| Following.RereadKeepsKeys | src/providers/claude_code.rs:268-294 | reading a file again at other times yields the same keys in the same order, for imports too as long as both times lie on one side of `since`: the service knows the repeats |
| Following.SinceOnlyDrops | src/providers/claude_code.rs:867-873 | a `since` drops the drafts before it and changes nothing else: the mark and the carried time are those of an unfiltered read |
| Following.ReadCarriesLastMessage | src/providers/claude_code.rs:863-865 | the carried time after a read is that of the last message of it, filtered or not |
| Following.TitlesTakeTheCarriedTime | src/providers/claude_code.rs:1149-1153 | a title of a read without a time of its own has that of the last message drafted before it, else the time carried into the read, else that of its file |
| ClaudeCode.CoversMore | src/providers/claude_code.rs:235-298 | one emission more keeps "shipped, then what is left" equal to the read from the first cursor; an increment that is nothing means all is shipped |
| ClaudeCode.StartsAgain | src/providers/claude_code.rs:741-774 | a cursor just produced is strictly further on and is taken up unchanged on the same file |
| ClaudeCode.UnderwayGoesOn | src/providers/claude_code.rs:235-298 | an increment moves strictly forward and keeps "shipped, then what is left" equal to the read from where shipping began; none means all is shipped |
| ClaudeCode.DrainsExactly | src/providers/claude_code.rs:741-774 | any file polled until nothing is left, whatever cursor was stored: a known one ships the read from the cursor, a replaced, truncated or new one the parse of all its lines, a short copy or one without a whole head nothing; the cursor left is exactly that |
| ClaudeCode.EmittedKeeps | src/providers/claude_code.rs:268-294 | emissions of a file move its own cursor alone, to the last of them, and number all their drafts |
| ClaudeCode.EmittedRows | src/providers/claude_code.rs:268-281 | what an emission adds to the queue is the record of one of its drafts, under its device and number, or a marker |
| ClaudeCode.Provider.constructor | src/providers/claude_code.rs:63-72 | nothing is remembered at first |
| ClaudeCode.Provider.CursorFor | src/providers/claude_code.rs:300-327 | what is returned is what the buffer stores, and it is remembered |
| ClaudeCode.Provider.ShipIncrement | src/providers/claude_code.rs:242-296 | one increment is emitted as one transaction and remembered exactly when the buffer acknowledges it; otherwise nothing changes |
| ClaudeCode.Provider.ShipFile | src/providers/claude_code.rs:235-298 | ends on any file under any refusals; the buffer is as the emissions left it, one transaction each; finishing means just that was shipped which the file and the stored cursor call for, as in `ClaudeCode.DrainsExactly`; memory, stored cursor and the mark reached agree, and no other cursor changes |
| Tables.Seal | src/runtime/buffer.rs:349-355 | the drafts keep their order and get consecutive numbers after the counter; what a sealed record holds is in `Effects.EnqueueExactly` |
| Effects.EnqueueExactly | src/runtime/buffer.rs:335-401 | field by field: each draft is sealed under the device it came with, else the daemon's, the next number, and its payload redacted; its row has its length, the time of the enqueue and the id after the last; the marker is the daemon's, of the first and last time dropped; only the given cursor changes |
| Tables.PlanIsShortest | src/runtime/buffer.rs:488-537 | the plan is the shortest prefix of the oldest rows whose removal meets both targets |
| Tables.AboveIsSuffix | src/runtime/buffer.rs:459 | deleting all ids up to the cutoff deletes exactly the planned prefix |
| Tables.EvictionIsShortest | src/runtime/buffer.rs:335-387 | an enqueue evicts only if over a cap, then the shortest oldest-first prefix, new records included if need be, and appends one marker with its length and its first and last times |
| Tables.CapsHoldForConfig | src/runtime/buffer.rs:438-461 | for a valid configuration: the caps hold after every enqueue on every stored table exactly when every marker that can be written, with 64-bit numbers and no more dropped than sealed, is within the 512 bytes held back, or within the byte cap where nothing can stay beside it |
| Tables.CapsHold | src/runtime/buffer.rs:371-382 | one enqueue of such a configuration leaves both caps met |
| Markers.CapsHoldForDevice | src/runtime/buffer.rs:539-559 | with markers measured as they are written: the caps hold after every enqueue exactly when the device name takes at most 209 bytes in JSON, or with a table of one row at most the byte cap less 303 |
| Markers.MarkerOverHeadroom | src/runtime/buffer.rs:371-382 | from an empty buffer, two enqueues that leave the table over its cap, for every device name of 248 bytes or more and at least two rows |
| Tables.DeadLetterExactly | src/runtime/buffer.rs:463-486 | after burying a batch the dead letters meet their own caps, the shortest oldest prefix of them went, and the queue lost the batch's ids alone |
| Effects.BuryExactly | src/runtime/buffer.rs:602-630 | the letters after a burial are the newest, as many as fit 5 000 rows and 50 MiB, of the old ones followed by every record of the batch, in order |
| Effects.NewestOfNewest | src/runtime/buffer.rs:463-484 | trimming letters as they come leaves what trimming all of them at once would |
| BufferOwner.Buffer.constructor | src/runtime/buffer.rs:91-125 | a new buffer is empty with its counter at 0 |
| BufferOwner.Buffer.PlanEviction | src/runtime/buffer.rs:488-537 | the running totals, never below zero, find the shortest plan with its cutoff, count and times |
| BufferOwner.Buffer.Evict | src/runtime/buffer.rs:438-484 | a table over its caps loses exactly the planned prefix |
| BufferOwner.Buffer.InsertDrafts | src/runtime/buffer.rs:347-356 | each draft is sealed under the next number and inserted under the next id |
| BufferOwner.Buffer.Enqueue | src/runtime/buffer.rs:335-387 | a commit is the whole enqueue transaction, whose effects `Effects.EnqueueExactly` tells; a refusal changes nothing |
| BufferOwner.Buffer.TakeBatch | src/runtime/buffer.rs:568-585 | the oldest rows, at most the limit |
| BufferOwner.Buffer.DeleteBatch | src/runtime/buffer.rs:587-600 | exactly the rows whose ids are given go |
| BufferOwner.Buffer.MoveRows | src/runtime/buffer.rs:611-626 | every record of the batch is stored as a dead letter, whatever its row has become, and its id leaves the queue |
| BufferOwner.Buffer.DeadLetter | src/runtime/buffer.rs:602-630 | the whole burying transaction; an empty batch changes nothing |
| Shipping.DecideExactly | src/runtime/ship.rs:78-128 | a batch is deleted exactly on a 200 whose plain counts add up to its length, and buried or shrunk exactly on a 4xx outside the eight that keep it; saturation never lies |
| Shipping.SettleExactly | src/runtime/ship.rs:213-267 | told by the answer alone: a batch accounted for in full is gone from the queue, one refused for good is buried, one too large is halved but not below ten, and any other stays |
| Shipping.SettleShrinks | src/runtime/ship.rs:213-267 | the batch size stays within 10 and 500 and never grows; a shrink is strict and uses up one of the shrinks left; keep and shrink leave the queue alone |
| Shipping.SixShrinks | src/runtime/ship.rs:12-13 | from 500 there are six shrinks to the floor |
| Shipping.SettleTaken | src/runtime/ship.rs:213-248 | a batch settled at once stays whole or leaves whole, from the front |
| Shipping.PostsExactly | src/runtime/ship.rs:316-325 | the posts of an accepted queue are its full batches, and one more for a remainder |
| Shipping.Shipper.constructor | src/runtime/ship.rs:189-198 | the batch size starts at 500 |
| Shipping.Shipper.ShipOnce | src/runtime/ship.rs:213-248 | nothing on an empty queue, else the oldest rows up to the batch size are settled by the answer, as in `Shipping.SettleExactly` |
| Shipping.Shipper.Drain | src/runtime/ship.rs:316-325 | ends for every sequence of answers, at an empty queue or at a kept batch; records leave in order from the front, cursors and the counter stay; if every batch is accepted the whole queue is shipped, none of it buried, in the fewest posts |
| Delivery.DropsAllExactly | src/runtime/buffer.rs:438-461 | eviction takes every row exactly when the newest alone misses the targets |
| Delivery.EvictsAllByCaps | src/runtime/buffer.rs:446-453 | under valid caps that is a cap of one row, or a newest row over the byte cap less the headroom |
| Delivery.SubmitNewRows | src/runtime/buffer.rs:22-29 | new rows have numbers past all sealed and ids past all queued, except that a marker left alone has id 1 |
| Delivery.GuardedExactly | src/runtime/buffer.rs:371-382 | an enqueue keeps every id of the batch in flight safe from naming another record exactly when it leaves some row standing |
| Delivery.ReuseExactly | src/runtime/buffer.rs:22-29 | an id of the batch names another record after an enqueue exactly when every row was evicted and the batch holds id 1 |
| Delivery.SubmitConserves | src/runtime/buffer.rs:335-387 | every enqueue accounts for what it adds and what it evicts, and makes nothing go missing |
| Delivery.SubmitKeeps | src/runtime/buffer.rs:335-387 | an enqueue keeps the whole invariant and what is missing |
| Delivery.TakeKeeps | src/runtime/ship.rs:213-217 | a batch just taken is in the queue under ids that name it, and nothing goes missing |
| Delivery.SettledSeqs | src/runtime/buffer.rs:587-630 | removing a batch by its ids removes its own records, those its ids have come to name instead, and no others |
| Delivery.RespondKeeps | src/runtime/ship.rs:219-247 | whatever the answer, settling counts exactly the posted records and makes exactly those go missing that the ids of the batch have come to name |
| Delivery.StepKeeps | src/runtime/ship.rs:213-267 | every step keeps the invariant, and what it makes go missing is exactly what a settled batch overwrites |
| Delivery.RunKeeps | src/runtime/buffer.rs:335-387 | over every run: the counter is the number ever sealed, numbers have no gap, the queue is in their order, nothing is counted twice but what was evicted in flight, and the records queued, delivered, buried and evicted nowhere are exactly those its settled batches overwrote |
| Delivery.LostExactly | src/runtime/buffer.rs:587-600 | a step loses a record exactly when it takes a batch off the queue while an id of the batch names another record |
| Delivery.RunLosesExactly | src/runtime/buffer.rs:22-29 | a run loses a record exactly when one of its steps does |
| Graves.RunBuries | src/runtime/ship.rs:219-247 | over any run the dead letters are the newest that fit of all that was refused, in order; what counts as buried is just that, and what counts as delivered is what 200s accounted for |
| Delivery.StepGuards | src/runtime/buffer.rs:371-382 | a step keeps every id of the batch in flight safe exactly when it is not an enqueue that evicts every row |
| Delivery.ReuseLoses | src/runtime/buffer.rs:371-382 | an enqueue that evicts every row while the first row is out loses a record when that row is accepted |
| Delivery.MarkerLost | src/runtime/buffer.rs:371-382 | the first cause: for every configuration with one row of room, a run of four steps that loses a record |
| Delivery.OversizedLoses | src/runtime/buffer.rs:446-453 | the second cause: for any number of rows, a run of four steps that loses a record, given a draft whose record is over the byte cap less the headroom; one such record does if it alone is over the cap |
| Delivery.EveryConfigLoses | src/runtime/buffer.rs:389-401 | as records have no bound, some run loses a record under every valid configuration |
| Delivery.RoomyRunsLoseNothing | src/runtime/buffer.rs:446-453 | with room for two rows, a run in which the newest row of every enqueue is within the byte cap less the headroom loses nothing |
| Delivery.LifeShrinks | src/runtime/ship.rs:250-267 | over any run, safe or not, without a restart, shrinks made and shrinks left never exceed those left at first, and the size never grows |
| Delivery.AtMostSixShrinks | src/runtime/ship.rs:250-267 | a shipper's life holds at most six shrinks |
| Delivery.SubmitReports | src/runtime/buffer.rs:375-382 | one enqueue adds to the dropped counts of the sealed markers exactly the number of records it evicts |
| Delivery.RunReports | src/runtime/buffer.rs:539-559 | over every run the dropped counts of the markers it seals add up to the number of records it evicts |
| Delivery.RunCapsHold | src/runtime/buffer.rs:335-387 | where every marker fits its room, the table is within its caps at every point of every run |
| Delivery.WindowKeysDistinct | src/runtime/dedup.rs:10-18 | no two window records ever sealed share a dedup preimage, whatever their devices |
| Pipeline.SubmitSealsFor | src/runtime/buffer.rs:335-387 | an enqueue seals its redacted drafts beside its own cursor and nothing beside another |
| Pipeline.CommitFollows | src/providers/claude_code.rs:268-295 | committing an increment keeps the sealed drafts of its file equal to the parse before the stored cursor |
| Pipeline.CommitSpares | src/providers/claude_code.rs:268-295 | and leaves every other file's cursor and drafts as they were |
| Pipeline.OtherKeeps | src/runtime/mod.rs:311-341 | neither other providers nor pull schedules nor the shipper touch a transcript's cursor or drafts |
| Pipeline.PollKeepsOwn | src/providers/claude_code.rs:235-327 | a poll committed, refused, or killed before or after its commit keeps its file, and memory equal to what is stored |
| Pipeline.PollKeepsOthers | src/providers/claude_code.rs:235-327 | and keeps every other file |
| Pipeline.EventKeeps | src/providers/claude_code.rs:235-327 | one event keeps all files at once |
| Pipeline.PlayKeeps | src/providers/claude_code.rs:235-327 | under every interleaving, each transcript's sealed drafts in number order are those of its log before the stored cursor, and no remembered cursor differs from the stored one |
| Pipeline.CaughtUp | src/providers/claude_code.rs:235-298 | a file polled whole with nothing more to find has every complete line sealed, once |
| Pipeline.PlayRuns | src/providers/claude_code.rs:235-327 | what polls of any fate and other steps leave in the queue is what the steps of the queue they come to do |
| Pipeline.PlayConserves | src/runtime/ship.rs:213-267 | under every interleaving the tally of records holds, and the missing ones are those its settled batches overwrote |
| Pipeline.PlayAttributes | src/runtime/buffer.rs:344-353 | over any run every record of a transcript goes out under the device of its import, or the daemon's for a local file |
| Pipeline.ReachableKeeps | src/providers/claude_code.rs:235-327 | every reachable state follows all transcripts, keeps the tally, and misses exactly what its run overwrote |
| Pipeline.EveryLineAccounted | src/providers/claude_code.rs:235-327 | from nothing, over any run: each draft of each complete line of a transcript polled whole is sealed, redacted, under the transcript's device and a number that is queued, delivered, buried or evicted exactly unless a settled batch of the run overwrote it |
| Keys.DecInjective | src/runtime/dedup.rs:10-28 | decimal text determines its number |
| Keys.JoinHeads | src/runtime/dedup.rs:70-77 | joins of any lengths that agree have the same clean leading fields |
| Keys.JoinInjective | src/runtime/dedup.rs:70-77 | a join determines its fields when all but the last are free of the separator |
| KeyForms.PreimageForms | src/runtime/dedup.rs:10-77 | what is hashed, written out for each kind: device, provider, kind and the fields of the source with the unit separator between |
| Keys.MeetsExactly | src/runtime/dedup.rs:10-77 | two records of one device hash the same text exactly when they are of one kind and agree: windows in kind, time and number, visits in profile, generation and id, the others in the joined text of their own fields |
| Keys.KeyUniqueExactly | src/runtime/dedup.rs:10-77 | no other record of its device has the key of a record exactly when its own texts are telling: always for windows and visits; for messages with a clean session id and uuid; for touches with a clean repository too; for titles when neither session id nor text holds a field name between separators |
| Keys.WindowKeysApart | src/runtime/dedup.rs:10-18 | two window records of any devices share a preimage exactly when device, kind, time and number agree |
| Devices.DevicesMeetExactly | src/runtime/dedup.rs:70-77 | two devices can send records with one key exactly when the name of one goes on, after the other name, like the text of a visit, message, title or touch; names free of the separator never do |
| Keys.SeparatorCollides | src/runtime/dedup.rs:41-50 | a session id holding the separator gives two titles of two sessions one preimage |
| Keys.KeysFollowTheSource | src/runtime/mod.rs:170-213 | browser and Claude keys depend neither on number nor time; window keys with different numbers differ |
| CursorKeys.ImportKeysDiffer | src/providers/claude_code.rs:429-438 | the length prefix makes import cursor keys one-to-one in device and path, whatever these hold |
| CursorKeys.CursorKeysDiffer | src/providers/claude_code.rs:429-442 | cursor keys are one-to-one over local paths and imports together, and never a pull key |
| History.ReadPage | src/providers/browser_history.rs:435-464 | the first joined rows past an id, in id order, at most the limit |
| History.PageResumes | src/providers/browser_history.rs:400-419 | a page read from the last row taken goes on with the next |
| History.TakePage | src/providers/browser_history.rs:403-415 | one page ships its changed rows in order and remembers them |
| History.AbsorbInPages | src/providers/browser_history.rs:400-420 | rows taken in two parts are the rows taken at once |
| History.Collect | src/providers/browser_history.rs:378-427 | for every page size from 1 up a poll ends, with the records and the state of one that reads all at once |
| History.DigestExactly | src/providers/browser_history.rs:466-475 | digests agree exactly when title, transition and duration do, for titles holding the separator too |
| History.EmittedExactly | src/providers/browser_history.rs:400-420 | a row is emitted exactly when its visit is joined, has an id above zero and above the cursor less the window, a url, and, unless the table is new, is not as last remembered |
| History.EmittedAscend | src/providers/browser_history.rs:445-447 | rows are emitted in the order of their ids, each at most once |
| History.RecordExactly | src/providers/browser_history.rs:477-522 | a visit's record: its time from 1601 in microseconds, its duration in milliseconds, both cut toward zero, its fields as they are, and no empty title |
| History.OpenedExactly | src/providers/browser_history.rs:385-398 | a new table is begun at its highest id, no less than zero, with nothing remembered and the next generation; any other at what was stored |
| History.PollAgrees | src/providers/browser_history.rs:422-426 | after a poll every row of the window with a url is remembered as it is, nothing at or below the floor is kept, and the cursor is where the poll began or the highest row of its window |
| History.CursorBounds | src/providers/browser_history.rs:385-424 | a poll never moves the cursor back from where it opened, nor past a highest id that is not negative |
| History.SecondPollSilent | src/providers/browser_history.rs:378-427 | a second poll of an unchanged table emits nothing, and leaves the state alone exactly when the highest id is not negative |
| History.GenerationExactly | src/providers/browser_history.rs:385-398 | a first poll is of generation 1; the generation rises, by one, exactly when the highest id fell below the cursor |
| History.PollKeeps | src/providers/browser_history.rs:378-427 | despite pruning, over any tables and refusals: a row in the window is emitted exactly when it differs from what was last emitted of it in this generation |
| History.RunKeeps | src/providers/browser_history.rs:66-103 | the same after any sequence of polls, committed or refused |
| History.RunAdvances | src/providers/browser_history.rs:117-132 | over any sequence of polls the generation grows by the number of committed polls that found the table replaced; without one the cursor never goes back |
| History.GenerationsApart | src/runtime/dedup.rs:20-28 | two visits of a profile share a preimage exactly when they share generation and id |
| RepoRoots.GitRoots.constructor | src/providers/repo_roots.rs:17-27 | an empty cache is valid |
| RepoRoots.GitRoots.RepoOf | src/providers/repo_roots.rs:44-78 | with the cache, also across its clearing, the answer is the uncached walk's; every entry is the walk's answer for its directory, and the cache outgrows its limit by one path at most |
| RepoRoots.GitRoots.ExpandExactly | src/providers/repo_roots.rs:29-42 | where a path leads: below home behind `~/` and `$HOME/` unless what follows is absolute, as it is when absolute, and nowhere else |
| RepoRoots.GitRoots.WalkIsNearest | src/providers/repo_roots.rs:44-69 | the walk answers a directory exactly when it is the nearest ancestor with `.git` and no boundary lies on the way or at it |
| Procargs.NextString | src/macos/processes.rs:247-264 | one string is taken off the front, or there is none, within the buffer |
| Procargs.SkipExecutable | src/macos/processes.rs:218-224 | the arguments begin after the first path and all the nuls behind it |
| Procargs.TakeArguments | src/macos/processes.rs:226-231 | the counted arguments, or all there are |
| Procargs.TakeEnvironment | src/macos/processes.rs:233-244 | the entries up to an empty one or the end, as a map |
| Procargs.ParseProcargs | src/macos/processes.rs:211-245 | any bytes parse within bounds to what the layout says |
| Procargs.CountReads | src/macos/processes.rs:217 | a count laid out little-endian reads back |
| Procargs.RoundTrip | src/macos/processes.rs:211-264 | what was laid out parses back: argv and the map of the entries, whatever follows an empty entry |
| Procargs.FirstArgumentExactly | src/macos/processes.rs:222-231 | argv parses back exactly when its first argument is not empty |
| Procargs.LaterEntriesWin | src/macos/processes.rs:240-243 | a variable has the value of its last entry, split at the first equals sign, and none without one |
| Procargs.SplitExactly | src/macos/processes.rs:240-243 | an entry is its key, the first equals sign and its value; without the sign it is none |
| Procargs.CutShort | src/macos/processes.rs:213-231 | a buffer that ends before the counted arguments gives those there are and no environment |
| Procargs.NegativeCount | src/macos/processes.rs:217-226 | a negative count stands for no arguments |
| Observers.KeepMissing | src/macos/events.rs:642-653 | what is listed in one and not in the other, in order |
| Observers.PlanObservers | src/macos/events.rs:634-655 | attach to exactly those present and neither observed nor refused, once each; detach and forget exactly those gone |
| Observers.ApplicationPids | src/macos/events.rs:657-675 | the applications that own an ordinary window, each once |
| Observers.SourceState.constructor | src/macos/events.rs:189-195 | nobody is observed or refused at first |
| Observers.SourceState.Listed | src/macos/events.rs:733-740 | the keys of the registry, in whatever order |
| Observers.SourceState.RescanObservers | src/macos/events.rs:727-767 | one rescan as a change of the two sets, whoever refuses; none without the grant |
| Observers.SourceState.Detach | src/macos/events.rs:748-750 | exactly those applications are no longer observed |
| Observers.SourceState.Forget | src/macos/events.rs:751-753 | exactly those refusals are forgotten |
| Observers.SourceState.Attach | src/macos/events.rs:754-766 | those who accept are observed and the rest refused |
| Observers.RescanSettles | src/macos/events.rs:727-767 | after a rescan observed and refused are disjoint and together the present applications, and a second one tries nobody and changes nothing |
| Observers.RescanAccepts | src/macos/events.rs:727-767 | of the present applications those are observed that were, and of the unknown ones those that accept; the rest have refused |
| Observers.TriedOncePerStay | src/macos/events.rs:634-655 | over any rescans while an application stays, it is tried once if it was unknown and never otherwise |
| Debounce.BurstFolds | src/providers/windows.rs:309-346 | a burst is a focus exactly when it holds an activation, with time and application of the last one, else the first event's time; the deadline is the last event plus 300 ms, at most a second after the first |
| Debounce.Run | src/providers/windows.rs:182-232 | the loop in place: what is sampled, what is pending and the markers, over any events and clock readings; `Debounce.FiresExactly` and `Debounce.MarkersExactly` say what that is |
| Debounce.RunCuts | src/providers/windows.rs:182-232 | the events that ask for a sample are cut into bursts, each event in exactly one and in order; each sample taken is the fold of one burst, and what is pending is the fold of the rest |
| Debounce.FiresExactly | src/providers/windows.rs:217-228 | a clock reading at or after the time the open burst is due, 300 ms after its last event or a second after its first, takes the fold of that burst and leaves nothing pending; an earlier reading, or an event, takes none |
| Debounce.FiredWhenDue | src/providers/windows.rs:348-354 | no sample is taken but when its deadline is read on the clock |
| Debounce.NothingOverdue | src/providers/windows.rs:348-354 | once the clock was read, what is pending is due later |
| Debounce.MarkersExactly | src/providers/windows.rs:190-206 | the markers sent are the locks, unlocks, wakes and sleeps, each with its time, in order |
| Debounce.SamplesDueInTime | src/providers/windows.rs:309-346 | however late the clock is served, each sample was due within a second of the first event of its burst |
| Debounce.BurstsAreBrief | src/providers/windows.rs:348-354 | when no event overtakes a deadline, every burst is over within a second of its first event |
| Visibility.BestDisplay | src/window/visibility.rs:34-62 | the display with the largest overlap, ties to the lower index, among those covering a fifth of a window with an area; none exactly when there is none |
| Visibility.BestExactly | src/window/visibility.rs:50-60 | a best index is that of a display that qualifies where any other covers less, or as much under an index no lower; none exactly when none qualifies |
| Visibility.IntersectionExactly | src/macos/window_list.rs:33-48 | two rectangles share the points of a rectangle, and its area is their intersection's |
| Visibility.QualifiesExactly | src/window/visibility.rs:34-47 | a display qualifies with a fifth of a window whose sides are positive |
| Visibility.BestIsUnique | src/window/visibility.rs:34-62 | that index does not depend on the order or repetition of the displays |
| Visibility.VisibleWindows | src/window/visibility.rs:11-32 | exactly the layer-0 windows some display qualifies for, in order, each with its best display |

## Left out

- Markers.CapsHoldForDevice: assumes a clock between the years 0000 and 9999, in which times take 24 bytes, and sequence numbers of 64 bits.
- Debounce.BurstsAreBrief: assumes that the clock is served before events that come after the deadline, which the loop leaves to chance; `Debounce.SamplesDueInTime` has no such assumption.
- Following.RereadKeepsKeys: a title before any message is dated by the file; read again at a time on the other side of `since`, it is filtered differently.
- Pipeline.EveryLineAccounted: for a local file it assumes the file keeps its inode and is not truncated below its stored offset; a truncated one is read again from the start, as `Transcript.StartOf` has it.
- Procargs.RoundTrip: strings stay bytes, so the lossy UTF-8 decoding of invalid bytes is not modelled.
- RepoRoots.GitRoots.RepoOf: the set of `.git` directories is fixed; a repository created after its directory was cached is not seen until the cache is cleared.
- Hashing: keys and digests are compared by the text that is hashed, and the truncated SHA-256 of the head is a function parameter; collisions are not modelled.
- JSON and RFC 3339 parsing, `LeadingTag`, the splitting of shell commands into paths, and redaction: function parameters. Serialised cursors are taken to decode to what was encoded; a stored cursor that does not decode is one that is not there.
- SQLite itself: WAL, checkpoints, busy timeouts and the exhaustion of 64-bit ids. 64-bit counters and times do not wrap in the model.
- A settlement that the buffer refuses ends the shipper with its batch still queued, which is the restart step of `Delivery`.
- A file that changes between the look at its metadata and the reading of its bytes: an increment sees one content.
- The pull command, its schedule and its output tail, the listing of transcripts, and the set of unreadable paths that keeps a warning from being repeated.
- The waits of `Shipper::run`, its urgent requests, and the flush before sleep: they decide when a step happens, and the runs here allow any order.
- The channel of `absorb` and its draining at shutdown: an emission is committed, refused or lost with the process.
- Reasons and log lines, among them the `reason` column of dead letters.
- Snapshots of the history database and the resolution of profiles: the poller is given a table.
- The macOS calls behind observers, windows, displays and processes, `frontmost_of`, `pane_of`; the ticks of the window provider, and the assembly of a sample, which may find no frontmost application.
- Floating-point rounding in window geometry: areas are exact reals.
