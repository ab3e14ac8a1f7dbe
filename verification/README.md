# The governance core, verified

A Dafny model of the decision-making core of `rif_runtime`: the hash-chained decision log and its
locking, the posture machine across restarts, the policy engine and the stored rule list, the
Metasploit governor with its token broker, the governance graph and its replay, and governed
capability execution. `RIFRuntime` wires them together, and its properties are proved over every run,
restarts included. Check everything with `dafny verify dfyconfig.toml`.

## How it is put together

| part | modules | what is in them |
|---|---|---|
| values | `PythonValues`, `Utf8`, `Wrappers`, `Schemas` | Python objects and their JSON normal form, RFC 3629 encoding, requests and decisions |
| the file | `Lines`, `LogFile`, `Tallies` | splitting, the backwards tail search, the reader, tallies of a snapshot |
| the chain | `ChainTheory`, `AuditChain`, `ChainedStore` | chains over any rows, the two concrete chains, the store class over a byte sequence |
| growth | `Growth`, `LogGrowth` | what a log becomes by one append after another, and when it stays readable |
| many processes | `Locking`, `ConcurrentLog` | a transition system of processes, partial writes, locked and unlocked partial reads, run on the decision log |
| posture | `Governance` | ladder, denial window, the observing step, posture over a run |
| policy | `RuleOrder`, `Policy`, `PolicyStorage` | a stable sort and first-match scan, the engine, the rule store and its upgrade |
| governor | `Scanning`, `Metasploit`, `BrokerRuns` | parameter scanning, the ordered decision procedure, token authority over runs |
| memory | `GraphMemory`, `CapabilityRegistries`, `DecisionLog`, `Replay` | the graph, admission, decisions as rows of the log and back, replay of rows |
| runtime | `Runtime`, `RuntimeRuns`, `RunReplay` | the runtime object and its step function; what holds of every run; from the bytes of a run's log back to its memory |

Code that updates objects in place is a class whose methods state their whole new state as a function
of the old one (`HashChainedJsonlStore`, `TelemetryStore`, `ReflexiveLoop`, `PolicyStore`,
`GovernanceGraph`, `CapabilityRegistry`, `RIFRuntime`); loops are methods with invariants; the theorems
are about those functions. The run theorems range over arbitrary sequences of events from an arbitrary
data directory, and over every policy engine and governor where only the wiring matters.

## What the library calls are assumed to do

SHA-256, HMAC, the JSON library, `str`, `lower`, `strip`, host extraction and ISO 8601 rendering are
function parameters; an HMAC is by its type non-empty ASCII, as hexadecimal is. A result that needs a
further law of one of them says so:

* `Hashing.Lawful`: `str` of a string is that string. `PlainDigests`, `PlainStamps`: digests in
  hexadecimal, UUIDs and ISO 8601 times hold none of U+0085, U+2028 and U+2029. `WritesRaw`: the JSON
  text of a row holds one of these iff a key or string of the row does. `Codec.Lawful`: an object's
  JSON text reads back, opens with a brace, contains no control character (section 7 of RFC 8259), and
  no proper prefix of it is an object; text that loads as an object contains a brace.
* `AuditChain.NoCollision`: SHA-256 does not collide on the finitely many dictionaries hashed for the
  rows at hand, nor give the genesis value for one. That digests then cover whole records is proved. It is
  needed only for what tampering does; that appends keep a chain, and that verification reports the first
  break, hold for any digest. `ChainTheory` says the same of chains of any kind.
* `BrokerRuns.Unforgeable` and `BrokerRuns.CollisionFree`: a valid signature presented in a run was put
  on something by the governor earlier in it, and HMAC and SHA-256 do not collide on the dictionaries
  signed and hashed in the run. `Governor.Lawful`: different times are rendered differently.
* `flock` excludes as intended: that is the transition system of `Locking`.

A number is an integer or the bit pattern of a double, a time is integer microseconds, and every clock
reading is a parameter.

## Where the code and its promises part

* **Three characters break reading** (`src/rif_runtime/storage/jsonl.py:184`, `:288`, `:221`). A row is
  written with U+0085, U+2028 and U+2029 unescaped and the tail search splits on newlines only, but
  `read_all` uses `str.splitlines`, which also splits on those three. `ChainedStore.AppendReadsBackIff`
  gives the exact condition for one append, `LogGrowth.GrownReadsBackIff` for any number,
  `DecisionLog.FileReplaysDecisions` in terms of the decisions recorded; appends go on succeeding all
  the while. `DecisionLog.LineSeparatorBreaksLog` is a decision that does it.
* **Replay reads without the lock** (`src/rif_runtime/replay.py:30-40`). The store's own documentation
  explains why an unlocked read is not safe. `ConcurrentLog.FileReadsExactly` says, for every moment of
  every run, whether such a read succeeds: it raises exactly while part of a row is flushed, short of
  all but the newline (or when one of the three characters is there). `ConcurrentLog.UnlockedReadCanRaise`
  gives such a moment for every log and every append.
* **The upgrade can change a decision already configured** (`src/rif_runtime/configuration/policies.py:73-96`).
  The inserted rule goes ahead of the first catch-all, but catch-alls are applied last wherever they
  stand, so rules behind one are live, and a rule there that names only one selector and matches
  `run.create` now loses the tie. `PolicyStorage.UpgradeChangesOnlyRunCreate` says exactly when, and
  `PolicyStorage.UpgradeAllowsDeniedRun` is a list of two rules for which it happens.
* **Some intents cannot be judged** (`src/rif_runtime/mcp/metasploit.py:101-110`). The scanner descends
  into sets, but the intent hash cannot express a set, so such an intent raises in every lane.
  `Metasploit.SetParameterRaises` is one.
* **Some signatures cannot be compared** (`src/rif_runtime/mcp/metasploit.py:337-348`, `:461`).
  `hmac.compare_digest` refuses text that is not ASCII, which the API-key check avoids by comparing bytes
  (`src/rif_runtime/auth.py:34-38`) and the governor does not. So a token with such a signature raises in
  the broker lane, where any other wrong signature is a severe denial, and the runtime records and
  escalates nothing. `Metasploit.AllowsIff` gives the exact condition under which the governor answers,
  for this and for sets; `Metasploit.AccentedSignatureRaises`, `Metasploit.WrongSignatureIsSevere` and
  `RuntimeRuns.IncomparableTokenLeavesNoTrace` show the difference. `verify_evidence` is the same
  (`Metasploit.VerifiesIff`).
* **Some targets cannot be judged** (`src/rif_runtime/policy.py:16-36`). `urlparse` raises for a target
  like `http://[x`, so a rule or request with one can make evaluation raise for a network action;
  `Policy.RaisesIff` says exactly when, `Policy.BrokenTargetRaises` is such a rule.
* **The last row is only as safe as its author.** `ChainTheory.EditIsLocated` shows that the last row
  of a log, and only that one, can be rewritten consistently, and `ChainTheory.RearrangementIsLocated`
  that truncations, and only they, pass unnoticed. The code claims no more than this.

## Model

| member | source | states |
|---|---|---|
| PythonValues.NormalFormIsFixed | src/rif_runtime/security.py:107-120 | Normalisation is idempotent: any Python object that reads back as a JSON value, whatever its dictionary order, normalises to that value again. |
| PythonValues.NormalizesIff | src/rif_runtime/security.py:107-120 | Normalisation computes exactly what each kind of object becomes - lists and tuples lists, dates, UUIDs and byte strings their renderings, of two items under one key text the later - and raises exactly when some part, such as a set, becomes nothing. |
| PythonValues.EveryJsonIsRepresented | src/rif_runtime/security.py:107-128 | Every JSON value is read back as some Python object, so the fixed-point law covers every stored payload. |
| PythonValues.ItemsNormalizeEach | src/rif_runtime/security.py:110-111 | A list or tuple normalises element by element, or fails with the error of its first element that does not. |
| PythonValues.EntriesNormalizeLast | src/rif_runtime/security.py:108-109 | A dictionary keeps exactly the texts of its keys, each with the normal form of the last item under it. |
| PythonValues.WithoutKeyRepresents | src/rif_runtime/storage/jsonl.py:312 | Dropping a key from a loaded dictionary leaves an object for the row without that key. |
| Utf8.DecodeEncode | src/rif_runtime/storage/jsonl.py:183-288 | Decoding the bytes a writer encoded returns its text. |
| Utf8.EncodeDecode | src/rif_runtime/storage/jsonl.py:183-237 | The strict decoder accepts nothing but encodings, so a window that cut a character cannot decode to something else. |
| Utf8.EncodedForm | src/rif_runtime/storage/jsonl.py:288 | An encoded character has the length, lead byte and continuation bytes of section 3 of RFC 3629. |
| Utf8.DecodeChar | src/rif_runtime/storage/jsonl.py:183 | A character decoded at the front of some bytes is one whose encoding those bytes begin with. |
| Utf8.CutText | src/rif_runtime/storage/jsonl.py:157-168 | Cut at any byte, an encoded text decodes to a prefix of the text, or to nothing when a character was cut. |
| Lines.FindTail | src/rif_runtime/storage/jsonl.py:186-252 | For every file and every positive starting window the doubling backwards search ends and returns the last non-blank line of the whole file split on newlines, or nothing. |
| Lines.WindowSuffices | src/rif_runtime/storage/jsonl.py:219-230 | A non-blank complete line found in any window back from the end, wherever it cuts a record, is the last one of the file. |
| Lines.TailIsLastRecord | src/rif_runtime/storage/jsonl.py:200-234 | What the search returns, described by byte positions with no splitting: the last record of the file, and nothing exactly for a blank file. |
| Lines.LastRecordIsUnique | src/rif_runtime/storage/jsonl.py:200-234 | A file has at most one last record, so the two descriptions of the search determine each other. |
| Lines.AsciiSpaces | src/rif_runtime/storage/jsonl.py:227 | What `bytes.strip` takes for space: space, tab, newline, vertical tab, form feed and carriage return. |
| Lines.SplitConcat | src/rif_runtime/storage/jsonl.py:219-225 | Cutting a text anywhere and splitting both halves cuts exactly one line in two: the reason the first piece of a window is dropped and no other. |
| Lines.EncodingAddsNoNewline | src/rif_runtime/storage/jsonl.py:221-288 | Text without newlines encodes to bytes without byte 10. |
| LogFile.ReadsIffReadable | src/rif_runtime/storage/jsonl.py:178-184 | `read_all` returns exactly the rows of a sound log if no written row carries one of the three raw line breaks, and otherwise raises. |
| LogFile.LineBreaks | src/rif_runtime/storage/jsonl.py:184 | Where `str.splitlines` divides: at ten characters, of which JSON text can hold three unescaped; all of them are space. |
| LogFile.TailAgreesWithReader | src/rif_runtime/storage/jsonl.py:205-252 | Writers and readers agree where the log ends: the byte search finds the last row a reader would return, blank lines notwithstanding, and none exactly when there are no rows. |
| LogFile.AppendLine | src/rif_runtime/storage/jsonl.py:281-288 | Adding the encoded line to the bytes of a log gives the bytes of the log with that line and the rows with that row. |
| LogFile.ReadBehind | src/rif_runtime/storage/jsonl.py:178-184 | What stands behind a sound log is read on its own once the log itself can be read, and not at all otherwise. |
| LogFile.CutObjectRaises | src/rif_runtime/storage/jsonl.py:157-168 | A non-empty proper part of an object's text raises, whether or not a line break cuts it further. |
| LogFile.CutFileReads | src/rif_runtime/storage/jsonl.py:157-184 | Exactly when a file that ends in part of a row can be read, for every number of bytes of it: none of the row, or all up to at most its newline and no raw line break in it; and what is then returned. |
| Tallies.TallyCountsRows | src/rif_runtime/storage/jsonl.py:51-55 | A tally of values by row is, value for value, the number of rows that have it under the field, or lack the field when the value is `unknown`. |
| Tallies.CountBy | src/rif_runtime/storage/jsonl.py:41-55 | The loop's tally names exactly the values that occur so, each with the number of its rows. |
| Tallies.TalliesAddUp | src/rif_runtime/runtime.py:268-280 | Counting is conserved: the tallies of a snapshot by any field add up to its number of rows. |
| ChainTheory.VerifyRows | src/rif_runtime/storage/jsonl.py:290-327 | The loop reports the first row out of place, leading legacy rows and chained rows before it, and their sum is that index, or the row total when nothing is out of place. |
| ChainTheory.ReportIsUnique | src/rif_runtime/storage/jsonl.py:58-84 | The truth about a log leaves only one possible report. |
| ChainTheory.PrefixVerifies | src/rif_runtime/storage/jsonl.py:290-327 | Every prefix of a verified log is verified. |
| ChainTheory.AppendVerifiesIff | src/rif_runtime/storage/jsonl.py:290-327 | A chained row at the end keeps a log verified iff it links to the tail and its hash is right; it never repairs a broken log. |
| ChainTheory.FittingRowsKeepVerdict | src/rif_runtime/storage/jsonl.py:254-327 | Any number of rows that each fit the log before them leave its verdict as it was. |
| ChainTheory.PlacesAreDistinct | src/rif_runtime/audit.py:34-42 | No two positions of a fully chained verified log expect the same predecessor hash. |
| ChainTheory.HashesAreDistinct | src/rif_runtime/audit.py:34-42 | The hashes of a fully chained verified log are pairwise distinct. |
| ChainTheory.HashDeterminesHistory | src/rif_runtime/audit.py:34-42 | Two chains that reach the same hash after any numbers of rows have recorded the same history, of the same length. |
| ChainTheory.TailDeterminesLog | src/rif_runtime/storage/jsonl.py:290-327 | Two fully chained verified logs with the same last hash agree on every row verification reads. |
| ChainTheory.LegacyIsTransparent | src/rif_runtime/storage/jsonl.py:301-310 | Legacy rows in front are in place and do not affect the verdict on any chained row behind them. |
| ChainTheory.RearrangementAgrees | src/rif_runtime/storage/jsonl.py:290-327 | A log put together from rows of a chain is in order exactly as far as it is still that chain. |
| ChainTheory.RearrangementIsLocated | src/rif_runtime/storage/jsonl.py:88-94 | Deleting, repeating, inserting or reordering rows: verification accepts exactly the truncations and otherwise reports the first row that differs. |
| ChainTheory.DeletionIsLocated | src/rif_runtime/storage/jsonl.py:290-327 | Deleting a row is reported at its index, unless it was the last one. |
| ChainTheory.SwapIsLocated | src/rif_runtime/storage/jsonl.py:290-327 | Swapping two rows is reported at the earlier index. |
| ChainTheory.EditIsLocated | src/rif_runtime/storage/jsonl.py:91-94 | Replacing a chained row by anything, re-hashed or not: short of the end it passes iff verification reads it as before; a detected edit is reported at that row or, if the row itself is consistent, at the next. |
| ChainTheory.EditUnderHashIsLocated | src/rif_runtime/storage/jsonl.py:91-94 | Changing what a row records but not the hash it claims is reported at that very row. |
| ChainTheory.SameReadingSameVerdict | src/rif_runtime/audit.py:61-69 | Logs of different row types that are read alike are judged alike. |
| AuditChain.HashIsOfNormalForm | src/rif_runtime/audit.py:34-42 | Of whatever object a payload is, `calculate_hash` covers exactly its normal form. |
| AuditChain.LoadedRowRehashes | src/rif_runtime/storage/jsonl.py:311-320 | From whatever dictionary a row is loaded as, in any key order, verification recomputes the digest the chain is defined by. |
| AuditChain.WrittenHashIsRecomputed | src/rif_runtime/storage/jsonl.py:96-100 | The round trip of the digest: the hash of a record as it was handed in, datetimes and tuples included, is the hash its row stores and the hash verification recomputes from any loaded form of that row. |
| AuditChain.RowsAreCoherent | src/rif_runtime/storage/jsonl.py:302-324 | The hashes compared raw and the hashes used through `str` never disagree on a row that passes. |
| AuditChain.GenesisIsZeros | src/rif_runtime/audit.py:10 | The genesis value is 64 zeros. |
| AuditChain.HandsOn | src/rif_runtime/storage/jsonl.py:236-252 | What a row hands on to its successor: the hash it states, as text, or genesis if it is legacy or states none. |
| AuditChain.SealedRowReadsBack | src/rif_runtime/storage/jsonl.py:268-318 | What verification reads from a written row is the record that was hashed and both its hashes. |
| AuditChain.AppendedRowVerifiesIff | src/rif_runtime/storage/jsonl.py:254-327 | A written row keeps a log verified iff it carries the log's tail hash and its own digest, and its hash is the new tail. |
| AuditChain.EnvelopedRowIsItsLink | src/rif_runtime/storage/jsonl.py:274-318 | Of a row with the four-string envelope an append writes, verification overlooks nothing: rows read alike are equal. |
| AuditChain.RecordJsonIsInjective | src/rif_runtime/audit.py:34-42 | All four values of a record, the payload among them, can be told from the dictionary that is hashed. |
| AuditChain.DigestCoversRecords | src/rif_runtime/audit.py:34-42 | If SHA-256 does not collide on the dictionaries hashed for some rows, digests do not collide on their records: the digest covers everything a record says. |
| AuditChain.SameTailSameLog | src/rif_runtime/storage/jsonl.py:88-94 | Two verified logs of written rows, of whatever lengths, with the same last `current_hash` are equal row by row, if SHA-256 does not collide on what was hashed for them. |
| AuditChain.PayloadEditIsLocated | src/rif_runtime/storage/jsonl.py:290-327 | Changing the payload of a chained row under its envelope fails verification at that very index, for the last row too. |
| AuditChain.RowEditIsLocated | src/rif_runtime/storage/jsonl.py:290-327 | Replacing a written row by any other written row is reported there or, if the replacement links and is hashed right, at the next row; only at the end can that pass. |
| AuditChain.RowRearrangementIsLocated | src/rif_runtime/storage/jsonl.py:88-94 | Deleting, repeating, inserting or reordering chained rows behind legacy ones: exactly the truncations pass, and otherwise the first row that differs is reported. |
| AuditChain.RowDeletionIsLocated | src/rif_runtime/storage/jsonl.py:290-327 | A deletion is reported at its place, unless it was of the last row. |
| AuditChain.RowSwapIsLocated | src/rif_runtime/storage/jsonl.py:290-327 | A swap of two rows is reported at the earlier place. |
| AuditChain.VerifyChain | src/rif_runtime/audit.py:61-69 | The loop over in-memory records accepts exactly the chains whose every record is in place. |
| AuditChain.NextSealedKeepsVerdict | src/rif_runtime/audit.py:45-58 | Adding the record `append_record` builds neither breaks a chain nor repairs one. |
| AuditChain.PersistedChainAgrees | src/rif_runtime/audit.py:61-69 | The persisted and the in-memory form of a chain get the same verdict. |
| ChainedStore.HashChainedJsonlStore.TailHash | src/rif_runtime/storage/jsonl.py:186-252 | The imperative tail read returns the hash the whole file determines: genesis for blank or unchained tails, an error for a damaged one. |
| ChainedStore.HashChainedJsonlStore.Append | src/rif_runtime/storage/jsonl.py:254-288 | A record that is rejected, or a damaged log, leaves the file as it was; everything else adds exactly one line. |
| ChainedStore.HashChainedJsonlStore.ReadAll | src/rif_runtime/storage/jsonl.py:178-184 | The reader returns the rows of the file's text, or the reason it cannot. |
| ChainedStore.HashChainedJsonlStore.Verify | src/rif_runtime/storage/jsonl.py:290-327 | Verification answers for exactly the readable files, with the true report about their rows. |
| ChainedStore.TailHashAgrees | src/rif_runtime/storage/jsonl.py:186-252 | On a sound log the hash found in the bytes is the tail of the rows a reader sees. |
| ChainedStore.AppendAddsOneRow | src/rif_runtime/storage/jsonl.py:254-288 | On a sound log an append succeeds exactly for records that normalise and avoid the reserved key; the log stays sound and gains one row, which without its envelope is the normalised payload. |
| ChainedStore.AppendedEnvelope | src/rif_runtime/storage/jsonl.py:268-280 | The envelope of an appended row has exactly four members, which say under their names the identifier, the time, the hash linked to and the hash `calculate_hash` gives the record as it was handed in. |
| ChainedStore.LastRecordDecides | src/rif_runtime/storage/jsonl.py:213-252 | On any file, sound or not: a blank one starts a chain at genesis; a last record that does not decode or parse makes the append raise, with the bytes unchanged, and no other does. |
| ChainedStore.AppendKeepsVerdict | src/rif_runtime/storage/jsonl.py:254-327 | An append adds one to the chained rows of a verified log and leaves the legacy count; a broken log stays broken where it was. |
| ChainedStore.SealedRowIsCleanIff | src/rif_runtime/storage/jsonl.py:268-288 | A stored row holds one of the three characters iff its payload, identifier, time or predecessor hash does: the envelope's keys and the digest add none. |
| ChainedStore.AppendReadsBackIff | src/rif_runtime/storage/jsonl.py:178-288 | After an append to any sound log, `read_all` returns the old rows and the new one iff the log could be read before and no key or string of the payload - nor the identifier, time or predecessor hash - contains U+0085, U+2028 or U+2029; otherwise it raises. |
| LogGrowth.NextAppendSucceeds | src/rif_runtime/storage/jsonl.py:254-288 | After any appends to a sound log the next one succeeds and leaves the bytes of the log grown by its row. |
| LogGrowth.AppendsKeepVerdict | src/rif_runtime/storage/jsonl.py:254-327 | Any number of appends neither breaks a verified log nor repairs a broken one. |
| LogGrowth.RowsCarryPayloads | src/rif_runtime/storage/jsonl.py:274-280 | Each row without its envelope is the payload of its request. |
| LogGrowth.GrownIsReadableIff | src/rif_runtime/storage/jsonl.py:178-288 | A log grown by any requests is readable iff it was and none of them holds one of the three characters - nor the hash the first links to. |
| LogGrowth.GrownReadsBackIff | src/rif_runtime/storage/jsonl.py:178-288 | Under exactly that condition its bytes read back as the old rows and one for each request, in order. |
| Locking.RunKeepsInv | src/rif_runtime/storage/jsonl.py:124-176 | Every interleaving keeps the invariant tying lock, program counters, unflushed bytes, file, grants and finished reads together. |
| Locking.EveryRunIsSerial | src/rif_runtime/storage/jsonl.py:102-153 | Whatever the interleaving, the file outside the exclusive lock is the completed rows, one per grant in lock order, each built from the rows before it; each finished read, locked or not, saw the rows complete when it ended and so much of the row in flight as was flushed - under the shared lock, none. |
| Locking.ReadsReportTheirMoment | src/rif_runtime/storage/jsonl.py:155-176 | A read reports the file, the number of completed rows and the row in flight of the very moment at which it ended, and the report stays. |
| Locking.MutualExclusion | src/rif_runtime/storage/jsonl.py:124-176 | At most one process is between taking and releasing the exclusive lock, nobody reads meanwhile, and its tail read never fails. |
| Locking.LockCanBeFreed | src/rif_runtime/storage/jsonl.py:138-176 | From every reachable state the lock can be let go: a writer completes its row, readers their reads. |
| Locking.AppendCompletes | src/rif_runtime/storage/jsonl.py:123-153 | With the lock free an idle process can append: the log gains exactly the row its request calls for, the file its bytes, and no other process is touched. |
| Locking.ReadCompletes | src/rif_runtime/storage/jsonl.py:155-184 | Unless a writer has the lock an idle process can read, and gets the whole file. |
| Locking.EveryAppendCanComplete | src/rif_runtime/storage/jsonl.py:102-153 | Nothing blocks an append for good: from every state of every run any idle process can be brought to complete any append, behind the one in flight. |
| Locking.UnlockedReadSeesTornRow | src/rif_runtime/storage/jsonl.py:157-168 | Without the shared lock a read can end after any number of bytes of a row. |
| ConcurrentLog.LogStoreIsLawful | src/rif_runtime/storage/jsonl.py:186-288 | The bytes of a sound log determine the next row, so the protocol results apply to the chained log. |
| ConcurrentLog.LogIsGrown | src/rif_runtime/storage/jsonl.py:254-288 | The completed rows of a run, up to any number of them, are the ones their requests add in lock order. |
| ConcurrentLog.ConcurrentAppendsKeepOneChain | src/rif_runtime/storage/jsonl.py:102-153 | Any number of processes: outside the exclusive lock the file is the rows it began with and one per completed append, in lock order, carrying the requested payloads, and it verifies iff it did to begin with. |
| ConcurrentLog.AnyAppendCanComplete | src/rif_runtime/storage/jsonl.py:102-153 | On the chained log: from every state of every run any idle process can be brought to add its payload as the last row of a log that is then whole and verifies iff it did. |
| ConcurrentLog.ReadsAreExact | src/rif_runtime/storage/jsonl.py:155-184 | What every read of every run returns: it raises if it ended while part of a row was flushed, short of all but the newline; otherwise it returns the rows complete at that moment, and the one in flight if all there, iff the log could be read and none of those requests holds one of the three characters. Under the shared lock nothing is in flight. |
| ConcurrentLog.LockedReadsReturnWholeRows | src/rif_runtime/storage/jsonl.py:155-184 | A read under the shared lock returns the first rows and those of exactly the appends completed when it ended, iff none of the three characters is among them. |
| ConcurrentLog.FileReadsExactly | src/rif_runtime/replay.py:30-40 | At every moment of every run, exactly whether a read without the lock would succeed, and what it would return. |
| ConcurrentLog.UnlockedReadCanRaise | src/rif_runtime/replay.py:30-40 | For every log and append there is an interleaving in which an unlocked read raises. |
| DecisionLog.DumpNormalizes | src/rif_runtime/runtime.py:158-168 | A dumped decision normalises and never uses the reserved key, so recording it is never rejected. |
| DecisionLog.DecisionReadsBack | src/rif_runtime/replay.py:77-87 | The stored row of a decision, envelope and all, gives the decision back at any time of replay, and counts as a denial iff it was one. |
| DecisionLog.MembersAreNamed | src/rif_runtime/schemas.py:29-38 | The stored members go by the names of the decision's fields. |
| Schemas.NamesReadBack | src/rif_runtime/schemas.py:8-18 | Each decision and posture is written as its name, and that name alone is read as it. |
| DecisionLog.EveryAppendSucceeds | src/rif_runtime/runtime.py:158-168 | After any run of recorded decisions on a sound log, the next append succeeds and adds the bytes of its row. |
| DecisionLog.RowsAfterHold | src/rif_runtime/replay.py:77-87 | Each added row reads back as its decision, in order. |
| DecisionLog.DenialsReadBack | src/rif_runtime/replay.py:68-75 | Behind any rows, the denials counted are those that were there and those that were recorded. |
| DecisionLog.PayloadIsCleanIff | src/rif_runtime/runtime.py:158-168 | A dumped decision holds one of the three characters iff its actor, action, target, environment, reason or rule does. |
| DecisionLog.FileReplaysDecisions | src/rif_runtime/replay.py:30-92 | Bytes to decisions, for every log and every run of decisions: the file can be read iff it could before and none of those six texts holds one of the three characters (nor the hash first linked to); it then gives the old rows and one for each decision, verifies iff the old rows did, and counts the denials of both. |
| DecisionLog.LineSeparatorBreaksLog | src/rif_runtime/storage/jsonl.py:184-288 | A witness: after recording one decision whose target ends in U+2028, the log cannot be read. |
| Governance.PostureSeverity | src/rif_runtime/governance/posture.py:18-21 | The severity of a posture is its rung on the ladder. |
| Governance.EscalatePosture | src/rif_runtime/governance/posture.py:11-15 | Escalation is one rung up, and none at the top. |
| Governance.AtLeastPosture | src/rif_runtime/governance/posture.py:24-31 | The result is one of the two postures and at least as severe as both. |
| Governance.TelemetryStore.Record | src/rif_runtime/governance/telemetry.py:13-16 | Recording leaves exactly the last `max_events` of all events in order. |
| Governance.TelemetryStore.DenialCount | src/rif_runtime/governance/telemetry.py:18-23 | The count is the number of positions whose event is a denial no older than the window. |
| Governance.WindowCountsIndices | src/rif_runtime/governance/telemetry.py:18-23 | Filtering by time and then counting denials counts exactly those positions, and never more than all denials. |
| Governance.ReflexiveLoop.Observe | src/rif_runtime/governance/reflexive.py:11-14 | The decision is in the window before it is counted, and the posture moves by that count. |
| Governance.WindowIsLastThousand | src/rif_runtime/governance/telemetry.py:13-16 | After any run the window holds exactly the last min(n, 1000) recorded decisions. |
| Governance.PeakIsLargest | src/rif_runtime/governance/telemetry.py:18-23 | No count during the run exceeds the peak. |
| Governance.PeakIsReached | src/rif_runtime/governance/telemetry.py:18-23 | The peak is the count at some point of the run. |
| Governance.PostureRemembersPeak | src/rif_runtime/governance/posture.py:51-70 | Over any run without operator or severe outcome, the posture is the start posture raised to what the worst window called for, however long ago. |
| Governance.DenialsAreMonotone | src/rif_runtime/governance/posture.py:34-48 | More denials never imply a less severe posture. |
| Governance.LeastDenials | src/rif_runtime/governance/posture.py:34-48 | The least number of denials for each rung: 3, 10 and 20. |
| Governance.WindowIsAnHour | src/rif_runtime/governance/reflexive.py:11-14 | The window the posture follows is that of the last 3600 seconds. |
| Governance.LivePostureIsWithinReplay | src/rif_runtime/governance/posture.py:34-70 | The live posture never exceeds what all denials of the run call for. |
| RuleOrder.SortIsStable | src/rif_runtime/policy.py:54-66 | The sort falls by rank and keeps the configured order within each rank. |
| RuleOrder.RanksDetermineOrder | src/rif_runtime/policy.py:54-66 | A falling list is determined by its stretch of each rank. |
| RuleOrder.SameRanksSameOrder | src/rif_runtime/policy.py:54-66 | Lists that agree within each rank sort alike. |
| RuleOrder.ScanFindsWinner | src/rif_runtime/policy.py:90-101 | Sorting and scanning applies the highest-ranked match, the earliest of equals, and nothing exactly when nothing matches. |
| RuleOrder.WinnerIsUnique | src/rif_runtime/policy.py:90-101 | At most one rule is that winner. |
| RuleOrder.NonMatchingIsInert | src/rif_runtime/policy.py:90-101 | A rule that does not match can stand anywhere without effect on the winner. |
| RuleOrder.FirstRankedOfParts | src/rif_runtime/policy.py:54-66 | Of two stretches of rules the front one wins ties. |
| RuleOrder.MatchingTakesOver | src/rif_runtime/policy.py:54-66 | Exactly when a matching rule put between two stretches becomes the winner. |
| RuleOrder.FilterBeforeRanking | src/rif_runtime/policy.py:54-66 | Setting rules aside before the sort is the same as never letting them match. |
| Policy.RaisesIff | src/rif_runtime/policy.py:16-160 | Exactly when evaluation raises instead of deciding: unlocked, for a network action, when of the selective rules that match or need a host that cannot be extracted the most specific, earliest one is of the latter kind, or when there is none and the request's own host is needed and cannot be extracted. The results below on decisions hold whenever it does not. |
| Policy.ParsableIsJudged | src/rif_runtime/policy.py:16-36 | Where every target parses, evaluation always decides. |
| Policy.BrokenTargetRaises | src/rif_runtime/policy.py:16-36 | A witness: under a rule on `http.request` with target `http://[x` no such request can be judged. |
| Policy.BrokenRequestRaises | src/rif_runtime/policy.py:28-36 | A network request whose own host cannot be extracted raises under any rule on its action that names a target. |
| Policy.OwnHostIsNeeded | src/rif_runtime/policy.py:102-126 | Without rules, evaluation raises exactly for unlocked network requests whose host cannot be extracted and whose egress no earlier constraint denies, limited or not. |
| Policy.RuleNeedsNoHost | src/rif_runtime/policy.py:28-32 | A rule on another action or with any target, and any rule for a request that is not on the network, never raises. |
| Policy.NetworkActions | src/rif_runtime/policy.py:13 | Which four actions are network actions. |
| Policy.PermittedIff | src/rif_runtime/policy.py:21-25 | A list of patterns permits a host iff some pattern, in lower case, is the host, or some pattern is `*.` and a domain and the host ends in `.` and that domain in lower case. |
| Policy.PlainPatternFitsOneHost | src/rif_runtime/policy.py:21-25 | A pattern without a leading `*.` permits that one host: nothing that merely ends in it. |
| Policy.RuleMatchesIff | src/rif_runtime/policy.py:28-36 | Which requests a rule matches, in those terms: by host for network actions, by the target as it stands for others. |
| Policy.ProfilePermitsIff | src/rif_runtime/policy.py:102-135 | What an environment's profile permits, in those terms. |
| Policy.DecisionNamesRequest | src/rif_runtime/policy.py:75-179 | Whichever branch decides, the decision carries the request's actor, action and target, the environment and the time; its posture differs from the live one only in an egress denial. |
| Policy.WinnerDecides | src/rif_runtime/policy.py:75-160 | Unlocked, the most specific matching selective rule, the earliest of equals, is the one applied: its effect, id and reason are the decision's; with none, the selective rules play no part. |
| Policy.ReorderingIsInert | src/rif_runtime/policy.py:44-66 | Reordering that keeps the order within each specificity class changes no decision, nor whether there is one. |
| Policy.NonMatchingRuleIsInert | src/rif_runtime/policy.py:28-36 | A selective rule that does not match a request can be inserted anywhere without changing its decision; if it can be matched without raising, nor whether there is one. |
| Policy.CatchAllsOnlyReplaceDefault | src/rif_runtime/policy.py:69-160 | With catch-alls the decision is the one without them, unless that is the built-in default, which the first of them replaces; they never make evaluation raise or keep it from raising. |
| Policy.AllowedIff | src/rif_runtime/policy.py:75-179 | A request is allowed iff unlocked and either the deciding rule allows it or, with none, the profile permits it and the first catch-all, if any, allows. |
| Policy.FallbackTells | src/rif_runtime/policy.py:102-160 | Where no selective rule applies, the decision, its rule name and its posture tell what decided: one of the three constraints, the first catch-all or the default. |
| Policy.DenyByDefault | src/rif_runtime/policy.py:136-160 | With a deny catch-all first, a request is allowed exactly when unlocked and its deciding rule allows it, under every profile. |
| PolicyStorage.PolicyStore.constructor | src/rif_runtime/configuration/policies.py:65-71 | A store starts as the upgrade of what was stored, or of the defaults when nothing was. |
| PolicyStorage.PolicyStore.EnsureRequiredFirstPartyRules | src/rif_runtime/configuration/policies.py:73-96 | The stored list becomes its upgrade. |
| PolicyStorage.PolicyStore.Upsert | src/rif_runtime/configuration/policies.py:101-106 | Every rule of the id is replaced by the new one at the end; a list that does not validate is left alone. |
| PolicyStorage.PolicyStore.Delete | src/rif_runtime/configuration/policies.py:108-112 | Exactly the rules of the id go, and the answer tells whether there was one. |
| PolicyStorage.InsertAt | src/rif_runtime/configuration/policies.py:91-94 | The insertion point is the first catch-all, or the end when there is none. |
| PolicyStorage.ValidatedCatchAll | src/rif_runtime/configuration/policies.py:13-19 | What a stored rule is read as: its id and effect, a missing selector as `*` and a missing reason as the default one; so the upgrade and the engine see the same catch-alls. |
| PolicyStorage.WithoutRemovesId | src/rif_runtime/configuration/policies.py:108-112 | No rule of the id is left, and without one nothing changes. |
| PolicyStorage.RedumpedIsListed | src/rif_runtime/configuration/policies.py:98-112 | A dumped list validates as the list it was. |
| PolicyStorage.UpsertIsListed | src/rif_runtime/configuration/policies.py:101-106 | After an upsert the store lists the rules of other ids as they stood and the new one last. |
| PolicyStorage.DeleteUndoesUpsert | src/rif_runtime/configuration/policies.py:101-112 | Upserting and deleting leaves the store as the delete alone would: for a rule it did not have, with the list it had, validated and dumped. |
| PolicyStorage.UpgradeIsComplete | src/rif_runtime/configuration/policies.py:54-96 | Every required id is present afterwards, the old rules stand in order around what was inserted, and it stands ahead of every catch-all. |
| PolicyStorage.UpgradeIsIdempotent | src/rif_runtime/configuration/policies.py:73-96 | Upgrading twice is upgrading once. |
| PolicyStorage.ListedUpgrade | src/rif_runtime/configuration/policies.py:73-99 | A list that validates still does after the upgrade, and reads back with the one rule inserted. |
| PolicyStorage.UpgradeChangesOnlyRunCreate | src/rif_runtime/configuration/policies.py:73-96 | Exactly which decisions the upgrade changes, under every profile and posture: none but for `run.create`, and there only when no earlier rule matches and none behind the catch-all naming both selectors. |
| PolicyStorage.UpgradeNeitherRaisesNorMends | src/rif_runtime/configuration/policies.py:73-96 | The upgrade makes no evaluation raise that decided, and none decide that raised. |
| PolicyStorage.UpgradeAllowsDeniedRun | src/rif_runtime/configuration/policies.py:73-96 | A witness: with the rules deny `*`/`*` and deny `run.create`/`*`, the upgrade turns the denial of a run into an allowance. |
| PolicyStorage.SeededStoreAllowsExactly | src/rif_runtime/configuration/policies.py:28-52 | Under every profile a newly seeded store allows exactly run creation and HTTP requests to the host `api.anthropic.com`, unlocked. |
| Scanning.StringParams | src/rif_runtime/mcp/metasploit.py:177-192 | The recursive collector returns the strings of a value in order of traversal. |
| Scanning.StringsAreReachable | src/rif_runtime/mcp/metasploit.py:177-192 | The collected strings are exactly those reachable by some path, at any depth. |
| Scanning.TextAdds | src/rif_runtime/mcp/metasploit.py:203-205 | One text adds exactly the phrases it holds that were not found before, in the order of the list. |
| Scanning.HitsAreFirstFinds | src/rif_runtime/mcp/metasploit.py:195-206 | The scan reports exactly the phrases of the list that some text holds, strictly ordered by the first text that holds them and then by their place in the list - so each once. |
| Scanning.ScanForInjection | src/rif_runtime/mcp/metasploit.py:195-206 | The loops return exactly those phrases in that order. |
| Scanning.ScanIsEmptyIffClean | src/rif_runtime/mcp/metasploit.py:195-206 | Nothing is reported exactly when no text contains any phrase. |
| Scanning.ContainsIff | src/rif_runtime/mcp/metasploit.py:204 | A text contains a phrase iff it is something, the phrase and something. |
| Scanning.HitsIffInjected | src/rif_runtime/mcp/metasploit.py:261-266 | Something is quarantined iff a phrase occurs in the text, the untrusted context or a string anywhere in the parameters. |
| Metasploit.AllowsIff | src/rif_runtime/mcp/metasploit.py:234-407 | For every intent, lane, posture and token: answered iff the parameters normalise and it does not come, in the unlocked broker lane, to comparing a signature that is not ASCII - and which error is raised otherwise; then allowed iff unlocked, nothing injected, and the capability is read-only or a live token of this governor covers exactly this intent in the broker lane. |
| Metasploit.SevereIff | src/rif_runtime/mcp/metasploit.py:234-436 | An outcome, when there is one, is severe iff it is a denial, not for the lock, of something injected, of a severe capability, or of a misused token in the broker lane. |
| Metasploit.EvidenceVerifies | src/rif_runtime/mcp/metasploit.py:438-461 | Every outcome's evidence verifies and carries its decision, rule and time, the intent's hash, tool, capability and scope, the contract and the decision id. |
| Metasploit.OutcomeNamesIntent | src/rif_runtime/mcp/metasploit.py:409-436 | An outcome's decision is about the intent's actor, target and capability, in the environment and at the posture and time it was put, and simulated exactly in the shadow lane. |
| Metasploit.RuleTells | src/rif_runtime/mcp/metasploit.py:234-407 | What the rule's name tells: `msf.broker.authorized` exactly for broker grants, `msf.capability.read_only` exactly for the other allowances, and the lock, the quarantine and the two other lanes' denials exactly for their causes. |
| Metasploit.BrokerRuleTells | src/rif_runtime/mcp/metasploit.py:316-396 | In the broker lane: approval absent, signature invalid and token expired exactly for their causes; the three mismatches only where what they name differs. |
| Metasploit.CapabilityIsNormalized | src/rif_runtime/mcp/capabilities.py:87-101 | A capability is judged by its name in lower case without surrounding space. |
| Metasploit.SevereIsNotReadOnly | src/rif_runtime/mcp/capabilities.py:33-101 | No capability is both harmless and severe: every severe one is consequential. |
| Metasploit.MintedTokenSays | src/rif_runtime/mcp/metasploit.py:215-232 | A minted token says the intent's capability, target, scope and hash, the approver and both times, under a signature that compares equal to its own. |
| Metasploit.IntentJsonIsInjective | src/rif_runtime/mcp/metasploit.py:101-110 | Tool, capability, target, scope and parameters can all be told from what `intent_hash` digests. |
| Metasploit.SignedJsonIsInjective | src/rif_runtime/mcp/metasploit.py:141-151 | Everything a token or an evidence event says, and which of the two it is, can be told from what is signed. |
| Metasploit.QuotedPhraseIsInjected | src/rif_runtime/mcp/metasploit.py:45-73 | An intent whose text is one of the phrases counts as injected, so the results on injection are never vacuous. |
| Metasploit.SetParameterRaises | src/rif_runtime/mcp/metasploit.py:101-110 | A witness: an intent with a set among its parameters raises in every lane, at every posture and with every token, though the scanner collects the set's strings. |
| Metasploit.AccentedSignatureRaises | src/rif_runtime/mcp/metasploit.py:337-348 | A witness: a token signed with the one letter U+00E9 makes the broker lane raise. |
| Metasploit.WrongSignatureIsSevere | src/rif_runtime/mcp/metasploit.py:337-348 | Any wrong signature that is ASCII is denied instead, and severely. |
| Metasploit.VerifiesIff | src/rif_runtime/mcp/metasploit.py:457-461 | Evidence can be checked iff its signature is ASCII, and then verifies iff that is this governor's signature of it. |
| BrokerRuns.HonestRunQualifies | src/rif_runtime/mcp/metasploit.py:215-232 | The assumptions of the results on runs are met by honest use: minting a token and presenting it for its own intent, under signatures that differ. |
| BrokerRuns.ClaimedWasSigned | src/rif_runtime/mcp/metasploit.py:141-151 | Whatever is shown under a valid signature, token or evidence, the governor signed earlier in the run, and as that. |
| BrokerRuns.ValidTokenWasMinted | src/rif_runtime/mcp/metasploit.py:215-232 | A validly signed token presented in a run carries a claim an earlier mint signed. |
| BrokerRuns.VerifiedEvidenceWasIssued | src/rif_runtime/mcp/metasploit.py:438-461 | Evidence that verifies is, field by field, the evidence of an outcome reached earlier in the run. |
| BrokerRuns.GrantFollowsMint | src/rif_runtime/mcp/metasploit.py:316-407 | Every broker grant of every run goes back to an earlier mint for an intent of equal tool, capability, target, scope and normalised parameters whose time has not elapsed. |
| BrokerRuns.OtherIntentIsRefused | src/rif_runtime/mcp/metasploit.py:362-396 | A token is refused for an intent that differs in tool, capability, target, scope or parameters from the one it was minted for. |
| BrokerRuns.FreshTokenGrantsUntilExpiry | src/rif_runtime/mcp/metasploit.py:215-407 | A token can be minted exactly for lifetimes whose end a `datetime` can name; in an unlocked broker lane it grants its own clean intent exactly until it expires. |
| GraphMemory.GovernanceGraph.RecordDecision | src/rif_runtime/graph/memory.py:12-27 | Recording adds the two nodes, the target's kind winning, and one edge. |
| Replay.ReplayGraph | src/rif_runtime/replay.py:42-51 | The replay loop builds the graph of the decisions in the rows, each stamped with the time of replay, and raises iff some row lacks a field. |
| Replay.Recover | src/rif_runtime/replay.py:53-66 | Every figure reported is one of the same snapshot: rows and edges agree, nodes are the distinct actors and targets, and posture is what the parsed denials call for. |
| Replay.ParsedDenials | src/rif_runtime/replay.py:68-75 | The denials counted on raw rows are those of the decisions parsed from them. |
| Replay.HeldRowsParse | src/rif_runtime/replay.py:77-87 | Rows that hold decisions are replayed as those decisions, stamped with the time of replay. |
| GraphMemory.GraphHoldsDecisions | src/rif_runtime/graph/memory.py:12-27 | One edge per decision in order, and as nodes exactly the actors and targets. |
| GraphMemory.EdgesSay | src/rif_runtime/graph/memory.py:15-27 | Each edge runs from its decision's actor to its target and carries the decision, rule, environment, posture and time. |
| GraphMemory.KindIsOfLastNaming | src/rif_runtime/graph/memory.py:13-14 | A node is a target or an actor as the last decision that names it has it, a target if both. |
| GraphMemory.GraphOfParts | src/rif_runtime/graph/memory.py:12-27 | Recording in two stretches and joining is recording in one. |
| GraphMemory.ReplayIsFaithful | src/rif_runtime/replay.py:42-51 | Timestamps aside, the graph of replayed decisions is the one recorded when they were made. |
| CapabilityRegistries.CapabilityRegistry.Register | src/rif_runtime/capabilities/registry.py:32-47 | A taken name or a record of another id is refused without effect; otherwise the executable and its record are there. |
| CapabilityRegistries.CapabilityRegistry.Admit | src/rif_runtime/capabilities/registry.py:69-90 | Admission marks exactly an admissible record admitted and otherwise raises the first reason, changing nothing. |
| CapabilityRegistries.CapabilityRegistry.AddEvaluation | src/rif_runtime/capabilities/registry.py:92-96 | The evaluation is added, and a passing one sets the status whatever it was. |
| CapabilityRegistries.AdmissionError | src/rif_runtime/capabilities/registry.py:69-90 | No error iff there is a record that is verified, passed an evaluation and is in an admissible state. |
| CapabilityRegistries.RegisteredCapabilityCanBeAdmitted | src/rif_runtime/capabilities/registry.py:32-96 | A new registration is there, cannot be admitted at once, and can be after its first evaluation iff it is verified and that passed. |
| CapabilityRegistries.UnfitIsRefused | src/rif_runtime/capabilities/registry.py:69-88 | What admission never accepts, and the first reason it gives: no record, unverified, no passing evaluation, and lifecycle states before evaluation or revoked. |
| CapabilityRegistries.EvaluationTakes | src/rif_runtime/capabilities/registry.py:92-96 | An evaluation adds itself and leaves all other records and all else of its own alone, except that a passing one sets the status. |
| CapabilityRegistries.AdmittedStaysAdmissible | src/rif_runtime/capabilities/registry.py:69-96 | An admissible record stays so under admission and any further evaluation, and admission is idempotent. |
| Runtime.RIFRuntime.constructor | src/rif_runtime/runtime.py:30-98 | A process starts from its data directory with empty memory, at the last persisted posture raised to the floor, with the rules upgraded. |
| Runtime.RIFRuntime.SetPosture | src/rif_runtime/runtime.py:129-138 | Its whole effect is the posture, and one history row iff that changed. |
| Runtime.RIFRuntime.SetEnvironment | src/rif_runtime/runtime.py:140-143 | An unknown name is refused without effect. |
| RuntimeRuns.OperatorSettingsAreLive | src/rif_runtime/runtime.py:129-143 | The posture set is the live one at once, and so is the environment if it is known; nothing else in memory changes. |
| RuntimeRuns.LastPostureIs | src/rif_runtime/runtime.py:87-94 | The posture restored from history is that of the last row that names one; rows that do not are passed over. |
| RuntimeRuns.ProcessStartsWith | src/rif_runtime/runtime.py:30-98 | What a new process starts with: that posture, or else what the logged denials call for, raised to the floor; the configured environment; and an empty memory. |
| RuntimeRuns.RecordingRaises | src/rif_runtime/runtime.py:158-257 | Recording raises the posture to what the window of the last thousand decisions calls for, and a severe outcome one rung beyond that, up to the top. |
| RuntimeRuns.RegisteredCapabilityMayRun | src/rif_runtime/runtime.py:170-199 | A capability registered and evaluated through the runtime can run iff its record is verified and the evaluation passed. |
| Runtime.RIFRuntime.RecordDecision | src/rif_runtime/runtime.py:158-168 | Graph, window, posture, log and posture history all take in the one decision, and nothing else moves. |
| Runtime.RIFRuntime.Evaluate | src/rif_runtime/runtime.py:145-156 | A dry run returns the decision a recorded call makes from that state and leaves everything as it was. |
| RuntimeRuns.StoredRulesDecide | src/rif_runtime/runtime.py:145-156 | An evaluation of the wired runtime decides iff the stored rules validate, the environment is known and matching does not raise; it allows iff unlocked and the rule that wins among the stored ones allows or, when none applies, the live environment's profile permits and the first stored catch-all, if any, allows. |
| Runtime.RIFRuntime.EvaluateMetasploit | src/rif_runtime/runtime.py:228-257 | Like a recorded decision, with escalation for a severe outcome and one evidence row; a dry run has no effect. |
| RuntimeRuns.GovernorDecides | src/rif_runtime/runtime.py:228-257 | The wired runtime judges an intent in the lane and with the token it is put with, at the live posture and in the live environment: when it answers, and when it allows. |
| Runtime.RIFRuntime.RegisterCapability | src/rif_runtime/runtime.py:170-177 | Only the registry changes, and only when the registration is accepted. |
| Runtime.RIFRuntime.ExecuteCapability | src/rif_runtime/runtime.py:179-226 | Policy first, admission second, execution last; its outcome and whole effect, including calls that raise. |
| RuntimeRuns.RunKeepsPosturePersisted | src/rif_runtime/runtime.py:62-168 | In every run the files suffice to restore the live posture up to the floor. |
| RuntimeRuns.RestartNeverRelaxes | src/rif_runtime/runtime.py:62-98 | After any run, restarts in it included, a new process starts at least as severe as the old one and the floor, and exactly there once the history names a posture. |
| RuntimeRuns.SevereOutcomesLock | src/rif_runtime/runtime.py:228-257 | Without an operator set, posture only rises, across restarts too, and each severe outcome raises it by at least a rung up to the top. |
| RuntimeRuns.EnoughSevereOutcomesLock | src/rif_runtime/governance/posture.py:11-31 | As many severe outcomes as there are rungs left, at most three, lock the runtime from any posture. |
| RuntimeRuns.InjectedIntentIsSevere | src/rif_runtime/mcp/metasploit.py:249-276 | With the real governor, recording an intent that carries an injected instruction is a severe outcome iff the runtime is not locked yet. |
| RuntimeRuns.InjectedIntentsReachLock | src/rif_runtime/runtime.py:228-257 | The lock is reachable from anywhere: after any run of the wired runtime, one such intent recorded three times locks it. |
| RuntimeRuns.IncomparableTokenLeavesNoTrace | src/rif_runtime/runtime.py:228-257 | An intent put with a signature that cannot be compared changes nothing in the wired runtime: no log row, no evidence, no escalation. |
| RuntimeRuns.LockedIsAbsorbing | src/rif_runtime/runtime.py:145-257 | A locked runtime stays locked through every event but an operator's set, restarts included. |
| RuntimeRuns.LockedDeniesEverything | src/rif_runtime/policy.py:83-84 | Locked, every policy request and intent is denied, never severely, and no capability runs. |
| RuntimeRuns.RunKeepsMemory | src/rif_runtime/runtime.py:158-257 | In every run graph and window are exactly what the log gained since the process started. |
| RuntimeRuns.OneProcessKeepsBootLog | src/rif_runtime/runtime.py:30-53 | Without a restart, what the process found in the log stays what the directory held. |
| RuntimeRuns.ReplayRebuildsGraph | src/rif_runtime/replay.py:42-66 | Replaying the logged decisions gives the graph of the log found at start joined with the live one, timestamps aside; on a fresh directory and without a restart, the live one. |
| RunReplay.FileRebuildsGraph | src/rif_runtime/replay.py:30-75 | From bytes to graph: the log file a run leaves can be read iff no decision it recorded holds one of the three characters; its rows are then replayed without error as the graph of the log found joined with the live graph - on a fresh directory and without a restart, as the live graph - and as the posture of the runtime's own log. |
| RuntimeRuns.QuietPostureIsPeak | src/rif_runtime/governance/reflexive.py:11-14 | Without operator, severe outcome or restart the live posture is the start posture raised to the peak window's, and within what replaying a log begun by that process calls for. |
| RuntimeRuns.DryRunsDoNotInterfere | src/rif_runtime/runtime.py:145-257 | Erasing every dry run from a run leaves the same files, memory and posture. |
| RuntimeRuns.ExecutionsAreAuthorised | src/rif_runtime/runtime.py:179-226 | For every call at every place of every run: the policy's decision on that very manifest stands in the final log where the log then ended; the capability's code is entered iff it allows and, at that moment, the named capability is executable and its record verified, evaluated and in an admissible state; the one evidence row owed stands in the final file where it then ended. |
| RuntimeRuns.CallDecisionNamesCall | src/rif_runtime/runtime.py:182-192 | With the real policy engine that decision names the manifest's actor and action, and its target or, when it has none, its capability. |
| RuntimeRuns.EvidenceIsExact | src/rif_runtime/runtime.py:192-226 | The evidence file holds what it held at first and exactly the rows the calls of the run owe, in order: one for a denial, one for a completion, none for a call that raised. |
| RuntimeRuns.FilesAreExact | src/rif_runtime/runtime.py:129-257 | The decision log, the governor's evidence and the posture history of every run hold what they held at first and exactly what its events owe, in order: a decision for each recorded evaluation and each call, evidence for each recorded outcome, and history for each change of posture, from what it was to what it became. |

## Left out

- HTTP, CLI and JWT surfaces, configuration and file loading of settings, startup checks: the floor, the environment and the profiles are parameters.
- Machine crashes, `fsync` and the platform without `fcntl`: the file is what other processes read from the page cache.
- Concurrent runtimes sharing `posture_history.jsonl`, a plain unlocked store: the run theorems are about one process at a time on a data directory; only the chained log is modelled with many.
- Failing appends inside a runtime step: the runtime steps take them to succeed, which `DecisionLog.EveryAppendSucceeds` justifies for the decision log. A start that raises because a persisted log cannot be read is not a step.
- The runtime keeps its decision log as a sequence of decisions; its byte form, its chain and what replay reads from it are in `DecisionLog`.
- Sound logs only: rows are JSON objects, a non-empty file ends in a newline, blank lines are ASCII whitespace, rows by other writers are one physical line, and strings hold no lone surrogates, which the encoder would refuse. `Lines.FindTail` and `Lines.TailIsLastRecord` need none of this.
- The governor reads the clock once: the time a token is checked against and the time of the decision are one parameter. Policy decisions and the window's cutoff have separate ones.
- HMAC, SHA-256 and the text they are computed over: a signature is a function of what is signed; key order and number formatting are not modelled, and neither is `host` beyond being a function and raising for some targets.
- The optional fields of requests, rules and profiles that no decision reads (`reason` and `context` of a request, `metadata`), and the contract hash beyond being constant.
- A stored rule's `effect` that names no decision and one that is missing are the same unreadable rule; a tally key that Python cannot hash raises and is not modelled, and `1`, `1.0` and `True`, which Python merges as keys, are tallied apart.
- Integers of more digits than Python's conversion limit, which `json.dumps` refuses to write, and values nested more deeply than its recursion limit.
- What a capability's own code does, and other holders of a registry record object: a record is a value, admission and evaluation replace it. `register_record` is not modelled; `RIFRuntime` never calls it.
- `RIFRuntime.TakeIn` gathers the lines `record_decision` and `evaluate_metasploit` have in common; the order of the appends to different files within a step is not observable.
- A data directory of the runtime model always has a rule list; the seeding of an absent `policies.json` is in `PolicyStorage.PolicyStore.constructor`.
- Drift scoring, the benchmark corpus, resources, agents, explanations and the JSON-schema contracts: case analysis over constants, or finite instances of the universal governor results.
- Things the code does not claim: noticing truncation, permanence of `revoked`, single use of tokens, scanning of parameter keys.
