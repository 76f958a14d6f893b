# SurfaceCheck in Dafny

SurfaceCheck keeps screenshots as evidence: it captures a window, stores the
PNG beside a manifest, journals what it did, reviews and compares images, and
exports everything as a checksummed archive. This project models the parts of it
that have to be right when something stops half-way or when two requests meet,
and proves what they promise.

- **Store** (`Paths`, `JournalText`, `Journal`, `Files`, `Plans`, `Store`,
  `Quota`, `Admission`, `Outcomes`, `Integrity`, `Images`, `Trail`). The session
  directory is a map from path to octets. Every operation is a list of
  file-system calls; a write counts one elementary effect per octet, every other
  call counts one, and a crash or an I/O error may fall after any number of
  them. `Store.EvidenceStore` carries the operations out in place, with writes
  taken by the operating system in pieces of its own choosing, and is proved to
  leave exactly the planned effects.
- **Archive** (`Utf8`, `Tree`, `Ustar`, `Tar`, `TarRoundTrip`, `Archive`,
  `Export`, `ExportSession`, `ArchiveSize`). The USTAR builder, parser and
  verifier, and the export that uses them. A `BTreeMap` is the sorted list of
  its entries.
- **Service** (`Flight`, `Revision`, `Contents`, `Upkeep`, `Safety`, `Runtime`,
  `Completion`, `Cancellation`, `Service`, `Daemon`). `Flight` is the
  single-flight gate with its leases and flags. `Runtime` is a state machine in
  which any number of workers interleave: writers perform their plans one
  elementary effect at a time under the lease, readers read without it,
  cancellations arrive at any time, and a crash may empty every worker between
  any two steps. `Service.RuntimeService` is the handlers as they are written,
  one request at a time. `Daemon` puts the parts together.
- **Capture** (`Crc`, `Chunks`, `Grammar`, `Filters`, `Png`, `Raster`). The PNG
  decoder of RFC 2083, with inflation as a parameter.
- **Contracts** (`Nesting`, `Manifest`, `Validity`). The JSON nesting scan and
  the manifest's validation.
- **Review** (`Compare`, `Metrics`, `Findings`, `Measures`). Image comparison
  over exact reals, and the deterministic findings.
- `Layout` spells out the octets of the formats. `Counterexamples` holds inputs
  for which the code misses what is said about it.

Conventions. A Rust `String` is its UTF-8 octets. SHA-256 is a function
parameter into 64 lowercase hexadecimal digits; nothing assumes it injective
(no such function is), so where equal digests must mean equal contents the
conclusion is "equal, or here are two different texts with one digest". The
JSON deserializers are parameters too: of the journal's, one law is assumed,
that it reads back the exact text the store writes, and a parser obeying it is
given; of the manifest's, only that the serializer's output is read back. The
PNG decoder used by `Runtime` is a parameter that returns the digest of its
input, which `Daemon.SurroundingsAreLawful` shows of `Png.Decoded`. The wall
clock, tool output, scale and provenance are parameters.

Where the code and what is said about it differ, the code is modelled:

- DEVLOG.md:21-22 says an image is never published after its operation has been
  cancelled. The flag is read once, before publication
  (crates/surfacecheck-service/src/runtime.rs:333). A cancellation before that
  stops everything (`Cancellation.CancelledCaptureNeverPublishes`); a later one is
  answered `cancelled: true` and changes nothing in any run
  (`Cancellation.LateCancelIsIgnored`), so the image is published all the same
  (`Cancellation.LateCancelledCapturePublishes` is such a run).
  `Cancellation.CancellationSparesExactly` is the exact condition.
- The journal may not exceed 64 MiB when it is recovered
  (crates/surfacecheck-store/src/lib.rs:713), but an append never looks at that
  bound, so an append can make the journal unrecoverable
  (`Journal.AppendRepairs` gives the exact condition, `Journal.SomeAppendBreaks`
  reaches such an append from every journal).
- Replacing a manifest subtracts the old one before the quota check
  (crates/surfacecheck-store/src/lib.rs:323-327), while both lie on disk until
  the rename (`Quota.RevisionWithinQuota` gives the exact condition,
  `Counterexamples.HeavyRevisionExceeds` a session where it fails).
- A review never names a duplicate
  (crates/surfacecheck-service/src/runtime.rs:535), so it drops the duplicate
  finding made at publication (`Revision.ReviewReplaces`).
- Validation admits capture IDs of 128 octets and paths with newlines, yet an ID
  of more than 103 cannot carry findings (`Findings.FindingsAreValid`), one of
  more than 96 cannot be exported (`ExportSession.ImagePathIsRepresentable`), and
  a path with a newline makes an export that its own verification rejects
  (`Export.VerifyAfterBuild`, with `Counterexamples.BrokenExportIsRefused` as an
  instance). The daemon's own IDs have 23 octets.
- The archive parser is looser than the builder (it ignores padding octets and
  most header fields, and passes over a lone zero block), so only parse after
  build is a round trip.

## Model

| member | source | states |
|---|---|---|
| Journal.RecoverJournal | crates/surfacecheck-store/src/lib.rs:709-786 | the recovery loop refines the line-by-line specification `Recovered`, including the bound, the torn tail and every rejected line; the `u64` sequence increment cannot overflow |
| Journal.CheckLine | crates/surfacecheck-store/src/lib.rs:748-767 | one line is accepted exactly when it carries the expected number, a normal path, the previous digest, its own body's digest and a well-formed content digest |
| Journal.Position | crates/surfacecheck-store/src/lib.rs:739-742 | finds the first newline at or after an offset |
| Journal.ValidLength | crates/surfacecheck-store/src/lib.rs:653-656 | the length kept by the repair is that of the repaired journal, just past the last newline |
| Journal.CanonicalReadsBack | crates/surfacecheck-store/src/lib.rs:103-108 | the law assumed of the line deserializer is satisfiable: the parser for exactly the written text obeys it |
| Journal.AppendIsAtomic | crates/surfacecheck-store/src/lib.rs:630-672 | for every prefix of the written line, recovery gives the old entries, or the old entries and the new one, and flags a torn tail exactly when a proper non-empty part was written |
| Journal.AppendRepairs | crates/surfacecheck-store/src/lib.rs:630-672 | a completed append drops any torn tail and adds exactly one entry; the journal stays recoverable if and only if it stays within 64 MiB, which the append does not look at |
| Journal.SomeAppendBreaks | crates/surfacecheck-store/src/lib.rs:630-672 | from every recoverable journal, enough appends of any entry reach one that succeeds and leaves a journal that recovery rejects |
| Journal.RecoveredIsChained | crates/surfacecheck-store/src/lib.rs:748-779 | every recovered journal is numbered from 1 and chained from 64 zeros, each entry digest being that of its body |
| Journal.HeadDeterminesHistory | crates/surfacecheck-store/src/lib.rs:674-786 | two chained histories with one last digest are the same list, or exhibit two different body texts with one digest |
| Journal.JournalHeadDeterminesHistory | crates/surfacecheck-store/src/lib.rs:674-786 | the same for any two recoverable journals as they lie on disk |
| Journal.OwnLineFollows | crates/surfacecheck-store/src/lib.rs:674-707 | the line written after a recovery is the next line recovery accepts |
| JournalText.LineRoundTrip | crates/surfacecheck-store/src/lib.rs:95-108 | the written JSON line is read back as the same record |
| Layout.LineText | crates/surfacecheck-store/src/lib.rs:95-108 | the text of a journal line, key by key, for any strings that need no escape |
| JournalText.LineHasNoNewline | crates/surfacecheck-store/src/lib.rs:700-705 | the written JSON text holds no raw newline, whatever its strings hold |
| JournalText.BodyTextIsInjective | crates/surfacecheck-store/src/lib.rs:698-703 | two different bodies never have the same hashed text |
| JournalText.PrintBodyInLine | crates/surfacecheck-store/src/lib.rs:698-703 | the hashed body text is the very text that stands inside the line |
| Files.SessionSize | crates/surfacecheck-store/src/lib.rs:596-617 | adds the length of every file once |
| Files.EffectsGrow | crates/surfacecheck-store/src/lib.rs:596-617 | at no octet of any run of file-system calls has the session grown by more than the run writes |
| Files.FirstThenRest | crates/surfacecheck-store/src/lib.rs:527-576 | performing a run one elementary effect at a time passes through exactly the states of the run |
| Store.EvidenceStore.WriteAll | crates/surfacecheck-store/src/lib.rs:544-546 | data accepted by the operating system in arbitrary pieces leaves exactly a prefix of it, and all of it on success |
| Store.EvidenceStore.AtomicCreate | crates/surfacecheck-store/src/lib.rs:527-554 | temporary file, write, rename, from any disk, stopping after any elementary effect |
| Store.EvidenceStore.AtomicReplace | crates/surfacecheck-store/src/lib.rs:556-576 | stale temporary file removed, then write and rename, stopping anywhere |
| Store.EvidenceStore.AppendJournal | crates/surfacecheck-store/src/lib.rs:630-672 | checks, recovery, repair and append leave exactly the planned calls' effects, stopping anywhere |
| Store.EvidenceStore.CreateSession | crates/surfacecheck-store/src/lib.rs:151-176 | refusals in order, then directories, empty journal and first line |
| Outcomes.SessionLeaves | crates/surfacecheck-store/src/lib.rs:151-182 | a session is created if and only if it is new, the limit leaves room and no journal is in the way; it then holds only its journal, with one entry |
| Store.EvidenceStore.CheckPublication | crates/surfacecheck-store/src/lib.rs:192-249 | every check before the first write, in order, with its error |
| Admission.SomeQuotaAdmits | crates/surfacecheck-store/src/lib.rs:185-228 | under some quota a publication passes its checks if and only if its ID, image size, path, manifest, session and journal are in order, each stated with its number or name |
| Admission.PublicationIsAdmitted | crates/surfacecheck-store/src/lib.rs:229-256 | and under a given quota it is then refused if and only if the session and all the octets the publication would write weigh more than the quota |
| Admission.PublicationCompletes | crates/surfacecheck-store/src/lib.rs:185-274 | so an uninterrupted publication succeeds if and only if those checks pass, no leftover of the same content is in the way, the journal stays within 64 MiB after its first line, and what is written fits |
| Outcomes.PublicationLeaves | crates/surfacecheck-store/src/lib.rs:257-274 | a completed publication leaves every other file as it was, the image and the manifest with exactly their octets, and two new journal entries with number, operation, path and content digest |
| Store.EvidenceStore.PublishCapture | crates/surfacecheck-store/src/lib.rs:185-274 | carries out exactly the planned calls in order, from any disk, stopping after any elementary effect |
| Store.EvidenceStore.CheckRevision | crates/surfacecheck-store/src/lib.rs:307-330 | every check before the first write, the quota counted without the old manifest |
| Admission.RevisionIsAdmitted | crates/surfacecheck-store/src/lib.rs:315-331 | a revision that nothing else stops is refused if and only if the session without its old manifest and all the octets it would write weigh more than the quota |
| Admission.RevisionCompletes | crates/surfacecheck-store/src/lib.rs:307-341 | so an uninterrupted revision succeeds if and only if the manifest is valid, the session and its journal are readable and what is written fits |
| Outcomes.RevisionLeaves | crates/surfacecheck-store/src/lib.rs:332-341 | a completed revision replaces the manifest, leaves every other file as it was and adds one journal entry for it |
| Store.EvidenceStore.ReplaceManifest | crates/surfacecheck-store/src/lib.rs:307-339 | carries out exactly the planned calls in order, stopping anywhere |
| Store.EvidenceStore.ReadCaptureBytes | crates/surfacecheck-store/src/lib.rs:283-303 | looks the capture up in the manifest on disk and returns its octets only when length and digest match |
| Quota.PredictedLinesAreAppended | crates/surfacecheck-store/src/lib.rs:209-273 | the two journal lines whose lengths are charged are, octet for octet, the two appended; past the recovery bound the second append is refused |
| Quota.PublishStaysWithinQuota | crates/surfacecheck-store/src/lib.rs:229-249 | an admitted publication keeps the session within its quota at every octet of every write |
| Quota.PublicationSucceeds | crates/surfacecheck-store/src/lib.rs:185-274 | left alone, a publication succeeds if and only if its checks pass, no temporary file of the same content is left over and the journal stays recoverable after its first line |
| Quota.RevisionWithinQuota | crates/surfacecheck-store/src/lib.rs:315-331 | the quota holds throughout a manifest replacement if and only if the session fits both before and with both manifests in place; the completed session always fits |
| Quota.TightQuotaIsExceeded | crates/surfacecheck-store/src/lib.rs:315-331 | under the smallest quota that admits it, a revision whose old manifest is longer than its journal line does exceed the quota while being written |
| Counterexamples.HeavyRevisionExceeds | crates/surfacecheck-store/src/lib.rs:315-331 | a session with integrity and within its quota, and a revision of it that the quota check admits and that exceeds the quota before its rename |
| Quota.RevisionExcess | crates/surfacecheck-store/src/lib.rs:315-331 | at no point does a replacement exceed the quota by more than the manifest it replaces |
| Integrity.IntegralReads | crates/surfacecheck-store/src/lib.rs:283-303 | on a sound disk every capture of the manifest is read back, with the recorded length and digest |
| Integrity.AppendKeepsIntegrity | crates/surfacecheck-store/src/lib.rs:630-672 | at every octet of an append the evidence stays sound and audited |
| Integrity.CaptureKeepsIntegrity | crates/surfacecheck-store/src/lib.rs:250-256 | throughout the image write and its journal line the old manifest stands with all its evidence, and the disk stays sound and audited |
| Integrity.ManifestKeepsIntegrity | crates/surfacecheck-store/src/lib.rs:257-272 | while a manifest is replaced either the old one stands or the new one does, each with all its evidence |
| Integrity.PublishKeepsIntegrity | crates/surfacecheck-store/src/lib.rs:185-274 | at every octet of a publication whose manifest cites the old captures and the new image, the evidence is sound and audited; the manifest switches at one instant |
| Integrity.RevisionKeepsIntegrity | crates/surfacecheck-store/src/lib.rs:307-339 | the same for a revision that leaves the captures alone |
| Integrity.SessionKeepsIntegrity | crates/surfacecheck-store/src/lib.rs:151-176 | the same for creating a session |
| Images.PublishImages | crates/surfacecheck-store/src/lib.rs:250 | the images on disk are the old ones until the new one is complete, then those and it, octets unchanged |
| Images.RevisionImages | crates/surfacecheck-store/src/lib.rs:332-337 | replacing a manifest never touches an image |
| Images.InterruptedRetryIsRefused | crates/surfacecheck-store/src/lib.rs:204-207 | once an interrupted publication has had any effect, the same image under the same ID is refused and nothing is written |
| Ustar.OctalRoundTrip | crates/surfacecheck-store/src/lib.rs:862-867 | a zero-padded octal field keeps its value |
| Ustar.ParsesOctal | crates/surfacecheck-store/src/lib.rs:1123-1136 | what is written in an octal field is parsed back |
| Ustar.SplitJoins | crates/surfacecheck-store/src/lib.rs:825-832 | name and prefix joined by '/' are the path again, and stay UTF-8 |
| Ustar.WriteHeader | crates/surfacecheck-store/src/lib.rs:824-855 | the 512-octet array filled in place, checksummed last, is the specified header |
| Layout.HeaderLayout | crates/surfacecheck-store/src/lib.rs:838-854 | field by field, with their offsets as numbers: name, mode 0600, owner, group, eleven octal digits of size, time, the checksum over all octets with its own as spaces, type, magic, version, prefix |
| Ustar.CopyInto | crates/surfacecheck-store/src/lib.rs:838-840 | copies octets into the header array and changes nothing else |
| Ustar.HeaderRoundTrip | crates/surfacecheck-store/src/lib.rs:936-985 | a header written for a representable path without NUL parses back to that path and size |
| Ustar.ReadHasNoNul | crates/surfacecheck-store/src/lib.rs:956-979 | a parsed path is normal and never holds a NUL |
| Layout.ReadsExactly | crates/surfacecheck-store/src/lib.rs:933-985 | a header is read as a path and a size if and only if: the octal checksum is the sum of all octets with its own field as spaces, magic and version are right, the type is a regular file, name and prefix are NUL-padded UTF-8 and join to a normal path, and the size is octal |
| Tar.AppendTarEntry | crates/surfacecheck-store/src/lib.rs:819-860 | appends header, data and padding, or refuses exactly the paths that cannot be represented |
| Tar.BuildTar | crates/surfacecheck-store/src/lib.rs:788-817 | checksum list, entries in order and terminator, with the size bound checked after each entry |
| ArchiveSize.BuiltLength | crates/surfacecheck-store/src/lib.rs:788-817 | an archive is built if and only if every path is normal and representable and 1024 plus the padded entries is at most 536870912 octets, which is then its length |
| Tar.ParseArchiveEntries | crates/surfacecheck-store/src/lib.rs:908-1019 | the block loop refines the recursive parse, including the terminator and what follows it |
| Tar.ParseBlock | crates/surfacecheck-store/src/lib.rs:925-1004 | one turn of the block loop |
| Tree.InsertIsSorted | crates/surfacecheck-store/src/lib.rs:792-801 | insertion keeps the walk sorted and adds exactly one key |
| Tree.GetInsert | crates/surfacecheck-store/src/lib.rs:801 | insertion changes the value of exactly one key |
| TarRoundTrip.EntryParses | crates/surfacecheck-store/src/lib.rs:925-1004 | one built entry is consumed whole, padding included |
| TarRoundTrip.ParseAfterBuild | crates/surfacecheck-store/src/lib.rs:788-860 | parsing a built archive gives back exactly its entries and the checksum list, if and only if there are at most 34 and no path holds a NUL |
| TarRoundTrip.ParsedIsSound | crates/surfacecheck-store/src/lib.rs:908-1019 | whatever is parsed is sorted, distinct, normal paths, at most 34, none with a NUL |
| Archive.ReadList | crates/surfacecheck-store/src/lib.rs:1022-1062 | reads the checksum list: every line right, no path twice, every other entry counted |
| Archive.VerifyArchiveEntries | crates/surfacecheck-store/src/lib.rs:1021-1098 | the loops over lines and captures refine the specification `Verified` |
| Archive.VerifiedIsSound | crates/surfacecheck-store/src/lib.rs:1021-1098 | accepted entries are exactly the checksum list, the manifest and the images it cites; every other entry is listed exactly once with its true digest; every image matches its record |
| Archive.AcceptedAttests | crates/surfacecheck-store/src/lib.rs:869-872 | whatever octets `verify_archive` accepts parse to at most 34 sorted, normal, distinct paths whose entries attest themselves as above |
| Export.TextLinesAreLines | crates/surfacecheck-store/src/lib.rs:789-796 | the checksum list read by `str::lines` is one line for each entry when no path holds a line break |
| Export.VerifyAfterBuild | crates/surfacecheck-store/src/lib.rs:346-372 | an archive built from a valid manifest and its matching images is accepted by verification if and only if no path holds a newline |
| Counterexamples.BrokenExportIsRefused | crates/surfacecheck-store/src/lib.rs:346-372 | a valid manifest with a newline in its image path, whose export is built and then refused by verification, whatever the hash |
| ExportSession.ExportArchive | crates/surfacecheck-store/src/lib.rs:346-372 | gathers, builds and verifies, refusing as specified |
| ExportSession.GatherImages | crates/surfacecheck-store/src/lib.rs:353-369 | every cited image is read, checked and entered, in manifest order |
| ExportSession.ImagePathIsRepresentable | crates/surfacecheck-store/src/lib.rs:825-837 | a stored image's path fits a USTAR header if and only if its capture ID has at most 96 octets |
| ExportSession.ExportedAttests | crates/surfacecheck-store/src/lib.rs:370-372 | every archive handed out is sound in the sense above |
| ArchiveSize.SessionExports | crates/surfacecheck-store/src/lib.rs:346-372 | on every disk the daemon can leave, export succeeds if and only if a sum read off the manifest, 1024 and for each file 512 and its length rounded up to 512, is at most 536870912; the archive then has exactly that length |
| Daemon.RunsExport | crates/surfacecheck-store/src/lib.rs:346-372 | so at every moment of every run a session with a manifest exports if and only if that sum is at most 536870912, and is otherwise refused for its size |
| Flight.SingleFlight.Begin | crates/surfacecheck-service/src/lib.rs:284-303 | refuses an invalid ID or a second lease, else issues the next generation with a fresh, lowered flag |
| Flight.SingleFlight.Finish | crates/surfacecheck-service/src/lib.rs:305-319 | releases exactly the active lease with that ID and generation |
| Flight.SingleFlight.Cancel | crates/surfacecheck-service/src/lib.rs:321-332 | raises the flag of the active lease exactly when ID and generation match, and no other flag |
| Flight.RunIsSane | crates/surfacecheck-service/src/lib.rs:284-332 | in every run at most one lease is active, it is the latest, and the generations are 1, 2, 3, ... wrapping past `u64::MAX` |
| Flight.GenerationsRepeat | crates/surfacecheck-service/src/lib.rs:295-300 | two leases share a generation if and only if a multiple of 2^64 - 1 begins lies between them; none is 0 |
| Flight.StaleFinishIsHarmless | crates/surfacecheck-service/src/lib.rs:305-319 | within 2^64 - 1 begins, finishing any lease but the active one changes nothing |
| Flight.StaleFinishAfterWrap | crates/surfacecheck-service/src/lib.rs:305-319 | beyond that, it releases the active lease if and only if the operation IDs agree and the generations have wrapped onto each other |
| Flight.RaisedByItsCancel | crates/surfacecheck-service/src/lib.rs:321-332 | a flag is raised only by a cancellation naming that lease while it is active |
| Service.RuntimeService.OpenSession | crates/surfacecheck-service/src/runtime.rs:376-387 | session created or found, manifest read or begun, at any interruption safe |
| Service.RuntimeService.PublishCapture | crates/surfacecheck-service/src/runtime.rs:367-470 | succeeds if and only if the session opens, the manifest can be built and serialized and the planned publication completes before the machine stops; the manifest on disk then says what a publication of this draft on the old manifest must; safe at any interruption |
| Service.RuntimeService.Capture | crates/surfacecheck-service/src/runtime.rs:309-365 | busy if and only if the gate refuses; cancelled, failed and done each under their exact condition; a cancellation before the check leaves the disk alone; the lease is always released |
| Service.RuntimeService.ReviewInputFor | crates/surfacecheck-service/src/runtime.rs:932-955 | record, image read back and decoded, or nothing |
| Service.RuntimeService.CompareCaptures | crates/surfacecheck-service/src/runtime.rs:628-660 | without a lease, both captures of the manifest are always found and read, and the comparison returned measures exactly their two images |
| Service.RuntimeService.BuildRevision | crates/surfacecheck-service/src/runtime.rs:510-757 | the manifest a review, a selection or a note asks for |
| Service.RuntimeService.Revise | crates/surfacecheck-service/src/runtime.rs:472-777 | done if and only if the manifest can be read, the change built and serialized and the planned revision completes; captures untouched, disk safe at any interruption, the stored manifest is the revised one; the lease is always released |
| Revision.Retain | crates/surfacecheck-service/src/runtime.rs:541-553 | keeps exactly the elements that satisfy the condition, in order |
| Revision.BuildPublished | crates/surfacecheck-service/src/runtime.rs:388-462 | pushes the capture and its findings as specified, refusing past either limit |
| Contents.PublishedSays | crates/surfacecheck-service/src/runtime.rs:388-462 | a published manifest is built if and only if there is room, the image can be reviewed and the findings are at most 256; it keeps session, captures, findings, agent findings, comparison and pair, keeps the note unless a new one comes, adds the draft's circumstances under a numbered ID, and reports a duplicate if and only if an older capture has the same digest |
| Revision.BuildReviewed | crates/surfacecheck-service/src/runtime.rs:531-617 | removes the findings about the capture, adds the recomputed ones and the agent's |
| Contents.ReviewedSays | crates/surfacecheck-service/src/runtime.rs:531-617 | a reviewed manifest keeps everything but the findings about the capture, which are recomputed with the recorded dimensions expected, and the agent's part and provenance when an agent answered |
| Contents.RevisedSays | crates/surfacecheck-service/src/runtime.rs:503-770 | every revision of the daemon: which capture is meant, `latest` being the last listed; that its image was decoded from octets on disk matching its record; and what the new manifest holds, the selected pair in its order included |
| Revision.PublishedIsValid | crates/surfacecheck-service/src/runtime.rs:388-464 | the built manifest validates if and only if there is room, the ID is fresh and the new record's own fields are valid: older findings, comparison and pair still resolve |
| Revision.ReviewedIsValid | crates/surfacecheck-service/src/runtime.rs:531-617 | a reviewed manifest validates if and only if the ID has at most 103 octets, the image is the cited one and fits its record, and the agent's part is sound |
| Revision.SelectedIsValid | crates/surfacecheck-service/src/runtime.rs:699-726 | a stored comparison validates if and only if it is between different captures whose recorded dimensions are the decoded ones |
| Revision.AnnotatedIsValid | crates/surfacecheck-service/src/runtime.rs:757-770 | a note makes the manifest invalid only by its own length or control characters |
| Revision.ReviewReplaces | crates/surfacecheck-service/src/runtime.rs:531-547 | after a review the findings about the capture are exactly the recomputed ones, so a duplicate finding from publication is gone |
| Revision.ReviewIsIdempotent | crates/surfacecheck-service/src/runtime.rs:531-617 | a second review without an agent changes nothing |
| Upkeep.NextIdIsFresh | crates/surfacecheck-service/src/runtime.rs:391-395 | the next capture ID is never in use |
| Upkeep.TidyIsShort | crates/surfacecheck-service/src/runtime.rs:445-448 | at most five findings for each capture in the whole list |
| Upkeep.PublishedIsKept | crates/surfacecheck-service/src/runtime.rs:388-462 | a publication keeps names and bounds and never meets the limit of 256 findings |
| Upkeep.ReviewedIsKept | crates/surfacecheck-service/src/runtime.rs:541-616 | a review keeps them too and never meets the limit |
| Safety.PublishIsSafe | crates/surfacecheck-service/src/runtime.rs:376-466 | a publication planned on a safe disk passes only through safe disks, adds captures only at the end and never rewrites an image |
| Safety.RevisionIsSafe | crates/surfacecheck-service/src/runtime.rs:617-618 | the same for every revision |
| Safety.SessionIsSafe | crates/surfacecheck-service/src/runtime.rs:376-379 | the same for creating a session |
| Runtime.StepKeeps | crates/surfacecheck-service/src/runtime.rs:309-955 | every interleaved step of every handler, and a crash at any moment, keeps the invariant; captures and journal entries only grow at the end; no image is rewritten |
| Runtime.RunKeeps | crates/surfacecheck-service/src/runtime.rs:309-955 | so does every run |
| Runtime.EvidenceIsIntact | crates/surfacecheck-service/src/runtime.rs:367-470 | in every run from an empty store, at every moment, each capture the manifest names is read back with its recorded length and digest |
| Runtime.EvidenceIsJournaled | crates/surfacecheck-service/src/runtime.rs:367-470 | and the journal, while within its bound, is recoverable, records every one of them, and records only what is on disk |
| Runtime.ReadersNeverBreak | crates/surfacecheck-service/src/runtime.rs:628-660 | a reader without the lease never finds a capture of its snapshot missing or altered, whatever a writer is doing |
| Runtime.CapturesAreNeverLost | crates/surfacecheck-service/src/runtime.rs:367-470 | the capture list at one moment is a prefix of the list at every later one, crashes included |
| Runtime.ImagesAreImmutable | crates/surfacecheck-service/src/runtime.rs:464-466 | an image on disk at one moment is there, octet for octet, at every later one |
| Trail.PublishExtends | crates/surfacecheck-store/src/lib.rs:255-272 | along a publication, repairs and torn tails included, the journal's entries at one octet are the first of those at every later one |
| Runtime.JournalIsAppendOnly | docs/adr/0001-native-architecture.md:117 | in every run, while the journal is within the recovery bound it was so at every earlier moment, and the entries then are the first of those now, crashes included |
| Runtime.NoUpdateIsLost | crates/surfacecheck-service/src/runtime.rs:503-777 | what a writer read under its lease is still on disk when it builds the next manifest from it |
| Runtime.LeaseIsExclusive | crates/surfacecheck-service/src/runtime.rs:318-363 | at most one worker holds a lease and it is the gate's active one |
| Runtime.SessionStaysSmall | crates/surfacecheck-service/src/runtime.rs:309-777 | the session never weighs more than its quota and 1 MiB, at any moment of any run |
| Runtime.FindingsStayFew | crates/surfacecheck-service/src/runtime.rs:445-448 | in every run at most five findings for each capture, 160 in all |
| Runtime.RepeatedReviewChangesNothing | crates/surfacecheck-service/src/runtime.rs:503-617 | on any later disk showing the first review's manifest, a second one asks for that very manifest |
| Daemon.RunsReviewOnce | crates/surfacecheck-service/src/runtime.rs:503-617 | over runs: when a later moment shows the manifest a review asked for, the same review asks for that very manifest again |
| Runtime.WriterFinishes | crates/surfacecheck-service/src/runtime.rs:464-466 | a writer left alone carries out the whole of its plan and changes nothing else |
| Completion.Opens | crates/surfacecheck-service/src/runtime.rs:376-387 | a capture left alone past the check gets its session and its manifest |
| Completion.Publishes | crates/surfacecheck-service/src/runtime.rs:388-466 | and from there the whole publication |
| Completion.UndisturbedCapturePublishes | crates/surfacecheck-service/src/runtime.rs:309-365 | whenever the gate is open and a worker idle, an admissible capture that nobody disturbs publishes exactly one capture more and opens the gate again |
| Cancellation.CancelledCaptureNeverPublishes | crates/surfacecheck-service/src/runtime.rs:330-338 | until a capture cancelled before the check has ended, the disk does not change at all |
| Cancellation.LateCancelIsIgnored | crates/surfacecheck-service/src/runtime.rs:899-916 | after the check a cancellation is reported as done, and every run from there is possible with it exactly when it is without it and ends with the same disk, gate and workers |
| Cancellation.LateCancelledCapturePublishes | crates/surfacecheck-service/src/runtime.rs:309-365 | whenever a capture left alone would publish, there is a run in which an accepted cancellation reaches it and the same capture is listed at the end |
| Cancellation.CancellationSparesExactly | crates/surfacecheck-service/src/runtime.rs:330-338 | an accepted cancellation guarantees an unchanged disk in every run until the capture ends if and only if the capture still waits for its tools, or would have left the disk alone anyway |
| Cancellation.ReadyIsNotSpared | crates/surfacecheck-service/src/runtime.rs:388-466 | and a built publication that would complete is not spared by any cancellation |
| Crc.ComputeCrc32 | crates/surfacecheck-capture/src/png.rs:404-417 | the bitwise loop is the CRC of section 3.4 of RFC 2083 |
| Crc.Crc32IsTableDriven | crates/surfacecheck-capture/src/png.rs:404-417 | and equals, for every message, the table-driven form in the appendix of that RFC |
| Crc.Crc32IsRemainder | crates/surfacecheck-capture/src/png.rs:404-417 | and is the complement of the remainder, by long division, of the message's bits times x^32 by the polynomial of section 3.4 of that RFC given by its exponents, the 32 highest coefficients complemented first |
| Crc.LowestFirst | crates/surfacecheck-capture/src/png.rs:404-417 | the lowest bit of each octet coming first |
| Crc.FoldBytesIsFoldBits | crates/surfacecheck-capture/src/png.rs:404-417 | folding octets is folding their bits, least significant first |
| Crc.BurstChangesCrc | crates/surfacecheck-capture/src/png.rs:404-417 | changing any bits within 32 consecutive ones always changes the CRC |
| Chunks.ParseIsTiling | crates/surfacecheck-capture/src/png.rs:70-93 | octets parse to a chunk list if and only if they are exactly those chunks, end to end, with valid CRCs |
| Layout.ChunkLayout | crates/surfacecheck-capture/src/png.rs:70-93 | length, type, data and CRC of a chunk, most significant octet first |
| Chunks.BurstBreaksParse | crates/surfacecheck-capture/src/png.rs:85-93 | a burst within a chunk's type and data, its stored CRC unchanged, makes the input unparsable |
| Grammar.ScanIsRules | crates/surfacecheck-capture/src/png.rs:95-190 | the chunk loop's verdict and variables are exactly what position-wise rules about the list say |
| Grammar.CompleteIsWellOrdered | crates/surfacecheck-capture/src/png.rs:95-199 | an accepted list has one IHDR, first, and one IEND, last, with image data between |
| Layout.KindsByName | crates/surfacecheck-capture/src/png.rs:95-190 | the five known chunk types by name, and every other critical one refused |
| Filters.PaethIsNearest | crates/surfacecheck-capture/src/png.rs:387-402 | `paeth` picks the nearest of its three neighbours, ties in the order a, b, c |
| Filters.UnfilterRow | crates/surfacecheck-capture/src/png.rs:353-385 | the in-place loop over one row leaves what RFC 2083 says each filter type restores: nothing, left, above, their halved sum, or the nearest of three neighbours, each modulo 256 |
| Filters.RowMeans | crates/surfacecheck-capture/src/png.rs:353-385 | a row is what the decoder makes of a filtered one if and only if it is that, and if and only if the encoder makes the filtered row of it |
| Filters.UnfilterImage | crates/surfacecheck-capture/src/png.rs:256-275 | the row loop unfilters every row against the one before and stops at a bad filter type |
| Filters.UnfilterInvertsFilterRows | crates/surfacecheck-capture/src/png.rs:256-275 | unfiltering recovers every image filtered as in section 6 of RFC 2083, for any choice of filters |
| Filters.FilterInvertsUnfilterRows | crates/surfacecheck-capture/src/png.rs:256-275 | and filtering the result again gives the stream back |
| Png.ReadChunk | crates/surfacecheck-capture/src/png.rs:71-93 | one chunk read at an offset, or refused for length or CRC |
| Png.WalkChunks | crates/surfacecheck-capture/src/png.rs:70-190 | the chunk loop refines parsing followed by scanning |
| Png.ExpandPixels | crates/surfacecheck-capture/src/png.rs:277-336 | the expansion loop refines the pixel-by-pixel specification and reports transparency |
| Png.RenderImage | crates/surfacecheck-capture/src/png.rs:256-336 | rows and expansion together |
| Png.DecodePng | crates/surfacecheck-capture/src/png.rs:54-351 | decodes exactly as specified, inflation being a parameter |
| Png.DecodesEncodedImage | crates/surfacecheck-capture/src/png.rs:54-351 | decoding an encoded image gives its own rows, expanded pixel by pixel |
| Raster.DecodedShows | crates/surfacecheck-capture/src/png.rs:54-351 | every accepted input: signature, chunks and header octet by octet, the rows its inflated stream restores, and for every pixel its red, green, blue and alpha from those rows by colour type, palette and transparency |
| Png.AcceptedIsEncoded | crates/surfacecheck-capture/src/png.rs:54-351 | every accepted input is the encoding of some image in well-ordered, sound chunks |
| Png.DecodedIsBounded | crates/surfacecheck-capture/src/png.rs:54-351 | the output holds exactly 4 * width * height octets within every bound, is opaque unless flagged, and carries the digest of the input |
| Daemon.SurroundingsAreLawful | crates/surfacecheck-capture/src/png.rs:36-54 | the decoder and the journal parser of this project obey both laws that the runs assume |
| Png.BurstIsRejected | crates/surfacecheck-capture/src/png.rs:85-93 | damage within 32 consecutive bits of one chunk's type and data is always rejected |
| Nesting.JsonNestingWithinLimit | crates/surfacecheck-core/src/model.rs:109-137 | the loop over depth, string and escape state is the scanner |
| Nesting.ScanIsExact | crates/surfacecheck-core/src/model.rs:109-137 | a JSON text, with any legal white space and escapes, passes if and only if it nests at most 32 deep |
| Nesting.StackIsDepth | crates/surfacecheck-core/src/model.rs:109-137 | on accepted octets a bracket-matching parser that has not failed holds exactly the scanner's depth, at most 32 |
| Nesting.RejectedStackIsTooHigh | crates/surfacecheck-core/src/model.rs:109-137 | on rejected octets it holds a 33rd bracket at some prefix |
| Manifest.Lookup | crates/surfacecheck-core/src/model.rs:981-985 | the first capture with an ID, or proof that there is none |
| Manifest.LookupGrows | crates/surfacecheck-core/src/model.rs:981-989 | appending captures never changes what an old ID means |
| Manifest.ReferencesGrow | crates/surfacecheck-core/src/model.rs:948-1018 | every finding, comparison and before/after pair of a valid manifest still resolves after captures are appended |
| Validity.ValidMeans | crates/surfacecheck-core/src/model.rs:890-1018 | a manifest is valid if and only if every field is within its numbered limit and every reference finds its capture in the list, with that checksum and room for its region |
| Paths.ImagePathIsObjectPath | crates/surfacecheck-core/src/model.rs:622-635 | `captures/<id>.png` is a normal relative path for every valid ID |
| Paths.ObjectPathBySegments | crates/surfacecheck-core/src/model.rs:622-635 | a path is accepted if and only if it has 1 to 256 octets, no backslash, and between its slashes nothing empty, no `.` and no `..` |
| Utf8.Utf8Cut | crates/surfacecheck-store/src/lib.rs:828-832 | UTF-8 text can be cut at an ASCII octet |
| Compare.Compare | crates/surfacecheck-review/src/lib.rs:234-287 | the pixel and channel loops accumulate the specified sums |
| Measures.ComparedMeasures | crates/surfacecheck-review/src/lib.rs:234-287 | images compare if and only if both inputs are valid and sizes and scales agree; the record holds the number of differing pixels and the means of |a-b|/255, of its square, and of |0.2126 dR + 0.7152 dG + 0.0722 dB|/255, as sums over the octets |
| Metrics.MetricsAreOrdered | crates/surfacecheck-review/src/lib.rs:263-286 | mean squared <= mean of squares <= mean <= changed fraction <= 1020 means, all within [0, 1]; perceptual distance <= changed fraction; nothing changed if and only if the images are equal |
| Metrics.MetricsAreSymmetric | crates/surfacecheck-review/src/lib.rs:234-287 | swapping the images swaps the IDs and changes no metric |
| Metrics.MetricsObeyTriangle | crates/surfacecheck-review/src/lib.rs:263-270 | mean difference, changed fraction and perceptual distance satisfy the triangle inequality |
| Metrics.RootMeanSquareObeysTriangle | crates/surfacecheck-review/src/lib.rs:263-270 | so does the root-mean-square difference: the third square is at most the square of the sum of the other two roots |
| Metrics.ComparedIsValid | crates/surfacecheck-review/src/lib.rs:271-286 | a comparison validates if and only if its captures differ |
| Metrics.CauchySchwarz | crates/surfacecheck-review/src/lib.rs:255-259 | the square of the summed differences is at most their number times the summed squares |
| Findings.DeterministicFindings | crates/surfacecheck-review/src/lib.rs:108-232 | exactly the specified findings, in order, or a refusal of an invalid input |
| Findings.MeasureLuminance | crates/surfacecheck-review/src/lib.rs:147-165 | darkest and brightest rounded level over all pixels |
| Measures.ContrastIsDistance | crates/surfacecheck-review/src/lib.rs:147-165 | the contrast is the distance, over 255, of two attained levels of 0.2126 R + 0.7152 G + 0.0722 B rounded that bound all others |
| Findings.CountBoundary | crates/surfacecheck-review/src/lib.rs:176-190 | counts exactly the non-blank pixels on an edge |
| Findings.FindingsAreFew | crates/surfacecheck-review/src/lib.rs:108-232 | between one and six findings; at most five when no duplicate is named or the dimensions are as expected; a blank image touches no edge |
| Measures.FoundByConditions | crates/surfacecheck-review/src/lib.rs:108-232 | each finding, in order, by its condition on the octets, with category, code, ID, region and measurement; the boundary count is the size of the set of non-blank edge pixels |
| Findings.FindingsAreValid | crates/surfacecheck-review/src/lib.rs:321-351 | the findings are valid records if and only if the capture ID has at most 103 octets |

## Left out

- Several sessions, symlinks, file modes, directory ancestors and syncing: one private session directory, durable in call order, that nobody else writes to.
- Restoring an archive to disk (`extract_verified_archive`) and writing the export file: the verified entries are modelled, not their materialisation.
- Progress after a crash: the code promises none; that an identical retry is refused is `Images.InterruptedRetryIsRefused`.
- Subprocesses, capture tools, monitor geometry, sockets, framing, peer credentials, the command line and the user interface.
- The agent and the handoff coordinators: an agent's findings and provenance enter a review as a parameter; the handoff's evidence reads are those of `Runtime`'s readers.
- Text shown to people (severity, explanation, suggested action) and agent categories, and the length checks on them; floating-point rounding, `rms_difference` being represented by its square.
- Serialization of manifests, zlib and SHA-256: parameters with the laws named above.
- The mapping of errors to response codes: responses keep only the distinctions their contracts mention.
- Poisoned locks, and any memory order weaker than one step at a time.
- Filters.UnfilterRow: the row being written is an array of its own, not a slice of the image split from the rows before it, so the aliasing that `split_at_mut` rules out is not represented.
- Runtime.StepKeeps: a writer's checks and its plan are taken in one step and its reads under the lease with them; the elementary effects that follow interleave freely. The handlers of `Service` show the calls one by one.
- Tar.BuildTar: the builder panics on an entry of 8 GiB or more, which is its precondition; `ExportSession.GatheredIsSized` shows that no export has one.
- Store.EvidenceStore.AtomicCreate: the second existence check, between the write and the rename, is not modelled, because it cannot fire when nobody else writes to the session.
- Findings.DeterministicFindings: the severity and the explanation of a finding are not part of its record here.
