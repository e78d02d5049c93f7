# A verified model of the backup project's core

A backup tool with its own archive formats, a ustar codec, and a server that stores incremental
snapshots for many accounts. The model follows the code; where the code and its comments disagree,
the code is modelled and the disagreement is a lemma.

Four parts:

- **The snapshot service** (`Service`, `ServiceInvariant`, `ServiceSteps`, `ServiceTheorems`,
  `ServiceScenarios`, with `MetadataTables`, `MetadataStore`, `Auth`). All handlers of the server as one transition system
  over the database tables, the files of every account and any number of connections. An action is
  one shared access (store call, mkdir, open, rename, unlink) with the local work up to the next
  one; every access may fail, actions of other connections and a crash come between any two. The
  theorems speak about every run. `WorkerPool` is the accept loop with its workers, action by
  action over the work mutex; `LoginThrottle` is the lockout table, `LoginAttempts` and
  `LoginStretches` count wrong passwords over every stretch of every run, `LoginSchedules` and
  `WorstAttempts` play the worst ones.
- **ustar** (`Octal`, `UstarPath`, `UstarHeader`, `UstarWrite`, `UstarScan`, `HardLinks`,
  `UstarRoundTrip`). Fields, checksum, path splitting, both writers over a real output buffer with
  short reads, the scanner with its three-colour search over hard links, and the round trip.
- **The archive formats of the project** (`ByteOrder`, `Layout`, `ArchivePath`, `OrderedPaths`,
  `MyPackFormat`, `MyPackV2`, `ContainerFormat`, `V01Format`, `V01Preflight`, `V01Extract`,
  `V01Tree`, `V01Write`, `V01RoundTrip`). Writers and strict readers as inverses; for v0.1 from a
  source tree and a filter to the archive, through the preflight, to an equal restored tree.
- **Codec streams** (`Bits`, `CodecIo`). The bit writer and reader and the power-of-two ring.

Methods and classes follow the imperative code and are proved equal to specification functions; the
lemmas then state what those functions mean.

What the proofs found in the code:

- The child count and the row delete of a snapshot deletion are separate critical sections, so the
  roll-back branch whose comment calls it unreachable is reached by a run from the start of the
  service in which every call succeeds (`ServiceScenarios.ChildMayAppearDuringDelete`);
  `ServiceScenarios.RollBackExactly` says exactly when.
- When an upload ends after its account was deleted, the connection leaves the uploading state with
  the file descriptor still open (`ServiceScenarios.HandleOutlivesSession`, and
  `ServiceScenarios.DescriptorOutlivesExactly` for every action).
- Login checks the lockout and records the failure in separate critical sections, and reads the clock
  before it takes the mutex (server/remote_server.cpp:936-937 and 955-956), so a failure can be
  recorded with an older second and set a lock that is already over. Let m failures lock for L seconds,
  W be the attempts for a name that can be under way at once, and k the series of m failures that one
  lockout lets through: the sum of 1 + (W - j) / m over j from 1 to W (integer division), or
  (W - 1) / m + 1 where recorded seconds never go back in the order of recording. Wrong passwords are
  counted when they are recorded.
  - A stretch of T seconds without a success, begun at any moment of any run, with any attempts under
    way, records at most (T / L + 1) * k * m + W of them; where recorded seconds never go back, at most
    (T / L) * k * m + m + 2 * W - 1. Both are reached for all m, L, W and T
    (`WorstAttempts.TheBoundIsReached`). The plain bound m * (T / L + 1) + (m - 1) is kept exactly when
    2 * W <= m, and moreover W = 1 or recorded seconds never go back
    (`WorstAttempts.PlainBoundIsKeptExactly`). The shipped four workers and five failures break it for
    every T: 24 in no time at all against 9, 44 in 60 seconds against 14
    (`WorstAttempts.DefaultsBreakThePlainBound`).
  - Under the hypothesis that nothing is under way for the name when the stretch begins, the most is
    (T / L) * k * m + m + W - 1, also reached, and the plain bound is kept exactly when W = 1, or W <= m
    and either recorded seconds never go back or T < L (`WorstAttempts.PlainBoundFromRestExactly`).
- A ustar archive of 1,000,000 or more entries is written but not read back
  (`UstarRoundTrip.AMillionEntriesAreRefused`), and of the paths that fit the fields of the header
  exactly those of 256 bytes with a slash after byte 155 are refused
  (`UstarPath.CutsAreMissedExactlyAt256`).
- The MyPack writer does not check hard link targets, the ustar writers check neither targets nor
  path conflicts nor the number of entries, and the container encoder accepts headers its decoder
  refuses; each gets its exact condition.
- The comment above `CopyMatch` says that a copy past its precondition reads zeroed history. It
  does where the distance, folded into the window, reaches back before the start; otherwise it reads
  the byte at the folded distance (`CodecIo.SlotHoldsWhatIsRead`).
- The v0.1 preflight does not look at what the destination can name. A component or a joined path that
  is too long there passes it and stops the extraction at that item, with the items before it created
  (`V01Extract.Extract`; `V01RoundTrip.BackUpAndRestore` has the condition on the tree).
- The v0.1 writer looks at the length of a child's path before it asks the filter, so an excluded
  path of more than 4096 bytes still fails the backup (`V01RoundTrip.WriteSucceedsExactly`).

## Model

| member | source | states |
|---|---|---|
| MetadataTables.InsertAcceptsExactlyForests | server/remote_metadata_store.cpp:830-1046 | for a fresh id, the insert is accepted exactly when the database with the row added is still a forest of chains: parent of the same user and lineage, one generation deeper, at most 64, no second child |
| MetadataTables.DeleteAcceptsExactlyForests | server/remote_metadata_store.cpp:1135-1229 | a row is deleted exactly when it is this user's and the remaining rows are still a forest |
| MetadataTables.DeleteUserKeepsForest | server/remote_metadata_store.cpp:1416-1544 | deleting an account with all its rows keeps the forest and turns the id into a tombstone |
| MetadataTables.CreateUserAllocatesFreshId | server/remote_metadata_store.cpp:652-730 | a new account gets an id above every id in use and every id ever given up, and changes nothing else |
| MetadataTables.ChainReachesFullRoot | server/remote_metadata_store.cpp:830-1046 | in a forest, following parents from a row meets the full root after exactly `generation` links |
| MetadataStore.RemoteMetadataStore.CreateUser | server/remote_metadata_store.cpp:652-730 | the method leaves exactly the tables the specification gives, and returns the new id |
| MetadataStore.RemoteMetadataStore.MaxKey | server/remote_metadata_store.cpp:671-693 | the largest id of a table, 0 for an empty one |
| MetadataStore.RemoteMetadataStore.InsertSnapshot | server/remote_metadata_store.cpp:830-1046 | result and tables are those of the specification, on every refusal unchanged |
| MetadataStore.RemoteMetadataStore.DeleteSnapshot | server/remote_metadata_store.cpp:1135-1229 | result and tables are those of the specification, and the removed row is returned |
| MetadataStore.RemoteMetadataStore.DeleteUser | server/remote_metadata_store.cpp:1416-1544 | account, rows and tombstone change together or not at all |
| Auth.AppendU64BE | server/remote_auth.cpp:30-34 | appends exactly the eight big-endian bytes |
| Auth.LoadU64BE | server/remote_auth.cpp:36-42 | reads back what the big-endian encoding of any u64 holds |
| Auth.FromHexReadsExactlyHex | src/crypto/sha256.cpp:209-238 | hex text decodes to s exactly when it is the encoding of s up to letter case |
| Auth.IssueToken | server/remote_auth.cpp:140-174 | the token is the hex of the sealed payload with the 12-hour expiry; refused without a secret or randomness |
| Auth.VerifyToken | server/remote_auth.cpp:181-243 | equals the specification: length, hex, MAC, id and time checks |
| Auth.VerifyAcceptsExactlySealed | server/remote_auth.cpp:181-243 | a token verifies to a payload exactly when it is some sealed encoding of it under this key that is not expired, whatever the MAC function |
| Auth.IssuedTokenVerifiesUntilExpiry | server/remote_auth.cpp:140-243 | an issued token yields its user and times before the expiry second, and nothing from then on |
| ServiceSteps.NextKeepsInv | server/remote_server.cpp:864-2206 | every action of every handler, failing or not, keeps the whole service invariant |
| ServiceSteps.RunKeepsInv | server/remote_server.cpp:2227-2336 | so every state of every run keeps it |
| ServiceTheorems.EveryRunKeepsChainsRestorable | server/remote_metadata_store.cpp:830-1046 | in every run each incremental row hangs below a row of its user and lineage one generation up, no row has two children, and the chain ends in a full snapshot of the same user after `generation` links |
| ServiceTheorems.EveryRunKeepsBytes | server/remote_maintenance.cpp:175-395 | at every stopping point and for every pattern of failures each row's bytes are in the user's directory, its trash or the account's quarantine, complete, with recorded size and digest |
| ServiceTheorems.HistoryGrowth | server/remote_server.cpp:1566-1604 | the acknowledged bytes of an upload grow by exactly the acknowledged chunks, and an upload begins only by an UPLOAD_BEGIN of a signed-in session |
| ServiceTheorems.AcceptedIsChunkLog | server/remote_server.cpp:1566-1604 | in every run the bytes received for an upload are the concatenation of its acknowledged chunks |
| ServiceTheorems.EveryRowIsItsUpload | server/remote_server.cpp:1401-1756 | in every run each row is what its UPLOAD_BEGIN declared, owned by the account that began it, and its file is the concatenation of the chunks acknowledged since, of the declared length and digest |
| ServiceTheorems.RowsAppearOnlyThroughTheirUploader | server/remote_server.cpp:1616-1756 | the only action that adds a row is the insert of the UPLOAD_END on the connection that began that upload, for that connection's user |
| ServiceTheorems.DeletedRowsStayDeleted | server/remote_maintenance.cpp:175-298 | once a row is gone no later action brings a row of that id back |
| ServiceTheorems.NoUserIdTwice | server/remote_metadata_store.cpp:671-693 | over every run no user id is allocated twice; ids in use and ids given up never meet |
| ServiceTheorems.IssuedTokenResumesItsAccount | server/remote_server.cpp:1104-1149 | an issued token opens a session exactly while its account exists and its expiry second is not reached, and the session is that of the account record the login saw; otherwise nothing changes |
| ServiceTheorems.DeletedAccountsStayDeleted | server/remote_metadata_store.cpp:1500-1521 | a deleted account's id is in no later users table |
| ServiceTheorems.DeletedAccountsTokensAreDead | server/remote_server.cpp:1120-1148 | after its account is deleted, no later use of a token changes anything |
| ServiceTheorems.DownloadsServeTheUploadedBytes | server/remote_server.cpp:1766-1929 | in every run a download has sent a prefix of the bytes its own account uploaded and was acknowledged for, all of them at the end |
| ServiceScenarios.HandleOutlivesSession | server/remote_server.cpp:1616-1640 | a run from the start of the service, for every configuration and cast, in which an upload's account is deleted by a second session and UPLOAD_END then leaves the connected state with an open descriptor |
| ServiceScenarios.DescriptorOutlivesExactly | server/remote_server.cpp:1616-1640 | over every action, a connection leaves the uploading state with its descriptor open exactly when its own UPLOAD_END finds the account missing |
| ServiceScenarios.ChildMayAppearDuringDelete | server/remote_maintenance.cpp:175-285 | a run from the start of the service (registration, two logins, a full upload, an incremental upload on one session and the delete on the other) in which every call works, the delete has counted no child, and its row delete is refused with HasDependents and rolls back |
| ServiceScenarios.RollBackExactly | server/remote_maintenance.cpp:255-285 | at its row, a delete rolls back exactly when the store call fails, the row is gone or some row has it as parent |
| ServiceScenarios.DeletesKeepUserDirectories | server/remote_maintenance.cpp:175-298 | no step of a snapshot delete creates or removes a users/<id> or touches a quarantine, because the delete's EnsureDirectory makes one level only |
| ServiceScenarios.SomeCast | server/remote_server.cpp:864-1149 | configurations and casts for which these runs are played exist |
| WorkerPool.RunKeepsInv | server/remote_server.cpp:2348-2477 | every interleaving of main loop, workers and stop requests keeps the pool invariant |
| WorkerPool.NeverMoreThanTheWorkersCanTake | server/remote_server.cpp:2370-2440 | busy = pending + engaged workers, at most worker_count; at most worker_count + 1 accepted connections are unfinished |
| WorkerPool.NothingIsClosedTwice | server/remote_server.cpp:2370-2477 | only accepted connections are closed, and none twice |
| WorkerPool.ReturnedMeansEverythingClosed | server/remote_server.cpp:2425-2440 | when Run returns nothing is pending and every accepted connection was closed exactly once |
| WorkerPool.ShutdownAdvances | server/remote_server.cpp:2449-2477 | once stop is requested every effective worker step lowers a measure of the work left |
| WorkerPool.JoinNeverHangs | server/remote_server.cpp:2425-2440 | while main waits in join, main or some worker can move |
| WorkerPool.StopLeadsToReturn | server/remote_server.cpp:2348-2477 | after a stop request, in every continuation of every run, no more steps have an effect than a fixed measure of the state says, and no step has an effect any more exactly when Run has returned |
| LoginThrottle.Throttle.LoginLockRemainingSeconds | server/remote_server.cpp:931-944 | the seconds left of a name's lock, without changing the table |
| LoginThrottle.Throttle.EraseExpired | server/remote_server.cpp:950-979 | drops exactly the names whose lock has run out |
| LoginThrottle.Throttle.RecordLoginFailure | server/remote_server.cpp:950-979 | the new table is the specified one, purge, refusal of new names and lock included |
| LoginThrottle.Throttle.ClearLoginFailures | server/remote_server.cpp:982-985 | forgets exactly that name |
| LoginThrottle.TableStaysBounded | server/remote_server.cpp:950-979 | no failure takes the table above 4096 names |
| LoginAttempts.FromRestIsBounded | server/remote_server.cpp:931-1079 | over every run of T seconds that begins with nothing under way for a name, without a success for it, with at most W attempts for it under way, internal errors included, and each second recorded being any read between the attempt's admission and its recording, at most (T / L) * k * m + m + W - 1 wrong passwords are recorded, less those already held against the name, where k is the sum of 1 + (W - j) / m over j = 1..W; in runs whose recorded seconds never go back k is (W - 1) / m + 1 |
| LoginStretches.EveryMomentIsMidway | server/remote_server.cpp:931-1079 | every state of every run, also one in which a login has just succeeded, is a beginning for the next row |
| LoginStretches.WrongPasswordsAreBounded | server/remote_server.cpp:931-1079 | the same from any moment, with up to W attempts of any age under way, any lock and any failures held: at most (T / L + 1) * k * m + W, or (T / L) * k * m + m + 2 * W - 1 where recorded seconds never go back; with those held against the name, at most what T + L seconds allow from rest |
| WorstAttempts.FromRestIsReached | server/remote_server.cpp:931-1079 | for all limits, widths and durations, in order or not, a run the code admits, begun with nothing under way, records exactly the most stated for such runs |
| WorstAttempts.TheBoundIsReached | server/remote_server.cpp:931-1079 | for all limits, widths and durations, in order or not, a run from the empty table has a stretch that records exactly the most stated for any stretch, alone and with those held before |
| WorstAttempts.PlainBoundIsKeptExactly | server/remote_server.cpp:931-1079 | every stretch keeps the bound m * (T / L + 1) + (m - 1) exactly when 2 * W <= m and either W = 1 or the runs are those whose recorded seconds never go back |
| WorstAttempts.PlainBoundFromRestExactly | server/remote_server.cpp:931-1079 | every run that begins with nothing under way keeps it exactly when W = 1, or W <= m and either the runs are those whose recorded seconds never go back or T < L |
| WorstAttempts.DefaultsBreakThePlainBound | include/remote_server.h:92-100 | with four workers, five failures and 60 seconds some stretch breaks it for every T; the most in no time at all is 24, or 12 with recorded seconds in order, against 9, and in 60 seconds 44 or 17 against 14 |
| WorstAttempts.DefaultsFromRestExactly | include/remote_server.h:92-100 | with those limits runs that begin with nothing under way keep it exactly when recorded seconds never go back or the run is shorter than 60 seconds |
| WorstAttempts.DefaultsFromRestInAMinute | include/remote_server.h:92-100 | with those limits the most that 60 seconds allow from a moment with nothing under way is 28, against 14 |
| Octal.AppendOctal | src/archive/ustar.cpp:197-215 | the field holds the zero-padded digits and a NUL, the rest of the block is unchanged; refused exactly when the value does not fit |
| Octal.ParseOctal | src/archive/ustar.cpp:221-273 | equals the specification of a numeric field |
| Octal.ParseAcceptsExactly | src/archive/ustar.cpp:221-273 | a field parses to a value exactly when it is spaces, octal digits of that value, then NULs and spaces (or blank where that is allowed) |
| Octal.FieldReadsBack | src/archive/ustar.cpp:184-273 | every value that is written is read back |
| UstarPath.ValidateRelativePath | src/archive/ustar.cpp:368-413 | accepts exactly the relative paths of plain components without NUL |
| UstarPath.NormalizeMemberPath | src/archive/ustar.cpp:418-433 | strips leading `./` and trailing slashes as often as they stand there, then validates |
| UstarPath.NormalizeFixesExactlyValid | src/archive/ustar.cpp:418-433 | a path is its own normal form exactly when it is valid |
| UstarPath.SplitPath | src/archive/ustar.cpp:995-1046 | equals the specification of the split |
| UstarPath.SplitFindsTheLongestCut | src/archive/ustar.cpp:995-1046 | for valid paths of up to 255 bytes, a split exists exactly when a prefix of at most 155 and a name of at most 100 bytes can be cut at a slash; it joins back to the path and has the longest prefix. Longer paths are refused |
| UstarPath.A256BytePathIsRefused | src/archive/ustar.cpp:995-1010 | a path of 155 + 1 + 100 bytes has a cut and is refused all the same |
| UstarPath.CutsAreMissedExactlyAt256 | src/archive/ustar.cpp:995-1046 | a valid path has a cut and is refused exactly when it is 256 bytes long with a slash after byte 155 |
| UstarHeader.AppendFixedField | src/archive/ustar.cpp:279-299 | a text field is written with NUL padding, refused exactly when it is too long or holds a NUL |
| UstarHeader.DecodeFixedField | src/archive/ustar.cpp:304-321 | equals the specification of a text field |
| UstarHeader.TextReadsExactlyPadded | src/archive/ustar.cpp:279-321 | a text field reads as a value exactly when it is that value and NULs |
| UstarHeader.ComputeChecksum | src/archive/ustar.cpp:333-344 | the sum of all bytes with the checksum field taken as spaces |
| UstarHeader.ChecksumIgnoresItsField | src/archive/ustar.cpp:333-344 | two blocks that differ only in the checksum field have the same checksum |
| UstarHeader.EncodeHeader | src/archive/ustar.cpp:1162-1302 | the block is the specified encoding; refused exactly when a field cannot hold its value |
| UstarHeader.DecodeHeader | src/archive/ustar.cpp:1315-1448 | equals the specification of decoding |
| UstarHeader.HeaderRoundTrip | src/archive/ustar.cpp:1162-1448 | every encodable header decodes to itself, owner names cut to 31 bytes |
| UstarHeader.HeadersAreNotZero | src/archive/ustar.cpp:1315-1330 | an end-marker block is never a header |
| UstarWrite.OutputBuffer.Append | src/archive/ustar.cpp:652-666 | appends to the contents for every capacity, flushing as needed |
| UstarWrite.OutputBuffer.AppendZeros | src/archive/ustar.cpp:668-680 | appends that many zeros |
| UstarWrite.OutputBuffer.Flush | src/archive/ustar.cpp:684-695 | moves the buffered bytes to the file, contents unchanged |
| UstarWrite.ReadPayload | src/archive/ustar.cpp:738-821 | both sinks append the same bytes of the source for any short read |
| UstarWrite.CopyVerifiedPayload | src/archive/ustar.cpp:837-911 | succeeds exactly when the file has its announced size and passes the checks after reading, and then appends its content |
| UstarWrite.WriteBaseline | src/archive/ustar.cpp:1458-1509 | the file is the concatenation of headers, payloads and padding and 1024 zeros, whatever the short reads; none when an entry cannot be written |
| UstarWrite.WriteFast | src/archive/ustar.cpp:1518-1561 | exactly the same file as the baseline writer |
| HardLinks.ResolveHardLinks | src/archive/ustar.cpp:1778-1833 | the explicit-stack search terminates and accepts exactly when every hard link reaches a regular file through link targets; the stack stays a link path of exactly the nodes in visit |
| HardLinks.CycleNeverResolves | src/archive/ustar.cpp:1800-1815 | a link back into the path being visited can never reach a regular file |
| UstarScan.Scan | src/archive/ustar.cpp:1575-1835 | delivers exactly the members up to the end marker, or none when a header, bound, path, count, trailing byte, conflict or link is bad |
| UstarScan.Clashes | src/archive/ustar.cpp:1726-1759 | ancestor walk and ordered-map probe together report a clash exactly when the new member repeats a path, lies below a non-directory, or is a non-directory with an earlier member below it, in whatever order members arrive |
| UstarScan.AncestorIsNoDirectory | src/archive/ustar.cpp:1726-1748 | finds a non-directory on the way exactly when an earlier member is one |
| OrderedPaths.LowerBound | src/archive/ustar.cpp:1749-1759 | the least key not below the given one |
| OrderedPaths.AnythingBelow | src/archive/ustar.cpp:1749-1759 | one lower_bound probe decides whether any key lies below a path |
| UstarRoundTrip.ScanReadsBackWhatWasWritten | src/archive/ustar.cpp:1458-1835 | of everything the writers accept, Scan reads back exactly the archives of fewer than 1,000,000 entries whose hard link targets can be normalized, whose paths differ, with nothing below a non-directory and every link resolving: the same entries in order, without nanoseconds, owner names cut, targets normalized; it refuses every other |
| UstarRoundTrip.NormalTargetsAreKept | src/archive/ustar.cpp:1690-1700 | a hard link target in normal form comes back unchanged |
| UstarRoundTrip.ContentsAreWhereScanSays | src/archive/ustar.cpp:1690-1764 | offset and size of every scanned regular file point at its original content |
| UstarRoundTrip.AMillionEntriesAreRefused | src/archive/ustar.cpp:1595-1610 | for every count from 1,000,000 on that the name field can tell apart, a flawless archive of that many entries is written and refused by Scan |
| UstarRoundTrip.ManyNames | src/archive/ustar.cpp:1595-1610 | the name field tells at least a million entries apart, so such archives exist |
| ByteOrder.LittleEndianIsExact | include/byte_order.h:28-142 | bytes load as a value exactly when they are its encoding of that width |
| ByteOrder.SignedRoundTrip | include/byte_order.h:39-43 | a signed 64-bit time survives the cast to unsigned and back, and every u64 is the cast of one |
| ByteOrder.AppendLE | include/byte_order.h:28-43 | appends exactly the little-endian bytes |
| ByteOrder.ReadLE | include/byte_order.h:77-115 | reads at the cursor and moves it, or fails and leaves it when too few bytes are left |
| ByteOrder.LoadLE | include/byte_order.h:119-142 | the value of those bytes |
| ArchivePath.IsValidArchivePath | src/archive/archive_path.cpp:61-120 | accepts exactly the grammar: root only first and a directory, otherwise non-empty components other than `.` and `..`, no NUL, backslash or drive letter |
| ArchivePath.ArchivePathDepth | src/archive/archive_path.cpp:124-135 | the number of components, 0 for the root |
| ArchivePath.BelowIsComponentPrefix | src/archive/archive_path.cpp:139-145 | one path lies below another on bytes exactly when its components extend the other's |
| ArchivePath.AncestorsAreTheWay | src/archive/archive_path.cpp:139-145 | repeated ParentOf yields exactly the root and the paths it lies below |
| ArchivePath.ArchivePathRegistry.Add | src/archive/archive_path.cpp:152-181 | result and registered sets are the specified ones, unchanged on refusal |
| ArchivePath.ArchivePathRegistry.Finalize | src/archive/archive_path.cpp:186-210 | the ancestor walk terminates and accepts exactly when every registered ancestor is a directory |
| ArchivePath.StrictKeepsWholeChains | src/archive/archive_path.cpp:139-181 | in strict mode the whole way to every registered path is registered as directories |
| ArchivePath.LenientAcceptsExactlyConsistent | src/archive/archive_path.cpp:152-210 | lenient adding and finalizing accepts exactly distinct paths whose listed ancestors are all directories |
| ArchivePath.LenientIgnoresOrder | src/archive/archive_path.cpp:152-210 | hence independently of the order of additions |
| ArchivePath.StrictImpliesLenient | src/archive/archive_path.cpp:152-210 | and it accepts everything strict mode accepts |
| MyPackFormat.GlobalHeaderIsExact | src/archive/mypack_v2.cpp:83-91 | 32 bytes decode to a count exactly when they are its encoding |
| MyPackFormat.EntryHeaderIsExact | src/archive/mypack_v2.cpp:96-117 | 64 bytes decode to fields exactly when the fields are admissible and the bytes their encoding |
| MyPackFormat.EncodeGlobalHeader | src/archive/mypack_v2.cpp:83-91 | the method writes that encoding |
| MyPackFormat.DecodeGlobalHeader | src/archive/mypack_v2.cpp:349-397 | the method reads by that specification |
| MyPackFormat.EncodeEntryHeader | src/archive/mypack_v2.cpp:96-117 | the method writes that encoding |
| MyPackFormat.DecodeEntryHeader | src/archive/mypack_v2.cpp:435-546 | the method reads by that specification |
| MyPackV2.WriteMyPackV2 | src/archive/mypack_v2.cpp:564-665 | the stream is header and entries end to end; none when paths, structure, sizes or fields are inadmissible or a source fails the checks after reading |
| MyPackV2.ScanMyPackV2 | src/archive/mypack_v2.cpp:673-816 | delivers exactly the specified entries, or none |
| MyPackV2.ScanReadsBackWhatWasWritten | src/archive/mypack_v2.cpp:564-816 | a written stream is scanned back entry for entry exactly when its hard links name regular files of the archive, otherwise refused |
| MyPackV2.AcceptedFilesAreExactlyWritten | src/archive/mypack_v2.cpp:564-816 | every accepted file is byte for byte what the writer makes of the scanned entries |
| MyPackV2.PayloadsTileTheFile | src/archive/mypack_v2.cpp:673-816 | payload ranges are disjoint, in order, and with headers and names cover the file without a gap |
| ContainerFormat.DesPaddedSizeIsPkcs7 | src/archive/container_format.cpp:65-75 | within the allowed sizes the result is the next multiple of 8 strictly above, as section 10.3 of RFC 2315 pads, without wrapping |
| ContainerFormat.EncodeContainerHeader | src/archive/container_format.cpp:143-210 | writes the specified 160 bytes, refused exactly for over-long variable fields |
| ContainerFormat.DecodeContainerHeader | src/archive/container_format.cpp:212-422 | reads by the specification |
| ContainerFormat.HeaderIsExact | src/archive/container_format.cpp:143-422 | 160 bytes decode to a header exactly when it keeps the semantic rules and they are its encoding |
| ContainerFormat.WrittenHeaderIsReadableExactlyWhen | src/archive/container_format.cpp:143-422 | an encoded header is readable exactly when it keeps the semantic rules with its digest padded to 32 bytes, and reads back as that |
| ContainerFormat.EmptyContainersAreNotReadBack | src/archive/container_format.cpp:212-422 | a header without entries is encoded and refused by the decoder |
| ContainerFormat.MacCoversEverythingButTheTag | src/archive/container_format.cpp:462-473 | two readable headers have equal MAC input exactly when they agree in everything but the tag |
| Bits.AndMask | src/compression/codec_io.cpp:305-357 | masking with 2^k - 1 is the remainder modulo 2^k |
| Bits.PowerOfTwoTest | src/compression/codec_io.cpp:305-322 | w & (w - 1) is 0 exactly for powers of two |
| Bits.HighBitsDoNotShow | src/compression/codec_io.cpp:226-248 | stale bits above the pending ones never reach the low bits that are written |
| CodecIo.BitWriter.WriteBits | src/compression/codec_io.cpp:226-248 | appends exactly the code's bits to everything written so far, with an accumulator that is never masked |
| CodecIo.BitWriter.Flush | src/compression/codec_io.cpp:252-268 | pads with zeros to the byte; a second flush adds nothing |
| CodecIo.SequentialReader.Refill | src/compression/codec_io.cpp:131-164 | keeps the buffer the next part of the source |
| CodecIo.SequentialReader.ReadByte | src/compression/codec_io.cpp:192-201 | the next byte of the source, none past its end |
| CodecIo.SequentialReader.ReadExact | src/compression/codec_io.cpp:169-189 | exactly the next bytes of the source |
| CodecIo.BitReader.ReadBit | src/compression/codec_io.cpp:284-299 | the next bit, most significant first, and none past the bit count |
| CodecIo.WriteStream | src/compression/codec_io.cpp:226-268 | any list of codes leaves ceil(bits / 8) bytes: the codes' bits and zeros |
| CodecIo.ReadStream | src/compression/codec_io.cpp:226-299 | writing any list of codes and reading the stream gives exactly their bits |
| CodecIo.RollingHistory.Slot | src/compression/codec_io.cpp:326-337 | the masked index is the position modulo the window |
| CodecIo.RollingHistory.Emit | src/compression/codec_io.cpp:326-337 | the unbounded history grows by the value |
| CodecIo.RollingHistory.CopyMatch | src/compression/codec_io.cpp:346-357 | for every distance the history grows by what the slots hold; for 1 <= distance <= min(window, produced), overlapping copies included, that is copying from the full history |
| CodecIo.RollingHistory.Flush | src/compression/codec_io.cpp:360-369 | then the sink holds exactly the history |
| CodecIo.SlotHoldsWhatIsRead | src/compression/codec_io.cpp:344-357 | for every distance at all, the masked slot holds the byte at distance ((d - 1) mod window) + 1, or zero when that reaches back before the start |
| CodecIo.WrapIsInvisible | src/compression/codec_io.cpp:346-352 | the 64-bit wrap-around of the index does not show under the mask |
| CodecIo.WindowSuffices | src/compression/codec_io.cpp:344-357 | within the documented precondition the window reads what the whole history would |
| CodecIo.CopyRepeats | src/compression/codec_io.cpp:346-357 | a copy longer than its distance repeats the last `distance` bytes |
| V01Format.GlobalHeaderIsExact | src/archive/archive.cpp:354-431 | 24 bytes decode to a count exactly when they are its encoding |
| V01Format.EntryHeaderIsExact | src/archive/archive.cpp:328-347 | 32 bytes decode to fields exactly when the fields are admissible and the bytes their encoding |
| V01Format.PatchedHeader | src/archive/archive.cpp:246-280 | writing the count at offset 16 over the placeholder completes the header and nothing else |
| V01Format.PreflightSeesWhatWasWritten | src/archive/archive.cpp:829-1025 | an archive of items passes the preflight exactly when root comes first, paths are valid and distinct and every parent is an earlier directory, and then yields those items |
| V01Format.AcceptedArchivesAreExactlyWritten | src/archive/archive.cpp:829-1025 | every file that passes the preflight is byte for byte the archive of the items found in it, and these are structured |
| V01Format.PreflightAcceptsExactlyArchives | src/archive/archive.cpp:829-1025 | the preflight accepts exactly the archives of structured items |
| V01Preflight.PreflightArchive | src/archive/archive.cpp:829-1025 | delivers exactly the specified entries, or none |
| V01Preflight.NothingBelowNew | src/archive/archive.cpp:967-993 | the backward probe of the preflight can never fire, because parents come first |
| V01Extract.NextCanBeCreated | src/archive/archive.cpp:1298-1330 | after the preflight no create meets a missing parent or an existing name |
| V01Extract.WayStillOpen | src/archive/archive.cpp:1335-1357 | when a directory's metadata is set, every directory on the way to it is still in mode 0700 |
| V01Extract.SettlingNext | src/archive/archive.cpp:1335-1357 | setting one directory's metadata disturbs none already final |
| V01Extract.Extract | src/archive/archive.cpp:1245-1358 | succeeds exactly when the preflight passes, the destination is empty and it can name every item; then the disk holds exactly the items with content, mode and time. A file that fails the preflight or a destination that is not empty leaves the disk untouched; a name too long leaves exactly the items before it |
| V01Tree.OneOrder | src/archive/archive.cpp:618-637 | sorting gives one list whatever order readdir delivers |
| V01Tree.ChildPathIsPathOf | src/archive/archive.cpp:639-647 | the path the writer builds for a child is the one whose parent the preflight finds to be the directory |
| V01Tree.EntriesAreTheTree | src/archive/archive.cpp:598-719 | the recursion lists exactly the objects reachable from the root, each once, in component order |
| V01Tree.UnderMore | src/archive/archive.cpp:618-719 | walking all names and passing over the dropped ones lists the entries of the selected directory |
| V01Write.ArchiveOutput.Write | src/archive/archive.cpp:222-242 | appends all bytes for any split into short writes |
| V01Write.ArchiveOutput.PatchU64 | src/archive/archive.cpp:246-280 | overwrites exactly the eight bytes at the offset |
| V01Write.SortedNames | src/archive/archive.cpp:618-637 | the names of the directory in ascending order |
| V01Write.WriteEntryPrefix | src/archive/archive.cpp:443-469 | header and path are appended exactly when the path obeys the grammar the reader uses |
| V01Write.WriteDirectoryTree | src/archive/archive.cpp:598-719 | appends the encoding of exactly the entries of the subtree that the filter leaves, and counts them; fails exactly when one cannot be stored or a child's path is too long |
| V01Write.Write | src/archive/archive.cpp:1148-1239 | the archive is header with the true count and the entries the filter leaves; none when the target lies inside the source or exists, or they cannot be stored |
| V01RoundTrip.StrictAcceptsExactly | src/archive/archive_path.cpp:152-181 | strict adding accepts exactly distinct paths whose parents were added before as directories |
| V01RoundTrip.WriteSucceedsExactly | src/archive/archive.cpp:443-719 | Write succeeds exactly when no directory it enters has a child with too long a path, dropped or not, and everything the filter leaves is a directory or an unchanged regular file whose path obeys the grammar |
| V01RoundTrip.SelectedExactly | src/archive/archive.cpp:683-716 | the filter leaves exactly the objects for which neither they nor any directory above them is dropped |
| V01RoundTrip.WithoutFilter | src/archive/archive.cpp:1135-1139 | without a filter Write delivers the archive of the whole tree |
| V01RoundTrip.WrittenIsStructured | src/archive/archive.cpp:598-719 | whatever Write produces meets everything the preflight asks for |
| V01RoundTrip.ArchivesRestoreTheirTree | src/archive/archive.cpp:1148-1358 | the preflight accepts every archive of a tree, and every restored disk holds at every path the tree's object (kind, content, 0777 mode, time) or nothing where the tree has nothing |
| V01RoundTrip.ArchivesRestoreTheSelection | src/archive/archive.cpp:1148-1358 | the same for what Write delivers and what the filter leaves |
| V01RoundTrip.NameableExactly | src/archive/archive.cpp:1298-1330 | the destination can name every item of a tree's archive exactly when no name and no joined path of the tree is too long for it |
| V01RoundTrip.BackUpAndRestore | src/archive/archive.cpp:1148-1358 | Write then Extract into an empty destination: saving succeeds exactly when the target is free and what the filter leaves can be stored, restoring exactly when moreover the destination can name all of it, and then the restored tree is that selection |

## Left out

- ServiceTheorems.IssuedTokenResumesItsAccount: registration is modelled while fewer than 2^63 - 1 user ids have been allocated; beyond that SQLite could not store the id.
- ServiceTheorems.EveryRunKeepsBytes: locations are what the running system sees; the effect of fsync and of a power loss on them is not modelled.
- ServiceSteps.NextKeepsInv: the handlers are functions on a shared state, one per step, instead of methods of a class, because steps of different connections interleave inside one handler; list requests change nothing and are not modelled, and the throttle is modelled on its own.
- ServiceTheorems.RowsAppearOnlyThroughTheirUploader: generated snapshot ids are assumed to be fresh, as the random generator promises.
- LoginStretches.WrongPasswordsAreBounded: the clock itself does not go back (an older second read earlier is covered) and the table is not full; a full table may forget a name that is not locked.
- WorkerPool.StopLeadsToReturn: that a thread that can move is scheduled, and that serving a connection ends, are assumptions outside the model.
- UstarWrite.WriteFast: writing to the output file succeeds; which of the checks after reading a source fails (type, size, time, inode) is one outcome.
- MyPackV2.WriteMyPackV2: reads and writes succeed; which of the checks after reading a source fails (time, digest, link target, metadata of special files) is one outcome.
- V01Write.Write: that the target lies outside the source and is new are given as outcomes, a partial file is removed, and directories do not change while they are listed.
- V01Extract.Extract: the disk has space, nobody else changes the destination, the restoring user is an ordinary owner; name and path limits are parameters of the destination; equal depths are sorted in a fixed order, which no claim depends on.
- V01RoundTrip.ArchivesRestoreTheirTree: fewer than 2^64 entries, names and stat fields as a file system delivers them; owners, links and special files are not part of the v0.1 format.
- SQLite itself, its transactions, pragmas and schema migration: a store call is one atomic step that may fail.
- SHA-256, HMAC, PBKDF2 and the ciphers are uninterpreted functions, random bytes are parameters.
- The BPSEC handshake, frame parsing, sockets, signals, PID and lock files.
- Huffman and LZSS on top of the modelled streams, the incremental engine, retention, scheduler and file watcher.
- The offline administration tool, which runs the same maintenance steps as the server.
- The order of LIST results: the comment that parents come before children is not kept for rows of the same second.
- Symlink-safe path resolution under a root (`ResolveUnderRootNoSymlinkAncestors`), extraction of single ustar members, error texts, log lines and test seams.
- 64-bit counters of bytes processed are unbounded numbers; no input that fits a disk reaches the difference.
