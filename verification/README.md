# Kyber-Zip: a verified model

Kyber-Zip encrypts files to a recipient and moves them through a small relay or a web service. This project
models the parts of it that keep state or promise something over whole runs, and proves those promises for
every input, every run and every interleaving. `dafny verify dfyconfig.toml` checks all of it.

Cryptography and compression are abstract. AES-GCM either opens exactly what is in a ledger of sealed messages
(streaming) or is a function with an inverse (archive); deflate, the KEM, HMAC and SHA-256 are functions of
which only what is written in a `requires` clause is assumed. Nothing is axiomatised.

## The parts

**Chunked streaming encryption** (`Bytes`, `Stream`, `StreamIO`, `Pipeline`; web/stream.go,
web/accounts_handlers.go). `SealWriter` and `StreamReader` are the two incremental objects. Any way of cutting
a plaintext into `Write` calls gives one canonical blob of a known length. For any input bytes and any
buffer sizes the reader delivers a prefix of the plaintext (even when its caller keeps reading after an error),
and reaches a clean end of file only if the input is that blob, byte for byte. Nonces are pairwise distinct
exactly up to 2^64 + 1 frames; reading is proved for fewer than 2^64 full chunks. Around it, name framing,
deflate and the inbox: whatever reaches a recipient is the data or a prefix of it, and what was sent comes back
exactly when the name is shorter than 65536 bytes (the code casts the length to 16 bits without looking).

**Teams** (`TeamMachine`, `TeamOwner`, `TeamAgreement`, `TeamOrder`, `TeamRace`, `TeamRuns` with one name per account;
`Names`, `TeamNames`, `TeamHandlers`, `TeamAuthority`, `TeamSpelling` with names as they are typed; web/teams.go,
web/team_handlers.go, web/accounts.go). The four handlers are processes whose steps are the atomic accesses to two
separately locked stores. An account is reached through the last path element of a typed name, while rosters and
the owner check compare the names themselves; names are checked only at registration. `TeamSpelling` says what
follows, for any way of leading names to accounts: over all runs with names from a set, rosters are sound, a linked
owner stays, and the stores agree where they should, exactly when no two names of the set lead to one account. With
a second spelling a linked owner can leave and open another team, and one invite under another spelling links an
account that is then on no roster. Registered names are no two of them one account's, but each has other spellings
(`Names.Spellings`).

Even with one name per account the two stores do not always agree. `TeamSpelling.StoresAgreeExactly` has the
condition, for every run: whenever no handler is between its two writes, they agree on a user and a team if and only
if it is not so that the handler that spoke last about the roster and the one that spoke last about the link wanted
opposite things. Opposed handlers that write both stores in the same order never cross so, even when they overlap;
creates and invites in any interleaving, and serial runs of all four, never do either
(`TeamSpelling.KindAgreesExactly`). For one invite against one removal or leave, the stores disagree in exactly two of
the six orders of their writes, with both handlers reporting success (`TeamRace.MemberRace`). The handlers are also
written as methods and proved to be their process run alone, with exactly for whom they succeed and what they change
(`TeamHandlers.RemoveExactly` and its like). Over every interleaving, under any spellings, a roster or a link changes
only at the request of that team's owner or of the one it concerns (`TeamAuthority`).

**Archive container** (`ArchiveFormat`, `Archive`, `ArchiveIO`, `ArchiveAltered`; src/archive.c). The
writer in both forms and the reader, over byte buffers. Any sequence of `write_next` calls, in any order, with
repetitions and failures, followed by `write_finish`, gives a file from which opening, unlocking and extracting return what each index's
latest call put there. A header comment in include/archive.h (and one in src/archive.c) says the table length
is patched by seeking back; the code computes it beforehand, and so does the model. The compression level is cast
to one byte: a file comes back exactly when the cast still tells compressed from stored, or the stored bytes
begin with the file itself, as those of the one-byte file 0x78 do under zlib (`Archive.LevelExact`). The header is
not authenticated: `ArchiveAltered` states exactly which altered files still unlock and extract, and what they give. A file is found under
the name it was added under, cut at 511 bytes and with slashes for its backslashes (`ArchiveIO.AddWriteExtract`).
Lowering the file count drops the last files without an error
(`ArchiveAltered.LoweredFetch`).

**Audit log** (`Audit`; web/audit.go). With an injective chain hash, a log accepted against the head of an
honest non-empty log is missing altogether or is that log. The code accepts a missing file, although the
documentation of the head file says it makes truncation detectable; the theorem states this as it is. Over every
run of events, restarts and stops between append and head, verification accepts exactly when every event's text
survives its encoding and either no event has completed yet or the head knows of every event. Text with a byte that
is not UTF-8, such as the name typed at a failed login, does not survive: it is hashed as an escape and read back as
a character, and from then on verification reports tampering (`Audit.BadByteStays`). A user asking for recent events
gets the newest that read back under that name, and nobody else's (`Audit.RunRecent`).

**Sliding windows** (`Slices`, `RateLimiter`, `LoginGuard`; relay/ratelimit.go, web/security.go). In-place
filtering over shared backing arrays, refined to a specification that keeps every event and counts. The relay's
limiter reads its clock before it takes its lock, so its readings can arrive out of order. It stands no disorder at
all: its bound holds on all runs whose readings fall back by at most d exactly when d is zero
(`RateLimiter.ToleranceExactly`).

**Relay** (`Relay`, `RelayOnce`, `RelayClaims`, `RelayHandlers`, `RelayAlone`, `Base32`; relay/main.go). Uploads,
downloads and sweeps as processes over a shared directory; every blob is delivered at most once and complete, and
none disappears except to one download or to a sweep past its age. A download that has claimed a blob and finished
without delivering it lost the claimed name to such a sweep. The handlers as methods are those processes run
alone. (A comment calls the code alphabet lower-cased; the code draws and accepts upper case.)

**Second factors** (`Totp`, `SecondFactor`, `AccountLock`, `SecondFactorRuns`; web/totp.go, web/accounts.go,
web/twofa_handlers.go). TOTP codes with their replay guard and single-use recovery codes. Every change of a record is
a closure run by `update`: lock, load, closure, save, unlock. `AccountLock` interleaves any number of those: the lock
goes by the typed name and the record by the account it leads to, so the closures run one after another exactly when
no two of the names in use lead to one account. Under that condition a time step is accepted once and an issued code
used once, and the factor goes off only at a new secret or a disable whose code verified, and on only at an enable
whose code verified against a stored secret; under two spellings two overlapping logins are both let in with one code
(`SecondFactorRuns.CodeTwice`, `RecoveryTwice`). Codes are pinned to the digest's bytes (`Totp.CodeReads`) and to the
ten values of appendix D of RFC 4226.

**Receiver bookkeeping** (`JsonLog`, `SendLog`, `Receiver`; src/cli.c). Two log printers, the line reader, the
parser, and the set of handled codes across restarts. At most one record per code holds exactly for codes that
fit the set's 40-byte items and contain no quote, which covers every code the relay draws. A longer
or quoted line can make what is left of it count as handled although it was never fetched;
`Receiver.FalseSkipExactly` says which lines do. A code is read back from the send log exactly when the file name, without its dropped control characters, is not `code` and does
not end in `"code`.

## Model

| member | source | states |
|---|---|---|
| Bytes.BeInjective | web/stream.go:47 | a fixed-width big-endian field determines its number modulo the field's range |
| Bytes.BeOfFromBe | web/stream.go:175 | reading a big-endian field and writing it back gives the same bytes |
| Bytes.FromLeOfLe | src/archive.c:53-68 | a little-endian field that holds its number is read back as it |
| Bytes.LeOfFromLe | src/archive.c:61-68 | reading a little-endian field and writing it back gives the same bytes |
| Stream.NonceInjective | web/stream.go:45-52 | two 12-byte nonces are equal exactly when the counters agree modulo 2^64 and the final flags agree |
| Stream.NonceLayout | web/stream.go:41-52 | three zero bytes, the counter in eight big-endian bytes, the final flag |
| Stream.FrameLayout | web/stream.go:114-122 | a frame is its ciphertext behind its length in four big-endian bytes |
| Stream.NoncesDistinctExactly | web/stream.go:114-127 | the nonces of a message are pairwise distinct exactly when it has at most 2^64 + 1 frames |
| Stream.Split | web/stream.go:85-105 | a plaintext is its full chunks in order and a shorter rest, empty on exact multiples |
| Stream.SplitUnique | web/stream.go:85-127 | no other decomposition into full chunks and a shorter rest exists |
| Stream.BlobLength | web/stream.go:107-127 | a sealed message is 1 + (n/N + 1)(4 + tag) + n bytes long |
| Stream.LedgerExact | web/stream.go:185-193 | at a position and flag, only the ciphertext sealed there with that flag opens, and to its chunk |
| Stream.HonestFrame | web/stream.go:170-189 | on the blob, the next header and ciphertext are the sealed ones, pass the length check, and are followed by bytes exactly when the frame is not final |
| Stream.AcceptFrame | web/stream.go:190-198 | opening a frame means its header and ciphertext were the writer's own bytes |
| Stream.StreamFrom | web/stream.go:107-127 | the frame stream can be cut at any frame boundary |
| StreamIO.SealWriter.WriteVersion | web/stream.go:74-83 | the version byte is written once, before the first frame |
| StreamIO.SealWriter.Emit | web/stream.go:114-124 | one length-prefixed frame is appended under the next nonce and recorded in the ledger |
| StreamIO.SealWriter.Flush | web/stream.go:114-127 | a non-final flush empties a full buffer; a final one completes the canonical blob |
| StreamIO.SealWriter.Write | web/stream.go:85-105 | all of the bytes are taken, and output and buffer together still stand for everything written |
| StreamIO.SealWriter.Close | web/stream.go:107-112 | the output is the canonical blob of everything written, the ledger exactly its frames |
| StreamIO.SealParts | web/stream.go:85-127 | for every way of splitting a plaintext into writes the output is the same blob |
| StreamIO.StreamReader.Next | web/stream.go:170-200 | a success opens exactly the next chunk and strictly consumes input; a failure opens nothing; on the blob it never fails |
| StreamIO.StreamReader.Read | web/stream.go:156-168 | for any input and any history of calls the bytes delivered are a prefix of the plaintext, and end of file without an earlier error means the input was the blob |
| StreamIO.NewStreamReader | web/stream.go:140-154 | the reader starts exactly when the first byte is the version |
| StreamIO.ReadSizes | web/stream.go:140-200 | any input, any sizes: a prefix, and end of file only on the exact blob; on the blob positive sizes give all of it and then end of file |
| Pipeline.LowBytes | web/accounts_handlers.go:85-89 | the 16-bit cast keeps the two low bytes of the name's length |
| Pipeline.FramingExact | web/accounts_handlers.go:85-96 | name and data come back from the framing exactly when the name is shorter than 65536 bytes |
| Pipeline.ByteSource.Read | web/stream.go:208-212 | bytes are handed out in order and tallied |
| Pipeline.ByteSource.ReadFull | web/stream.go:218 | all the bytes asked for, or failure exactly when the source is too short |
| Pipeline.ReadFilename | web/stream.go:216-230 | the framed name, leaving the data unread; failure exactly on a payload shorter than its framing says |
| Pipeline.CopyCounted | web/accounts_handlers.go:93-100 | the data is copied unchanged and the recorded size is its length |
| Pipeline.Inbox.Send | web/accounts_handlers.go:56-126 | what is stored is the sealed, deflated, framed payload and the data's size; an unknown recipient or an oversize upload leaves nothing |
| Pipeline.ParseCut | web/stream.go:216-230 | a payload cut short after its name has the name and a prefix of the data |
| Pipeline.Inbox.Receive | web/accounts_handlers.go:141-200 | whatever the stored bytes are, what reaches the recipient is the data sent or, cut midway, the name and a prefix of it; an intact blob is delivered whole; a message is deleted exactly when it was |
| Pipeline.OpenAndInflate | web/accounts_handlers.go:165-190 | what the inflater hands out is a prefix of the payload at any failure, and all of it when its code word is complete, as on an intact blob |
| Pipeline.SendThenReceive | web/accounts_handlers.go:56-200 | within the size limit, a message sent and fetched gives back name and data exactly when the name is shorter than 65536 bytes |
| TeamMachine.WithoutRest | web/teams.go:56-64 | only the named member goes; everybody around each mention stays, as often and in the order they stood |
| TeamOwner.WithoutDistinct | web/teams.go:56-64 | on a roster without repeats exactly one entry goes, and no repeats appear |
| Names.BaseOf | web/accounts.go:218-219 | a name that can be registered is its own account's, and so is that name behind any directory |
| Names.BaseIs | web/accounts.go:218-219 | the last path element is what stands behind the last slash, slashes at the end not counted |
| Names.Spellings | web/accounts.go:58-219 | every registered name has a second spelling; no two names that can be registered are one account's |
| TeamNames.ViewRun | web/team_handlers.go:52-211 | while no two names in use lead to one account, a run on typed names is, seen through the names, the run of the machine with one name per account |
| TeamSpelling.OwnersStayExactly | web/team_handlers.go:153-211 | over all runs with names from a set: once a team's owner is linked nothing unlinks, replaces or removes the owner or deletes the team, exactly when no two names of the set lead to one account |
| TeamSpelling.RostersSoundExactly | web/team_handlers.go:52-211 | over all interleavings with names from a set: rosters never repeat a member, never exceed their seats and hold their owner, and every linked account's team is there with its owner linked, exactly when no two names of the set lead to one account |
| TeamSpelling.FollowsAt | web/team_handlers.go:52-211 | with one spelling each, over every run each store says of every name what was last written about it |
| TeamSpelling.StoresAgreeExactly | web/team_handlers.go:52-211 | over all interleavings with names from a set: quiet stores agree on each name and team if and only if no two opposed handlers crossed there, exactly when no two names of the set lead to one account |
| TeamSpelling.TwoSectionsAt | web/team_handlers.go:112-208 | with one spelling each, when two opposed handlers are the last to write about a name, the stores agree on it exactly when they wrote in the same order |
| TeamSpelling.KindAgreesExactly | web/team_handlers.go:52-211 | on serial runs, on runs of creates and invites only, on runs without overlapping sections and on runs whose opposed handlers write in one order: quiet stores agree and no account owns two teams, exactly when no two names of the set lead to one account |
| TeamSpelling.RecordsAgreeExactly | web/team_handlers.go:52-211 | over all interleavings with names from a set: every roster is the accounts whose records point to the team if and only if no opposed handlers crossed, exactly when every name of the set is its account's own |
| TeamSpelling.LeaveUnlinksOwner | web/team_handlers.go:188-211 | from any state: an owner who leaves under another spelling is told yes, unlinked, and still owner and on the roster |
| TeamSpelling.SecondTeam | web/team_handlers.go:52-211 | and then opens a second team |
| TeamSpelling.OwnerOffRoster | web/team_handlers.go:105-143 | with an invite of themselves in flight the owner then ends off the first team's roster |
| TeamSpelling.InviteSpelled | web/team_handlers.go:91-150 | from any state: one invite under a name that is not the account's own links the account and puts the other name on the roster |
| TeamAgreement.RosterChange | web/team_handlers.go:112-121 | the only steps that put a user on or take a user off a roster |
| TeamAgreement.LinkChange | web/team_handlers.go:133-139 | the only steps that link or unlink an account |
| TeamAgreement.StepExplained | web/team_handlers.go:65-208 | every difference between the two stores stays the open section of some handler in flight |
| TeamOrder.RosterShows | web/team_handlers.go:112-140 | a step changes what a roster says of a user only as its own write about that user says |
| TeamOrder.LinkShows | web/team_handlers.go:133-182 | a step changes what an account's link says only as its own write says |
| TeamOrder.AgreesAtExactly | web/team_handlers.go:65-208 | on one user and team, quiet stores agree exactly when no handler spoke last about the roster and another, wanting the opposite, last about the link |
| TeamOrder.CalmNeverCrosses | web/team_handlers.go:65-208 | runs without overlapping sections are among those that do not cross |
| TeamRace.RaceExactly | web/team_handlers.go:112-208 | an invite and a removal about to write, with room and the user linked nowhere else: in all six orders both report success, and the stores agree exactly when the handler that writes first is not the one that writes last |
| TeamRace.MemberRace | web/team_handlers.go:91-211 | from every sound state, inviting a member again while the owner removes them or while they leave disagrees in exactly two of the six orders |
| TeamRuns.OverlapDisagrees | web/team_handlers.go:112-182 | from every agreeing state, for every settled team with a free seat and every unlinked account, an invite around a removal of that account reports success twice and leaves it linked but off the roster |
| TeamHandlers.StepsFinish | web/team_handlers.go:52-211 | every handler finishes within six atomic steps whatever the others do |
| TeamHandlers.HandlerIsRun | web/team_handlers.go:52-211 | a handler by itself does to the stores what its process does when nobody interleaves |
| TeamHandlers.CreateExactly | web/team_handlers.go:52-88 | a create by itself succeeds exactly for an unlinked account and 2 to 50 seats (5 when none are asked for), and then there is one more team, the caller's own; else the stores stay |
| TeamHandlers.InviteExactly | web/team_handlers.go:91-150 | an invite by itself succeeds exactly for the owner of the caller's team, of an account on no other team, with a seat free; then that name is on that roster and the account linked; else nothing changes, but a name on the roster whose account another team has is taken off |
| TeamHandlers.RemoveExactly | web/team_handlers.go:153-185 | a removal by itself succeeds exactly for the owner of the caller's team, of a member other than the owner, and takes that name off that roster and its account's link; else nothing changes |
| TeamHandlers.LeaveExactly | web/team_handlers.go:188-211 | leaving by itself succeeds exactly for those who do not own their team, and takes only them off and their own link; else nothing changes |
| TeamAuthority.RunAsked | web/team_handlers.go:91-211 | over every interleaving, under any spellings: each handler about to take or give back a seat, link, clear a seat or unlink was asked by somebody linked to that team and seen to own it, or, leaving, by the one it concerns, seen not to own it |
| TeamAuthority.OwnerFixed | web/teams.go:107-139 | over every interleaving whoever owned a team at any point owns it as long as it is there |
| TeamAuthority.RosterAuthority | web/team_handlers.go:52-211 | over every interleaving a roster's word on a name changes only at a handler whose request is the owner's about that name, that name's own leaving, or the create that opens or takes back the team |
| TeamAuthority.LinkAuthority | web/team_handlers.go:73-208 | over every interleaving an account's link changes only at a handler whose request is the owner's about a name of that account, or its own |
| TeamHandlers.HasMemberLoop | web/teams.go:47-54 | true exactly for members |
| TeamHandlers.RemoveMember | web/teams.go:56-64 | filtering into the front of the same array leaves the other members in order |
| TeamHandlers.TeamServer.UpdateRemove | web/teams.go:128-139 | load, filter and save shrink that team only, and nothing when it is missing |
| TeamHandlers.TeamServer.UpdateUnlink | web/team_handlers.go:177-182 | the account a typed name leads to is unlinked only if it is linked to this team |
| TeamHandlers.TeamServer.CurrentTeam | web/team_handlers.go:12-22 | the team of the account the caller's name leads to, when it is linked and the team exists |
| TeamHandlers.TeamServer.HandleTeamCreate | web/team_handlers.go:52-88 | the whole handler is its process run alone, and succeeds and changes the stores exactly so |
| TeamHandlers.TeamServer.HandleTeamInvite | web/team_handlers.go:91-150 | the whole handler, rollback included, is its process run alone; it succeeds exactly for the owner, a free account and a free seat, and changes only that roster and that link |
| TeamHandlers.TeamServer.HandleTeamRemove | web/team_handlers.go:153-185 | the whole handler is its process run alone; it succeeds exactly for the owner, of a member other than the owner, and changes only that roster and that link; else nothing |
| TeamHandlers.TeamServer.HandleTeamLeave | web/team_handlers.go:188-211 | the whole handler is its process run alone; it succeeds exactly for a member who is not the owner, and changes only their place and link; else nothing |
| ArchiveFormat.EntryRoundTrip | src/archive.c:70-95 | an entry serialised into 565 bytes is deserialised to itself |
| ArchiveFormat.TableRoundTrip | src/archive.c:739-742 | a table of entries is read back entry for entry |
| ArchiveFormat.HeaderRoundTrip | src/archive.c:99-171 | a header whose lengths fit its fields is read back whatever follows it |
| ArchiveFormat.HeaderLayout | include/archive.h:21-28 | the documented header fields stand at their offsets, numbers least significant byte first |
| ArchiveFormat.EntryLayout | src/archive.c:40-51 | the documented entry fields stand at their offsets |
| ArchiveFormat.CopyIn | src/archive.c:74 | a copy writes its bytes at the offset and nothing else |
| ArchiveFormat.WriteLe64 | src/archive.c:53-59 | eight bytes, least significant first, and nothing else changes |
| ArchiveFormat.ReadLe64 | src/archive.c:61-68 | the little-endian value of the eight bytes |
| ArchiveFormat.SerializeInto | src/archive.c:70-81 | an entry's bytes appear at its base and the rest of the buffer stays |
| Archive.Stage | src/archive.c:264-272 | the staged name is a C string that fits its field |
| Archive.StageKeeps | src/archive.c:264-272 | the staged name is the given one, cut at 511 bytes and with slashes for its backslashes, byte for byte |
| Archive.KeptIs | src/archive.c:264-272 | that name is unique, and is the given one exactly when it is under 512 bytes and has no backslash |
| Archive.NameFieldRead | src/archive.c:403 | a name put into its 512-byte field is read back as a C string |
| Archive.NextIs | src/archive.c:386-460 | one call answers as its source file and compression allow, appends one blob, and fills one entry that starts where the file ended |
| Archive.LatestHolds | src/archive.c:576-584 | after any calls an untouched entry is blank and a touched one describes its latest call's blob, where it lies in the file |
| Archive.EntriesOk | src/archive.c:42-50 | every entry after any calls fits the fixed-size record |
| Archive.HeldRead | src/archive.c:750-833 | extracting an entry gives what its latest call put in |
| Archive.OpenParts | src/archive.c:632-675 | the reader finds header, KEM ciphertext, table nonce and tag from the two ends of the file |
| Archive.OpensAndUnlocks | src/archive.c:632-746 | a finished file opens to its header and unlocks to its key and its entries |
| Archive.AnyOrder | src/archive.c:550-833 | for any sequence of writing calls, failures and repetitions included, extracting an index gives its latest call's outcome |
| Archive.WrittenThenExtracted | src/archive.c:550-844 | every index written at least once in any order: extract_all succeeds, every name holds its last file's content, and other names are untouched |
| Archive.LevelExact | src/archive.c:405 | a file comes back exactly when the level is zero or its low byte is not, or the stored bytes begin with the file, as when it is empty |
| Archive.FirstByteComesBack | src/archive.c:405-446 | with a compressor whose output begins with one fixed byte, as zlib framing does, the file of that byte comes back at every level |
| Archive.LiveBlobs | src/archive.c:451-453 | after any calls the blobs lie between the front and the table and no two overlap |
| Archive.InOrderLayout | src/archive.c:497-506 | one call for each index in order puts the blobs one after another behind the front |
| Archive.OneShotSame | src/archive.c:497-506 | the one-shot form succeeds exactly when every single call would, and then leaves what they leave |
| Archive.AllExtracted | src/archive.c:837-844 | of several files with one name the last stays, every file lands under its name, nothing else changes |
| ArchiveIO.StageName | src/archive.c:264-272 | the name's first 511 bytes, each as it is but for a slash where a backslash was |
| ArchiveIO.ArchiveWriter.AddFile | src/archive.c:243-275 | refused when the file is not there; else one more reference at the end, with its level and the name's first 511 bytes, slashes where backslashes were |
| ArchiveIO.ArchiveWriter.WriteBegin | src/archive.c:550-574 | refused without staged files; otherwise the file is the header and KEM ciphertext and every entry is blank |
| ArchiveIO.ArchiveWriter.ProcessFileAt | src/archive.c:386-460 | the file, the entry and the result are those of one specified step |
| ArchiveIO.ArchiveWriter.WriteNext | src/archive.c:576-584 | refused when not writing or out of range, otherwise one specified step |
| ArchiveIO.ArchiveWriter.SerializeTable | src/archive.c:592-599 | the filled buffer is the table of all entries in order |
| ArchiveIO.ArchiveWriter.WriteFinish | src/archive.c:586-628 | the sealed table with its nonce and tag is appended and writing ends |
| ArchiveIO.ArchiveWriter.WriteEach | src/archive.c:497-506 | files are processed in order up to the first failure |
| ArchiveIO.ArchiveWriter.Write | src/archive.c:471-546 | the one-shot file is byte for byte the incremental one for the same nonces; a failure is the first failing file's |
| ArchiveIO.WriteCalls | src/archive.c:550-628 | begin, any calls, finish leave the specified archive |
| ArchiveIO.BuildHeader | src/archive.c:99-128 | the byte-by-byte buffer is the header |
| ArchiveIO.DeserializeAt | src/archive.c:83-95 | the entry at an offset of the table |
| ArchiveIO.DeserializeTable | src/archive.c:736-742 | all entries in order |
| ArchiveIO.ParseHeader | src/archive.c:145-171 | the header's fields, or failure exactly on a foreign magic |
| ArchiveIO.OpenAt | src/archive.c:632-675 | a reader on the parts found, or the specified error |
| ArchiveIO.OpenExactly | src/archive.c:632-675 | a file opens exactly when it has a header with the magic and one of two format bytes, and room for the KEM ciphertext and for nonce, tag and table; which error otherwise |
| ArchiveIO.ArchiveReader.Unlock | src/archive.c:679-746 | key and entries, or the error with the entries as they were |
| ArchiveIO.ArchiveReader.ExtractFile | src/archive.c:750-833 | the entry's content under its name, or the error with the directory as it was |
| ArchiveIO.ArchiveReader.ExtractAllFiles | src/archive.c:837-844 | all files in order up to the first failure |
| ArchiveIO.WriteBothWays | src/archive.c:471-628 | where the one-shot form succeeds, the single calls in index order write the same bytes for the same nonces |
| ArchiveIO.ReadArchive | src/archive.c:632-844 | open, unlock and extract_all give the specified directory, or the first error of the three |
| ArchiveIO.WriteAndExtract | src/archive.c:550-844 | on the objects: written in any order and read back, every name holds the last content written under it and other names are untouched |
| ArchiveIO.AddWriteExtract | src/archive.c:242-844 | files added under names, written in any order and read back: each is found under its name cut at 511 bytes and with slashes for backslashes, with its latest content, unless a later file has that name; other names are untouched |
| ArchiveAltered.CountExactly | src/archive.c:165-168 | the unauthenticated file count alone changed: the archive unlocks to that many of the first entries when there are as many, and otherwise reads past its table |
| ArchiveAltered.DroppedSilently | src/archive.c:837-844 | extracting all of an archive whose count was lowered does what the first steps of extracting the whole one do, and nothing more |
| ArchiveAltered.CountKeepsRest | src/archive.c:99-128 | changing the count changes nothing behind the header |
| ArchiveAltered.LoweredFetch | src/archive.c:632-844 | an archive with every file written, whose count is then lowered to m, opens, unlocks and is extracted with success, giving exactly the first m files |
| ArchiveAltered.AlteredUnlocks | src/archive.c:679-746 | any file with the archive's key and table nonce unlocks exactly when its tail is the sealed table and its count does not exceed it, and then to the first entries |
| ArchiveAltered.AlteredExtracts | src/archive.c:750-833 | from any such file an entry gives the file that was put in exactly when its blob is still in its place, and otherwise an error |
| Audit.DecodeEncode | web/audit.go:78-88 | text comes back from its encoding exactly when every byte of it belongs to a character |
| Audit.HashOnFile | web/audit.go:80-108 | the hash on file is the hash of what is read back exactly when the fields survive their encoding |
| Audit.ChainUnique | web/audit.go:78-88 | two chains of one length ending in the same hash are the same chain, when one was read from a file |
| Audit.TamperEvident | web/audit.go:132-178 | against the head of an honest non-empty log, a log is accepted exactly when it is missing or holds the honest entries, all, in order and unchanged |
| Audit.GarbageStays | web/audit.go:150-153 | a line that does not parse is reported whatever is appended later |
| Audit.BreakStays | web/audit.go:145-165 | a line that breaks the chain so far is reported whatever follows |
| Audit.LastRecordIsLast | web/audit.go:61-73 | on a parseable log resume's last line is the last entry |
| Audit.Auditor.constructor | web/audit.go:44-52 | a start continues from the last entry of the log |
| Audit.Auditor.Resume | web/audit.go:56-74 | number and hash of the last non-blank line, or the start of a chain |
| Audit.Auditor.Log | web/audit.go:91-119 | one chained entry is appended, then memory and head advance; a stop leaves head and memory behind |
| Audit.Auditor.WriteHead | web/audit.go:122-128 | the head says the number and hash in memory |
| Audit.Auditor.Verify | web/audit.go:132-178 | clean exactly when the log is missing, or a chain the head matches; otherwise the first break, and of which kind |
| Audit.Auditor.RecentForUser | web/audit.go:181-208 | entries of that user only, each on a line of the log, later lines first, at most the limit, and none of theirs passed over |
| Audit.RunRecent | web/audit.go:91-208 | after any run, the newest logged events whose user reads back as the one asked for, as they read back, and nobody else's |
| Audit.ReverseInPlace | web/audit.go:201-203 | the array reversed in place |
| Audit.RunIsChained | web/audit.go:56-128 | over every run of events, stops and restarts the log holds exactly those events in order, each chained to the one before as it was written, and memory and head stand where they should |
| Audit.RunVerifies | web/audit.go:91-178 | verify accepts exactly when every event's fields survive their encoding and no event has completed or the head knows every event |
| Audit.BadByteStays | web/audit.go:80-178 | once a byte that is not UTF-8 is logged no later verification accepts |
| Audit.CutOffThenCleared | web/audit.go:116-128 | of events that survive: a stop before the head is reported once an event had completed, and a restart with one more event clears it |
| Slices.FilterNewer | relay/ratelimit.go:37-42 | filtering over its own backing array leaves exactly the newer times in order |
| Slices.Append | relay/ratelimit.go:47 | the time is added at the end, in place or in a new array |
| Slices.FilterKey | web/security.go:141-147 | one key's slice is filtered and every other key's times stay |
| RateLimiter.AllowAnswers | relay/ratelimit.go:29-49 | a pruned state that tracks the full history gives the naive answer |
| RateLimiter.RunTracks | relay/ratelimit.go:29-71 | over every run with nondecreasing times the pruned state tracks the full history |
| RateLimiter.PruningUnobservable | relay/ratelimit.go:34-71 | with nondecreasing times every answer is the one of a limiter that never forgets |
| RateLimiter.WindowBound | relay/ratelimit.go:29-49 | the naive limiter admits at most the limit in every half-open window |
| RateLimiter.LimiterKeepsBound | relay/ratelimit.go:29-49 | with nondecreasing times the code's own grants to a key are at most the limit in every half-open window |
| RateLimiter.OutOfOrderBreaksBound | relay/ratelimit.go:30-71 | for every limit and window, one reading one behind the latest lets one request more than the limit through within a window |
| RateLimiter.ToleranceExactly | relay/ratelimit.go:29-71 | the bound holds on all runs whose readings fall back by at most d exactly when d is zero, unless the limit or the window is not positive |
| RateLimiter.RateLimiter.SweepAll | relay/ratelimit.go:59-70 | exactly the keys with no newer time go |
| RateLimiter.RateLimiter.Sweep | relay/ratelimit.go:53-71 | at most once per window, keys with no newer time are dropped |
| RateLimiter.RateLimiter.Admit | relay/ratelimit.go:36-48 | the key's times are pruned in place and the request is recorded exactly if it is within the limit |
| RateLimiter.RateLimiter.AllowNow | relay/ratelimit.go:29-49 | state and answer are those of the specified step |
| RateLimiter.AnswerAll | relay/ratelimit.go:29-71 | over a whole run the object answers as the naive limiter |
| LoginGuard.GuardSame | web/security.go:140-169 | with nondecreasing times the failures still counted are those of the full history since the last reset |
| LoginGuard.LockedExactly | web/security.go:152-156 | a key is locked exactly when enough failures since its last reset are newer than the window |
| LoginGuard.Guard.RecentFor | web/security.go:140-150 | the key's recent failures, pruned in place and stored back |
| LoginGuard.Guard.IsLocked | web/security.go:152-156 | locked exactly when the recent failures reach the maximum |
| LoginGuard.Guard.RecordFailure | web/security.go:158-163 | one failure is added to the recent ones |
| LoginGuard.Guard.ResetKey | web/security.go:165-169 | the key's failures go and no other key changes |
| LoginGuard.AnswerAll | web/security.go:140-169 | over a whole run every answer is the naive count since the key's last reset |
| RelayHandlers.NewCodeValid | relay/main.go:58-70 | every code drawn is accepted by the download path, and different random bytes give different codes |
| RelayOnce.NamesDisjoint | relay/main.go:60-62 | temp names and claimed names are never valid codes, nor each other |
| RelayOnce.OwnStep | relay/main.go:119-239 | every step of an upload, download or sweep keeps the directory sound and what the process relies on |
| RelayOnce.OthersKeep | relay/main.go:119-239 | what another process relies on survives the step |
| RelayOnce.RunSound | relay/main.go:119-239 | the invariant holds after every interleaving |
| RelayOnce.DeliveredOnce | relay/main.go:171-203 | a delivery is the complete body uploaded under its code, and no second download of that code delivers anything |
| RelayOnce.BlobAccounted | relay/main.go:134-239 | a successfully uploaded blob is in exactly one place: complete under its code, claimed by one download, or swept past its age |
| RelayClaims.RunTracked | relay/main.go:171-239 | over every interleaving every claimed name on disk or swept comes from a claim whose download is known, and sweeps take claimed names only past their age |
| RelayClaims.ClaimsAccounted | relay/main.go:171-239 | each claim's download is still at work on it, or has delivered the whole body, or a sweep took the claimed name past its age |
| RelayHandlers.RelayServer.HandleUpload | relay/main.go:126-169 | within the size cap the whole body appears under its code and nothing else changes; beyond it nothing stays |
| RelayHandlers.RelayServer.HandleDownload | relay/main.go:171-203 | the blob under a valid code, which is then gone; anything else leaves the directory alone |
| RelayHandlers.RelayServer.SweepOnce | relay/main.go:223-239 | exactly the entries older than the time to live go |
| RelayHandlers.UploadFetchFetch | relay/main.go:119-203 | uploaded once, fetched twice: the first gets the body, the second nothing |
| RelayAlone.RunBacked | relay/main.go:134-239 | after any run every name has its file and every temp name was drawn |
| RelayAlone.UploadIsRun | relay/main.go:119-169 | an upload process alone, whatever is left to chance, ends with the handler's directory and answer |
| RelayAlone.DownloadIsRun | relay/main.go:171-203 | a download process alone ends with the handler's directory and answer |
| RelayAlone.SweepIsRun | relay/main.go:223-239 | a sweep alone, in whatever order it looks, ends with the handler's directory |
| Base32.EncodeInjective | relay/main.go:58 | different numbers have different digits |
| Totp.DecimalReads | web/totp.go:51 | zero-padding loses nothing: a printed code is its number |
| Totp.MaskAndShift | web/totp.go:44-46 | masking and shifting is the low 31 bits of the four bytes (section 5.3 of RFC 4226) |
| Totp.TotpCodeAt | web/totp.go:38-52 | six digits that read as the four bytes of the MAC of the counter's eight big-endian bytes, taken where the low four bits of the last byte say, without their top bit, modulo a million |
| Totp.CodeReads | web/totp.go:38-52 | for every cut of the digest into a, four bytes w and b with the low four bits of its last byte equal to the length of a, the code reads as w without its top bit modulo a million |
| Totp.SameParts | web/totp.go:44-46 | two digests with the same last byte and the same four bytes there truncate to the same number |
| Totp.Vector0 | web/totp.go:38-52 | the first digest of appendix D of RFC 4226 gives its code 755224 |
| Totp.Vector9 | web/totp.go:38-52 | the last digest of appendix D of RFC 4226 gives its code 520489; the eight between likewise |
| Totp.TotpVerify | web/totp.go:57-69 | the earliest of the three 30-second steps around now whose code this is, surrounding space aside, or none |
| Totp.TrimAround | web/totp.go:58 | only the space around a code goes |
| Totp.FirstMatchUnique | web/totp.go:63-67 | the verifier's answer is determined by the code and the time |
| Totp.NormalizeRecovery | web/totp.go:112-121 | lower-cased letters and digits, nothing else |
| Totp.NormalizeChar | web/totp.go:112-121 | of one character: a letter lower-cased, a digit as it is, anything else nothing |
| Totp.NormalizeConcat | web/totp.go:112-121 | and of a text, what is kept of its characters in order |
| Totp.CodesDiffer | web/totp.go:101-107 | different random bytes make different recovery codes |
| Totp.TypedBack | web/totp.go:112-121 | a shown code typed in any case with anything else around or between its halves normalises to the code that was hashed |
| Totp.DisplayNormalizes | web/totp.go:105-107 | the shown form normalises to the code |
| Totp.NewRecoveryCodes | web/totp.go:101-110 | every stored hash is the hash of the shown code, in the same place |
| AccountLock.RunLocked | web/accounts.go:187-216 | with one spelling each, over every interleaving: nobody is inside a lock with another, what a call has loaded is what is stored, and records and answers are those of the closures run one after another |
| AccountLock.SerialExactly | web/accounts.go:187-232 | for every closure that takes something once: over all interleavings of calls under names from a set the closures run one after another, exactly when no two names of the set lead to one account |
| AccountLock.BothAccepted | web/accounts.go:187-232 | from any state with both locks free: two calls under two names of one account, overlapping, are both told yes whenever the closure says yes to the record as it was |
| AccountLock.RunAnswers | web/accounts.go:204-216 | what a call is told is what took effect, whatever names are in use |
| SecondFactorRuns.AcceptedUp | web/accounts.go:115-130 | with one spelling each, over every interleaving the time steps callers were told were accepted strictly increase between resets |
| SecondFactorRuns.TotpBound | web/accounts.go:115-130 | with one spelling each, codes checked within [t0, t1] are accepted at most t1/30 - t0/30 + 3 times between resets, however logins interleave (section 5.2 of RFC 6238) |
| SecondFactorRuns.CodesKept | web/accounts.go:93-110 | with one spelling each, uses callers were told of since the last issue plus copies stored equal copies issued, and what is stored is in issued order |
| SecondFactorRuns.RecoveryOnce | web/accounts.go:93-110 | with one spelling each, a code issued once lets at most one login in until codes are issued again |
| SecondFactorRuns.TotpExactly | web/accounts.go:115-216 | over all interleavings of calls under names from a set: no time step is accepted twice between resets, exactly when no two names of the set lead to one account |
| SecondFactorRuns.RecoveryExactly | web/accounts.go:93-216 | over all interleavings of calls under names from a set: recovery codes add up, exactly when no two names of the set lead to one account |
| SecondFactorRuns.CodeTwice | web/accounts_handlers.go:269-345 | on any record: two overlapping logins under two names of one account are both accepted with one code for any step later than the last one used |
| SecondFactorRuns.RecoveryTwice | web/accounts_handlers.go:269-345 | and with one stored copy of a recovery code |
| SecondFactor.AcceptedInRange | web/totp.go:62-66 | every accepted step is within one step of a checking time |
| SecondFactor.FactorStep | web/twofa_handlers.go:39-147 | the factor goes off only at a new secret or a disable whose code verified, on only at an enable with a stored secret and a code that verified; a refused change leaves the record as it was |
| SecondFactor.TurnedOff | web/twofa_handlers.go:39-147 | over every sequence of closures, a factor that was on and is off was turned off at some such closure |
| SecondFactor.TurnedOn | web/twofa_handlers.go:66-85 | over every sequence of closures, a factor that was off and is on was turned on by an enable with a stored secret and a verified code, and has stayed on since |
| SecondFactor.SecretFrom | web/twofa_handlers.go:39-45 | a stored secret came from a setup |
| SecondFactorRuns.FactorOff | web/twofa_handlers.go:39-147 | with one spelling each, over every interleaving: a factor that was on and is off was turned off by a call told yes, a setup or a disable whose code verified |
| SecondFactorRuns.FactorOn | web/twofa_handlers.go:66-85 | with one spelling each, over every interleaving: a factor that was off and is on was turned on by an enable told yes whose code verified against a secret stored then |
| SecondFactorRuns.DisableTold | web/twofa_handlers.go:131-147 | with one spelling each, a disable told yes verified its code or found the factor off; one told no changed nothing |
| SecondFactor.UseTakesOne | web/accounts.go:100-106 | using a code takes exactly one copy and leaves the others in order |
| SecondFactor.UserRecord.ConsumeTOTP | web/accounts.go:115-130 | accepted exactly when the code verifies for a step later than the last one used, which it then records; nothing else changes |
| SecondFactor.UserRecord.ConsumeRecovery | web/accounts.go:93-110 | accepted exactly when the hash of the normalised code is stored; its first copy goes, in place |
| SecondFactor.UserRecord.ShiftDown | web/accounts.go:102 | later entries move down over the removed one |
| SecondFactor.UserRecord.SetupSecret | web/twofa_handlers.go:39-45 | the new secret is stored, the factor off, the replay guard at zero and the recovery codes as they were |
| SecondFactor.UserRecord.EnableWith | web/twofa_handlers.go:66-85 | succeeds exactly when a secret is stored, it unwraps and it verifies the code; then the factor is on and the stored hashes are those of the codes shown; else nothing changes |
| SecondFactor.UserRecord.RegenerateWith | web/twofa_handlers.go:104-112 | new codes exactly when enabled |
| SecondFactor.UserRecord.DisableWith | web/twofa_handlers.go:131-147 | succeeds exactly when the factor is off or the unwrapped secret verifies the code; then secret, codes and replay guard are cleared; else nothing changes |
| JsonLog.EscapeFits | src/cli.c:606-608 | a buffer of twice the length and two bytes never truncates the escaped text |
| JsonLog.JsonEscape | src/cli.c:510-525 | the escaped text up to the buffer's end |
| JsonLog.EscapeCut | src/cli.c:510-525 | in a smaller buffer stands the escaped form of as long a front of the text as leaves room for two bytes more |
| JsonLog.EscapeAllText | src/cli.c:515-521 | in escaped text a quote follows a backslash and no newline is left |
| JsonLog.ExtractAt | src/cli.c:870-883 | the value after the first key, up to its first quote |
| JsonLog.ExtractMarks | src/cli.c:870-883 | wherever the marks stand, the value is what the first two quotes after the first colon after the first key enclose, when it is not empty and fits; without a mark there is none |
| JsonLog.ExtractCodeFromLine | src/cli.c:868-896 | the quoted value after the key or the first bare token, when it fits |
| JsonLog.BareToken | src/cli.c:886-895 | the first token, unless the line is blank, a comment or the token too long |
| JsonLog.BareAt | src/cli.c:886-895 | in a line without the key: blanks, a token that does not start with the comment sign, then a blank or the end, give that token exactly when it fits the buffer |
| JsonLog.NothingBare | src/cli.c:886-887 | blank lines and comments without the key give nothing |
| JsonLog.RecvRoundTrip | src/cli.c:920-935 | a receive record is read back as its code up to a quote, so as the code itself exactly when that is not empty, fits the buffer and holds no quote |
| JsonLog.FgetsAppend | src/cli.c:1055 | on a log of whole lines, appending a short line appends one piece read |
| JsonLog.FgetsPieces | src/cli.c:1055 | of any text the pieces read are all of it in order, each ending at its first newline, full, or at the end |
| SendLog.EscapedLooks | src/cli.c:510-525 | escaping neither makes nor hides a name that looks like the key |
| SendLog.UnescapeEscaped | src/cli.c:510-525 | read by JSON's rules, the escaped text is the text without the control characters that are dropped |
| SendLog.OnlyTheName | src/cli.c:610-612 | before the key itself a send record can match it only at the end of the file name |
| SendLog.LooksMisread | src/cli.c:870-882 | with such a name the code is not read back |
| SendLog.SendRoundTrip | src/cli.c:594-614 | a code is read back from the send log exactly when the name, control characters dropped, is not the word and does not end in a quote and the word |
| Receiver.CodeSet.Has | src/cli.c:901-906 | true exactly for codes in the set |
| Receiver.CodeSet.AddCode | src/cli.c:908-918 | a new code is added, cut at 39 characters |
| Receiver.CodeSet.Grow | src/cli.c:911-914 | more room, same items |
| Receiver.WatchLoop.constructor | src/cli.c:1049-1060 | a start reads back the handled codes from the log's lines |
| Receiver.WatchLoop.HandleLine | src/cli.c:1075-1097 | a line without a new code is skipped; a final outcome is logged and remembered; a network error changes nothing |
| Receiver.StepOutright | src/cli.c:1075-1097 | a line without a code, with one handled already, or on a network error changes nothing; else one record with the code and its fate is appended and the code, cut at 39 characters, is handled |
| Receiver.RunRemembers | src/cli.c:1049-1098 | over every run with restarts a fitting code has at most one record, and once recorded is remembered in memory and by the log |
| Receiver.RecordedTwice | src/cli.c:915-916 | a code that is too long or holds a quote is recorded twice by a short run |
| Receiver.RecordedOnceExactly | src/cli.c:1049-1098 | at most one record over every run with restarts, exactly for codes under 40 characters without a quote |
| Receiver.ReadBack | src/cli.c:1049-1060 | what a restart makes of one record: the code up to a quote, cut to the item size, or nothing |
| Receiver.HandledIffRecorded | src/cli.c:1049-1098 | over every run whose codes fit and hold no quote, a code counts as handled exactly when it has a record |
| Receiver.FalseSkipExactly | src/cli.c:915-933 | a line makes another code, never fetched, count as handled exactly when its own code is cut by the 40-byte items or by a quote it does not start with |
| Receiver.RelayCodesFit | relay/main.go:60-62 | the relay's claim codes are of that kind |

## Left out

- Cryptographic strength: ML-KEM, AES-GCM, HMAC, SHA and deflate are abstract functions with the stated properties.
- I/O failures: storage calls succeed, except where a row names an error, a stop or a missing file.
- Stream errors from the destination writer, and lookahead errors other than end of file.
- The web server's legacy single-shot blobs (`openWithKey`), which no longer get written.
- When the inflater hands out its bytes relative to the stream's reads: it may have handed out any growing part of what the bytes seen so far determine.
- The KEM step of sending: each message's key is its own, so one ledger holds one message.
- Streams of 2^64 full chunks or more, on which the 64-bit counter wraps.
- `filepath.Base` on backslashes, and file systems that fold case: `Names.Base` is its form on slashes, while the theorems about spellings hold for any account function.
- A save's temporary file, which overlapping saves of one account share: a save is one step.
- In the team machine every access to an account is one step, as `AccountLock.SerialExactly` shows it to be while names have one spelling; what two spellings do there is shown on runs that do not need more than that.
- Team ids, claim codes and temp names drawn twice: each draw is assumed new.
- `handleTeamGet`, `view`, Stripe seat changes and plan resolution (`planForUser`), which only read or copy.
- RateLimiter.LimiterKeepsBound: assumes clock readings in lock order, because the bound is false without it (`RateLimiter.ToleranceExactly`).
- A zero time for the first sweep of the relay's limiter: the start of its sweep clock is a parameter.
- Audit lines as text: a line is blank, an encoded entry or garbage; of the encoding only what it does to characters and to bytes that are none is modelled, and a line torn by a crash counts as garbage.
- Audit disk errors other than the stop between append and head.
- Directory listing, `stat` and removal are steps of a sweep; the file system's own caching is not modelled.
- Names with letters outside ASCII in `TrimSpace` and `ToLower`.
- Wrapping of the TOTP secret, QR codes and the login session around the second factor.
- Archive sizes: the file and every source file stay under 2^64 bytes, the table under 2^32 and the KEM ciphertext under 2^16; a C `long` is narrower on some platforms.
- Archive reads beyond a buffer (a table shorter than its entries, or stored data shorter than its recorded size) are reported as `Overrun`; C leaves them undefined.
- ArchiveIO.ArchiveWriter.AddFile: not called while an incremental write is open, when the source would outgrow its entries array, nor after a write has finished, when it would leave the earlier references unset; C leaves both undefined.
- ArchiveIO.ArchiveWriter.Write: not called while an incremental write is open; the source would leave that write's file open beside its own.
- Altered archives whose table nonce is another sealed text's: then that text would be read as the table.
- Archive directory walking, the path standing in for a missing archive name, path building on disk and progress callbacks; extraction writes into a map from names to contents.
- `patch_table_len` and the streaming compression wrapper, which nothing calls.
- Log files that cannot be opened, and the names and sizes of files moved by the send watcher.
- GUI, key store, sessions, API keys, billing, HTTP routing and TLS.
