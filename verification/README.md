# Kahawai, modelled and proved

Kahawai is a self-hosted media server: a hub, the media hosts that own the files, and
the tools around them. This project models the parts of it whose correctness is a
statement about every run or every input, and proves those statements with Dafny 4.11.
`dafny verify dfyconfig.toml` checks the whole project.

## What is modelled

- **AniDB pacing** (`AnidbPacing`, `AnidbLogins`). A token bucket and a short gap share one stream of
  packets. The bounds on every window of every run come from a potential: the sustained
  rate banked when a packet leaves. Times are whole nanoseconds, and the
  bucket's tokens are counted in the time it takes to earn them. A client is one login:
  each login makes a bucket and a gap of its own (crates/kahawai-hub/src/anidb.rs:312-318),
  so the bounds are about the packets of one client; `AnidbLogins` gives what they bound
  for several.
- **AniDB session and ban** (`AnidbSession`, `AnidbRuns`). The state file, the login that
  reads and writes it, and runs of any number of clients interleaved step by step with
  crashes and restarts.
- **Authentication** (`AuthStore`, `AuthHub`, `AuthRuns`, `Throttle`). Each transaction is
  one step of a class whose new rows equal a specification function; runs interleave
  logins, rotations, logouts, resets, deletions, role changes, setup and restarts.
  Secrets and ids are fresh and hashes are injective, so tokens are compared themselves.
- **Backup and restore** (`SnapshotPaths`, `Snapshot`, `Staging`, `Backup`, `Disks`,
  `Restore`, `RoundTrip`, `Unforeseen`, with `Walks` as the reference for what a directory
  holds at a path). A snapshot is a tree of entries, a data directory the files and
  directories it has by path. Digests are a function passed in; where injectivity matters
  it is a stated assumption.
- **Matroska relocation** (`Ebml`, `Tiling`, `SeekHead`, `Fixture`, `Relocation`,
  `LyingEntry`). The size and id encodings of sections 4 to 6 of RFC 8794, the generator that lists elements,
  and the script that moves Tracks behind the Clusters and corrects a SeekHead while
  walking it. The buffer is a sequence that the methods reassign.
- **Chapters and segments** (`Titles`, `Segments`, `Contiguous`, `Detector`, `Chapters`).
  Which chapters bound a recap, an opening and the credits; what the fingerprint detector
  can report, and how the hub's check of its answers compares; and several parts' chapters
  folded onto one timeline.
- **Enrollment** (`EnrollmentDesk`, `Enrollment`, `EnrollmentRuns`). Approve-by-code and
  the certificates waiting to be fetched. Digest, fingerprint and identity are functions
  of a request's bytes, passed in.
- **File-name markers** (`Markers`, `EpisodeNumbers`, `Repairs`, `SeriesNames`,
  `FansubNames`). The passes that repair season and episode markers, the parser they repair
  them for, what the two together make of any name, and what the fansub parse answers for
  any tokens.
- **Artwork cache** (`ArtCache`, `Artwork`, `ArtRuns`). Originals, resized copies and
  collages as files by name; what a prefetch promises, what the sweep at a start removes,
  and what a collage answers for.
- **Smaller protocols** (`Grants`, `Queue`, `SetupWait`, `Interleave`, `BlockCipher`).
  Versioned grant writes, the queue driver and the wait for setup, the distance between
  two tracks' packets, and padding over an abstract block cipher.

`Wrappers` holds the failure datatypes and what several modules share, `Runs` the induction principle over runs that
every lemma about runs uses.

## How it is stated

An operation that changes state is a class method whose postcondition equates the new
state with a function of the old one; the promises are lemmas about those functions and
about every run of them. Where a function could be wrong together with its method, the contract
or a lemma also says the result outright, in the numbers, names and reply codes of the
source. A loop of the source is a loop here, proved against a recursive
specification. `None` or an `Err` stands for the source's errors and exceptions.

## Results that correct an expectation

- `Relocation.PositionsStillName`: the SeekHead rewrite trusts an entry's id. A position
  keeps naming its element exactly when the entry calls itself Tracks just if it names the
  first Tracks; an entry that lies about that is left naming the hole or the copy.
  `LyingEntry.EntryLeavesItsElement` is such a file.
- `Detector.OpeningCheckAgainstDetector`, `Detector.CreditsCheckAgainstDetector`: the
  hub's check of inferred boundaries is meant to accept what the detector could have
  produced. It refuses some openings that it can, because the detector caps only one side
  of a pair and snaps after choosing; and it accepts some boundaries of both kinds that it
  cannot. Both conditions are exact, and each direction has an input.
- `Detector.SidesComeTogether`: the comment at crates/kahawai-intro/src/chroma.rs:237-239
  allows the two sides of a pair to come from different alignments. In exact arithmetic
  they never do.
- `Artwork.CollageCard`: a collage is served for the albums of now, but its card is only
  made when there is none: after an album changes the first card is served on
  (`Artwork.FirstCardIsServed`).
- `Artwork.PrefetchedIsComplete`: an empty file, or an empty answer cached as an original,
  is believed like any other.
- `AuthRuns.DeadIsFinal`: a rotation reads its clock before it waits for the database, so
  one that waited can renew a family that expired meanwhile
  (`AuthRuns.WaitingRotationRenews`). Revocation and deletion are final all the same.
- `Chapters.PartsApart`: the comment at crates/kahawai-hub/src/api.rs:4102-4104 expects
  two parts to meet on one timestamp. The filter above it already prevents that, so
  deduplication only ever drops a chapter for an earlier one of its own part.
- `Restore.RestoreSnapshot`: the checks do not foresee every failure of the writes. Past
  them a restore still fails, mostly with databases already replaced, exactly when a tree
  of the snapshot is a plain file, a secret's name is a directory, or the data directory holds a
  file where a directory is written, a directory where a file is, or one where a replaced
  database's journal would be. A snapshot that backup wrote has only the right kinds of
  thing, so for it only the data directory matters (`RoundTrip.BackupIsRestorable`);
  `Unforeseen.SecretDirectoryInterrupts` is a snapshot that passes every check and fails.
- `RoundTrip.RestoreOverlays`: the configuration file is backed up and listed, but never
  written back.
- `Titles.KindIsRegex`: the splitting is narrower than the regex it replaces by one
  character, the vertical tab; `Titles.TabHidesTheIntro` is a title they disagree on.
- `SeriesNames.SeriesNumbersExactly`: a welded marker loses to the rest of its own word
  when that alone reads as numbers.

## Model

| member | source | states |
|---|---|---|
| AnidbPacing.WindowSpan | crates/kahawai-hub/src/anidb.rs:36-50 | In every run of one client with exact sleeps, any request times and at most one re-send per command, every window of n packets spans at least (n-5) sustained spacings, 200 ms less when it opens with a re-send |
| AnidbPacing.SuccessiveGap | crates/kahawai-hub/src/anidb.rs:233-246 | Successive packets are at least 2200 ms apart, twice that before a re-send, in every run, however late the sleeps return |
| AnidbPacing.NoNeedlessWait | crates/kahawai-hub/src/anidb.rs:207-246 | A packet leaves as late as its sleep overran, and no pause is longer than the two rules make it: what was owed ends with the gap since the last packet, or with the bucket just empty |
| AnidbPacing.SendCosts | crates/kahawai-hub/src/anidb.rs:207-246 | The potential argument of one send: credit falls by a full sustained spacing less the time that passed, whichever of the two rules did the waiting |
| AnidbPacing.BilledOnce | crates/kahawai-hub/src/anidb.rs:207-231 | Every packet is billed once: what the bucket held, filled up at the rate of the clock to 21 seconds, less 4.2 seconds |
| AnidbPacing.CreditCeiling | crates/kahawai-hub/src/anidb.rs:207-246 | With exact sleeps no more than four sendings of credit are ever banked when a packet leaves, 200 ms more after a re-send |
| AnidbPacing.CreditBounded | crates/kahawai-hub/src/anidb.rs:192-246 | The ceiling holds after every packet of every run |
| AnidbPacing.WindowSpanWithLateSleeps | crates/kahawai-hub/src/anidb.rs:495-515 | When sleeps return late, every window of n packets still spans (n-6) sustained spacings |
| AnidbPacing.WindowSpanIsTight | crates/kahawai-hub/src/anidb.rs:36-50 | The bound cannot be raised: a run exists whose ten packets span exactly (10-5)*4200-200 ms |
| AnidbPacing.RunExtends | crates/kahawai-hub/src/anidb.rs:495-515 | One more paced send continues a run |
| AnidbPacing.Bucket.Take | crates/kahawai-hub/src/anidb.rs:207-231 | The bucket method computes the specification of one token spent: refill capped at the burst, then a debt turned into a wait |
| AnidbPacing.PaceDelay | crates/kahawai-hub/src/anidb.rs:233-246 | The owed delay is the larger of the bucket wait and what is left of the short gap, widened by the attempt number |
| AnidbPacing.Client.Pace | crates/kahawai-hub/src/anidb.rs:495-515 | Waiting as told moves the pacer by exactly one paced send |
| AnidbPacing.Client.Command | crates/kahawai-hub/src/anidb.rs:517-590 | A command sends one packet and at most one re-send, each of which extends the paced run |
| AnidbLogins.ManyLogins | crates/kahawai-hub/src/anidb.rs:312-318 | What m logins send within some time, together, is at most five packets each and then m times the sustained rate over that time and 200 ms |
| AnidbLogins.ManyLoginsIsTight | crates/kahawai-hub/src/anidb.rs:312-318 | For every m some m logins reach that bound exactly: nothing holds one back for another |
| AnidbSession.StateFile.Login | crates/kahawai-hub/src/anidb.rs:270-414 | The replies decide the outcome and every packet sent, in order: nothing while a ban is recorded; ENCRYPT if configured, which only 209 opens; the probe exactly for a session stored for these credentials and this port, which 208 resumes; otherwise AUTH, which 200 or 201 with a key grants; 555 bans at each. The file then holds the new session, a ban of a day, or what it held |
| AnidbSession.StateFile.ForgetSession | crates/kahawai-hub/src/anidb.rs:153-167 | Forgetting clears session, port and credential and keeps the ban clock; with no session stored it changes nothing |
| AnidbSession.StateFile.RecordBan | crates/kahawai-hub/src/anidb.rs:466-479 | A ban drops session and credential, keeps the port and sets the clock 86400 seconds ahead |
| AnidbSession.StateFile.LoseSession | crates/kahawai-hub/src/anidb.rs:445-455 | A lost session is cleared; port, credential and ban clock are kept |
| AnidbRuns.SessionsAreResumedByTheirOwner | crates/kahawai-hub/src/anidb.rs:137-139 | In every interleaving of clients, crashes and restarts, a session is probed only with the credentials and from the port it was handed out for |
| AnidbRuns.BanClockKept | crates/kahawai-hub/src/anidb.rs:153-174 | Only a successful AUTH takes time off the ban clock, in any run |
| AnidbRuns.BanSilencesLogins | crates/kahawai-hub/src/anidb.rs:277-292 | From a recorded ban with no login in flight until it lapses, no login sends a packet |
| AnidbRuns.RefusedLoginNeverSpeaks | crates/kahawai-hub/src/anidb.rs:277-292 | A login begun while a ban is recorded never becomes a client and never sends |
| AnidbRuns.SessionSurvivesRestarts | crates/kahawai-hub/src/anidb.rs:137-139 | After AUTH, and until the server drops the session, bans the hub, or somebody logs in or disconnects, the file offers that session and port to the same credentials and to no others, restarts included |
| AnidbRuns.SessionIsResumed | crates/kahawai-hub/src/anidb.rs:270-414 | In that time a login with those credentials that binds that port and has its probe answered 208 holds the session AUTH had brought, having sent the probe and never an AUTH, whatever other clients do in between |
| AnidbRuns.LoginIsARun | crates/kahawai-hub/src/anidb.rs:270-414 | The login method and the steps of the runs are one protocol: a login with nothing in between ends in the same file, the same packets, and a client that holds a session exactly when the method answered one |
| AnidbRuns.DroppedIsNotResumed | crates/kahawai-hub/src/anidb.rs:445-479 | A ban is recorded for a day, and after a ban, a session the server no longer knows, or a disconnection, no login is offered a session until an AUTH succeeds, in any run |
| AnidbRuns.AlwaysConsistent | crates/kahawai-hub/src/anidb.rs:81-139 | The invariant behind these: stored and held sessions were all granted to the credentials and ports they carry |
| AuthHub.Hub.CompleteSetup | crates/kahawai-hub/src/auth.rs:351-392 | The first administrator is added exactly when there is no account and name and password are acceptable, and setup is then no longer required |
| AuthHub.Hub.CreateUser | crates/kahawai-hub/src/auth.rs:513-540 | Adds exactly one account, of a name nobody has and a password of at least twelve characters, and otherwise changes nothing |
| AuthHub.Hub.SetAdmin | crates/kahawai-hub/src/auth.rs:420-457 | Gives the account the flag asked for and a new version, refusing exactly to demote the only administrator; every other account stays as it is |
| AuthHub.Hub.DeleteUser | crates/kahawai-hub/src/auth.rs:473-510 | Deletes the account and exactly its families, refusing exactly the only administrator |
| AuthHub.Hub.ResetPassword | crates/kahawai-hub/src/auth.rs:798-823 | The account of that name gets the new password and a new version, every family of it and no other is revoked; without one, or with a short password, nothing changes |
| AuthHub.Hub.ReadLogin | crates/kahawai-hub/src/auth.rs:543-570 | A row is read exactly for the name and the password of one account, and it is that account's |
| AuthHub.Hub.IssueTokens | crates/kahawai-hub/src/auth.rs:680-734 | A family of one token that lasts thirty days, and an access token of the row that expires fifteen minutes after its signing; refused exactly for an account deleted since the read |
| AuthHub.Hub.Refresh | crates/kahawai-hub/src/auth.rs:588-734 | Rotates exactly for the newest token or the one before of a family alive at the request's clock: the new token is the newest, the newest before it the one before, thirty days from that clock; the access token is of the account as stored and expires fifteen minutes after its signing. Any other token of a live family revokes it, and nothing else changes |
| AuthHub.Hub.Logout | crates/kahawai-hub/src/auth.rs:736-751 | Revokes exactly the live family whose newest token was presented by its own user |
| AuthHub.Hub.Authenticate | crates/kahawai-hub/src/auth.rs:759-793 | Answers exactly the tokens not a minute past their expiry whose version is the account's, with the stored name and administrator flag |
| AuthRuns.RotationWindow | crates/kahawai-hub/src/auth.rs:571-678 | In any reachable state a token rotates exactly when it is one of the two newest of a family that is not revoked and had not expired by the clock its request read; any other token naming such a family revokes it; no other family changes |
| AuthRuns.OlderGenerationRevokes | crates/kahawai-hub/src/auth.rs:588-678 | A token two or more rotations old, presented to a family that lives by the request's clock, revokes it |
| AuthRuns.DeadIsFinal | crates/kahawai-hub/src/auth.rs:588-678 | A dead family stays dead in any continuation whose rotations read their clocks no earlier than it was found dead |
| AuthRuns.EndedIsFinal | crates/kahawai-hub/src/auth.rs:588-678 | A family revoked or deleted is never alive again in any continuation, whatever clock a later request read |
| AuthRuns.WaitingRotationRenews | crates/kahawai-hub/src/auth.rs:595-620 | What a rotation that read its clock before waiting can do: renew a family that expired meanwhile, until the lifetime after that reading |
| AuthRuns.LogoutNamesTheNewest | crates/kahawai-hub/src/auth.rs:736-751 | Logging out kills exactly the named family and only with its newest token: the previous generation does nothing |
| AuthRuns.AccountChangeKillsItsFamilies | crates/kahawai-hub/src/auth.rs:798-823 | A reset or deletion kills every family of the account and no other |
| AuthRuns.LeapfrogNeverEnds | crates/kahawai-hub/src/auth.rs:571-587 | In any run, two clients one generation apart that strictly alternate within the idle lifetime are accepted at every turn, for ever, whatever logins, role changes, restarts and events of other accounts come between |
| AuthRuns.OldAccessIsRefused | crates/kahawai-hub/src/auth.rs:759-793 | Any access token minted before a committed role change, reset or deletion is refused by every later request of every run |
| AuthRuns.AccessHonouredUntilChanged | crates/kahawai-hub/src/auth.rs:709-793 | The access token of a rotation is accepted at every time up to sixteen minutes after its signing (fifteen and the leeway) while no such change has committed, with exactly its claims, the stored administrator flag included; later nothing accepts it |
| AuthRuns.LoginHonouredUntilChanged | crates/kahawai-hub/src/auth.rs:543-793 | So is the access token of a login, which is issued whenever no such change committed since its account row was read |
| AuthRuns.LoginStartsFamily | crates/kahawai-hub/src/auth.rs:680-707 | A login that finds its account starts a family of one token, alive by exactly the clocks up to thirty days later, and touches no other |
| AuthRuns.AccessIsBrief | crates/kahawai-hub/src/auth.rs:709-793 | No access token of any run is accepted sixteen minutes after it was there |
| AuthRuns.LateLoginIsRefused | crates/kahawai-hub/src/auth.rs:543-570 | A login that read its row before such a change mints only access tokens that are refused |
| AuthRuns.RoleChangeTakes | crates/kahawai-hub/src/auth.rs:420-457 | A committed role change gives or takes the flag, and it stays so until the next change |
| AuthRuns.PasswordHolds | crates/kahawai-hub/src/auth.rs:543-570 | From the setup, creation or reset that committed it, a password and no other logs the account in, in any run, until the next reset or the deletion |
| AuthRuns.AlwaysAnAdmin | crates/kahawai-hub/src/auth.rs:420-510 | Once an administrator exists, every interleaving of set_admin, delete_user, create_user and the rest leaves one |
| AuthRuns.SetupHappensOnce | crates/kahawai-hub/src/auth.rs:351-392 | Concurrent claims of first-run setup succeed at most once in a run, and an administrator remains ever after |
| AuthRuns.AlwaysConsistent | crates/kahawai-hub/src/auth.rs:588-707 | In every reachable state a family's row holds exactly its two newest tokens and belongs to an account that exists |
| Throttle.LoginThrottle.Locked | crates/kahawai-hub/src/auth.rs:180-187 | Reports the time left of a lockout in force, to its very deadline, without changing anything |
| Throttle.LoginThrottle.Fail | crates/kahawai-hub/src/auth.rs:189-213 | The failure is counted on what is remembered of the key; above 4096 keys exactly those idle for an hour are forgotten; it locks exactly at the threshold, from now on |
| Throttle.LoginThrottle.Clear | crates/kahawai-hub/src/auth.rs:215-218 | Forgets exactly one key |
| Throttle.LockFor | crates/kahawai-hub/src/auth.rs:189-213 | Every lockout lasts between 30 s and 15 min |
| Throttle.LockLastsToItsDeadline | crates/kahawai-hub/src/auth.rs:178-218 | A lockout in force keeps its key refused until its deadline, with no less time to go, whatever else fails or is evicted, unless the key is cleared |
| Throttle.FailuresAreCounted | crates/kahawai-hub/src/auth.rs:178-218 | For a key that is not cleared and never idles an hour, the failures counted are those that happened, despite eviction |
| Throttle.KthFailureLocks | crates/kahawai-hub/src/auth.rs:178-218 | The k-th such failure, k at or past the threshold, locks for 30 s doubled once per failure past it, capped at 15 min |
| Throttle.LockGrows | crates/kahawai-hub/src/auth.rs:189-213 | One more failure never earns a shorter lockout |
| SnapshotPaths.BuildArtifactPath | crates/kahawai-hub/src/backup.rs:396-417 | The loop yields the slash-joined names exactly for non-empty lists of portable names |
| SnapshotPaths.CanonicalText | crates/kahawai-hub/src/backup.rs:396-417 | The check of a listed path accepts exactly the slash-separated lists of portable names |
| SnapshotPaths.PiecesOfJoin | crates/kahawai-hub/src/backup.rs:396-417 | Joining loses nothing: the names come back |
| SnapshotPaths.JoinInjective | crates/kahawai-hub/src/backup.rs:396-417 | Distinct paths have distinct text |
| SnapshotPaths.PortableTextAccepted | crates/kahawai-hub/src/backup.rs:396-417 | Text built from portable names passes the check that rebuilds it |
| Snapshot.CopyArtifact | crates/kahawai-hub/src/backup.rs:452-483 | Copies one file, lists its text, length and digest, and fails exactly for a path that cannot be named |
| Snapshot.CopySnapshotTree | crates/kahawai-hub/src/backup.rs:485-509 | Copies a whole tree: succeeds exactly when every file below can be named, and then holds exactly its files and lists exactly their artifacts |
| Walks.TreeIsWalked | crates/kahawai-hub/src/backup.rs:485-509 | What a copied tree holds at a path is what walking down the directory by the names of the path finds, and nothing stands outside it |
| Staging.ArtifactsDescribeTree | crates/kahawai-hub/src/backup.rs:485-509 | The list built while copying names exactly the files copied, once each, with their length and digest |
| Staging.CollectArtifactPaths | crates/kahawai-hub/src/backup.rs:561-586 | Gathers every regular file but the manifest, failing exactly on other kinds of entry or unnameable paths |
| Staging.ExpectedArtifacts | crates/kahawai-hub/src/backup.rs:511-534 | Indexes the list exactly when every path is canonical and safe and none repeats |
| Staging.StageOne | crates/kahawai-hub/src/backup.rs:538-554 | Freezes one expected file and accepts it exactly when it is present with the listed length and digest |
| Staging.StageExpected | crates/kahawai-hub/src/backup.rs:536-559 | The whole loop: succeeds exactly when the listed set equals the files present and each one matches |
| Staging.StageArtifacts | crates/kahawai-hub/src/backup.rs:511-559 | Staging succeeds exactly when the snapshot holds only nameable files and directories and its list is safe, distinct, complete and true; the staging folder then holds exactly those bytes |
| Backup.BackupTree | crates/kahawai-hub/src/backup.rs:191-213 | An optional tree is copied exactly when it is a directory whose files can be named; then every file the walk of the directory finds stands below the tree's name, nothing else does, nothing elsewhere moves, and files and list agree |
| Backup.TreesStand | crates/kahawai-hub/src/backup.rs:191-213 | At every path below pki and subtitles stands exactly what walking down that directory of the hub finds |
| Backup.BackupDatabases | crates/kahawai-hub/src/backup.rs:124-254 | The databases copied keep files and list in agreement |
| Backup.BackupSecrets | crates/kahawai-hub/src/backup.rs:124-254 | Every secret that exists is carried, named and listed, exactly when all of them are files |
| Backup.TakeBackup | crates/kahawai-hub/src/backup.rs:124-254 | A backup fails exactly when the database cannot be read for its credential key or the key it requires is missing or wrong, something of the wrong kind stands where a tree, a secret or the configuration belongs, or a file that the walks find cannot be named; otherwise at every path the destination holds exactly the file the hub has there, its configuration included, and the manifest documents it |
| Restore.RestoreSnapshot | crates/kahawai-hub/src/backup.rs:261-394 | Refused exactly when a check fails, and then the data directory is untouched; past the checks restored exactly when every database, tree and secret of the snapshot is the right kind of thing and nothing of the other kind stands where one is written, and then exactly the specified writes are made; whatever the outcome, nothing moves but what a restore writes |
| Restore.ReadSource | crates/kahawai-hub/src/backup.rs:277-287 | Staging precedes every read of a snapshot of format 3 or later |
| Disks.CopyTree | crates/kahawai-hub/src/backup.rs:590-607 | The recursive copy succeeds exactly when no file of the target stands where a directory comes and no directory where a file comes; in whatever order entries are read it then overlays exactly the tree, and on failure a part of it |
| Restore.WriteDatabases | crates/kahawai-hub/src/backup.rs:355-375 | Each database the snapshot has replaces the old one and its journals, exactly when none of the three places is a directory |
| Restore.WriteTrees | crates/kahawai-hub/src/backup.rs:376-382 | Both trees are copied over what was there, exactly when each tree the snapshot has is a directory and nothing of the other kind stands in its way; the second tree fits after the first exactly if it fitted before |
| RoundTrip.RestoreOverlays | crates/kahawai-hub/src/backup.rs:355-392 | A restore is an overlay: what it puts back is the snapshot's, journals of replaced databases go, every other file stays; the directories it makes are those of the snapshot's trees |
| RoundTrip.BackupIsRestorable | crates/kahawai-hub/src/backup.rs:124-394 | What backup wrote, restore accepts, into any directory that may be replaced, and completes exactly when nothing in that directory stands in the way |
| RoundTrip.RestoredFile | crates/kahawai-hub/src/backup.rs:124-394 | After restoring a backup the file the hub had stands at every path where it had one, nothing else moved but stale journals, and the only directories made hold those files |
| RoundTrip.BackupRoundTrip | crates/kahawai-hub/src/backup.rs:124-394 | Backing up and restoring into an empty directory is never interrupted and gives back at every path exactly the file the hub had there, found by walking its trees, and the directories those need |
| RoundTrip.RestoredHubOpens | crates/kahawai-hub/src/backup.rs:277-392 | What passed the checks opens as a hub: the database without old journals, the key it was sealed with beside it, every listed secret, and a media database exactly in the format that has one; databases there before are replaced only when forced |
| RoundTrip.FitsWhenFree | crates/kahawai-hub/src/backup.rs:355-392 | When a snapshot's names are the right kinds of thing, a restore completes if and only if no file or directory of the data directory stands in the way |
| Unforeseen.SecretDirectoryInterrupts | crates/kahawai-hub/src/backup.rs:384-391 | A failing input: a snapshot of a readable database, in perfect order, with a file below a directory named as a secret passes every check and fails after databases and trees are written |
| Unforeseen.PlainFileInterrupts | crates/kahawai-hub/src/backup.rs:590-607 | A failing input: a snapshot in perfect order restored over a data directory with a plain file where a tree goes passes every check and fails after the databases are written |
| Unforeseen.MediaDirectoryRefused | crates/kahawai-hub/src/backup.rs:295-309 | A directory in the media database's place is refused at every format |
| Unforeseen.UnreadableDatabaseRefused | crates/kahawai-hub/src/backup.rs:321-343 | From format 2 on a database that cannot be opened, or has no settings, is refused |
| RoundTrip.ListPinsTheFiles | crates/kahawai-hub/src/backup.rs:511-559 | With an injective digest two snapshots that pass one list hold the same bytes |
| Ebml.WriteVint | patches/gstreamer/0003-matroskademux-accept-a-large-element-the-file-vouche-repro-1.py:27-32 | The shortest size field that fits, never the reserved one, defined exactly below 2^56-1 |
| Ebml.FindId | patches/gstreamer/0007-matroskademux-fetch-Tracks-that-follow-the-Clusters-repro-1.py:44-50 | The loop over mask bits finds the id whose length is one more than the first byte's leading zeros |
| Ebml.FindSize | patches/gstreamer/0007-matroskademux-fetch-Tracks-that-follow-the-Clusters-repro-1.py:53-61 | The same for sizes, dropping the marker and shifting in the remaining bytes |
| Ebml.ListChildren | patches/gstreamer/0007-matroskademux-fetch-Tracks-that-follow-the-Clusters-repro-1.py:64-71 | The generator lists the elements of a range, or fails at the first header it cannot read |
| Ebml.MarkedField | patches/gstreamer/0003-matroskademux-accept-a-large-element-the-file-vouche-repro-1.py:27-32 | A marked value's first byte announces the field's own length and the bytes spell the value |
| Ebml.ReadSizeUndoesVint | patches/gstreamer/0007-matroskademux-fetch-Tracks-that-follow-the-Clusters-repro-1.py:53-61 | Reading undoes writing for every value the writer accepts, anywhere in a buffer |
| Ebml.ReadsWritten | patches/gstreamer/0003-matroskademux-accept-a-large-element-the-file-vouche-repro-1.py:35-36 | A written element is read back with its id, header length and payload length |
| Ebml.ChildrenUndoElements | patches/gstreamer/0007-matroskademux-fetch-Tracks-that-follow-the-Clusters-repro-1.py:64-71 | Any list of written elements, anywhere in a buffer, is read back as exactly those elements at exactly their offsets |
| Tiling.HeaderMoves | patches/gstreamer/0007-matroskademux-fetch-Tracks-that-follow-the-Clusters-repro-1.py:44-71 | A header reads the same wherever its bytes stand |
| Tiling.TiledIsListed | patches/gstreamer/0007-matroskademux-fetch-Tracks-that-follow-the-Clusters-repro-1.py:64-71 | Elements that fill a range one after the other are what the generator lists |
| Tiling.ListedIsTiled | patches/gstreamer/0007-matroskademux-fetch-Tracks-that-follow-the-Clusters-repro-1.py:64-71 | And what it lists fills the range when the last element ends at its end |
| SeekHead.ScanSeek | patches/gstreamer/0007-matroskademux-fetch-Tracks-that-follow-the-Clusters-repro-1.py:111-116 | The inner loop keeps the last id and the last position of a Seek |
| SeekHead.LastIsLast | patches/gstreamer/0007-matroskademux-fetch-Tracks-that-follow-the-Clusters-repro-1.py:111-116 | The element kept is the one after which no other has the id |
| SeekHead.Correct | patches/gstreamer/0007-matroskademux-fetch-Tracks-that-follow-the-Clusters-repro-1.py:108-124 | The loop body rewrites one Seek's 8-byte position, or fails |
| SeekHead.RewriteSeekHead | patches/gstreamer/0007-matroskademux-fetch-Tracks-that-follow-the-Clusters-repro-1.py:108-124 | The outer loop walks the buffer it is rewriting, resuming after each entry |
| SeekHead.RewriteSucceeds | patches/gstreamer/0007-matroskademux-fetch-Tracks-that-follow-the-Clusters-repro-1.py:104-124 | The loop fails exactly when some position, once moved, needs more than 64 bits |
| SeekHead.RewriteUpdates | patches/gstreamer/0007-matroskademux-fetch-Tracks-that-follow-the-Clusters-repro-1.py:104-124 | Although it walks what it rewrites, every entry is visited once, every position moved exactly once, and nothing outside the positions' own range changes |
| Fixture.NextOf | patches/gstreamer/0007-matroskademux-fetch-Tracks-that-follow-the-Clusters-repro-1.py:82-83 | The first element of an id, reading no further |
| Fixture.BuildFixture | patches/gstreamer/0007-matroskademux-fetch-Tracks-that-follow-the-Clusters-repro-1.py:80-125 | The whole rewriting, every step in the order of the script, failing where the script raises |
| Fixture.FixtureNeeds | patches/gstreamer/0007-matroskademux-fetch-Tracks-that-follow-the-Clusters-repro-1.py:80-104 | It fails without a Segment, Tracks, a Cluster or a SeekHead, or with fewer than nine bytes of Tracks |
| Relocation.VoidReads | patches/gstreamer/0007-matroskademux-fetch-Tracks-that-follow-the-Clusters-repro-1.py:74-77 | A Void of the size asked for is read back as exactly that |
| Relocation.FixtureSucceeds | patches/gstreamer/0007-matroskademux-fetch-Tracks-that-follow-the-Clusters-repro-1.py:80-125 | On a file with its Segment at the end, an 8-byte size that stays below 2^56, Tracks and SeekHead before the first Cluster, and Seek elements that their own elements fill exactly, the script succeeds exactly when Tracks take at least 9 bytes and every moved 8-byte position still fits in 64 bits |
| Relocation.FixtureParses | patches/gstreamer/0007-matroskademux-fetch-Tracks-that-follow-the-Clusters-repro-1.py:80-125 | The rewritten file parses: the same Segment, with its new size, is found first and its elements are the old ones with the hole, the large Void and the copy of Tracks; the SeekHead keeps its layout |
| Relocation.ElementsKeepTheirBytes | patches/gstreamer/0007-matroskademux-fetch-Tracks-that-follow-the-Clusters-repro-1.py:89-98 | Every element but the SeekHead has all its bytes in its new place |
| Relocation.TracksReported | patches/gstreamer/0007-matroskademux-fetch-Tracks-that-follow-the-Clusters-repro-1.py:92-125 | The position the script returns is that of the copy of Tracks: the last element, with every byte Tracks had, in a file grown by the Void and that copy |
| Relocation.PositionMoved | patches/gstreamer/0007-matroskademux-fetch-Tracks-that-follow-the-Clusters-repro-1.py:104-124 | The exact offset each Seek entry names before and after, with the same id |
| Relocation.PositionsStillName | patches/gstreamer/0007-matroskademux-fetch-Tracks-that-follow-the-Clusters-repro-1.py:104-124 | A corrected position names the element it named before, in its new place, if and only if the entry calls itself Tracks exactly when it names Tracks |
| LyingEntry.LyingFile | patches/gstreamer/0007-matroskademux-fetch-Tracks-that-follow-the-Clusters-repro-1.py:64-71 | Such a file, byte by byte |
| LyingEntry.EntryLeavesItsElement | patches/gstreamer/0007-matroskademux-fetch-Tracks-that-follow-the-Clusters-repro-1.py:104-124 | A failing input: a 52-byte file whose entry calls the SeekHead Tracks is rewritten, and the entry then names the copy of Tracks while its element stays where it was |
| Titles.HasIsRegex | crates/kahawai-core/src/segments.rs:109-126 | Token matching finds exactly the matches of the upstream regex that touch no vertical tab, which `\s` matches and the splitting does not; a title without one is read as the regex reads it |
| Titles.PhraseIsRegex | crates/kahawai-core/src/segments.rs:126-136 | Two adjacent tokens are exactly the matches of the two-word regex, qualified in the same way |
| Titles.KindIsRegex | crates/kahawai-core/src/segments.rs:112-149 | The verdict on a title is the one those expressions give, recap before intro before credits, and none for an end or start marker: without proviso when no vertical tab is left in the trimmed title, else of the matches that touch none |
| Titles.TabHidesTheIntro | crates/kahawai-core/src/segments.rs:109-126 | A failing input: with a vertical tab between two words the regex says intro and the tokens nothing |
| Segments.FindCandidates | crates/kahawai-core/src/segments.rs:152-214 | Exactly the chapters that tell a boundary, in order: the title names the kind, the next chapter (for credits the one before) does not, and from the start to the stated end, else the next start, else the end of the file, cut at a known length, it lasts 15 s to two minutes, or to seven and a half for credits |
| Segments.MineEnds | crates/kahawai-core/src/segments.rs:168-227 | The candidates of a kind begin with its first qualifying chapter and end with its last, and there are none only when none qualifies |
| Segments.FindNamed | crates/kahawai-core/src/segments.rs:152-229 | Boundaries in start order, at most one per kind: of each kind exactly that of the first chapter that tells one in those words, for credits the last, and none only when no chapter does |
| Segments.KeptSpan | crates/kahawai-core/src/segments.rs:152-214 | Every boundary told has start < end, ends within a known duration, and has a length its kind allows |
| Segments.AnswersAgree | crates/kahawai-core/src/segments.rs:167-229 | Those promises leave no freedom: two answers for one chapter list hold the same boundaries |
| Segments.NamedKindMask | crates/kahawai-core/src/segments.rs:233-244 | Bit 1, 2 or 4 is set exactly when some chapter tells a recap, an intro or credits, and no other bit |
| Contiguous.FindContiguous | crates/kahawai-intro/src/chroma.rs:74-99 | The loop computes the specification of the best run of timestamps |
| Contiguous.FoundIsLongest | crates/kahawai-intro/src/chroma.rs:69-99 | What is found is a run with no gap wider than the limit, no run is longer, and of the longest it is the first |
| Contiguous.ContiguousAtShift | crates/kahawai-intro/src/chroma.rs:115-147 | At one alignment the stretch found is equally long in both fingerprints, no shorter than asked, inside both, and the shift apart |
| Detector.SidesComeTogether | crates/kahawai-intro/src/chroma.rs:240-253 | Sorting the two sides apart still picks both from one alignment |
| Detector.OpeningReportable | crates/kahawai-intro/src/season.rs:612-690 | Exactly which openings the search, its cap on the right side, the snap and the refinement of the end can report for a file of a given length, over every season |
| Detector.CreditsReportable | crates/kahawai-intro/src/season.rs:612-690 | Exactly which fingerprinted credits they can report; the maximum, kept on the right side only, rules out none |
| Detector.OpeningCheckAgainstDetector | crates/kahawai-core/src/segments.rs:52-80 | Of what the detector can report the check accepts exactly what is no longer than 122 s; of what it accepts the detector can report all but a start at exactly the snapping distance and an end that would have been moved to the end of the file |
| Detector.CreditsCheckAgainstDetector | crates/kahawai-core/src/segments.rs:52-95 | The check accepts all credits the detector can report; of what it accepts the detector can report all but a start within the snapping distance of its window, one before the middle, an end that would have been moved, and what only a saturated addition lets through |
| Detector.LongOpeningRefused | crates/kahawai-intro/src/season.rs:645-655 | A failing input: a pair whose left opening is snapped to 124.9 s is reported and refused |
| Detector.UnreportedOpeningsAccepted | crates/kahawai-core/src/segments.rs:62-80 | Failing inputs the other way, one of each kind |
| Detector.UnreportedCreditsAccepted | crates/kahawai-core/src/segments.rs:86-92 | And for credits, the largest u64 among them |
| Chapters.PlacePart | crates/kahawai-hub/src/api.rs:4071-4099 | Exactly the chapters that start within the part, or in the last, and within u64 are placed, in order, each at its own start after the part's beginning, under its title, its end moved along and cut at the part's end when another part follows |
| Chapters.GroupChapters | crates/kahawai-hub/src/api.rs:4055-4107 | Starts strictly increase, and the timeline holds exactly, of every part whose earlier lengths are all known and sum to u64, the first chapter at each start, placed at that sum plus its own start |
| Chapters.OffsetIsTotal | crates/kahawai-hub/src/api.rs:4060-4103 | A part is reached exactly when every earlier length is known and their sum fits u64, and starts at exactly that sum |
| Chapters.PartMembers | crates/kahawai-hub/src/api.rs:4071-4099 | A chapter is placed if and only if it is where one of the part's belongs: its start, title and end given outright |
| Chapters.StaysInside | crates/kahawai-hub/src/api.rs:4071-4099 | A chapter of a part with a successor placed starts and ends inside its own part's stretch |
| Chapters.PartsApart | crates/kahawai-hub/src/api.rs:4071-4107 | Chapters of different parts never share a timestamp |
| Chapters.SortedIsStable | crates/kahawai-hub/src/api.rs:4105 | Sorting keeps the first of every timestamp first |
| Chapters.DedupKeepsFirst | crates/kahawai-hub/src/api.rs:4106 | Deduplication keeps exactly the first of every timestamp |
| Chapters.GroupedExactly | crates/kahawai-hub/src/api.rs:4055-4107 | Starts strictly increase, and at every timestamp stands the first chapter its own part placed there, or none if no part placed one |
| Chapters.GroupedFromParts | crates/kahawai-hub/src/api.rs:4055-4107 | The same of the folded, sorted and deduplicated list, in terms of the parts alone |
| EnrollmentDesk.MatchesItsOwnDigits | crates/kahawai-core/src/enroll.rs:19-27 | A typed code matches exactly when, case and dashes aside, it is the first eight digits of the request's own digest |
| EnrollmentDesk.DashesAreFree | crates/kahawai-core/src/enroll.rs:19-27 | A dash may be left out or put anywhere |
| Enrollment.Enrollments.Expire | crates/kahawai-hub/src/enrollment.rs:122-125 | Keeps exactly the requests within their time, in order |
| EnrollmentDesk.ExpiryPicks | crates/kahawai-hub/src/enrollment.rs:122-125 | What is left are, in the same order, exactly the requests whose time is not up |
| Enrollment.Enrollments.Submit | crates/kahawai-hub/src/enrollment.rs:58-83 | Refuses an invalid, repeated or thirty-third request; otherwise appends it |
| EnrollmentDesk.SubmissionSays | crates/kahawai-hub/src/enrollment.rs:58-83 | A request is taken exactly when it is well signed, none of its fingerprint waits and fewer than 32 wait; each refusal has exactly its own reason |
| Enrollment.Enrollments.Position | crates/kahawai-hub/src/enrollment.rs:89-93 | The first pending request the code matches |
| Enrollment.Enrollments.Approve | crates/kahawai-hub/src/enrollment.rs:87-114 | Removes the matched request whether or not signing succeeds; on a mismatch removes the sole request |
| Enrollment.Service.Approve | crates/kahawai-hub/src/enrollment_service.rs:68-97 | Puts the signed certificate aside under its request's fingerprint |
| Enrollment.Service.Status | crates/kahawai-hub/src/enrollment_service.rs:144-176 | Answers approved, waiting or rejected after dropping what has expired |
| EnrollmentRuns.SignedOnlyForItsOwnCode | crates/kahawai-hub/src/enrollment.rs:58-114 | In every run each certificate signed was for a submitted, identified, unexpired request whose own digits were typed; pending fingerprints stay distinct and at most 32 |
| EnrollmentRuns.MismatchSignsNothing | crates/kahawai-hub/src/enrollment.rs:89-108 | A code matching nothing signs nothing and removes a request only when it was the only one |
| EnrollmentRuns.MatchTakesTheOldest | crates/kahawai-hub/src/enrollment.rs:89-114 | A code that matches removes exactly the oldest request it matches |
| EnrollmentRuns.PolledCertificateWasSigned | crates/kahawai-hub/src/enrollment_service.rs:144-176 | A poll is answered with a certificate only if one was signed for that fingerprint within the time limit |
| EnrollmentRuns.CertificateWaits | crates/kahawai-hub/src/enrollment_service.rs:68-97 | Once signed, a certificate answers every poll until the time limit |
| Interleave.Buckets | scripts/kahawai-interleave.py:117-118 | Each bucket is the tightest byte envelope of its second and track, and there is one for each that has a packet |
| Interleave.Rows | scripts/kahawai-interleave.py:34-41 | One row, in order of time, for each second that has packets of both tracks, with the distance between their envelopes |
| Interleave.RowsSayApart | scripts/kahawai-interleave.py:34-41 | A second counts as affected exactly when it has packets of both tracks and one track's packets all end more than the threshold before the other's begin |
| Interleave.Compare | scripts/kahawai-interleave.py:31-63 | The whole comparison of two tracks from their packets: no report exactly when no second has both, else the summary of exactly those rows |
| Interleave.Summarize | scripts/kahawai-interleave.py:45-61 | The run-length loop computes the count, the longest streak and the first three crossings |
| Interleave.LongestIsLongestRun | scripts/kahawai-interleave.py:45-61 | The reported length is that of the longest set of consecutive affected seconds |
| Interleave.ExamplesAreTheFirstRuns | scripts/kahawai-interleave.py:45-61 | The examples start the first three maximal runs of at least the minimum, in order, each with the gap of the second that made it long enough; a run left out comes after three others |
| Interleave.CountIsAffectedSeconds | scripts/kahawai-interleave.py:45-61 | The count is the number of affected seconds |
| Markers.ParseSxxEyy | crates/kahawai-core/src/names.rs:921-940 | A marker's range end, when there is one, exceeds its episode |
| Markers.JoinedParses | crates/kahawai-core/src/names.rs:792-806 | A season and an episode accepted as separate tokens parse, once joined, to exactly the numbers they spell |
| Markers.ValueJoins | crates/kahawai-core/src/names.rs:792-806 | A numeral means what it says: each digit ten times the next |
| Markers.JoinSplitMarker | crates/kahawai-core/src/names.rs:792-806 | The loop joins pairs left to right |
| Markers.JoinPassSettles | crates/kahawai-core/src/names.rs:792-806 | The tokens the parser sees are the joined ones, and the pass has nothing left to do |
| Markers.NoPairLeft | crates/kahawai-core/src/names.rs:792-806 | After the pass no season token stands before an episode token |
| Markers.WordsOfSpaced | crates/kahawai-core/src/names.rs:792-806 | Splitting on white space undoes joining with spaces |
| Markers.TrailingParses | crates/kahawai-core/src/names.rs:875-898 | A marker welded to the end is cut off exactly when it follows an alphanumeric, and then parses to its own digits |
| Markers.SplitTrailingOnce | crates/kahawai-core/src/names.rs:875-898 | The cut is made once |
| EpisodeNumbers.NumRange | crates/kahawai-core/src/names.rs:718-728 | A batch marker increases strictly and stays below 1000 |
| Repairs.GluedMarkerIsFreed | crates/kahawai-core/src/names.rs:763-777 | Where a dash glues a name to a marker, the pass separates the words before it from the words after, and the first word after it that is not mere punctuation is exactly that marker, but for an end, which is lost if and only if the dash before it glues a marker too |
| SeriesNames.GluedMarkerIsRead | crates/kahawai-core/src/names.rs:348-375 | Through all three passes: such a marker is exactly what the parser returns, on the same condition for its end, when nothing before the dash reads as numbers |
| EpisodeNumbers.EveryGuessSpans | crates/kahawai-core/src/names.rs:348-698 | Whatever the name, a guess that carries an end has end > episode, in the series and in the fansub parse |
| EpisodeNumbers.AbsoluteNumberIsNoYear | crates/kahawai-core/src/names.rs:558-606 | Without an explicit E number or designation, an absolute number comes from a token that is not the show's own name, and a lone one is never a year |
| SeriesNames.JoinedPairIsRead | crates/kahawai-core/src/names.rs:348-375 | For every stem, the first season and episode standing as two words, with no marker before them, are exactly what the parser returns, whatever follows |
| SeriesNames.JoinedReads | crates/kahawai-core/src/names.rs:792-806 | Joining lets the parser read the first pair and hides no marker: it reads the joined words as the first pair or marker of the words |
| SeriesNames.WeldKeepsMarker | crates/kahawai-core/src/names.rs:875-898 | Cutting a welded marker off a word that is accepted as it stands leaves its season, episode and end as they were |
| SeriesNames.WeldedMarkerIsRead | crates/kahawai-core/src/names.rs:348-375 | A marker welded to the last word is what the parser returns, with its own digits, when nothing else reads as numbers |
| SeriesNames.SeriesNumbersExactly | crates/kahawai-core/src/names.rs:348-375 | What the parser returns for any stem, said without the two later passes: the first pair or marker among the words, else a welded marker, else compact scene numbering, else nothing |
| EpisodeNumbers.CrossIsRead | crates/kahawai-core/src/names.rs:413-421 | In 1x02 the season stands before the cross and the episode after it, in either case of the x |
| SeriesNames.SceneIsRead | crates/kahawai-core/src/names.rs:831-862 | Compact scene numbering: in a dotted name without spaces or brackets whose last part holds a dash, when nothing else reads as numbers, the first three inner digits not beginning with zero are a season and a two-digit episode |
| SeriesNames.SeparatorsAreSpaces | crates/kahawai-core/src/names.rs:348-358 | A dot or an underscore in a name counts as a space |
| FansubNames.DesignationWins | crates/kahawai-core/src/names.rs:456-512 | The first word such as OVA, NCOP or MOVIE with digits attached, or followed by a number, a range or a Roman numeral, wins over every number in the name: it is that place among the specials (from 100 and 120 on for NCOP and NCED), and no episode for a film |
| FansubNames.ENumberWins | crates/kahawai-core/src/names.rs:558-569 | Without such a word the first E number is the episode |
| FansubNames.LastNumberWins | crates/kahawai-core/src/names.rs:569-606 | Without either the last number past the show's own name is: a range as the last token, else up to four digits that are no year, with a version or a lettered part |
| FansubNames.BareWordIsFirst | crates/kahawai-core/src/names.rs:607-680 | Without any number the first designating word alone answers its first place, and a film nothing |
| FansubNames.NothingIsNoAnswer | crates/kahawai-core/src/names.rs:607-680 | And without any word there is no answer |
| FansubNames.RangeIs | crates/kahawai-core/src/names.rs:718-728 | A batch marker is exactly two short numbers around a dash, the second the greater |
| Artwork.Artwork.RemotePoster | crates/kahawai-hub/src/artwork.rs:358-402 | What is cached is answered; a miss is remembered for an hour; otherwise it is fetched, and an answer is written under its key before it is served; nothing else moves |
| Artwork.Artwork.AtFromOriginal | crates/kahawai-hub/src/artwork.rs:226-261 | A copy that is there is served as it is; otherwise one is made of the original, kept when it can be written, and refused when it must be durable and cannot; nothing else moves |
| Artwork.Artwork.PrefetchRemote | crates/kahawai-hub/src/artwork.rs:323-340 | The original and then every size, stopping at the first error |
| Artwork.PrefetchAnswers | crates/kahawai-hub/src/artwork.rs:323-340 | It says yes exactly when an original is cached or can be and each of the three sizes is there or can be made of it, and no exactly for a poster known or found to be missing |
| Artwork.PrefetchedIsComplete | crates/kahawai-hub/src/artwork.rs:303-340 | A prefetch that says yes leaves the original and every size; they are all non-empty if and only if no file of that key was empty before and the provider's answer was not |
| Artwork.EmptyCopyIsBelieved | crates/kahawai-hub/src/artwork.rs:226-261 | A failing input: over an empty copy it says yes |
| Artwork.Artwork.SweepStaleSizes | crates/kahawai-hub/src/artwork.rs:170-224 | The start-up sweep, in any order of entries and whichever removals fail, takes exactly misses and unfinished writes older than an hour, and copies of a size not in use or without an original |
| Artwork.SweepKeepsComplete | crates/kahawai-hub/src/artwork.rs:170-224 | It never breaks a complete key and, where removals succeed, leaves no copy without its original |
| Artwork.Artwork.PrefetchCollage | crates/kahawai-hub/src/artwork.rs:670-703 | A collage is composed, resized and only then recorded, unless it is recorded already |
| Artwork.CollageAnswers | crates/kahawai-hub/src/artwork.rs:670-703 | It settles exactly when there is nothing to show, or what is there shows it, or the collage can be composed, written and resized |
| Artwork.ServedForCurrentAlbums | crates/kahawai-hub/src/artwork.rs:723-754 | A collage is served if and only if it is complete and the recorded revision is that of its albums as they are now |
| Artwork.CollageCard | crates/kahawai-hub/src/artwork.rs:226-261 | The card served is the new collage's exactly when there was no card before |
| Artwork.FirstCardIsServed | crates/kahawai-hub/src/artwork.rs:635-703 | A failing input: built again after an album changed, a collage is answered with the first card |
| ArtRuns.ReadyIsComplete | crates/kahawai-hub/src/artwork.rs:320-340 | In every run of prefetches, requests, collages, restarts, litter and outside removals, with no empty answers, a prefetch that says yes leaves its key complete |
| ArtRuns.CompleteStays | crates/kahawai-hub/src/artwork.rs:303-318 | And it stays complete until something outside removes one of its files |
| Grants.Store.WriteAccess | crates/kahawai-hub/src/grants.rs:180-240 | The write happens exactly at the expected version, stores exactly the flag and the libraries given under the next version, and reports them; otherwise nothing changes |
| Grants.RestrictedMeansSomethingHidden | crates/kahawai-hub/src/grants.rs:87-114 | The check callers make first holds exactly when some library is hidden |
| Grants.AppliedOnlyOverWhatWasRead | crates/kahawai-hub/src/grants.rs:180-262 | In every run a save applies exactly when the account is what that admin's panel showed, stores exactly what it reports at a higher version, and leaves other accounts alone; otherwise nothing changes |
| Grants.SecondSaveIsRefused | crates/kahawai-hub/src/grants.rs:19-24 | Of two saves made at one version of one account at most one applies |
| Grants.DeletedLibraryIsGone | crates/kahawai-hub/src/api/catalogue.rs:384-420 | Deleting a library takes it off every list, changes nothing else that can be seen, and gives exactly the accounts that listed it a new version |
| Grants.AlwaysHonest | crates/kahawai-hub/src/api/catalogue.rs:394-395 | The invariant over every run, library deletions included: what a panel shows at the stored version is what is stored |
| Queue.WakeIsNotLost | crates/kahawai-hub/src/queue.rs:55-87 | A wake raised once the round's future is made leaves it ready: the coming sleep, even after an error, ends at once with no time passing |
| Queue.NeverSleepsOnNews | crates/kahawai-hub/src/queue.rs:55-87 | In every run the driver never sleeps, after an idle step, on work it was told of and has not looked for |
| Queue.LateFutureLosesAWake | crates/kahawai-hub/src/queue.rs:19-21 | Why the future is made before the step: in the other order a run exists that sleeps to the fallback on announced work |
| Queue.AlwaysSound | crates/kahawai-hub/src/queue.rs:55-87 | The invariant over every run: unless its future is ready, the driver's latest look saw everything any wake has announced; no sleep outlasts its pause |
| Queue.SleepIsBounded | crates/kahawai-hub/src/queue.rs:47-52 | A sleep lasts to the earlier of the next due time and the fallback, none at all when that is past, and two seconds after an error |
| SetupWait.NeverSleepsThroughTheCommit | crates/kahawai-hub/src/auth.rs:338-392 | The waiter returns only after setup, and once the commit has notified it always has a step to take |
| SetupWait.EveryStepCloser | crates/kahawai-hub/src/auth.rs:338-346 | Each such step brings it closer to returning |
| BlockCipher.MapInPlace | crates/kahawai-hub/src/anidb.rs:594-618 | The in-place loop over chunks enciphers every block |
| BlockCipher.Padded | crates/kahawai-hub/src/anidb.rs:593-603 | One to sixteen bytes are added to fill whole blocks, each of them their number |
| BlockCipher.DecryptUndoesEncrypt | crates/kahawai-hub/src/anidb.rs:594-618 | Decryption undoes encryption for every message over any invertible block cipher; the ciphertext is whole blocks |
| BlockCipher.RefusedExactly | crates/kahawai-hub/src/anidb.rs:606-617 | What decryption refuses: a length that is not whole blocks, or a last block whose last byte, deciphered alone, is outside 1 to 16 |

## Left out

- AnidbPacing: f64 rounding in the bucket, `Duration` overflow and waits cancelled by a
  disconnection; a late sleep is modelled, a cancelled one is not.
- AnidbSession: the load and save of the state file are one step of the method they belong
  to, and errors of the file system are not modelled.
- AuthHub: user names are taken as already trimmed and passwords are compared as values;
  Argon2, JWT signatures and SQLite errors are not modelled.
- Throttle: the u32 count of failures does not wrap, and the lock around the map is one
  step per call.
- Backup: databases that are not files, the final sort of the artifact list by path, the copying of live SQLite
  databases and the reading and writing of the manifest's JSON.
- Staging: collected files are keyed by path rather than by its text, which
  `SnapshotPaths.CanonicalText` and `SnapshotPaths.JoinInjective` show to be the same.
- Restore: file modes, symbolic links inside the data directory, and failures other than
  something of the wrong kind in the way; whether a manifest's secret name that is no
  single entry name (one with a slash, say) is a file is a function passed in.
- Fixture: the count of corrected entries that the script prints, and its GStreamer runs;
  `make_mkv_with_attachment`.
- Detector: seconds are whole milliseconds throughout, where the source computes in f64 and
  rounds at the end, and a stretch may start at any of them, not only at a fingerprint
  point; which of several pairs of a season wins; the black-frame detector.
- Titles: titles are ASCII; `trim` and lower-casing of other letters are not modelled.
- Segments: kinds and analyzers are enumerations, so unknown strings are not modelled.
- Chapters: the times of a probed file are natural numbers; only sums are bounded by u64.
- Enrollment: parsing and verifying a certificate request, signing, and the registry row
  recorded after an approval.
- EpisodeNumbers: show titles, years, directories and episode titles; the bracketed groups
  are taken as stripped, and the number of tokens that a show's own name covers is a
  parameter.
- Markers: names are ASCII.
- Interleave: the order of the report's pairs, rounding to MiB, and the probing of files;
  packets are given with their second, track, offset and size.
- Grants: SQL text, the list of existing libraries and the admin panel's own state.
- Queue: the time a step takes is any number of ticks; the runtime's fairness is not
  modelled, only which steps are possible.
- BlockCipher: AES itself; the cipher is any invertible function on blocks.
- Artwork: each call is one step, where the source locks only the fetch of one original;
  image decoding, tile layout, the lease reads of local covers, and which albums donate.
- Range requests, AniDB title index, `normalize_root_path`, movie-name stripping and
  rendition families: smaller or mostly file-system work.
- HTTP routing, gRPC transport, sockets, the catalogue database, sessions and transcoding.
