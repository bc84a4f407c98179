# The UNICORE TSI worker, modelled in Dafny

The target system interface (TSI) is a privileged worker process. It reads requests from a UNICORE/X
server over a control socket, takes on the identity of the user named in each request, runs the
command's handler, replies, and restores its own identity before it reads the next request. File data
travels over a second socket. This project models that worker and proves what holds over all of its
runs.

| file | subject |
|---|---|
| `Startup.dfy`, `Worker.dfy`, `Transcripts.dfy` | a worker from start to end, the main loop, the bracket around a handler, forked session children, and the whole-run transcript |
| `Credentials.dfy`, `BecomeUser.dfy` | Linux credentials and capabilities, switching to a user and back |
| `OsDatabase.dfy`, `CacheView.dfy`, `Staleness.dfy`, `UserCache.dfy` | a user database that changes over time, the cache in front of it, and how old its answers can be |
| `Groups.dfy`, `Served.dfy`, `GroupLookup.dfy`, `Resolution.dfy`, `Mixing.dfy` | group resolution over one database, over a changing one, through the cache; the resulting identity, and when it is of one record |
| `Framing.dfy`, `Connector.dfy`, `Requests.dfy`, `Parameters.dfy`, `Wire.dfy` | request framing, replies, dispatch, identity and parameter lines, and how they read on the wire |
| `FileChunks.dfy`, `Base64.dfy`, `StreamConnector.dfy` | chunked file transfer, base64 blocks (section 4 of RFC 4648) |
| `Ports.dfy`, `Reaper.dfy` | local port allocation, removal of finished children |
| `StatusListing.dfy`, `SlurmStatus.dfy`, `TorqueDetails.dfy`, `AclLookup.dfy` | batch listings, job details, ACL configuration |
| `Text.dfy`, `Numbers.dfy` | strings; decimal numbers as text |

`dafny verify dfyconfig.toml` checks everything.

## How the environment is modelled

- **Kernel.** Credentials are real, effective and saved ids, the group set, and the permitted and
  effective SETUID and SETGID capabilities, with the rules of setresuid(2), setgid(2), setegid(3),
  setgroups(2) and capabilities(7). Every call may also fail for a reason other than permission.
- **Host.** The user database is an arbitrary function of time; the clock never runs backwards and may
  advance between any two steps; any lookup may raise unless the host is declared reliable. A host is
  stable when its database is constant, it is reliable, and `id` prints parsable lists.
- **Handlers.** A handler run is an arbitrary list of written messages, an arbitrary list of new
  children, possibly a look up of a home directory in the cache, and possibly an exception. Handlers do
  not change the process credentials and do not read the control channel, as in the source.
- **Channels.** Control text is buffered in each process and sent when it is flushed, or before; every
  step may fail at any point. Data reads and writes may be partial, but move at least one byte.
- **PAM and fork.** A session opens, is refused, or cannot be constructed; fork may fail. A forked child
  is a copy of process, cache, child list and output buffer that shares only the control channel. Its
  last step, `os._exit`, drops the buffer. A child in which no session object was made ends by an
  exception at `lib/TSI.py:350` instead; the parent does not look at how its child ended.

An answer of the cache is judged from an *origin*: what the cache held at some moment, and when that was.
`Worker.Worker.Run` takes the moment before each turn.

## Where the code deviates from its own description, or needs a premise

- Lenient group mode (`fail_on_invalid_gids` off): a requested group that the user is not a member of is
  logged as skipped but added (`lib/BecomeUser.py:105-114`), as `Groups.LenientAddsForeignGroup` shows on
  a small database. `Groups.LenientGroupsAreOwn` gives the
  exact condition under which the result is still within the user's groups, and
  `Groups.RejectedPrimaryComesBack` shows that a rejected primary group returns as a supplementary one.
- One switch asks the cache several times. If the user's entry expires in between, uid, gid, groups
  and home may come from two records: `Mixing.MixedRecords` is such a run, and `Mixing.OneRecordIsExact`
  shows that a single record is certain, whatever becomes of the database meanwhile, exactly when the
  entry prepared for the uid has not expired in the end.
- Restoring the identity depends on how the process was started: `Credentials.RestoreNeverDenied` shows
  that `restore_id` is granted after every interruption of a switch exactly when the start is `Capable`.
  An effective uid other than 0 together with a real or saved uid of 0 is not
  (`Credentials.HiddenRootIsDenied`).
- `get_file_chunk` reads every piece to the start of its buffer (`lib/IO.py:37-42`).
  `FileChunks.ShortReadsCorrupt`: the reply is right for all file contents exactly when at most one read
  returns data, so regular, unchanging files are the premise of `FileChunks.GetFileChunk`. Several reads
  can even return more than the buffer holds (`FileChunks.ReadsCanExceedBuffer`); the write loop then
  does not end (`FileChunks.WriteRounds`).
- `put_file_chunk` makes no progress on an empty read (`lib/IO.py:89-92`); the premise of
  `FileChunks.PutFileChunk` is that the peer sends the announced bytes. `FileChunks.StoreRounds` shows
  that the loop comes to an end exactly then.
- Torque's `parse_job_details` forgets the first line of an attribute after a wrapped one
  (`torque/BSS.py:154-157`); `TorqueDetails.DetailsAreExact` is the exact condition and
  `TorqueDetails.AdjacentWrappedLoses` the smallest case.
- ACL keys are used as patterns, so a dot matches any character. `AclLookup.OrderMatters`: the answer is
  independent of the order of the configuration exactly when the longest matching keys agree;
  `AclLookup.DotKeysClash` is a configuration for which they do not. The manual describes keys as
  directories (`docs/manual.txt:241-246`), while the code matches string prefixes: a key `/home` also
  covers `/homework` (`AclLookup.HomeCoversHomework`). `AclLookup.DirectoriesAreExact`: for keys without
  dots the answer is that of the longest containing directory, whatever the values, exactly when the
  longest configured prefix ends at a boundary of the path.
- In a status listing an unrecognised state outranks all others (`lib/BSSCommon.py:222`).
- A port range from 0 on is silently ignored (`lib/Server.py:235`). A negative lower bound is accepted,
  but then every connection attempt raises an OverflowError, which `lib/Server.py:250` does not catch; so
  does an attempt beyond port 65535. `Ports.RaisesAreExact`: on a network without other errors an accepted
  range never raises exactly when it starts at 0 or is positive and ends at 65535 or below.
- The reply to a file transfer command holds a terminator line of its own (`lib/IO.py:45`, `lib/IO.py:86`);
  `Transcripts.LengthReplyHoldsTerminator`, `Transcripts.PeerCountsTurns` and `Transcripts.PeerRecoversReplies` say what the peer then sees.

## Model

| member | source | states |
|---|---|---|
| Startup.RunFrom | lib/TSI.py:314-396 | from the credentials of the start and the configuration alone: if user switching is configured or the start is root, every handler that runs is safe under the user of its request, spawning commands and only these go to a session child when sessions are configured, and after every other handled request all ids are those of the start and the environment is harmless; otherwise the credentials never change |
| Worker.Worker.Run | lib/TSI.py:370-396 | over every input and every host: one turn per complete message, in order, on exactly its text; the turns follow each other without a gap; every handler that runs is safe as seen from the moment before its turn; every completed turn is undone; restoring is never denied; if no write fails the output is the concatenation of the turns' replies; the end of input stops the worker |
| Worker.SafeIdsWereHeld | lib/BecomeUser.py:123-199 | what safe means on a changing host: the uid is the user's in a record looked up during the turn, or cached before it under an unexpired stamp; no id is negative; with enforcement the database held the primary gid as the user's own, and in strict mode every group |
| Worker.LiveChildrenStay | lib/TSI.py:370-386 | over a whole run no child that keeps running is dropped or moved: restricted to such processes the list is that of the start followed by the children of the turns, in order |
| Worker.Worker.Serve | lib/TSI.py:373-393 | one turn: dispatch, reply, terminator line, and the process neutral again (or untouched when nothing switched) |
| Worker.Worker.HandleFunction | lib/TSI.py:314-352 | nothing is buffered when a child is forked, nor when it comes to its end and drops its buffer, so that with or without a child the reply is the same function of what happened; refused requests are refused alike; a forked request leaves the parent's credentials, cache and child list unchanged |
| Worker.Worker.RunRequest | lib/TSI.py:328-348 | whatever raises inside the try block, the request ends with one failure line, an empty buffer, and neutral credentials and environment |
| Worker.Worker.SwitchUser | lib/TSI.py:329-341 | when it succeeds the handler starts as the user named in the identity line, never as root or an unknown user, with exactly the ids resolved since the call began; when it fails the way back is still open |
| Wire.SafeIsAsRequested | lib/TSI.py:329-341 | a safe handler runs for the user and the list of groups written on the identity line, in their order; in strict mode its gid is that of the first |
| Transcripts.StartsReady | lib/BecomeUser.py:8-36 | a capable start satisfies the loop invariant |
| Transcripts.FailureIsOneLine | lib/Connector.py:23-30 | a failure report is a single line whatever the exception's text |
| Transcripts.BodyIsLines | lib/TSI.py:386-393 | the terminator always stands on a line of its own |
| Wire.OutcomeIsTold | lib/Connector.py:23-38 | the peer tells success from failure by the first line and finds the text behind it |
| Transcripts.PeerCountsTurns | lib/TSI.py:370-396 | messages the peer receives: one per turn plus one per terminator line written by handlers |
| Transcripts.PeerRecoversReplies | lib/TSI.py:370-396 | the peer reads back exactly the replies if and only if no handler writes a terminator line |
| Wire.AnnouncementIsRead | lib/IO.py:45 | the peer reads the number of bytes of a chunk on the second of three lines |
| Transcripts.LengthReplyHoldsTerminator | lib/IO.py:45 | the announcement of every file chunk holds a terminator line |
| Transcripts.FileChunkIsNotRecovered | lib/IO.py:45 | so that a run with one is not read back |
| Credentials.RestorableIsExact | lib/BecomeUser.py:208-212 | exactly the credentials from which restore_id is granted, and that it then ends neutral |
| Credentials.EveryStageIsRestorable | lib/BecomeUser.py:179-182 | after any number of calls of a switch the way back is open |
| Credentials.RestoreNeverDenied | lib/BecomeUser.py:202-212 | restoring after every interruption of every switch is granted if and only if the start is capable; it ends neutral and capable |
| Credentials.HiddenRootIsDenied | lib/BecomeUser.py:208 | a start that is not capable, from which restoring is denied |
| Credentials.GroupsFirstIsDenied | lib/BecomeUser.py:209-212 | restoring the groups before the uid would be denied |
| Credentials.SavedUidIsNeeded | lib/BecomeUser.py:182 | giving up the saved uid would make the switch irreversible |
| BecomeUser.CompleteSwitchRunsAs | lib/BecomeUser.py:184-192 | the read-backs after a complete switch cannot fail |
| BecomeUser.SwitchIds | lib/BecomeUser.py:179-182 | the credentials are those of the switch after the calls that succeeded; success takes ids none of which is negative |
| BecomeUser.ResolveIds | lib/BecomeUser.py:150-170 | over any host uid and groups are answers served since the call began, and if all queries are answered a refusal is for an unknown user, root, or in strict mode a rejected name; over a stable host ids or exception are a function of database, policy and request |
| Resolution.ResolvedIsExact | lib/BecomeUser.py:150-170 | that function: refused if and only if the user is unknown or root, or strict mode meets an invalid name in a request not led by NONE; else exactly these ids |
| BecomeUser.Become | lib/BecomeUser.py:123-199 | on success the process runs with exactly the ids, groups and home resolved since the call began; on failure it is an interrupted switch |
| Resolution.ResolvedSinceOrigin | lib/BecomeUser.py:150-199 | over any host: the uid was the user's in a recent record, and groups and home are answers of the span |
| Resolution.IdsWereHeld | lib/BecomeUser.py:41-170 | over any host: with enforcement the primary gid, and in strict mode every gid, was the user's own in the database at an instant no older than the time to live allows, or is -1 because the user was missing in the span |
| Resolution.OneRecord | lib/BecomeUser.py:150-195 | an entry that has not expired in the end makes uid, home and the default gids those of a single record |
| Mixing.OneRecordIsExact | lib/BecomeUser.py:150-195 | for every request and policy, whatever becomes of the database after the uid was answered, the identity is of one record if and only if the entry prepared for the uid has not expired in the end |
| Mixing.MixedRecords | lib/BecomeUser.py:150-195 | a run in which one switch takes the uid from one record and gid, groups and home from another |
| BecomeUser.RestoreId | lib/BecomeUser.py:202-216 | ends neutral, and is not refused from restorable credentials |
| UserCache.UserCache.UpdateUserInfo | lib/UserCache.py:129-145 | the cache with one fresh record of the user and exactly the gids that the system listed and the default gid, or with the user absent; an exception leaves no stamp; nothing else changes |
| OsDatabase.GidsAreExact | lib/UserCache.py:99-112 | the group list: with id exactly the printed gids and the default gid, nothing if id fails; without id exactly the default gid and those of the groups that name the user |
| OsDatabase.FindGroupIsFirst | lib/UserCache.py:117-125 | a name stands for the first group so named |
| UserCache.UserCache.UpdateGroupInfo | lib/UserCache.py:117-125 | the same for a group |
| UserCache.UserCache.PrepareUsers | lib/UserCache.py:26-31 | serves an unexpired entry, a record looked up during the call, or an absence found during the call |
| UserCache.UserCache.GetUid | lib/UserCache.py:72-78 | the cached uid of a user so served; an exception leaves the entry to be refreshed |
| UserCache.UserCache.GetGids | lib/UserCache.py:45-51 | the cached group list of a user so served, exactly what the system listed and the default gid |
| UserCache.UserCache.GetGroupGid | lib/UserCache.py:54-60 | the cached gid of a group so served |
| Staleness.BoundedStaleness | lib/UserCache.py:26-83 | uid, gid, home and exactly the listed groups were in the database, looked up since the origin or before a stamp that had not expired there; unknown users are never served from the cache |
| Staleness.BoundedGroupStaleness | lib/UserCache.py:33-60 | the same for the gid of a group |
| Staleness.PreparedFollows | lib/UserCache.py:26-31 | every getter call in a series answers from the entry of the origin as long as that has not expired, and otherwise from data looked up since |
| CacheView.ServedUntilExpired | lib/UserCache.py:26-42 | within the time to live an entry is served as it is, afterwards it is looked up again |
| CacheView.RefreshKeepsTruth | lib/UserCache.py:129-145 | refreshing one user keeps all cached facts true and all other entries as they are |
| CacheView.GroupRefreshKeepsTruth | lib/UserCache.py:117-125 | the same for a group |
| Groups.PrimaryGroupIsExact | lib/BecomeUser.py:51-77 | refused if and only if strict mode meets an invalid name; else the named group's gid, or the default for DEFAULT_GID or an invalid name |
| Groups.OwnGroupsAreExact | lib/BecomeUser.py:41-48 | a gid passes the membership check of a known user if and only if it is the default gid or the system lists it |
| Groups.SupplementaryGroupsAreExact | lib/BecomeUser.py:80-120 | primary first, no duplicates, exactly the gids the names stand for; refusal exactly in strict mode with an invalid name |
| Groups.RepetitionIsIrrelevant | lib/BecomeUser.py:80-120 | repeated or reordered names change neither set nor refusal |
| Groups.StrictGroupsAreOwn | lib/BecomeUser.py:41-120 | in strict mode every gid is one of the user's own |
| Groups.LenientGroupsAreOwn | lib/BecomeUser.py:105-114 | in lenient mode this holds if and only if every known requested group is the user's |
| Groups.LenientAddsForeignGroup | lib/BecomeUser.py:105-114 | a small database over which it does not hold |
| Groups.RejectedPrimaryComesBack | lib/BecomeUser.py:66-75 | a primary group rejected for want of membership is added as supplementary |
| Served.EnforcedIsOwn | lib/BecomeUser.py:41-120 | over any host: with enforcement the primary gid is one that the cache answered to be the user's own, in strict mode every gid is |
| GroupLookup.GetPrimaryGroup | lib/BecomeUser.py:51-77 | over any host: the named group's gid, accepted, or in lenient mode the default of a rejected one; if all queries are answered it is refused only in strict mode for a rejected name; on a stable host the database's choice |
| GroupLookup.GetSupplementaryGroups | lib/BecomeUser.py:80-120 | over any host: primary first, no duplicates, every gid from a requested name and every requested name covered; if all queries are answered it is refused only in strict mode for a rejected name; on a stable host the database's choice |
| Framing.FramesInvertRender | lib/Connector.py:40-52 | a stream of n terminated messages and a partial tail is cut into exactly these |
| Framing.EveryInputIsFramed | lib/Connector.py:40-52 | every input decomposes that way |
| Framing.StreamDelivers | lib/Connector.py:40-52 | the same on the text of the stream |
| Connector.Connector.ReadMessage | lib/Connector.py:40-52 | returns the next message and leaves what follows its terminator; end of input closes |
| Connector.Connector.WriteMessage | lib/Connector.py:54-59 | what was buffered, the message and a newline reach the channel and nothing stays behind; on a failure a part of that text, in order |
| Connector.ForkAndWrite | lib/TSI.py:322-352 | a message of the child and one of the parent after a fork: both reach the peer, and what was written arrives once and in order if and only if nothing was buffered at the fork |
| Connector.Connector.Failed | lib/Connector.py:23-30 | writes one failure line |
| Requests.FindCommand | lib/TSI.py:381-386 | the first command of the table whose marker occurs |
| Requests.FirstMatchIsFirst | lib/TSI.py:381-386 | that is the earliest entry with a marker in the message, and none if there is no marker |
| Wire.WrittenCommandIsFound | lib/TSI.py:282-311 | every command as a peer writes it is dispatched to its function |
| Requests.SoleMarkerIsFound | lib/TSI.py:381-386 | a request with one marker is dispatched to it, also when its name extends another's |
| Requests.TableIsOrdinary | lib/TSI.py:282-311 | the actual table's names are distinct and free of special characters |
| Requests.IdentityOnLineIs | lib/TSI.py:330-334 | a line's last two words are the identity exactly when the tag precedes them |
| Requests.IdentityOnLineOnly | lib/TSI.py:330-334 | no other line carries an identity |
| Requests.IdentityOfLines | lib/TSI.py:330-334 | a request's identity is that of its first complete line that carries one, and there is none exactly when no line does |
| Requests.WrittenIdentityIsRead | lib/TSI.py:330-334 | a written identity line is read back, the list of groups in order |
| Text.SplitOfJoin | lib/TSI.py:334 | a joined list without separators inside is split into its parts |
| Text.JoinOfSplit | lib/TSI.py:334 | splitting loses nothing |
| Parameters.FirstValueIsEarliest | lib/Utils.py:24 | the search finds a value exactly when a tagged line exists, and then the earliest one's |
| Parameters.TagSelectsKey | lib/Utils.py:24 | a key does not select a line of a longer key |
| Parameters.ExtractAfterRender | lib/Utils.py:19-29 | extraction from rendered settings gives the first value, or the default when it is empty |
| Parameters.LineIsExtracted | lib/Utils.py:19-29 | a parameter line as a peer writes it gives its value |
| FileChunks.GetFileChunk | lib/IO.py:30-55 | announces and then sends exactly the requested slice, for any partial writes; negative arguments send nothing |
| FileChunks.PutFileChunk | lib/IO.py:79-100 | consumes exactly the announced bytes and stores them behind the old content or in its place |
| FileChunks.StoreNext | lib/IO.py:88-100 | one round stores what it read; on an exhausted channel it changes nothing |
| FileChunks.StoreRounds | lib/IO.py:88-100 | the storing loop comes to an end if and only if the announced bytes are sent |
| FileChunks.WriteRounds | lib/IO.py:48-55 | the writing loop comes to an end if and only if the buffer holds the announced bytes |
| FileChunks.CopyInChunks | lib/IO.py:30-100 | fetching and storing chunk after chunk, under any partial reads and writes, reproduces every file for every chunk size |
| FileChunks.TransferCopies | lib/IO.py:30-100 | the slices put one behind the other are the file, whatever the target held before |
| FileChunks.ReadChunk | lib/IO.py:33-42 | the reading loop on a file with short reads leaves the buffer that its read sizes determine |
| FileChunks.ShortReadsCorrupt | lib/IO.py:33-55 | for all read sizes, also those that add up to more than the buffer: the reply is faithful for all contents if and only if at most one read returns data |
| FileChunks.ReadsCanExceedBuffer | lib/IO.py:37-42 | two reads that return more than the buffer holds |
| Base64.DecodeInvertsEncode | lib/Connector.py:195-200 | decoding an encoded payload line gives the bytes back |
| Base64.KnownEncodings | lib/Connector.py:200 | the test vectors of section 10 of RFC 4648 |
| StreamConnector.PayloadIsNotTerminator | lib/Connector.py:160-170 | no payload line can be taken for the terminator |
| StreamConnector.StreamConnector.ReadMessage | lib/Connector.py:160-170 | consumes lines up to the terminator or the end |
| StreamConnector.StreamConnector.WriteData | lib/Connector.py:197-202 | appends the block's three lines |
| StreamConnector.BlocksRoundTrip | lib/Connector.py:189-202 | byte strings written in a row are read back in order, and exactly the rest of the stream is left |
| Ports.SetupIsSound | lib/TSI.py:142-161 | which texts are accepted, that an active range starts with the pointer inside, and that a negative lower bound leaves it below 0 |
| Ports.WrittenRangeIsSetUp | lib/TSI.py:142-161 | a written range is set up with exactly its bounds and the pointer at the lower one, or refused if empty |
| Ports.ServeRange | lib/Server.py:229-258 | from the configuration text on a calm network: the first calls open the free ports of the written range in ascending order, all later ones are exhausted; with no port busy these are all from lower to upper |
| Ports.RangeTextIsExact | lib/TSI.py:150-153 | exactly the texts of two numbers around one colon give bounds |
| Ports.RangeTextIsRead | lib/TSI.py:150-153 | a written range is read back |
| Ports.RaisesAreExact | lib/Server.py:229-258 | an accepted range never raises on a calm network, over all busy ports and positions of the pointer, if and only if it starts at 0 or lies within 1..65535 |
| Ports.UselessRangeNeverConnects | lib/Server.py:241-257 | every accepted range from a negative number on, or beyond 65535, makes a call raise on any network |
| Numbers.IntRoundTrip | lib/TSI.py:152-153 | a written number is read back |
| Ports.AttemptIsCyclic | lib/Server.py:241-255 | attempt i tries the port at offset (p - lower + i) mod N |
| Ports.Allocator.OpenConnection | lib/Server.py:229-258 | tries each port at most once in that order, takes the first free one, which is a valid port, fails as exhausted exactly after trying all, and moves the pointer only on success; on a calm network the outcome is determined, and without a range it is success |
| Ports.RunClaimsAllFree | lib/Server.py:229-258 | over any run the first k calls claim the k free ports in cyclic order, all later ones are exhausted, and the pointer stays in the range |
| Ports.FreePortsAreDistinct | lib/Server.py:229-258 | those ports are distinct and are all the free ones |
| Reaper.Children.Cleanup | lib/BSSCommon.py:25-34 | removal during iteration keeps the live children in order, and over distinct pids is exactly the skipping pass |
| Reaper.SweepHalves | lib/BSSCommon.py:25-34 | a pass leaves at most half of the finished children and all live ones |
| Reaper.SweepOfFinished | lib/BSSCommon.py:25-34 | the bound is reached |
| Reaper.EnoughSweeps | lib/BSSCommon.py:25-34 | k passes with 2^k greater than the number of finished children remove them all |
| Reaper.SweepKeepsDistinct | lib/BSSCommon.py:25-34 | a pass leaves distinct pids distinct |
| Reaper.CleanupRepeatedly | lib/TSI.py:370-371 | k cleanups in a row do the same to the list |
| StatusListing.ParseStatusListing | lib/BSSCommon.py:224-244 | the reply is the header and one line per merged record, in the dictionary's order |
| StatusListing.OrderIsFirstAppearance | lib/BSSCommon.py:226-243 | jobs are reported in the order of their first lines |
| StatusListing.MergeIsMaximum | lib/BSSCommon.py:226-237 | exactly the listed jobs, each with the earliest of its highest-ranked lines |
| StatusListing.MergedStateIs | lib/BSSCommon.py:222-237 | a job is UNKNOWN if a line says so, else RUNNING, else SUSPENDED, else QUEUED, and COMPLETED only if all lines say so |
| StatusListing.ReportLineIsRead | lib/BSSCommon.py:239-243 | the words of a report line are id, state, queue and raw state |
| StatusListing.StatesAreNamed | lib/BSSCommon.py:222 | the states' names, which differ |
| StatusListing.StatesIgnoreOrder | lib/BSSCommon.py:226-237 | the reported states do not depend on order or repetition of lines |
| StatusListing.MergeOfConcat | lib/BSSCommon.py:226-237 | merging a concatenation merges the parts' results |
| SlurmStatus.ExtractFindsBaseId | slurm/BSS.py:187-205 | a line is read back as number, state and queue; an array task counts for its base number |
| SlurmStatus.ConvertStatus | slurm/BSS.py:225-232 | a listed raw state gets the state that lists it if the lists are disjoint, an unlisted one UNKNOWN |
| SlurmStatus.DecodersAreDisjoint | slurm/BSS.py:210-222 | the actual lists are, so that the order of the table is irrelevant |
| SlurmStatus.CommonStates | slurm/BSS.py:210-222 | what the common raw states mean |
| SlurmStatus.ArrayIsOneJob | slurm/BSS.py:187-232 | all tasks of an array give one job with their highest-ranked state |
| TorqueDetails.ParseJobDetails | torque/BSS.py:140-170 | the loop with its two variables computes the specified unfolding |
| TorqueDetails.DetailsAreExact | torque/BSS.py:145-166 | parsing inverts folding if and only if no attribute with continuation text follows a wrapped one |
| TorqueDetails.MeaningIsByKey | torque/BSS.py:162-167 | what the attributes mean: the left side, without the space around it, stores the right side with its continuation lines, and nothing else is stored |
| Text.StripIsExact | torque/BSS.py:165 | stripping takes off all white space at both ends and nothing else |
| TorqueDetails.AdjacentWrappedLoses | torque/BSS.py:154-157 | two wrapped attributes in a row that are not read back |
| AclLookup.CheckSupport | lib/ACL.py:57-75 | the loop computes the specified answer |
| AclLookup.FindBestIsLongest | lib/ACL.py:63-75 | the value is that of a longest matching non-empty key, NONE without one |
| AclLookup.LiteralKeysGiveLongestPrefix | lib/ACL.py:57-75 | for keys without dots the longest configured prefix decides |
| AclLookup.DirectoriesAreExact | lib/ACL.py:57-75 | for keys without dots the answer is that of the longest containing directory under all values if and only if the longest configured prefix ends at a boundary |
| AclLookup.HomeCoversHomework | lib/ACL.py:65 | the key /home decides for /homework |
| AclLookup.OrderMatters | lib/ACL.py:63-75 | independence of the configuration's order if and only if the longest matching keys agree |
| AclLookup.DotKeysClash | lib/ACL.py:65 | two keys for which the order decides |

## Left out

- GroupLookup.GetPrimaryGroup and GroupLookup.GetSupplementaryGroups: over a changing host nothing is said of the text of a refusal, nor on one that leaves a query unanswered of its cause; a look up may raise with any text.
- OsDatabase.GidsFor: reading the numbers out of the text that `id` prints is a datatype case.
- Worker.Worker.RunHandler: handlers are arbitrary; what the single commands do is modelled only for file chunks, status listings, job details and ACL lookup.
- Worker.Worker.Run: changing to the safe directory, undecodable input and closing the sockets are not modelled.
- Worker.Worker.Run: a clean-up asks for all children at one instant; the source asks for one after the other.
- FileChunks.GetFileChunk: files that cannot be sought are not modelled; neither are variable expansion in paths and the mode change after a write.
- Base64.Decode: characters outside the alphabet are skipped as the library does, but a malformed group is an error where the library is more lenient.
- StatusListing.ParseStatusListing and TorqueDetails.ParseJobDetails: start from the list of lines; splitting the raw text into lines is the library's.
- Text.IsSpace: white space outside Latin-1 is not modelled.
- Numbers.ParseInt: digits outside ASCII are not modelled.
- SlurmStatus.IsWordChar: letters outside ASCII are not modelled.
- The accept loop of the main process, TLS, port forwarding threads and rate limiting: socket plumbing and timing.
- Submit script generation, quota, reservation and UFTP: string assembly settled by single branches.
- `convert_dn`, `match_rdn` and `check_access`: a containment test read off directly.
- Directory listings and permission strings; `df`, `getfacl` and `setfacl` output; reading configuration files.
- Slurm's `parse_partitions`: its path for repeated names raises, so there is no summation to prove.
