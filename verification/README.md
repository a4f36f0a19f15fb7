# SecVault: a verified model of the vault client, server and protocol

SecVault keeps a user's password vault on a server that cannot read it. A client edits the
vault locally, seals it, and saves it over SVP, a binary protocol of HMAC-trailed frames; two
clients of one user resolve conflicts by merging. This project models that system in Dafny 4.11
and proves what it is for: no saved entry is lost, versions form one unbroken line, frames and
payloads survive the wire, sessions belong to whoever logged in, and both ends of a connection
stay in step.

`dafny verify dfyconfig.toml` checks everything.

## How the model is laid out

* `Common`, `Primitives`, `LittleEndian`, `ByteIO`: values, cryptographic functions of which only
  the output length is known, the little-endian byte loops, `ByteWriter` and `ByteReader`.
* `Vaults`, `PlainText`: the vault and its merge, in the ordered-dictionary and the hash-map
  form; the plaintext format, its loops, and the sealing around it.
* `FrameCodec`, `Transport`, `Payloads`, `AuthPayload`, `Fragments`: frames, byte streams cut at
  arbitrary places, message payloads, splitting and reassembly.
* `SvpClient`, `SyncLoop`: the client's receive, fetch, put and `do_sync` loops as methods,
  proved equal to the functions the theorems are about.
* `Database`, `ServerSession`, `SessionTheorems`, `UploadRuns`, `Handshake`, `LoginRun`: the
  tables, one connection's state machine as the handler it is (reading off a socket, calling the
  database) and as a step function, whole runs of it, an upload through such a run, and an
  honest login.
* `Provenance`, `VaultRuns`: many such connections sharing the tables.
* `SaveProtocol`, `SaveInvariant`, `SaveTheorems`: any number of clients and handlers saving
  concurrently, as a step relation with a history of committed versions beside the table.
* `Link`, `Lockstep`, `LinkLogin`, `LostFragments`: one honest client and one handler on one
  connection, down to the bytes between them; when that client ends up logged in; and what lost
  fragments do to it.
* `Refinement`: the byte-level handler answers and stores as the handler of the save protocol
  does, and the two models of the client's fetch end alike.

What a program cannot control is a parameter or an arbitrary step: bytes that arrive, clocks,
random nonces and tokens, timeouts, lost connections, and what the tables hold each time a
handler has awaited something. A database call is one atomic step; any other handler may run
between two of them.

## What the code does that its documents do not say

* `SecVault_etap2.md:232` says a refresh invalidates the old token. It does not:
  `Provenance.TokensAreNeverRevoked`; `Handshake.RefreshAcceptedIff` says exactly when a token
  is accepted.
* `SecVault_etap2.md:233` and `SecVault_etap1.md:316` announce ERR_SESSION_EXPIRED for an expired
  token, and `SecVault_etap2.md:488` ERR_FORBIDDEN for somebody else's vault. The server sends
  AUTH_FAIL and ERR_NOT_FOUND.
* `SecVault_etap2.md:207` announces ERR_TOO_LARGE for a vault above 50 MB. The server closes the
  connection (`Fragments.UploadTooLarge`).
* Merging twice with the same server vault changes nothing whenever, of two server entries with
  one id, the later has the same content or is no older: `Vaults.MergeIdempotent`. That is
  exactly what it takes for server lists that hold an id at most twice
  (`Vaults.MergeIdempotentIff`); `Vaults.RepeatedIdsBreakIdempotence` is a counterexample.
* `_read_frame` (`server-py/server.py:92-104`) takes a header off the stream before it waits for
  the body. When the fragment timeout strikes in between (`server-py/server.py:347-366`), the
  handler goes on, but its next read starts inside a frame. `LostFragments.HeaderLostMidUpload`
  is such a run, `Lockstep.WireIsWhatWasSent` and `Lockstep.TornOnlyByTimeout` say that this is
  the only way to lose the place, and `Lockstep.NeverOutOfStep` that the client still sees
  nothing worse than the end of the connection.
* When fragments time out between two frames, what is left of an upload is taken for a PUT of
  its own. `LostFragments.WrongBlobAcknowledged` is a run in which a client gets an
  acknowledgement although its blob was never stored; `Lockstep.FinishedRequestsAreTrue` says
  that an acknowledged save holds the client's blob if and only if no fragments were dropped.
* A fetch takes over the server's version before it opens the blob (`client-py/svpclient.py:230`,
  `client-py/secvault.py:104-107`). `SaveTheorems.FetchIsSafeIffOpened` says exactly when that is
  harmless, `SaveTheorems.UnopenedRowIsOverwritten` shows what would follow otherwise, and
  `SaveTheorems.FetchedBlobsOpen` that an honest client never meets such a blob.

## Model

| member | source | states |
|---|---|---|
| SaveTheorems.NoLostUpdate | client-py/secvault.py:95-114 | from each committed version to the next, over every run of many clients and handlers, an id disappears only if the committing user removed it, and an entry the user did not touch keeps its content or gives way to a strictly newer one |
| SaveTheorems.IdsNeverShrink | client-py/secvault.py:95-114 | in runs without removals the id set of committed versions never shrinks |
| SaveTheorems.ClientCoversItsBase | client-py/svpclient.py:104-108 | at every moment, also after reconnects that reset the version to 0, lost ACKs, pulls and retries, the local entries are safe to commit on top of the client's base version |
| SaveTheorems.ClientHoldsItsBase | client-py/svpclient.py:104-108 | in runs without removals a client holds every id of its base version |
| SaveTheorems.FetchedBlobsOpen | client-py/svpclient.py:194-232 | every blob a fetching client is handed is a committed version and opens under its key |
| SaveTheorems.FetchIsSafeIffOpened | client-py/secvault.py:104-109 | after a fetch the entries cover the new base if and only if the blob opened or they covered it before |
| SaveTheorems.FetchMerges | client-py/secvault.py:311-322 | in every reachable state, vault data that reaches a pull or a conflict fetch opens and is merged: the local entries advance, the ids become the union of both, and each shared entry is decided by content and updated_at; at login the server's entries are taken over |
| SaveTheorems.FetchEnds | client-py/secvault.py:211-222 | a reply to a login or a pull ends it without another request, takes the version over from vault data only, and leaves the client ready exactly when it is a pull, or there is no vault, or one that opens; in a run always |
| SaveTheorems.EntriesStayOtherwise | client-py/secvault.py:311-322 | no other reply, lost connection, reconnect or act of somebody else changes a client's entries |
| SaveTheorems.ReconnectStartsOver | client-py/svpclient.py:104-120 | a new connection resets the version to 0 and keeps the entries |
| SaveTheorems.SyncGoesOnIff | client-py/secvault.py:95-114 | do_sync fetches after a conflict and only then, puts again after a fetch until the third attempt and only until then, with the merged entries on top of the fetched version |
| SaveTheorems.FailedPull | client-py/svpclient.py:230-232 | a pull of a row that does not open leaves the entries and moves the base version |
| SaveTheorems.SyncOnCurrentRow | server-py/server.py:611-666 | a sync whose base is the row's version replaces the row by exactly the local vault at the next version |
| SaveTheorems.UnopenedRowIsOverwritten | client-py/secvault.py:95-114 | the two steps above in a row overwrite a row the client never saw |
| SaveTheorems.UpsertIsCas | server-py/database.py:184-201 | each upsert of a handler, interleaved with others, has the answer and effect of one atomic compare-and-swap on that vault and touches no other |
| SaveTheorems.ReadDecidesOnlyFailures | server-py/server.py:611-636 | the read and comparison before it answer only PUTs that the compare-and-swap would refuse at that moment |
| SaveTheorems.OthersLeaveVaultsAlone | server-py/server.py:540-578 | nothing else changes a vault or acknowledges a PUT |
| SaveTheorems.RowIsLastVersion | server-py/database.py:150-164 | the row of a vault is the last of its committed versions, with their owner and number |
| SaveTheorems.VersionsAreConsecutive | server-py/server.py:638-666 | committed versions are 1, 2, ..., n under one owner, each with a base one less and an acknowledgement |
| SaveTheorems.AckIsUnique | server-py/server.py:657-666 | no two acknowledgements name the same version of a vault |
| SaveTheorems.HistoryOnlyGrows | server-py/database.py:186-195 | no run rewrites a committed version |
| SaveTheorems.SyncGivesUpOnlyAfterTwoOthers | client-py/secvault.py:95-114 | do_sync returns False only after at least two commits that followed its first conflict fetch, none of them its own |
| SaveTheorems.SyncSavesExactlyTheLocalVault | client-py/secvault.py:99-102 | when do_sync returns True, the version it reports holds exactly the local vault, with every id it started from |
| SaveTheorems.SyncReturnsItsLocalVault | client-py/secvault.py:100-102 | the entries recorded as saved are those the client has when the call returns |
| SaveTheorems.RetryFailsOnlyToOthers | client-py/secvault.py:103-111 | a retry is refused only if somebody else committed after the latest conflict fetch |
| SaveTheorems.WaitingClientIsServed | client-py/svpclient.py:60-82 | at most one request is under way, a waiting client has a step that serves it or a dead handler, and a reply fits the latest request |
| SaveInvariant.StepInv | server-py/server.py:609-666 | every action of every client, handler or failure keeps the invariant behind these theorems |
| SaveInvariant.MergePreserves | client-py/vault.py:111-128 | a merge makes the local vault safe to commit on top of the merged version and moves no entry back |
| SyncLoop.Syncer.DoSync | client-py/secvault.py:95-114 | the retry loop, against any replies, leaves the vault, version, return value and requests of the reply-driven machine of the save protocol |
| SyncLoop.Syncer.Attempt | client-py/secvault.py:98-113 | one attempt is a PUT and the handling of its answer |
| SyncLoop.Syncer.TakeFetched | client-py/secvault.py:106-111 | a conflict fetch merges into the local vault, or raises |
| SyncLoop.DriveIsReceive | client-py/secvault.py:95-114 | each step of that machine is the Receive action of the save protocol |
| Vaults.MergeAlgebra | client-py/vault.py:111-128 | ids are the union; a shared id keeps the local entry or takes the server's by content and updated_at, the server on ties; a result that differs from the server's is strictly newer |
| Vaults.MergeOrder | client-py/vault.py:114-127 | order is local ids where each first appears, then server-only ids where each first appears; unique local ids keep their places |
| Vaults.MergeIdempotent | client-py/vault.py:111-128 | merging again with the same server changes nothing, for every local vault, whenever of two server entries with one id the later has the same content or is no older |
| Vaults.MergeIdempotentIff | client-py/vault.py:111-128 | for server lists that hold an id at most twice, that condition is also necessary |
| Vaults.UniqueIsInOrder | client-py/vault.py:111-128 | unique server ids meet that condition |
| Vaults.RepeatedIdsBreakIdempotence | client-py/vault.py:111-128 | a concrete pair of vaults with a repeated server id for which a second merge changes the result |
| Vaults.ConflictsUnique | client-py/vault.py:120-124 | with unique server ids the conflict list names exactly the shared entries that differ |
| Vaults.Vault.MergeFrom | client-py/vault.py:111-128 | the loop over the ordered dictionary leaves the merge and returns the conflict list |
| Vaults.HashVault.MergeFrom | client/src/vault.cpp:113-138 | the loop over the hash map leaves the same id-to-entry map, appends the same conflicts and returns their number |
| Vaults.HashVault.Drain | client/src/vault.cpp:135-136 | emptying the map, in whatever order, yields each entry once |
| Vaults.HashMergeAgrees | client/src/vault.cpp:113-138 | the two merges compute the same map for every input, repeated ids included |
| Vaults.UniqueListsAgree | client/src/vault.cpp:113-138 | so their entry lists are permutations of each other |
| Vaults.Vault.Add | client-py/vault.py:31-35 | an entry is appended and nothing else changes |
| Vaults.Vault.FindByService | client-py/vault.py:37-41 | the first entry of that service, or none |
| Vaults.Vault.FindById | client-py/vault.py:43-47 | the first entry with that id, or none |
| Vaults.Vault.Find | client-py/vault.py:49-50 | the first match by service or, when there is none, the first by id |
| Vaults.Vault.Remove | client-py/vault.py:52-57 | true if and only if some entry has that id or that service; then the first such entry is cut out, and nothing else changes |
| Database.DatabaseManager.UpdateVault | server-py/database.py:166-201 | the conditional upsert writes if and only if there is no row, or one of the same owner exactly one version behind; a negative version, or a new row for a user that does not exist, is an error; otherwise the table is unchanged |
| Database.DatabaseManager.CreateSession | server-py/database.py:117-132 | a row is inserted unless its token is taken or its user does not exist, and no other changes |
| ServerSession.Handler.Read | server-py/server.py:346-366 | the read of one round: a whole frame, a timeout that takes nothing, a timeout that takes the header of a frame, or the end; and what it leaves on the stream |
| ServerSession.NextReadIsServerRead | server-py/server.py:92-104 | decoding what such a read takes is reading a frame off the stream |
| ServerSession.Handler.Handle | server-py/server.py:321-673 | one round of the loop, against a database that others change while it awaits, leaves the state, frames and table of the step function that the connection theorems are about |
| ServerSession.Handler.Establish | server-py/server.py:470-494 | an authenticated user gets a session row, AUTH_OK and the new key, unless the token is taken |
| ServerSession.Handler.Verify | server-py/server.py:411-457 | the nested credential checks accept exactly a valid challenge-response with TOTP where demanded, or a valid refresh |
| ServerSession.Handler.HandleAuth | server-py/server.py:395-501 | AUTH ends in AUTH_OK with a new row and key, AUTH_FAIL and the end, or the end |
| ServerSession.Handler.HandleHello | server-py/server.py:376-393 | HELLO is answered with a CHALLENGE that fixes the nonces, or refused |
| ServerSession.Handler.HandleEstablished | server-py/server.py:503-671 | dispatch in ESTABLISHED, refusing anything but a PUT while fragments are pending |
| ServerSession.Handler.HandlePut | server-py/server.py:580-607 | one PUT frame through the fragment buffer |
| ServerSession.Handler.HandleMessage | server-py/server.py:609-667 | a complete PUT: read, compare, upsert, answer |
| ServerSession.Handler.HandleGet | server-py/server.py:540-578 | a GET answered with the row in as many frames as it needs, or NOT_FOUND |
| SessionTheorems.RunCoherent | server-py/server.py:304-343 | for every list of events: buffer present exactly when its start time is, only in ESTABLISHED, never above the limit; nonces, key and user absent before and present in the states that need them |
| SessionTheorems.OutboundNumbersAndKeys | server-py/server.py:311-328 | all frames of a connection are numbered 0, 1, 2, ...; the first two are CHALLENGE and AUTH_OK or AUTH_FAIL under the dummy key, all later ones under the key derived from the token in that AUTH_OK |
| SessionTheorems.BufferIsFragments | server-py/server.py:330-366 | the buffer is the in-order concatenation of the PUT fragments since it was opened, opened by the first of them at its arrival time |
| SessionTheorems.ProcessedIsOneMessage | server-py/server.py:580-609 | every processed PUT is one whole frame, which leaves the buffer alone, or exactly one such concatenation, which empties it |
| SessionTheorems.NoFragmentTwice | server-py/server.py:586-605 | fragments received before a buffer was emptied are never part of a later message |
| SessionTheorems.WakeDropsExactlyOldFragments | server-py/server.py:330-349 | the check before a read drops a fragment buffer if and only if it is 30 seconds old or older, and changes nothing else |
| SessionTheorems.TimeoutEndsUnlessFragments | server-py/server.py:346-373 | a read that times out drops a buffer whose time is up and goes on; otherwise it ends the session without an answer |
| SessionTheorems.BadFrameEndsSession | server-py/server.py:323-328 | a frame that does not decode under the session's key ends the session, unanswered and without effect |
| SessionTheorems.OversizeEndsSession | server-py/server.py:92-104 | so does a header that announces more than the limit, whatever deadline passes after it |
| SessionTheorems.EstablishedGoesOnIff | server-py/server.py:503-671 | in ESTABLISHED the session survives exactly an 8-byte PING, a well-formed GET, a fragment within the limit or a PUT that parses, and only PUTs while fragments are pending; a PING is echoed, a BYE answered before the end, anything else not |
| UploadRuns.UploadThroughSession | server-py/server.py:330-347 | in every run, the frames of a PUT of up to 50 MiB, with any checks younger than the fragment timeout between them, end in exactly that message and its fields; nothing is processed or sent before, and the session goes on without a buffer |
| UploadRuns.UploadPossible | client-py/svpclient.py:234-253 | any run that leaves a session established and without a buffer can go on with any such upload, and takes it in |
| SessionTheorems.StoredIffAcked | server-py/server.py:609-667 | a row is stored if and only if a VAULT_ACK goes out, for the message's vault and the session's user, at its base plus one |
| Handshake.LoginAcceptedIff | server-py/server.py:432-457 | an honest password login succeeds if and only if the user exists, the HMACs agree, a demanded TOTP code is given and valid, and the fresh token is not taken; wrong credentials get AUTH_FAIL, and every failure ends the session without a trace |
| Handshake.RefreshAcceptedIff | server-py/server.py:412-431 | an honest refresh succeeds if and only if the token's row is unexpired, of that user and of the announced client id, and the fresh token is not taken; otherwise as above |
| Handshake.HelloAcceptedIff | server-py/server.py:376-393 | the first frame moves the session on if and only if it is a well-formed HELLO within the clock skew; then both nonces and the client id are kept and the CHALLENGE goes out, else the session ends unanswered |
| LinkLogin.TokenLogsInIff | client-py/svpclient.py:173-192 | a reconnecting client, from HELLO to the answer to its AUTH, byte for byte and for any tables and clocks, ends up logged in as that user at both ends with the same key if and only if its token has an unexpired row of that user and client id (and the fresh token is not taken); otherwise at neither end |
| LinkLogin.PasswordLogsInIff | client-py/svpclient.py:138-160 | the same for a password: if and only if the user exists, the client's key gives the HMAC of the stored one over both nonces and the name, and a demanded TOTP code is given and valid |
| LinkLogin.Playable | client-py/svpclient.py:138-192 | such a run can be had from every fresh connection |
| Provenance.SessionsTraceToLogin | server-py/server.py:412-480 | in every run of many connections each session row has a finite chain of refreshes, with then-unexpired tokens of the same user and client, back to an accepted login |
| Provenance.ConnectionsTraceToLogin | server-py/server.py:470-501 | so has every ESTABLISHED connection for the user it acts for, ending in an act of its own |
| Provenance.TokensAreNeverRevoked | server-py/database.py:117-132 | session rows stay unchanged for the rest of the run, used for a refresh or not |
| LoginRun.HonestLoginYieldsSession | client-py/svpclient.py:138-160 | a client that registers, connects, says HELLO and logs in with its key, and its TOTP code where there is a secret, obtains a session row of its user and client id; so the runs above exist |
| VaultRuns.StoredVersionsAreConsecutive | server-py/server.py:609-666 | over every run of many byte-level connections the versions stored under an id are 1, 2, ..., n of one owner, and the table holds the last |
| VaultRuns.ForeignKeysHold | server-py/database.py:28-54 | in every run each session, vault and connection belongs to an existing user, so the foreign keys refuse nothing |
| Lockstep.LockstepHolds | client-py/svpclient.py:55-108 | in every run of an honest client, a handler and the bytes between them, with timeouts, disconnections and losses, the two are in step as long as no header was lost; after that the client only waits for the end, unless bytes nobody signed pass for a frame |
| Lockstep.TornOnlyByTimeout | server-py/server.py:347-366 | a header is lost if and only if a fragment timeout fell between a header and its body |
| Lockstep.WireIsWhatWasSent | server-py/server.py:92-104 | what a live server has still to read is exactly the frames sent and not read yet if and only if no header was lost |
| Lockstep.ForgedOnlyAfterLoss | server-py/server.py:92-104 | bytes nobody signed can be taken for a frame only after a header was lost |
| LostFragments.HeaderLostMidUpload | server-py/server.py:347-366 | a run of an honest client after which the next read of the server is no frame at all under its key |
| Lockstep.NeverOutOfStep | client-py/svpclient.py:60-82 | the client never meets an unexpected type, a malformed payload or a bad HMAC, also after a lost header, and holds the server's session key once it is ready |
| Lockstep.OnlyExpectedReplies | client-py/svpclient.py:60-82 | a client that waits for one kind of reply goes on only with that kind, under its own key, or an ERROR it knows |
| Lockstep.FramesMeetTheirKeys | server-py/server.py:323-328 | as long as no header was lost, the next read of the server takes a whole frame that was sent, signed with the key it is checked with, also across the switch at AUTH_OK; and so is every reply the client takes |
| Lockstep.WaitingClientIsNotStuck | client-py/svpclient.py:138-160 | a waiting client has a reply to take, a whole request the server can read, a lost header behind it, or a closed connection |
| Lockstep.FinishedRequestsAreTrue | client-py/svpclient.py:194-259 | a finished fetch returns exactly the row the server read; a finished save reports the version stored, which holds the client's blob if and only if no fragments were dropped, and is then the base plus one; a rejected save stored nothing |
| LostFragments.WrongBlobAcknowledged | server-py/server.py:586-609 | a run in which fragments are dropped and the client is told its blob was saved, while an empty vault was stored under another id |
| Refinement.PutRefusedAlike | server-py/server.py:609-636 | a PUT the read refuses gets from the byte-level handler the answer of the save protocol's |
| Refinement.PutDecidedAlike | server-py/server.py:638-666 | and one it lets through the answer and table change of the save protocol's upsert, whatever others did in between |
| Refinement.GetAnsweredAlike | server-py/server.py:540-578 | and a GET the answer of the save protocol's, framed |
| Refinement.FetchAgrees | client-py/svpclient.py:194-232 | the two models of the fetch loop end alike on every list of replies |
| Fragments.FramesOfShape | server-py/server.py:128-166 | n bytes above the limit become ceil(n / 1 MiB) non-empty frames within it, numbered without gap, all FRAGMENTED and only the last LAST_FRAG, whose payloads concatenate to the message |
| Fragments.Writer.SendFragmentedPayload | server-py/server.py:128-166 | the sending loop writes exactly those frames and returns the next number |
| Fragments.UploadLossless | client-py/svpclient.py:234-253 | the frames of a PUT of up to 50 MiB, through the server's buffer, complete exactly one message that parses to exactly (id, base, blob), and leave no buffer |
| Fragments.UploadTooLarge | server-py/server.py:591-597 | the frames of a larger PUT never complete a message |
| SvpClient.DownloadLossless | client-py/svpclient.py:194-232 | the frames sent for a version come out of the fetch as exactly that version and blob, and the loop stops at the last |
| SvpClient.FetchExact | client-py/svpclient.py:194-232 | a fetch returns a vault if and only if the replies begin with one unfragmented VAULT_DATA, or fragments up to the first marked last, whose payloads end to end read as it; no vault if and only if the first reply is ERR_NOT_FOUND; what follows stays unread |
| SvpClient.ReceiveExact | client-py/svpclient.py:69-74 | an ERROR is raised with its code if and only if the code stands alone or before a well-formed text; any other frame passes |
| SvpClient.Client.FetchVault | client-py/svpclient.py:194-232 | the request goes out, the result is what the reply list means, the version changes only on success, and nothing else is sent but the echoes of the PINGs read |
| SvpClient.Client.Gathered | client-py/svpclient.py:210-226 | the collecting loop returns the whole payload and leaves the replies after it, or raises |
| SvpClient.Client.PutVault | client-py/svpclient.py:234-259 | the PUT frames go out in order, then nothing but the echoes of the PINGs read; the version becomes that of the ACK, or the error code is raised, ERR_INTERNAL for an unexpected reply |
| SvpClient.Client.Recv | client-py/svpclient.py:60-74 | the next frame that is not a PING, and no more, is taken; what is sent meanwhile is one PONG for each PING before it, echoing its payload, numbered in order |
| Payloads.PutExact | server-py/server.py:270-283 | the PUT parser accepts exactly the payloads of fields within its limits, and reads those |
| Payloads.DataParses | client-py/svpclient.py:228-231 | VAULT_DATA and VAULT_ACK payloads are read back as version and blob |
| Payloads.DataExact | client-py/svpclient.py:228-231 | the client reads a version and blob from exactly the payloads with 16 bytes, that version and that blob |
| Payloads.HelloParses | server-py/server.py:169-177 | a HELLO within the clock skew is read back |
| Payloads.HelloExact | server-py/server.py:169-177 | the server accepts exactly the payloads of a HELLO within the clock skew, and reads that |
| Payloads.AuthOkParses | client-py/svpclient.py:104-108 | an AUTH_OK is read back |
| Payloads.GetParses | server-py/server.py:264-267 | a VAULT_GET is read back |
| Payloads.GetExact | server-py/server.py:264-267 | and exactly the payloads of a GET |
| AuthPayload.ParseAuthExact | server-py/server.py:180-237 | on every byte string the AUTH parser accepts exactly the written-out forms of some fields and returns those fields |
| AuthPayload.SameParse | server-py/server.py:204-237 | two payloads with the same parse differ only in at most two trailing zero flag bytes |
| AuthPayload.LoginParses | client-py/svpclient.py:144-155 | the parser inverts the login builder, with and without TOTP; only an empty name is refused |
| AuthPayload.RefreshParses | client-py/svpclient.py:176-187 | the parser inverts the refresh builder |
| FrameCodec.CodecIsBijection | server-py/protocol.py:69-150 | a byte string decodes to a frame if and only if the frame carries its own HMAC and encodes to that string |
| FrameCodec.DecodeEncode | server-py/protocol.py:69-150 | decoding an encoded frame gives back its fields |
| FrameCodec.EncodeDecode | server-py/protocol.py:98-150 | every accepted byte string re-encodes to exactly itself |
| FrameCodec.SerializeIsEncode | client-py/framing.py:127-135 | a keyed client frame is byte for byte the server's encoding when reserved flags are clear and the type is known |
| FrameCodec.NoProperPrefix | client-py/framing.py:127-140 | no encoded frame is a proper prefix of another, under any keys |
| FrameCodec.TypeOf | server-py/protocol.py:18-34 | the message codes and types correspond one to one |
| FrameCodec.FlagBits | server-py/protocol.py:37-46 | the flags are single bits and everything else is reserved |
| Transport.ServerReadsStream | server-py/server.py:92-104 | frames written one after the other are read back by the server as the same list, leaving what follows |
| Transport.ClientReadsStream | client-py/transport.py:73-91 | and by the client |
| Transport.ClientReadExact | client-py/transport.py:73-91 | the client accepts a frame, with a key, if and only if the stream begins with that frame's own serialisation under the key, so no tampered byte passes |
| Transport.ServerReadExact | server-py/server.py:92-104 | the same on the server |
| Transport.Socket.ReadExact | client-py/transport.py:53-60 | however the stream is cut into pieces, exactly the next n bytes, or none when it ends |
| Transport.Socket.RecvFrame | client-py/transport.py:73-91 | one frame off the stream, or the error its bytes mean |
| Transport.Socket.ReadFrame | server-py/server.py:92-104 | the same on the server |
| PlainText.RoundTrip | client-py/vault.py:63-92 | a serialised vault followed by anything is read back as the same entries in order |
| PlainText.AcceptedIsSerialized | client-py/vault.py:76-92 | any accepted byte string starts with the re-serialisation of its result |
| PlainText.SerializePlaintext | client-py/vault.py:63-74 | the writing loop produces that format, or the error of the first field that does not fit |
| PlainText.DeserializePlaintext | client/src/vault.cpp:70-88 | the reading loop computes what the bytes mean |
| PlainText.PutEntry | client-py/vault.py:67-73 | six fields in order |
| PlainText.TakeEntry | client-py/vault.py:83-91 | six fields in order, never past the end |
| PlainText.CppTextLawful | client/src/bytes.h:76-82 | raw C++ strings are a lawful text codec, so the theorems hold for that client too |
| PlainText.DecryptUndoesEncrypt | client-py/vault.py:95-108 | opening a sealed vault under the same key gives back its entries |
| PlainText.OnlySealedOpens | client-py/vault.py:101-108 | whatever opens under a key, starts, once opened, with the serialisation of the entries it gives, and was sealed under that key |
| ByteIO.ByteWriter.PutLe | client/src/bytes.h:54-56 | the shift-and-mask loop appends the little-endian bytes |
| ByteIO.ByteReader.GetLe | client/src/bytes.h:92-98 | the shift-and-or loop reads the number they stand for, within bounds |
| ByteIO.ByteReader.Raw | client/src/bytes.h:70-75 | exactly the next n bytes, or an error that leaves the position |
| ByteIO.ByteReader.LpStr | client-py/framing.py:98-105 | a length-prefixed text, or the error its bytes mean |
| ByteIO.ByteWriter.LpStr | client-py/framing.py:39-46 | a length-prefixed text of at most 65535 bytes |
| ByteIO.ReadTextInverse | client-py/framing.py:39-105 | reading undoes writing a text |
| ByteIO.ReadTextExact | client-py/framing.py:98-105 | and whatever is read was written so |
| LittleEndian.FromLEOfLE | client/src/bytes.h:54-98 | the two loops are inverse on numbers that fit |
| LittleEndian.LEOfFromLE | client/src/bytes.h:54-98 | and on byte strings |
| LittleEndian.OrIsPlus | client/src/bytes.h:92-98 | an or with a byte shifted above the accumulator adds it |

## Left out

- TLS, sockets, asyncio, SQLite, logging and certificates: streams are byte sequences cut at arbitrary places, database calls atomic steps, awaits interleaving points. The three awaits of an AUTH may see older tables; rows are only ever inserted.
- The insides of HMAC, HKDF, AES-GCM, TOTP and PBKDF2, constant-time comparison, and randomness: functions with a fixed output length; opening undoes sealing, and what opens was sealed.
- Blobs in the save protocol are sealed values rather than bytes; `PlainText.DecryptUndoesEncrypt` is what justifies opening them under the same user's key.
- The ping inside `ensure_session`: in the save protocol a reconnect is one step that may happen at any time; `Lockstep` has the ping itself.
- Lockstep.NeverOutOfStep: after a lost header the server may take any later stretch of bytes for a frame if its last 32 bytes happen to be the HMAC of the rest; since HMAC is an arbitrary function here, this and the results about a run after such a loss speak of runs in which that does not happen (`NothingForged`, which holds of every run without a lost header).
- In the save protocol a PUT arrives whole, and every frame as it was sent; what fragment timeouts do to an upload is the subject of `Lockstep` and `LostFragments`.
- Vaults.MergeIdempotent: for server lists that hold an id three times or more the condition is sufficient only; entries of the same content in between can make up for a violation.
- Frame numbers from 2^32 and versions from 2^64 on, which the packing refuses: `Link` considers connections and rows below them.
- NULL columns of the vault and session tables, which the server never writes; changes to a user row after registration.
- Entries are values: the Python client's sharing of entry objects between two vaults, of which one is discarded, is not modelled.
- The C++ writer's silent truncation of an entry count above 2^32; the model refuses it as the Python writer does.
- The cache file, offline mode, prompts, printing, argument parsing and the self-test.
- Registration (`client-py/svpclient.py:162-171`), which the server does not implement.
- The C++ network client and its stub server, which use other codes and widths.
- Inbound sequence numbers, rate limiting, VAULT_SYNC and compression, which the documents describe and the code lacks.
