# IronLink: verified model of the messaging backend and its client

IronLink is a messaging service: a FastAPI backend over Redis, PostgreSQL and MinIO, and a Flutter
client. This project models the parts of it that carry state over time and proves what they keep.
`dafny verify dfyconfig.toml` checks everything.

Two styles are used side by side. Where several replicas or handlers interleave, a module holds a
state machine whose steps are single Redis commands, object-store calls, commits or relayed frames,
and theorems quantify over every sequence of steps, crashes and clock ticks included. Where one
object updates its own fields, a class has those fields and its methods are proved against the
functions the state machines are made of.

| area | modules |
|---|---|
| Chunked resumable upload | `Slicing`, `UploadState`, `UploadRuns`, `UploadAlone`, `Storage`, `MediaServer`, `MediaClient` |
| Message lifecycle and self-destruct sweep | `Messages`, `SelfDestruct`, `Retention`, `RetentionCalls`, `Orphans`, `SweepRaces`, `OrphanRaces`, `SweepAlone`, `SweepTells`, `SweepProgress` |
| One-time codes and rate limits | `WindowCounter`, `RateLimit`, `Completion`, `Stalls`, `Lockout`, `Otp`, `OneUse`, `Login`, `AuthService` |
| Presence and frames | `Presence`, `Heartbeats`, `FrameProtocol`, `FrameRouting`, `FrameRuns` |
| Client chat screen | `ChatReducer`, `ChatTimeline`, `ChatBloc`, `ChatEndToEnd` |
| Queries and joining | `Ordering`, `History`, `PageCuts`, `Conversations`, `Groups`, `GroupService` |
| Keyword alerts | `Splitting`, `Keywords` |

## What the proofs found

- A resuming client cuts the file with C' = ceil(N/n) instead of the server's C = 5 MiB. A resume
  succeeds exactly if N > n(C-1), or everything received so far is of one cut and nothing of the other
  is needed. Otherwise the upload is turned down with a size mismatch, the staged chunks are deleted,
  the Redis state still counts them as received, and every later resume fails the same way
  (`MediaClient.Upload`). A file one byte longer than a chunk, interrupted and resumed, already ends so
  (`MediaClient.InterruptAndResume`). The length check itself is exact: no mixture of the two cuts is ever
  stored as a wrong file.
- Unsend clears the media pointer and leaves the object. Under every interleaving of a sweep with
  other sessions, a destructed message with a media name of its own has left its object behind if
  and only if it was unsent while the object was stored and no sweep that had read its media name
  before took the object since (`OrphanRaces.LeftBehindExactly`); with one-step sweeps, if and only if
  it was unsent while the object was stored (`Orphans.OrphanedExactly`). The audit field `had_media` is read after the pointer has been cleared and
  is always false (part of `Retention.AuditsMatch`). `destruct_at` is fixed at send, so the read-time
  branch never fires on a saved row.
- With 500 or more messages whose media cannot be removed, a sweep may make no progress
  (`SweepProgress.StarvationIsPossible`).
- The hourly bounds 9 and 39 count a code at its INCR. Dated by when the handler finishes, they hold
  exactly if no handler stalls at all between counting and granting: a stall of one second already
  makes ten and forty (`Stalls.HourlyBoundsExactly`). With stalls of at most d seconds the most codes
  granted within an hour is limit (a+1), and limit - 1 more unless 3600 divides d + 3599, where a is
  the quotient of d + 3599 by 3600; no run exceeds it and some run attains it (`Stalls.MostInAnHour`;
  how long a handler waits before it counts does not matter).
  Without a limit on stalls there is none (`Stalls.StallsBreakEveryBound`).
- A crash between INCR and EXPIRE leaves a counter without a TTL. A phone or address is refused for
  ever exactly when its counter has no TTL and has reached the limit, and no handler is about to set
  one (`Lockout.RefusedForEverExactly`); one crash and as many requests as the limit bring it about
  (`Lockout.CrashLocks`).
- A code is deleted after it has been compared. Two verifications that both fetch it first are both
  told yes (`Otp.UsedTwice`). That happens exactly when one fetches a code that another has in hand,
  if none of them dies with it (`OneUse.UsedTwiceExactly`); one request at a time it cannot
  (`Login.EachCodeOnce`).
- README_Sprint2.md:100-103 says silent sockets leave the registry in 90 s. Nothing removes them
  from `ws:user` or `ws:online`, whatever the user's other sockets do (`Presence.SilentSocketsStay`).
- A register that lands between another handler's SCARD and SREM leaves a connected user shown
  offline (`Presence.OvertakingHides`); exactly that SREM does it (`Presence.ShownExactly`).
- The client changes message objects that the previous state lists too, so both states compute
  the same `_rev` and a receipt or unsend is not emitted as a new state (`ChatBloc.ChatBloc.HandleFrame`,
  `ChatBloc.ChatBloc.OnUnsent`). An ack rebuilds the record: a tombstone on a pending bubble survives only
  until the ack, unless an unsend of the acked id follows it (`ChatReducer.TombstoneExactly`).
- References of pending bubbles start again in every chat room, on one socket. A bubble takes its
  own row's id exactly if no other ack with its reference arrives first (`FrameProtocol.OwnIdExactly`),
  and in `FrameRuns.WrongBubble` the bubble sent as "B" takes the id of the row that says "A".
- The recipient can have a message from the history before the sender has its ack, and read it.
  The receipt then precedes the ack, whose rebuild erases it: the bubble stays at "sent"
  (`FrameRuns.EarlyReceiptIsLost`). The tick is the join of all receipts exactly if none before the ack
  reports more than those after it do (`FrameProtocol.ReceiptsKeptExactly`).
- The owner can decide one join request twice by two calls at once: approved and then rejected, its
  user is a member who can neither ask again nor be decided on (`Groups.DecisionsRace`,
  `Groups.RaceFromStart`).
- Messages with equal times can be lost between two history pages. A walk with pages of a given size
  is complete exactly if no group of equal times reaches over a multiple of that size
  (`PageCuts.WalkIsHistoryExactly`).
- Keywords are stripped and put in lower case when a user sets them, but not normalized. What is set
  can raise an alert exactly if one entry is then letters, digits and single spaces
  (`Keywords.UsableEntriesMatch`).

Two more places where code and surroundings disagree: the client sends frames named `read` and
`delivered` (frontend/lib/core/ws_service.dart:96-100) while the server accepts `message_read` and
`message_delivered` (app/api/routes/websocket.py:191), and the frames of `FrameProtocol` are the server's;
`media.py` uses `normalize_text` and `logger` without importing them, so `_process_ocr` as it stands
raises NameError, and `Keywords.ProcessOcr` models what its lines say once they are imported.

## Model

| member | source | states |
|---|---|---|
| Slicing.ResumeCut | frontend/lib/core/media_service.dart:52-83 | The fresh cut C and the resume cut C' = ceil(N/n) both have n non-empty slices, C' <= C, and they coincide iff N > n(C-1). |
| Slicing.SliceLength | frontend/lib/core/media_service.dart:79-83 | Every slice of a cut starts inside the file, is non-empty and at most C bytes, so no chunk request is refused for its size. |
| Slicing.JoinUniform | app/services/storage_service.py:96-107 | The slices of one cut, joined in order, are the file. |
| Slicing.MixedLengthExact | app/api/routes/media.py:184-187 | For any mixture of slices of the two cuts the assembled length equals N iff the bytes are the file, iff the mixture is uniform in one of the cuts. |
| Slicing.ResumeExact | frontend/lib/core/media_service.dart:52-83 | With some chunk received before and some not, the resumed upload has the right length, and is the file, iff N > n(C-1). |
| Slicing.ResumeOutcome | frontend/lib/core/media_service.dart:52-83 | All resumes: right length iff the cuts agree, or all or none had been received; and then the bytes are the file. |
| Slicing.ChunkCountBound | app/api/routes/media.py:107 | An allowed size gives between 1 and 10 chunks. |
| UploadRuns.RunKeepsInv | app/api/routes/media.py:125-211 | Every interleaving of chunk uploads, completions, crashes and time keeps the bookkeeping invariant of one upload's keys and staged objects. |
| UploadRuns.ReceivedIsStaged | app/api/routes/media.py:132-164 | Until a completion starts deleting, every received index lies in [0, n) and is staged, across crashes between write and mark; received and missing partition [0, n). |
| UploadRuns.NoMarkIsLost | app/api/routes/media.py:109-144 | While the state key lives, no index ever marked has been lost to expiry. |
| UploadRuns.OnlyTheFileIsStored | app/api/routes/media.py:184-209 | Whatever fresh and resuming clients of one file do, in any interleaving, only that file is ever stored. |
| UploadRuns.FreshNeverMismatches | app/api/routes/media.py:184-187 | If all chunks are cut with C, in any order with any retries, no completion reports a size mismatch. |
| UploadRuns.ReadsSucceed | app/services/storage_service.py:96-107 | A completion that found nothing missing cannot fail on a read before some deletion starts. |
| Storage.AssembledIsJoin | app/services/storage_service.py:96-107 | Assembling succeeds iff all n staged objects exist, and gives their join. |
| Storage.StorageService.PutObject | app/services/storage_service.py:72-94 | Stores one object and changes no other. |
| Storage.StorageService.AssembleStaging | app/services/storage_service.py:96-107 | The loop returns the join of the staged chunks, or fails iff one is missing. |
| Storage.StorageService.DeleteObject | app/services/storage_service.py:115-121 | A missing object is no error; any other failure raises, and may or may not have removed the object. |
| Storage.StorageService.DeleteStaging | app/services/storage_service.py:109-113 | Removes exactly the staged chunks; or stops at the first removal that raises, with those before it gone, those after it left, and that one gone only if its removal took effect. |
| MediaServer.MediaServer.UploadInit | app/api/routes/media.py:88-122 | Size, file-name and type checks; an accepted upload starts with n = ceil(N/C), nothing received, and a state key that lives 24 h. |
| MediaServer.MediaServer.UploadChunk | app/api/routes/media.py:125-144 | 404 unless this user began the upload and it is alive, 400, 413 in source order, with nothing changed; an accepted chunk is written to its own object and no other, and the keys end as the interleaved handler leaves them alone, after however many of its three calls. |
| MediaServer.MediaServer.UploadStatus | app/api/routes/media.py:147-164 | 404 iff the upload is not alive or was begun by another user; else the received chunks, and as missing exactly the other ones. |
| MediaServer.ProcessImage | app/api/routes/media.py:245-274 | The stored image is never longer than the uploaded one: it is the uploaded one if that is at most 512 KiB, cannot be decoded or gets no shorter, and the new encoding otherwise; a thumbnail iff it decodes. |
| MediaServer.MediaServer.UploadComplete | app/api/routes/media.py:167-228 | Every outcome with its whole effect: 404 iff not this user's live upload, 409 iff a chunk is missing; a mime that is no image stores the joined chunks themselves, an image those or its shorter encoding, with a thumbnail iff it decodes; the size told is that of what is stored. The mismatch branch deletes staging and keeps the Redis state; a deletion may stop halfway. Without a failing deletion it ends as the interleaved handler does alone. |
| UploadAlone.ThreeCalls | app/api/routes/media.py:142-144 | The interleaved chunk handler run alone makes exactly the writes PUT, SADD, EXPIRE. |
| UploadAlone.ChunkAloneExactly | app/api/routes/media.py:125-144 | That handler alone, for the user of a live upload, an index in range and between 1 byte and 5 MiB of data: the chunk is staged, then counted as received, then the set renewed for 24 h, as far as the calls go. Otherwise nothing changes. |
| UploadAlone.CompletesAlone | app/api/routes/media.py:167-211 | The interleaved completion handler run alone: with nothing missing it stores exactly the joined chunks and drops the keys, or, if their length is wrong, stores nothing; either way the chunks are deleted. |
| MediaClient.PartsFit | frontend/lib/core/media_service.dart:79-100 | Chunks of either cut, completed by a client, have the file's length iff the resume condition holds, and then are the file. |
| MediaClient.FitsAfterFresh | frontend/lib/core/media_service.dart:52-83 | After fresh chunks only, the resume condition reads: all or none received, or N > n(C-1). |
| MediaClient.InterruptedIsResumable | app/api/routes/media.py:125-164 | However fresh and resuming clients of one file are interleaved and interrupted, a live upload that no completion has begun to delete satisfies what the resume theorem asks. |
| MediaClient.InterruptedFresh | app/api/routes/media.py:125-164 | Interrupted fresh clients leave only slices of the fresh cut. |
| MediaClient.SendChunks | frontend/lib/core/media_service.dart:79-95 | The loop, up to where it may be interrupted, skips received chunks and leaves each other one staged with its slice. |
| MediaClient.Complete | frontend/lib/core/media_service.dart:97-107 | With nothing missing, completing stores the data iff its length is right - byte for byte unless it is an image - and otherwise leaves the upload stuck. |
| MediaClient.Interrupt | frontend/lib/core/media_service.dart:64-95 | A fresh upload broken off after some chunks is resumable, with exactly those chunks received. |
| MediaClient.Upload | frontend/lib/core/media_service.dart:38-108 | End to end: a fresh upload stores the file, byte for byte unless it is an image; a resume, over any mixture left by earlier clients, does iff the resume condition holds and is otherwise stuck; a stuck upload fails again and changes nothing. |
| MediaClient.InterruptAndResume | frontend/lib/core/media_service.dart:38-108 | Interrupted with some chunks sent and some not, then resumed: it succeeds iff N > n(C-1), and then the file is stored, byte for byte unless it is an image; a file of C+1 bytes is turned down. |
| Messages.MessageStore.SaveMessage | app/services/message_service.py:19-53 | A row is saved iff it has a recipient or a group but not both: the draft's fields, SENT, delivered at the time of the call, its destruction due that much later if it has a timer. |
| Messages.MessageStore.MarkDelivered | app/services/message_service.py:56-79 | Only sender and recipient, or members of the group; the first delivery time is kept. |
| Messages.MessageStore.MarkRead | app/services/message_service.py:82-112 | Only sender and recipient, or members of the group; READ with the time of the call, once. |
| Messages.MessageStore.Unsend | app/services/message_service.py:115-143 | Succeeds iff the caller is the sender and the row is at most 300 seconds old; then text and media pointers go, the row is marked, and status and timer stay. |
| SelfDestruct.SelfDestructWorker.SweepMessage | app/services/self_destruct_worker.py:77-113 | The loop body: if removing the media raises, nothing changes but perhaps the object; else the row is wiped, one audit row added, and the recipient, if any, and then the sender are told. No other object goes. |
| SelfDestruct.SelfDestructWorker.SweepBatch | app/services/self_destruct_worker.py:77-113 | The loop equals the fold of its body over the batch, and tells the recipient and the sender of each message removed once, recipient first, and nobody else of anything. |
| SelfDestruct.SelfDestructWorker.BreakOff | app/services/self_destruct_worker.py:77-113 | An exception from a publish: that message's object is gone, and of the frames for its recipient and sender only the first are out. |
| SelfDestruct.SelfDestructWorker.SweepOnce | app/services/self_destruct_worker.py:58-117 | Rows and audits change only on commit; removed objects and published frames survive a rollback, wherever it happens. A sweep that commits tells each party of each message wiped once and nobody else; one that breaks off tells the first of those. |
| SelfDestruct.PassTells | app/services/self_destruct_worker.py:77-113 | After any number of messages: the frames published are those to the recipient and sender of every message whose removal did not raise, each once, recipient right before sender, and no others. |
| SelfDestruct.BrokenTells | app/services/self_destruct_worker.py:77-113 | A sweep that breaks off has published those of the messages before, and a prefix of those of the next. |
| Retention.RunKeepsInv | app/services/message_service.py:19-143 | In every run of saves, receipts, unsends and one-step sweeps: an unsent or destructed row is blank; READ iff `read_at`, with `delivered_at` <= `read_at`; `destruct_at` follows from the timer at send; committed audit rows and destructed rows match one for one; a destructed row that was not unsent leaves no object. |
| Retention.RowsOnlyMoveOn | app/services/message_service.py:56-143 | Between any two moments of a run no row goes, parties, times and timer stay, and blanking, READ and tombstones are for ever. |
| RetentionCalls.Perform | app/services/message_service.py:19-143 | Every step of such a run is the corresponding call of the message store, the object store or the sweep worker: after it the objects hold the next state. |
| SweepRaces.RacesKeepInv | app/services/self_destruct_worker.py:58-117 | The same under every interleaving of other sessions with a sweep's query, its removals, and its commit or rollback. |
| SweepRaces.RacingRowsOnlyMoveOn | app/services/self_destruct_worker.py:58-117 | Rows move on only, under every such interleaving. |
| SweepRaces.ForgottenForGood | app/services/self_destruct_worker.py:77-95 | Under every interleaving an object that no row and no open sweep points to stays for good. |
| OrphanRaces.LeftBehindExactly | app/services/self_destruct_worker.py:66-115 | Under every interleaving, a destructed message with a media name of its own has left its object behind iff it was unsent while the object was stored and no sweep that had read the name before took it since. |
| SweepAlone.AloneIsSweep | app/services/self_destruct_worker.py:66-115 | A sweep that nothing interleaves with is the one-step sweep. |
| SweepTells.RacesTell | app/services/self_destruct_worker.py:66-115 | Under every interleaving of other sessions, an open sweep has told exactly the parties of the messages it has wiped, and the parties of every destructed message have been told of it. |
| SweepTells.BreakOffTold | app/services/self_destruct_worker.py:77-115 | Under those interleavings, a sweep that breaks off in a message has told a prefix of what it would have. |
| Retention.WipedExactly | app/services/self_destruct_worker.py:77-97 | In a sweep exactly the batch rows whose media could be removed are wiped; the others are untouched. |
| Retention.ClearedPointersHaveNoObject | app/services/self_destruct_worker.py:78-95 | A committed sweep never clears a pointer whose object is still stored, whatever the store does. |
| Retention.RetryAfterRollback | app/services/self_destruct_worker.py:48-56 | After a rollback at any point rows and audits are as before, and a re-run wipes the whole batch although objects are already gone. |
| Retention.UnsendOrphansMedia | app/services/message_service.py:138-143 | A run in which unsend leaves an object that no sweep removes. |
| Orphans.OrphansStay | app/services/self_destruct_worker.py:77-95 | No step removes an object that no row points to, as long as no message is saved with its name. |
| Orphans.UnsendOrphans | app/services/message_service.py:138-143 | A message unsent while its object is stored, the name being mentioned nowhere else, leaves the object in every continuation. |
| Orphans.OrphanedExactly | app/services/message_service.py:115-143 | With one-step sweeps, a destructed message with a media name of its own has left its object behind iff it was unsent while the object was stored. |
| SweepProgress.SweepWipesEnough | app/services/self_destruct_worker.py:66-107 | Whichever rows LIMIT picks, a sweep wipes at least min(W, 500 - F) of the W wipeable rows, F of the expired ones failing. |
| SweepProgress.SweepsFinish | app/services/self_destruct_worker.py:66-107 | Rounds enough for W at 500 - F each leave nothing wipeable: every message that is due and whose media the store would remove is destructed. |
| SweepProgress.CeilSweepsFinish | app/services/self_destruct_worker.py:66-107 | With F < 500 and nothing newly expiring, ceil(W / (500 - F)) sweeps destruct every message that is due and whose media the store would remove. |
| SweepProgress.StarvationIsPossible | app/services/self_destruct_worker.py:66-75 | With F >= 500 some answer of the query makes the sweep change no row. |
| WindowCounter.WindowBound | app/api/routes/auth.py:57-62 | A counter whose windows open at the first INCR shows at most limit (m+1) - 1 counts up to the limit in any m windows' time. |
| WindowCounter.SpanBound | app/api/routes/auth.py:57-62 | In any span of L seconds it shows at most limit (a+1) such counts, and limit - 1 more unless 3600 divides L - 1, with a the quotient of L - 1 by 3600. |
| RateLimit.RunKeepsInv | app/api/routes/auth.py:44-71 | Every interleaving of limiter requests keeps each counter explained by its log of INCRs, and each grant by two INCRs of its own. |
| RateLimit.GrantBound | app/api/routes/auth.py:44-71 | Any m hours see at most limit (m+1) - 1 grants per phone or address, under every interleaving. |
| RateLimit.HourlyBounds | app/api/routes/auth.py:44-71 | Any half-open hour: at most 9 codes per phone and 39 per address. |
| Completion.ExcessWasCarriedIn | app/api/routes/auth.py:57-71 | Dated by completion, what any span sees beyond the most its windows leave room for was counted before it; so 9 and 39 hold when nothing is carried in. |
| Completion.CompletionBound | app/api/routes/auth.py:57-71 | Dated by completion, with stalls of at most d seconds, no span sees more grants than one that is d seconds longer has room for counts. |
| Stalls.Attained | app/api/routes/auth.py:44-71 | For every d, phone and address, a run with stalls of at most d seconds that grants as many within an hour. |
| Stalls.MostInAnHour | app/api/routes/auth.py:44-71 | Dated by completion, m bounds the codes of an hour in every run with stalls of at most d seconds iff m is no less than that maximum. |
| Stalls.HourlyBoundsExactly | app/api/routes/auth.py:44-71 | Nine per phone and thirty-nine per address, dated by completion, hold in every run with stalls of at most d seconds iff d = 0. |
| Stalls.StallsBreakEveryBound | app/api/routes/auth.py:57-71 | Without a bound on stalls there is none: for every k and every phone or address some run grants it k codes within a second. |
| Lockout.RefusedForEverExactly | app/api/routes/auth.py:57-68 | After any run, no continuation grants a code counted in it to the phone or address iff its counter is at the limit without a TTL and no handler is about to set one. |
| Lockout.CrashLocks | app/api/routes/auth.py:57-62 | A run with one crash between INCR and EXPIRE that ends so, for every phone and address. |
| RateLimit.ServedIsLimit | app/api/routes/auth.py:44-71 | A request nothing interleaves with does what the sequential limiter says. |
| Otp.ComparisonBound | app/services/otp_service.py:33-64 | Under every interleaving a code is compared at most 5 times plus the verifications past INCR but not past GET when it was issued. |
| Otp.AnswersAreRight | app/services/otp_service.py:42-64 | Under every interleaving a verification answers yes iff it fetched a code and that code is the one submitted. |
| Otp.UsedTwice | app/services/otp_service.py:56-63 | A run in which one code is answered yes twice. |
| OneUse.UsedTwiceExactly | app/services/otp_service.py:56-63 | Under every interleaving a code is answered yes twice only if a verification fetched it while another had fetched and not yet deleted it; and exactly then, if none died with a code in hand and all have finished. |
| Otp.VerifiedIsVerify | app/services/otp_service.py:42-64 | A verification nothing interleaves with does what the sequential function says, down to its answer. |
| Otp.VerifyExactly | app/services/otp_service.py:42-64 | Alone, yes iff the code is alive, is the one submitted, and fewer than five attempts have been counted; then it is gone. Otherwise it stays unless the attempts were used up, and the count is one more. |
| Login.GrantsIssue | app/api/routes/auth.py:74-91 | With sequential handlers a code is issued iff the limiter grants the request, for this user's phone, while the account is active. |
| Login.GuessesCompare | app/services/otp_service.py:42-64 | With sequential handlers a guess is compared iff a code is alive and fewer than five attempts are counted. |
| Login.ComparisonsPerIssue | app/services/otp_service.py:33-64 | Comparisons in a span are at most 5 per issue in it, and 5 more for a code carried in. |
| Login.FiftyGuessesAnHour | app/api/routes/auth.py:74-117 | With sequential handlers, at most 50 comparisons against one user's codes in any hour. |
| Login.EachCodeOnce | app/services/otp_service.py:42-64 | With sequential handlers each code is answered yes at most once. |
| Login.MinuteApart | app/api/routes/auth.py:50-71 | With sequential handlers two codes granted to one phone are at least 60 seconds apart. |
| AuthService.AuthService.CountRequest | app/api/routes/auth.py:57-62 | The count alive is one more, in the window it had; the first count opens a window of an hour; no other key changes. |
| AuthService.AuthService.RateLimitOtp | app/api/routes/auth.py:44-71 | Granted iff the phone is not cooling down and fewer than 5 requests of the phone and 20 of the address are counted; else 429. A request refused by the cooldown counts nothing, any other counts once for both; a grant starts a cooldown of a minute. |
| AuthService.AuthService.RequestOtp | app/api/routes/auth.py:74-91 | The answer is the limiter's and does not depend on whether the number belongs to a user; a code that lives 300 s is issued iff it does, is active, and was not refused. |
| AuthService.AuthService.Issue | app/services/otp_service.py:33-40 | Replaces the user's code by one that lives 300 s and forgets the attempts, as the step of the interleaved model; no other user's. |
| AuthService.AuthService.Verify | app/services/otp_service.py:42-64 | Yes iff the user's code is alive and the one submitted and fewer than five attempts are counted; then code and count go. Otherwise the count is one more, and the code goes iff the attempts were used up. No other user's keys change. |
| Presence.OnlineIsExplained | app/services/ws_manager.py:37-69 | Under every interleaving an online user without connections has an unfinished unregister. |
| Presence.OnlineIsConnected | app/services/ws_manager.py:37-69 | If no register lands between SCARD = 0 and SREM, connected users are online, and online is exactly connected when nothing is in flight. |
| Presence.HiddenExactly | app/services/ws_manager.py:66-69 | One step hides a connected user iff it is the SREM of an overtaken unregister; any register shows the user again. |
| Presence.ShownExactly | app/services/ws_manager.py:37-69 | Over whole runs: connected users are always shown iff no SREM falls on a connected user. |
| Presence.ConnectedExactly | app/services/ws_manager.py:37-69 | In every run a user has a connection iff it was registered and has not been unregistered since. |
| Presence.OvertakingHides | app/services/ws_manager.py:66-69 | A run that ends with a connected user shown offline. |
| Presence.SilentSocketsStay | app/services/ws_manager.py:37-69 | A connection nobody unregisters stays in the registry for ever, whatever the user's other sockets do; its user stays online unless an SREM was already due when it was registered. |
| Heartbeats.KeyLivesExactly | app/services/ws_manager.py:37-69 | In every run a connection's own key is alive iff the connection was registered, has not been unregistered since, and has at every moment since registered or beaten less than 90 s before. |
| Presence.ConnectionManager.Register | app/services/ws_manager.py:37-53 | One pipeline: a key for 90 s, the connection added to the user's, the user online; alone it keeps online equal to connected. |
| Presence.ConnectionManager.Heartbeat | app/services/ws_manager.py:55-56 | Renews a live connection key for 90 s, and nothing else. |
| Presence.ConnectionManager.Unregister | app/services/ws_manager.py:58-69 | The three round trips alone take the user offline iff this was the last connection. |
| Presence.ConnectionManager.OnlineCount | app/services/ws_manager.py:71-72 | When the registry is valid, the number of users who have a connection. |
| Presence.ConnectionManager.IsOnline | app/services/ws_manager.py:74-75 | Membership in `ws:online`; when the registry is valid, having a connection. |
| FrameProtocol.RunKeepsInv | app/api/routes/websocket.py:134-224 | Every interleaving of senders, receipt and unsend handlers, relays, lost frames, history fetches and closing sockets keeps queues, streams and handlers consistent with the committed rows. |
| FrameProtocol.FramesAreCommitted | app/api/routes/websocket.py:140-187 | Every ack or `message` frame on a socket names a committed row and tells its sender, content and time; an ack goes only to the socket the message came from. |
| FrameRouting.FramesReachTheirUsers | app/api/routes/websocket.py:134-224 | In every run a `message` frame is on a socket of its row's recipient, a receipt on one of its sender, an unsend on one of either, an ack on the socket the message came from. |
| FrameRouting.SendSaves | app/api/routes/websocket.py:140-167 | A text is committed with its sender, addressee, content and reference; no other row changes, and its ack is next. |
| FrameRouting.AckGoesToOrigin | app/api/routes/websocket.py:169-175 | The ack is written to the socket the message came from and to no other; the publish is next. |
| FrameRouting.MessageGoesToRecipient | app/api/routes/websocket.py:177-187 | The publish puts exactly the row's frame at the end of the queue of every open socket of the recipient; no other queue changes. |
| FrameRouting.ReceiptGoesToSender | app/api/routes/websocket.py:191-205 | A receipt of a party who has been told of the message reaches every open socket of the sender, and nobody else; any other changes nothing. |
| FrameRouting.UnsendGoesToBoth | app/api/routes/websocket.py:207-224 | An unsend reaches every open socket of the recipient, then of the sender. |
| FrameRouting.RelayMovesFirst | app/api/routes/websocket.py:44-56 | The relay moves the oldest waiting frame of one socket to the end of its stream. |
| FrameProtocol.AckBeforeReceipt | app/api/routes/websocket.py:169-205 | On the sending socket's stream the ack comes before any receipt for that id, unless the history told somebody of the row before it was acked. |
| FrameProtocol.ReceiptsKeptExactly | frontend/lib/features/chat/bloc/chat_bloc.dart:297-518 | End to end: in every run, for a bubble listed at any moment and once acked, the tick is the join of all receipts for its id on the whole stream iff none before the ack reports more than those after it; and so it is whenever the history did not tell of the row before the ack. |
| FrameProtocol.OwnIdExactly | frontend/lib/features/chat/bloc/chat_bloc.dart:435-450 | A bubble takes its own row's id iff no other ack with its reference reaches the socket before its own. |
| FrameRuns.WrongBubble | frontend/lib/features/chat/bloc/chat_bloc.dart:316-450 | A run in which the bubble sent as "B" takes the id of the row that says "A". |
| FrameRuns.EarlyReceiptIsLost | frontend/lib/features/chat/bloc/chat_bloc.dart:297-518 | A run in which a message is reported read before it is acked and its bubble stays at "sent". |
| ChatReducer.JoinedIsMax | frontend/lib/features/chat/bloc/chat_bloc.dart:485-518 | The join bounds the start and all reported ticks and is one of them. |
| ChatReducer.OrderDoesNotMatter | frontend/lib/features/chat/bloc/chat_bloc.dart:485-518 | Lists of receipts that report the same ticks, in any order and number, join alike. |
| ChatReducer.TickIsJoin | frontend/lib/features/chat/bloc/chat_bloc.dart:432-534 | After any frames an acked message keeps its place and id, and its tick is the join of all receipts for it. |
| ChatReducer.UnsendCommutes | frontend/lib/features/chat/bloc/chat_bloc.dart:485-534 | A receipt and an unsend commute. |
| ChatReducer.TombstoneStays | frontend/lib/features/chat/bloc/chat_bloc.dart:526-533 | No list of frames undoes the tombstone of an acked message. |
| ChatReducer.AckForgetsTombstone | frontend/lib/features/chat/bloc/chat_bloc.dart:440-446 | An ack drops a tombstone and a tick put on the pending bubble. |
| ChatReducer.BubbleNamed | frontend/lib/features/chat/bloc/chat_bloc.dart:435-450 | After any frames a bubble has the id named by the first ack with its reference. |
| ChatReducer.TombstoneExactly | frontend/lib/features/chat/bloc/chat_bloc.dart:435-533 | After any frames a pending bubble is a tombstone iff it was one and no ack has named it, or an unsend of its acked id followed the ack; content once gone stays gone. |
| ChatReducer.RevRises | frontend/lib/features/chat/bloc/chat_bloc.dart:237-238 | Over value snapshots every frame but an ack that changes the list raises the length or `_rev`. |
| ChatReducer.AckLowersRev | frontend/lib/features/chat/bloc/chat_bloc.dart:237-450 | An ack that renames a pending bubble lowers `_rev`, so it is noticed as well. |
| ChatReducer.ThreeEffectiveFrames | frontend/lib/features/chat/bloc/chat_bloc.dart:485-534 | At most three frames ever change an acked message. |
| ChatTimeline.BubbleFollows | frontend/lib/features/chat/bloc/chat_bloc.dart:435-533 | A bubble takes the id and time of the first ack with its reference, is the user's own and no longer pending, and keeps its content; from then on it is a stored message. |
| ChatTimeline.StoredExactly | frontend/lib/features/chat/bloc/chat_bloc.dart:432-534 | After any frames a stored message is what it was, except that its tick is the join of the receipts for it, and that it is an empty tombstone iff it was one or an unsend of its id has come. |
| ChatTimeline.AddedExactly | frontend/lib/features/chat/bloc/chat_bloc.dart:452-480 | After any frames the list has grown by one message for each `message` frame of the peer, in their order, each with the frame's id, sender, content and time, as later frames leave it; and by nothing else. |
| ChatEndToEnd.PeerMessagesAreRows | frontend/lib/features/chat/bloc/chat_bloc.dart:452-534 | End to end: in every run, on the frames of a socket from any moment on, the messages added are the peer's rows to the socket's owner, one for each `message` frame and in their order, each with the committed sender, content and time until an unsend of its id. |
| ChatEndToEnd.AckedBubbleIsOwn | frontend/lib/features/chat/bloc/chat_bloc.dart:435-450 | End to end: an acked bubble has the id and time of a row that the user sent from this socket, and keeps what was typed until an unsend of that id. |
| ChatBloc.ChatMessage.Update | frontend/lib/features/chat/bloc/chat_bloc.dart:485-533 | The in-place change equals the value reducer: the tick rises to what a receipt for this message tells and never falls, an unsend of it empties it, and nothing else changes. |
| ChatBloc.ChatBloc.OnTextSent | frontend/lib/features/chat/bloc/chat_bloc.dart:316-358 | Appends a pending bubble with the next reference, keeps the other objects, and is emitted. |
| ChatBloc.ChatBloc.OnUnsent | frontend/lib/features/chat/bloc/chat_bloc.dart:421-430 | Tombstones every listed object with that id in place, and no other; emitted only if an error message is cleared by the way. |
| ChatBloc.ChatBloc.OnAck | frontend/lib/features/chat/bloc/chat_bloc.dart:435-450 | The rebuilt list has a new object for the acked bubble, the user's own with its content and the time of the ack, and the same unchanged objects elsewhere; it equals the value reducer. |
| ChatBloc.ChatBloc.HandleFrame | frontend/lib/features/chat/bloc/chat_bloc.dart:432-535 | The objects' values follow the value reducer; a message of the peer is added at the end as its frame tells it, and nothing else lengthens the list; messages and acks of a pending bubble are emitted; receipts and unsends keep the objects, and are emitted only if an error message is cleared by the way. |
| Ordering.OrderDesc | app/api/routes/chats.py:82-83 | The newest keys up to the limit, newest first; equal times in any order. |
| History.ChatQueries.MessageHistory | app/api/routes/chats.py:109-138 | 422, 404 or 500 exactly when the limit is too large, the peer unknown, or the limit negative; else, in chronological order, messages from one of the two to the other that are not destructed and older than the mark: all of them, or as many of the newest as the limit allows. |
| History.PagesAreSymmetric | app/api/routes/chats.py:121-133 | Both users see the same pages. |
| History.WalkIsHistory | app/api/routes/chats.py:109-138 | Walking back with `before` ends; the joined pages are in order and repeat nothing; a finished walk is the whole history iff no page cut a tie of equal times. |
| PageCuts.WalkIsHistoryExactly | app/api/routes/chats.py:109-138 | Told from the table and the limit alone, whatever order the database picks: a finished walk is the whole history iff no group of equal times reaches over a multiple of the limit. |
| PageCuts.PageNumberIsQuotient | app/api/routes/chats.py:132-133 | The page a message falls on, counted page by page, is the number of newer ones divided by the limit. |
| History.DistinctTimesSuffice | app/api/routes/chats.py:132-137 | With distinct times every finished walk is the whole history. |
| History.TieIsLost | app/api/routes/chats.py:132-133 | Two messages of one time, one a page: the second is lost. |
| Conversations.ConversationQueries.LastTimes | app/api/routes/chats.py:48-69 | The grouped subquery: the newest time for exactly the peers who are users and share a direct message. |
| Conversations.ConversationQueries.ListConversations | app/api/routes/chats.py:42-106 | One row per peer, newest first, each with its name, online flag, last time, unread count, and as preview the first 20 characters of the text or of the bracketed type, nothing for an unsent message. |
| Conversations.GroupIsVisible | app/api/routes/chats.py:48-60 | Under the recipient-xor-group constraint a peer's group in the list query is the history with that peer. |
| Conversations.ListAgreesWithHistory | app/api/routes/chats.py:42-138 | A peer is listed iff the history is non-empty; the row's time is the last item's, its badge counts the history's unread items, and with distinct times its preview is the last item's. |
| Groups.GroupsAreSound | app/api/routes/groups.py:121-287 | Under every interleaving of reads and commits: one owner per group who alone may decide, one request per user and group, every other member has asked; and where approval is required, members other than the owner and their audit rows match one for one, each by the owner. |
| Groups.ConsistentUnlessOverruled | app/api/routes/groups.py:208-287 | A commit keeps "approved iff member" iff it does not turn a request approved by now into something else. |
| Groups.ConsistencyIsExact | app/api/routes/groups.py:186-287 | A whole run is consistent throughout iff no commit overrules an approval. |
| Groups.DecisionsRace | app/api/routes/groups.py:253-285 | From any consistent state, approve and reject begun together leave a member with a rejected request and no way to mend it. |
| Groups.RaceFromStart | app/api/routes/groups.py:121-285 | Such a run from the empty store. |
| GroupService.CallKeepsSound | app/api/routes/groups.py:121-287 | A call served alone keeps everything, and no insert breaks a unique index. |
| GroupService.InTurnIsSound | app/api/routes/groups.py:121-287 | So does every sequence of calls. |
| GroupService.MembersWereApproved | app/api/routes/groups.py:186-287 | After every sequence of calls PENDING implies not a member, and a non-owner is a member iff the request is APPROVED. |
| GroupService.GroupStore.CreateGroup | app/api/routes/groups.py:121-157 | 422 iff name or description has the wrong length; else the group with the two flags asked for, its creator as owner, one audit row, and nothing else. |
| GroupService.GroupStore.RequireAdminMember | app/api/routes/groups.py:86-92 | The member's role if it is ADMIN or OWNER, else 403. |
| GroupService.GroupStore.RequestJoin | app/api/routes/groups.py:186-226 | 404 iff the group is unknown or archived, 409 iff the user is a member or waiting already; else the user's one row is PENDING, or in an open group APPROVED and the user a member, and nothing else changes. |
| GroupService.GroupStore.DecideRequest | app/api/routes/groups.py:245-287 | 403 iff the caller is neither ADMIN nor OWNER, 404 iff no such request is pending, 500 with a rollback iff the approved user is a member already; else the row tells decision, decider and time, and an approval adds one member and one audit row. |
| Splitting.WordsAreExact | app/ocr.py:86 | `split()` yields exactly what stands between white space or the ends. |
| Keywords.NormalizeIsNormal | app/ocr.py:14-22 | The output is over [a-z0-9 ] with no leading, trailing or doubled space. |
| Keywords.NormalIsFixed | app/ocr.py:14-22 | Normalization leaves a text alone iff it is normal, and is idempotent. |
| Keywords.NormalizeSpacesWords | app/ocr.py:14-22 | The output is the runs of lower-cased letters and digits, one space apart. |
| Keywords.WordsAreRead | app/ocr.py:14-22 | The words of a normalized text are exactly those read in the raw one: letters in either case and digits, standing between characters that are neither. |
| Keywords.RawOrNormalized | app/ocr.py:80-87 | Keywords match alike on raw and normalized text. |
| Keywords.WordMatchIsInfix | app/ocr.py:80-87 | Matching by words is standing between spaces or the ends, and implies the substring match. |
| Keywords.InfixNeedNotBeWord | app/api/routes/media.py:323-329 | Inside a longer word a keyword matches as a substring and not as a word. |
| Keywords.OnlyPlainKeywordsMatch | app/api/routes/media.py:323-329 | A stored keyword can match some text iff it is letters, digits and single spaces. |
| Keywords.UsableEntriesMatch | app/api/routes/ocr.py:30-33 | What a user sets can match some text iff one entry is not blank and, stripped and in lower case, is letters, digits and single spaces. |
| Keywords.StoredAreNotEmpty | app/api/routes/ocr.py:30-33 | The keywords a user stores never include the empty string. |
| Keywords.StripExactly | app/api/routes/ocr.py:30-33 | `strip()` gives the one text between white space that neither begins nor ends with any. |
| Keywords.ProcessOcr | app/api/routes/media.py:312-334 | With the missing imports in place, the alert names the first keyword of the iteration that occurs; an empty keyword hides others, and without one the order does not decide whether there is an alert. |

## Left out

- MediaServer.UploadComplete: what the imaging library makes of the bytes is an input; a library call that raises halfway, and the background scan it schedules, are left out.
- MediaClient.Upload: the clock stands still and the store is healthy while one client runs, so that expiry between chunks and failing store calls are met in `UploadRuns` and `MediaServer` only; progress callbacks and authorization headers are left out; the double division rounded up is exact at these sizes and is modelled on integers.
- MediaClient.Interrupt: here too the clock stands still and the store is healthy.
- MediaClient.InterruptAndResume: the clock stands still from the first chunk sent to the end of the resume, and the store is healthy; time passes between the two in `UploadRuns`.
- UploadRuns.RunKeepsInv: one upload id is followed, since other ids use other keys; the random ids of uploads, objects and rows are inputs taken fresh.
- Storage.StorageService.DeleteObject: the two buckets are one map, and staged and named keys are kept apart, although a client-supplied `media_key` string could spell a staging key.
- SelfDestruct.SelfDestructWorker.SweepOnce: the endless loop with its sleep is the repetition of sweeps in runs; other sessions interleave in SweepRaces, not here.
- Orphans.OrphanedExactly: sweeps are one step here; when an unsend commits between a sweep's query and its removal, the sweep still has the name in hand and may remove the object, which `OrphanRaces.LeftBehindExactly` counts in.
- Retention.RunKeepsInv: deleting a user, which would null senders and cascade to rows, is not modelled; senders are never null.
- Messages.MessageStore.MarkRead: two sessions marking one row at once are not modelled; each call commits before the next.
- Login.FiftyGuessesAnHour: requests run one at a time; the interleaved bounds are those of RateLimit and Otp. The military-id check, tokens and login audit rows after the code check are left out.
- FrameProtocol.AckBeforeReceipt: the history may tell a participant of any committed row, also of one it no longer lists; group messages, typing, presence and ping frames, and push notifications are left out.
- FrameProtocol.RunKeepsInv: `_handle_frame` is a state machine over its calls, not a class, because its handlers interleave; invalid frames and their error answers are left out.
- ChatBloc.ChatBloc.HandleFrame: encryption in secret chats, the frames sent back, and the framework's rule that the very first state is always emitted are left out; the nullable `content` of a message frame is read as an optional value.
- ChatBloc.ChatBloc.OnTextSent: `_onMediaSent` makes the same bubble and is left out.
- Conversations.ConversationQueries.ListConversations: the avatar URL, never set by the code, is left out; the subqueries are evaluated in one state.
- History.WalkIsHistory: the table does not change during a walk.
- GroupService.GroupStore.RequestJoin: join times, member lists, archiving and `my_groups` are left out; nothing in scope archives a group or changes a role.
- Groups.RunKeepsInv: creating a group is one step, as it reads nothing first.
- Keywords.Normalize: characters whose lower case stays outside ASCII are left as they are, since they become spaces either way.
- Keywords.ProcessOcr: as the file stands, `normalize_text` and `logger` are not imported and `_process_ocr` raises NameError before the match loop; the method models the loop with the imports in place. Text extraction, temporary files and the Redis calls for keywords and alerts are left out.
- Image encoding, text extraction, cryptography and the AI services are foreign libraries or placeholders.
- Token versions, session revocation, broadcast acks, push batching and the backend/app channel code would only add easy members.
- `GroupMember.can_post` (app/models/group.py:161) is called by no endpoint that is modelled, and is left out.
- `max_members`, posting to groups over WebSocket, read-time burn timers and 90-second reaping are described in comments or documents but enforced by no code.
