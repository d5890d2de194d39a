# Verified models of the VaidCord SDK cores

VaidCord is a family of Discord SDKs in Python, Go and Rust. This project models the parts of them that
keep state, parse byte streams, compile or interleave, and proves what those parts are for. Code that
changes things step by step is a class or a method with loops, proved against a specification that
does not mention the loop; code made of expressions is functions and lemmas; concurrent code is a
state machine over its steps. `dafny verify dfyconfig.toml` checks everything.

| File | Component |
|---|---|
| `Common.dfy` | options, bytes, flattening |
| `PriorityOrder.dfy` | append-then-stable-sort registration (Python router) |
| `RouterCache.dfy` | the router forest with memoised inheritance (Python) |
| `OggDemux.dfy`, `OggStream.dfy`, `OpusSource.dfy` | incremental Ogg demuxer and the ffmpeg source (Go) |
| `Filters.dfy`, `Dispatch.dfy` | filter combinators, middleware folding and the compiled dispatch table (Rust) |
| `GoRateLimiter.dfy`, `RustRateLimiter.dfy` | the two rate limiters as concurrent steps |
| `GatewayHistory.dfy`, `GoGateway.dfy`, `RustGateway.dfy`, `Heartbeat.dfy` | session, reconnect and heartbeat protocol |
| `Rtp.dfy`, `VoiceTransport.dfy`, `VoiceState.dfy` | RTP packets, sealed media path, voice gateway state (Rust) |
| `Pacing.dfy` | drift-corrected playback (Go) |
| `Permissions.dfy` | permission calculator (Python) |
| `CommandOrder.dfy`, `CommandSync.dfy` | application command sync (Python) |
| `RouteKey.dfy` | rate-limit route keys (Go and Rust) |

## Main results

- **Router memos are invisible.** Over every run of `provide`, `add_filter`, `add_middleware`,
  `add_outer_middleware`, `include_router`, dispatcher attachment and lookups, each answer is the one a
  forest without memos gives (`RouterCache.Replay`). The condition under which an inclusion leaves a
  forest is exact (`RouterCache.SafeInclusion`).
- **Chunking is invisible** to the Ogg demuxer, from every state (`OggStream.ChunkingIsInvisible`);
  pages come back as encoded (`OggStream.RoundTrip`); packets are reassembled across pages exactly
  when none spans pages (`OggStream.ReassemblesIffNoneSpans`).
- **The dispatch table means the tree** (`Dispatch.CompiledMeansTree`), and dispatching visits every route once, in
  registration order, with each outcome told by the filters' own answers (`Dispatch.Dispatcher.Dispatch`).
- **Rate limits hold for every interleaving**, and who can still slip through after a global 429 is
  characterised exactly, for Go (`GoRateLimiter.GlobalLimited`) and for Rust with its first come, first served
  bucket locks (`RustRateLimiter.GlobalLimited`).
- **RESUME presents the standing session**, with the exact condition in both clients, and only IDENTIFY
  follows a lost session until a READY. A missed ACK ends the connection for resume.
- **Effective permissions** follow the layered formula on every defined bit, and on higher bits exactly when
  no removal drops them (`Permissions.LayeredUnlessLost`).
- **Sealed frames arrive** as sent, and counters repeat exactly at their periods.
- **Playback never bursts** and never runs early (`Pacing.PlaybackIsPaced`).
- **Command sync converges** exactly when no two replaced commands are rivals for one key
  (`CommandSync.SyncConverges`).

## Model

| member | source | states |
|---|---|---|
| `PriorityOrder.SortIsStable` | vaidcord-py/src/vaidcord/router.py:168-171 | the sorted list is a permutation of the history with higher priority first and, at equal priority, earlier registration first |
| `PriorityOrder.RegistrationIsOneSort` | vaidcord-py/src/vaidcord/router.py:872-873 | re-sorting after every registration is one stable sort of the whole history |
| `PriorityOrder.StableOrderIsUnique` | vaidcord-py/src/vaidcord/router.py:958-959 | any arrangement in that order is the one the router keeps |
| `PriorityOrder.SortOfDescending` | vaidcord-py/src/vaidcord/router.py:996-997 | a list already in order is left alone |
| `RouterCache.SelectInherited` | vaidcord-py/src/vaidcord/router.py:900-908 | filtering by event type at every level of the chain is filtering once at the end |
| `RouterCache.SelectKeeps` | vaidcord-py/src/vaidcord/router.py:904-908 | a lookup keeps exactly the entries for every event or for this one, each once and in order |
| `RouterCache.ChainStep` | vaidcord-py/src/vaidcord/router.py:1022-1030 | the parent's resolved list plus the own list, filtered, is the filtered root-first walk |
| `RouterCache.Router.constructor` | vaidcord-py/src/vaidcord/router.py:97-109 | a new router is a root with nothing registered and nothing memoised |
| `RouterCache.Router.Invalidate` | vaidcord-py/src/vaidcord/router.py:111-117 | every memo of the router and of everything its child lists reach is dropped, no other |
| `RouterCache.Router.Include` | vaidcord-py/src/vaidcord/router.py:708-717 | refused exactly for itself or a router that has a parent; otherwise the router is last in the list and has this one as parent, and every memo in the forest is still right |
| `RouterCache.Router.AttachDispatcher` | vaidcord-py/src/vaidcord/dispatcher.py:88-98 | attaching once: nothing, an inclusion, or a bare list entry without a parent; memos stay right although the last drops none |
| `RouterCache.Router.List` | vaidcord-py/src/vaidcord/dispatcher.py:95-97 | listing a router that has its parent elsewhere changes no answer |
| `RouterCache.Router.Provide` | vaidcord-py/src/vaidcord/router.py:732-735 | one dependency changes, and every memo in the forest is right afterwards |
| `RouterCache.Router.AddConfig` | vaidcord-py/src/vaidcord/router.py:859-874 | in an ordered list one entry takes its place behind every entry of at least its priority, the other layers stay, and every memo in the forest is right afterwards |
| `RouterCache.RegisterPlaces` | vaidcord-py/src/vaidcord/router.py:872-873 | registration keeps a list ordered and puts the new entry behind all of at least its priority |
| `RouterCache.Router.ResolveDependencies` | vaidcord-py/src/vaidcord/router.py:737-745 | memoised or not, every name has the value of the first router on the way up that provides it, and names no router on the way provides are absent |
| `RouterCache.ProvidedIsNearest` | vaidcord-py/src/vaidcord/router.py:741-743 | inherited then own dependencies give each name the nearest provider's value |
| `RouterCache.Router.ResolveConfigs` | vaidcord-py/src/vaidcord/router.py:894-910 | memoised or not, exactly the entries that apply to the event, from the lists of the way to the root put one after the other, the root's first |
| `RouterCache.ChainIsRootFirst` | vaidcord-py/src/vaidcord/router.py:900-903 | the walk is the own lists of the routers above, the root's first |
| `RouterCache.WalkKept` | vaidcord-py/src/vaidcord/router.py:115-117 | a change inside a subtree does not change what routers outside it resolve |
| `RouterCache.Resettled` | vaidcord-py/src/vaidcord/router.py:1070-1086 | dropping the memos of the changed subtree alone leaves all memos right |
| `RouterCache.Relisted` | vaidcord-py/src/vaidcord/dispatcher.py:95-97 | memos depend on parents only, not on child lists |
| `RouterCache.SafeInclusion` | vaidcord-py/src/vaidcord/router.py:708-716 | an inclusion that passes the source's checks leaves a forest if and only if the new child does not already reach its lister |
| `RouterCache.InvalidationEnds` | vaidcord-py/src/vaidcord/router.py:111-117 | after a new edge the recursive invalidation of its lister comes to an end if and only if the new child did not already reach it |
| `RouterCache.RootIntoChild` | vaidcord-py/src/vaidcord/router.py:708-716 | a child that includes its own root passes both checks and closes a cycle |
| `RouterCache.NewRouters` | vaidcord-py/src/vaidcord/router.py:97-109 | newly constructed routers are a forest in which every run can start |
| `RouterCache.Execute` | vaidcord-py/src/vaidcord/router.py:699-745 | each operation of the memoising forest does and answers what the memo-free forest does and answers |
| `RouterCache.Replay` | vaidcord-py/src/vaidcord/router.py:699-1086 | over every run of operations each answer is right for the forest as it then was: dependencies by nearest provider, entries root first and by event type, refusals as the source gives them |
| `OggDemux.OggDemuxer.Write` | vaidcord-go/voice_ogg.go:23-26 | the queue grows by, and the buffer becomes, what the whole buffered text parses to |
| `OggDemux.OggDemuxer.NextPacket` | vaidcord-go/voice_ogg.go:29-36 | packets leave in order, none when the queue is empty |
| `OggDemux.OggDemuxer.ParsePages` | vaidcord-go/voice_ogg.go:38-87 | the page loop ends and yields the recursive parse of the buffer |
| `OggDemux.OggDemuxer.TryPage` | vaidcord-go/voice_ogg.go:39-86 | each page taken strictly shrinks the buffer and leaves the parse of the rest to do |
| `OggDemux.OggDemuxer.Seek` | vaidcord-go/voice_ogg.go:40-49 | bytes before the first capture pattern go; without one, at most three that may begin it stay |
| `OggDemux.OggDemuxer.TakeFront` | vaidcord-go/voice_ogg.go:50-67 | a page is taken exactly when all of it has arrived; otherwise nothing changes |
| `OggDemux.OggDemuxer.TakePage` | vaidcord-go/voice_ogg.go:68-85 | lacing cuts the body into finished packets, and the unfinished one goes in front of the remainder |
| `OggStream.ParseAppend` | vaidcord-go/voice_ogg.go:38-87 | the bytes kept after parsing are enough: parsing in two steps equals parsing at once |
| `OggStream.ChunkingIsInvisible` | vaidcord-go/voice_ogg.go:23-26 | from every buffer, any cutting of a stream into chunks ends with the same packets and buffer |
| `OggStream.Settled` | vaidcord-go/voice_ogg.go:40-65 | the kept bytes hold no further page |
| `OggStream.CutUndoesLacing` | vaidcord-go/voice_ogg.go:68-77 | cutting by lacing values gives back the laced packets and the unfinished tail, for all packets |
| `OggStream.CleanStreamYields` | vaidcord-go/voice_ogg.go:78-85 | what the demuxer really yields for streams with unfinished packets: the finished packets only, and whatever pages the last tail itself holds |
| `OggStream.RoundTrip` | vaidcord-go/voice_ogg.go:38-87 | pages whose packets end on them come back as exactly those packets with an empty buffer, for every chunking |
| `OggStream.ReassemblesIffNoneSpans` | vaidcord-go/voice_ogg.go:78-83 | packets come back as section 5 of RFC 3533 asks if and only if none is begun on one page and finished on another and the unfinished end does not itself look like pages with packets |
| `OggStream.SplitPacketIsLost` | vaidcord-go/voice_ogg.go:78-83 | a packet of 256 bytes on two pages comes back as its last byte alone |
| `OpusSource.FFmpegOpusSource.constructor` | vaidcord-go/voice_ogg.go:175-181 | a new source owes every packet of the stream after the first two |
| `OpusSource.FFmpegOpusSource.ReadOpus` | vaidcord-go/voice_ogg.go:184-209 | each call returns the next owed packet; once none is owed, the end of stream or the process error |
| `OpusSource.FFmpegOpusSource.TakeQueued` | vaidcord-go/voice_ogg.go:186-194 | the first two packets are dropped and no other is |
| `OpusSource.FFmpegOpusSource.Pull` | vaidcord-go/voice_ogg.go:201-207 | one read moves bytes into the demuxer without changing what is owed |
| `OpusSource.SkipsTwoHeaders` | vaidcord-go/voice_ogg.go:187-192 | for pages that end their packets, read in any pieces, the source owes all packets but the first two |
| `OpusSource.Drain` | vaidcord-go/voice_gateway.go:730-745 | reading until the source ends gives every owed packet, in order |
| `OpusSource.ReadStream` | vaidcord-go/voice_ogg.go:184-209 | a whole stream of pages that end their packets, read in any pieces, gives the list of packets minus its first two |
| `Filters.Bag.Merge` | vaidcord-rust/src/extract.rs:39-42 | the merged bag has every key of both, with the later value where both have one |
| `Filters.MergeAssoc` | vaidcord-rust/src/extract.rs:39-42 | bag merging is associative with the empty bag as unit |
| `Filters.FuseOne` | vaidcord-rust/src/filters.rs:100-118 | a filter fused by any bracketing of `and` extracts what its leaves extract one after the other |
| `Filters.RunFiltersMeans` | vaidcord-rust/src/dispatcher.rs:98-108 | the filter list passes, each filter seeing what those before it extracted, with the bag all of them filled, or gives the first other verdict |
| `Filters.Fusion` | vaidcord-rust/src/dispatcher.rs:98-108 | replacing adjacent filters of a route by any bracketing changes neither outcome, error, final bag nor side effects |
| `Filters.AnyOf` | vaidcord-rust/src/router.rs:266-274 | the loop over the `any` list builds the left fold of `or` |
| `Filters.OrFoldIsFirst` | vaidcord-rust/src/filters.rs:120-127 | that fold stops at the first filter that passes or fails and keeps that filter's own bag |
| `Filters.OrFoldMeans` | vaidcord-rust/src/filters.rs:120-127 | told by the answers themselves: the fold rejects when all reject, else gives the answer of the first that does not, bag or error |
| `Filters.DeMorgan` | vaidcord-rust/src/filters.rs:129-136 | negating an `or` is the `and` of the negations, bag and side effects included |
| `Filters.DoubleNegation` | vaidcord-rust/src/filters.rs:129-136 | negating twice keeps verdict, error and effects and empties the bag |
| `Dispatch.Compose` | vaidcord-rust/src/middleware.rs:63-73 | the reverse loop nests the first middleware outermost |
| `Dispatch.NestAppend` | vaidcord-rust/src/router.rs:195-199 | nesting in a concatenated list is nesting in the parts, outer around inner |
| `Dispatch.OnionOrder` | vaidcord-rust/src/middleware.rs:60-73 | each layer runs exactly once, in from the outside and out in reverse |
| `Dispatch.TreeAgrees` | vaidcord-rust/src/router.rs:194-213 | the flattened routes of a router run as the router itself does: own routes, then children, its middleware around both |
| `Dispatch.InOrderAt` | vaidcord-rust/src/router.rs:200-212 | flattening lists every route of the tree exactly once, own routes before children's and all in registration order, with the middleware of the routers above it outermost first |
| `Dispatch.CompiledMeansTree` | vaidcord-rust/src/dispatcher.rs:50-69 | the flat table gives the calls, order, bags and first error of the included trees |
| `Dispatch.Dispatcher.constructor` | vaidcord-rust/src/dispatcher.rs:31-33 | a new dispatcher holds the empty table |
| `Dispatch.Dispatcher.UseMiddleware` | vaidcord-rust/src/dispatcher.rs:37-46 | the table stays the compilation of the same trees, now inside one more middleware |
| `Dispatch.Dispatcher.Include` | vaidcord-rust/src/dispatcher.rs:50-53 | the table becomes the compilation of the trees plus the new one |
| `Dispatch.Dispatcher.Recompose` | vaidcord-rust/src/dispatcher.rs:55-69 | every collected route is prepared inside the dispatcher's and its own middleware |
| `Dispatch.Dispatcher.Dispatch` | vaidcord-rust/src/dispatcher.rs:79-114 | after any mix of inclusions and middleware every route is visited once in that order inside all middleware, until the first error, which is the outcome; the same as interpreting the trees |
| `Dispatch.RunPrepared` | vaidcord-rust/src/dispatcher.rs:86-111 | told by the filters' own answers: the chain runs, once and with the bag they filled, exactly when the kind suits and there are no filters or the event carries a message and all pass; a rejection ends quietly, a failing filter is the error |
| `Dispatch.OneOutcome` | vaidcord-rust/src/dispatcher.rs:98-111 | the filters' answers leave only one outcome |
| `GoRateLimiter.BudgetHolds` | vaidcord-go/ratelimit.go:90-107 | for every interleaving, a known bucket lets at most its remaining slots through before its reset time |
| `GoRateLimiter.CheckEnds` | vaidcord-go/ratelimit.go:90-107 | a check ends the call exactly when the bucket is unknown, has a slot or its reset time has come, else the call sleeps until then; and what it leaves of the bucket |
| `GoRateLimiter.HeadersGive` | vaidcord-go/ratelimit.go:125-137 | after headers with r remaining the next r checks on that key all end their calls |
| `GoRateLimiter.ReturnsAfterDeadline` | vaidcord-go/ratelimit.go:92-96 | a wait that begins once the reset time or deadline has come and no global window is open returns at its first check |
| `GoRateLimiter.SleeperReturns` | vaidcord-go/ratelimit.go:97-103 | a call that slept until the reset time returns at its next check |
| `GoRateLimiter.GlobalCheckPasses` | vaidcord-go/ratelimit.go:110-122 | the global check lets a call on exactly when the window is over, else it sleeps to its end |
| `GoRateLimiter.HeaderBudget` | vaidcord-go/ratelimit.go:125-137 | after headers with r remaining and reset time T, at most r waits on that key return before T |
| `GoRateLimiter.RouteLimited` | vaidcord-go/ratelimit.go:152-158 | after a route 429 no wait on that key returns before its deadline |
| `GoRateLimiter.GlobalLimited` | vaidcord-go/ratelimit.go:83-122 | after a global 429 a task can return early if and only if it had passed the global check and does not sleep on its bucket past the deadline; no later call can |
| `RustRateLimiter.StepOrderly` | vaidcord-rust/src/http.rs:112-121 | no step lets anyone overtake in a bucket's queue or changes a bucket under the call that sleeps with its lock |
| `RustRateLimiter.AlwaysOrderly` | vaidcord-rust/src/http.rs:97-128 | in every reachable state calls stand in their own queue exactly while they wait for or hold the lock, once, and a sleeper is first |
| `RustRateLimiter.BudgetHolds` | vaidcord-rust/src/http.rs:114-127 | for every interleaving, a bucket lets at most its remaining slots through before its reset time |
| `RustRateLimiter.ServeEnds` | vaidcord-rust/src/http.rs:114-127 | a call that gets the lock returns exactly unless no slot is left and the reset time is still to come, and what it leaves of bucket and queue |
| `RustRateLimiter.HeadersGive` | vaidcord-rust/src/http.rs:123-127 | once headers with r remaining take effect the next r calls served on that key all return |
| `RustRateLimiter.BeginWaits` | vaidcord-rust/src/http.rs:109-111 | a new call sleeps exactly while the global window lasts, to its end |
| `RustRateLimiter.HeaderBudget` | vaidcord-rust/src/http.rs:131-138 | once headers with r remaining and reset time T take effect, at most r calls on that key return before T |
| `RustRateLimiter.RouteLimited` | vaidcord-rust/src/http.rs:148-151 | once a route penalty takes effect no call on that key returns before its deadline |
| `RustRateLimiter.GlobalLimited` | vaidcord-rust/src/http.rs:102-128 | after a global 429 a call can return early if and only if it has not queued and sleeps at most towards an earlier window, sleeps on its bucket towards an earlier time, or queues for a bucket that opens in time or that a response ahead of it opens; no later call can |
| `GatewayHistory.LatestSessionStands` | vaidcord-go/gateway.go:467-472 | the latest session is the READY that was neither replaced nor cleared since |
| `GatewayHistory.LastSequenceStands` | vaidcord-go/gateway.go:454-458 | the last sequence is the number that was neither replaced nor cleared since |
| `GoGateway.Gateway.Run` | vaidcord-go/gateway.go:291-337 | on a new gateway or a used one, over every list of connections the handshakes are exactly those the history calls for, the first an IDENTIFY, and the client stops exactly at close 4004 or 4010 to 4014 |
| `GoGateway.Gateway.ClearSession` | vaidcord-go/gateway.go:345-351 | nothing is known of any session afterwards |
| `GoGateway.Gateway.RunOnce` | vaidcord-go/gateway.go:373-495 | one connection sends the handshake the history calls for and leaves the fields holding what it read |
| `GoGateway.ResumesLatestSession` | vaidcord-go/gateway.go:581-591 | a RESUME with this session and sequence is sent if and only if the connection is not the first of its run and that READY and that number stand, or no number does and it is 0 |
| `GoGateway.IdentifiesUntilReady` | vaidcord-go/gateway.go:304-327 | after close 4003, 4007 or 4009 or a non-resumable INVALID_SESSION every handshake is IDENTIFY until a READY |
| `GoGateway.SessionSurvives` | vaidcord-go/gateway.go:304-327 | after any other end, a resumable INVALID_SESSION, RECONNECT, missed ACK, broken read or other close among them, the session stands |
| `GoGateway.ReadyStands` | vaidcord-go/gateway.go:462-472 | what stands after the frames of a connection is what their last READY said |
| `GoGateway.NumberStands` | vaidcord-go/gateway.go:454-458 | the last sequence number among the frames stands, whatever else its frame is |
| `GoGateway.EndCounts` | vaidcord-go/gateway.go:454-487 | the frame that ends a connection counts for the sequence number and nothing else |
| `RustGateway.GatewayRunner.Run` | vaidcord-rust/src/gateway.rs:478-502 | over every list of connections the handshakes are exactly those the history calls for, and only a fatal close, a shutdown or a connect error nobody listens to stops the runner |
| `RustGateway.GatewayRunner.RunConnection` | vaidcord-rust/src/gateway.rs:523-711 | one connection answers every HELLO as the history calls for and reports how to come back |
| `RustGateway.GatewayRunner.ReadLoop` | vaidcord-rust/src/gateway.rs:536-660 | the session fields and the close code follow every message |
| `RustGateway.ResumesLatestSession` | vaidcord-rust/src/gateway.rs:580-588 | this RESUME is sent if and only if a session with an id stood when the connection opened and at some HELLO on it this session, an id left out counting as empty, and this number stand, or no number does and it is 0 |
| `RustGateway.ResumeNamesSession` | vaidcord-rust/src/gateway.rs:524-588 | the RESUME answering a HELLO names the standing session exactly when the last READY before it carried an id, and is empty otherwise |
| `RustGateway.EmptyResume` | vaidcord-rust/src/gateway.rs:596-606 | a READY without an id followed by another HELLO: the RESUME goes out with an empty session id |
| `RustGateway.IdentifiesUntilReady` | vaidcord-rust/src/gateway.rs:639-711 | after close 1000, 1001, 4007 or 4009 or a non-resumable INVALID_SESSION every handshake is IDENTIFY until a READY |
| `RustGateway.SessionSurvives` | vaidcord-rust/src/gateway.rs:638-711 | after any other end the session stands |
| `RustGateway.Actions` | vaidcord-rust/src/gateway.rs:169-177 | which connections lose the session and which stop the runner, told by the code of the last close frame and the end |
| `RustGateway.StopsExactly` | vaidcord-rust/src/gateway.rs:483-498 | the runner makes every connection up to the first fatal close, shutdown or unheard connect error, and no more |
| `RustGateway.ReadyStands` | vaidcord-rust/src/gateway.rs:596-606 | what stands after the messages of a connection is what their last READY said |
| `RustGateway.NumberStands` | vaidcord-rust/src/gateway.rs:559-562 | the last sequence number among the messages stands, whatever else its message is |
| `GoHeartbeat.AckBetweenBeats` | vaidcord-go/gateway.go:517-542 | between two timer heartbeats the heartbeat loop took an ACK, for every interleaving |
| `GoHeartbeat.AckedFiringBeats` | vaidcord-go/gateway.go:521-542 | a timer that fires after an ACK was taken, with no heartbeat since, sends one |
| `GoHeartbeat.BeatsArePaidFor` | vaidcord-go/gateway.go:488-492 | timer heartbeats outnumber received ACKs by at most one: no ACK counts twice |
| `GoHeartbeat.MissEndsForResume` | vaidcord-go/gateway.go:439-453 | two timer firings with no ACK between them: the second closes the connection, and unless a frame that had already arrived ends it, the reader can only end it as a missed ACK, which is resumed |
| `GoHeartbeat.SilentAfterMiss` | vaidcord-go/gateway.go:530-535 | once the ACK is missed no heartbeat is sent on that connection |
| `RustHeartbeat.GrantBetweenBeats` | vaidcord-rust/src/gateway.rs:740-757 | between two heartbeats, of one task or of two, the reader saw an ACK or a HELLO |
| `RustHeartbeat.GrantedFiringBeats` | vaidcord-rust/src/gateway.rs:740-757 | a loop that looks at the flag after an ACK or HELLO, with no heartbeat since, sends one |
| `RustHeartbeat.BeatsArePaidFor` | vaidcord-rust/src/gateway.rs:570-579 | a connection never has more heartbeats than ACKs and HELLOs together |
| `RustHeartbeat.TwoFiringsEnd` | vaidcord-rust/src/gateway.rs:741-744 | a loop that looks at the flag twice with no ACK or HELLO between finds the ACK missing, and its report ends the connection for resume unless another cause does |
| `RustHeartbeat.QueuedMissEnds` | vaidcord-rust/src/gateway.rs:661-673 | a report in the outbound channel ends the connection once the reader has worked off what is before it |
| `RustHeartbeat.SilentAfterMiss` | vaidcord-rust/src/gateway.rs:741-744 | a task that stopped sends again only if a later HELLO spawns it |
| `Rtp.ParseRtpPacket` | vaidcord-rust/src/voice/rtp.rs:53-111 | the loop computes the packet, or the first of the three errors, for every datagram |
| `Rtp.ParseUndoesEncode` | vaidcord-rust/src/voice/rtp.rs:60-96 | every field of every packet of section 5.1 of RFC 3550 comes back, for any CSRC list and extension |
| `Rtp.EncodeUndoesParse` | vaidcord-rust/src/voice/rtp.rs:98-110 | parsing loses nothing: the datagram can be rebuilt from the packet |
| `Rtp.ParsesExactlyPackets` | vaidcord-rust/src/voice/rtp.rs:53-111 | parsing succeeds on exactly the datagrams that start with some encoded header |
| `VoiceTransport.OpensToMedia` | vaidcord-rust/src/voice/crypto.rs:76-88 | for any CSRC list and extension length, opening undoes sealing and cuts off exactly the encrypted extension words |
| `VoiceTransport.ShortExtension` | vaidcord-rust/src/voice/rtp.rs:118-126 | a plaintext shorter than the announced extension leaves no media |
| `VoiceTransport.OpenFails` | vaidcord-rust/src/voice/crypto.rs:76-88 | opening a packet fails exactly without room for the nonce or when the cipher refuses it |
| `VoiceTransport.EnvelopeBack` | vaidcord-rust/src/voice/crypto.rs:65-70 | the 4-byte suffix splits off again as the nonce that was sealed with |
| `VoiceTransport.BuildRtpHeader` | vaidcord-rust/src/voice/rtp.rs:42-50 | the filled array is the encoding of a version 2 header without padding, extension or CSRC |
| `VoiceTransport.RtpSession.constructor` | vaidcord-rust/src/voice/transport.rs:42-50 | a new session has sealed no frame |
| `VoiceTransport.RtpSession.SealFrame` | vaidcord-rust/src/voice/transport.rs:75-84 | frame n carries sequence n mod 2^16, timestamp 960n mod 2^32 and nonce n mod 2^32 |
| `VoiceTransport.RtpSession.Advance` | vaidcord-rust/src/voice/transport.rs:86-90 | a step of one frame keeps the three counters the wrapped counters of the number of frames sealed |
| `VoiceTransport.VoiceReceiver.MapSsrc` | vaidcord-rust/src/voice/transport.rs:234-236 | after any announcements and departures every SSRC resolves to whoever announced it last and has not left since |
| `VoiceTransport.VoiceReceiver.ForgetUser` | vaidcord-rust/src/voice/transport.rs:239-241 | a departure is one more event of that history: the map still answers what the history says for every SSRC |
| `VoiceTransport.VoiceReceiver.Process` | vaidcord-rust/src/voice/transport.rs:249-261 | RTCP and nothing else gives no frame, what does not open is an error, and with a sound cipher frame n of any session arrives as the same opus bytes with its counters, its SSRC and the user it belongs to |
| `VoiceTransport.FrameArrives` | vaidcord-rust/src/voice/crypto.rs:76-88 | frame n is never taken for RTCP and opens to the same opus bytes, SSRC and wrapped counters |
| `VoiceTransport.NoncesRepeat` | vaidcord-rust/src/voice/crypto.rs:50-54 | two frames of a session carry the same nonce if and only if a multiple of 2^32 frames apart |
| `VoiceTransport.HeadersRepeat` | vaidcord-rust/src/voice/transport.rs:69-71 | two frames of a session carry the same 12-byte header if and only if a multiple of 2^26 frames apart |
| `VoiceState.BelongsStep` | vaidcord-rust/src/voice/gateway.rs:269-296 | how one payload changes who an SSRC belongs to, read off the history |
| `VoiceState.RemapMirrors` | vaidcord-rust/src/voice/gateway.rs:273-294 | updating the map keeps it the answer the history gives for every SSRC |
| `VoiceState.VoiceGatewayState.constructor` | vaidcord-rust/src/voice/gateway.rs:170-175 | before any payload nothing is mapped and the sequence is -1 |
| `VoiceState.VoiceGatewayState.HandlePayload` | vaidcord-rust/src/voice/gateway.rs:203-303 | an SSRC maps to u exactly when its latest announcement named u and u has not left since; seq_ack is the last sequence seen or -1; the notice is the one that tells the payload |
| `Pacing.Play` | vaidcord-go/voice_gateway.go:727-762 | the loop computes the stepwise schedule and its send times keep the four pacing laws, whatever the delays |
| `Pacing.PlaybackIsPaced` | vaidcord-go/voice_gateway.go:750-761 | whatever the delays: m - j frames later is at least 20(m - j) - 120 ms later, no steady frame is early, lateness does not accumulate, and it resynchronises exactly when over 100 ms late |
| `Pacing.InNanoseconds` | vaidcord-go/voice_gateway.go:750-761 | the four laws in nanoseconds |
| `Pacing.EveryFrameIsSent` | vaidcord-go/voice_gateway.go:735-749 | every non-empty packet is sent once and in order, as soon as the loop comes to it and for as long as its sending takes |
| `Permissions.ComputeBase` | vaidcord-py/src/vaidcord/permissions.py:359-397 | each bit of the base: everything for owners and administrators, two bits for the timed out, else the union of grants |
| `Permissions.NormalizeOverwrites` | vaidcord-py/src/vaidcord/permissions.py:479-486 | for each id the last overwrite counts |
| `Permissions.KeptIsMask` | vaidcord-py/src/vaidcord/permissions.py:112-114 | the bits that survive a removal are those of the complement Python computes: as wide as the defined permissions or the removed flags, no wider |
| `Permissions.ComputeOverwrites` | vaidcord-py/src/vaidcord/permissions.py:422-462 | each bit, defined or not: in every layer an allowed bit is set and any other has to survive the removal of the denied flags |
| `Permissions.ComputeEffective` | vaidcord-py/src/vaidcord/permissions.py:506-519 | an error without a guild, else each bit is what the layers make of the base |
| `Permissions.DefinedBitsAreLayered` | vaidcord-py/src/vaidcord/permissions.py:436-460 | every bit up to 52 is member over the union of roles over everyone over base, allow winning over deny in each layer |
| `Permissions.LayeredUnlessLost` | vaidcord-py/src/vaidcord/permissions.py:452-454 | any bit follows that formula if and only if no layer drops it without a later layer allowing or denying it |
| `Permissions.NoOverwrites` | vaidcord-py/src/vaidcord/permissions.py:443-454 | without overwrites exactly the base bits up to 52 are left |
| `Permissions.Bit60IsLost` | vaidcord-py/src/vaidcord/permissions.py:452-454 | a role grants bit 60, nothing denies it, and it is gone |
| `Permissions.CheckPermission` | vaidcord-py/src/vaidcord/permissions.py:597-615 | passes exactly when every required bit is effective |
| `Permissions.RoleOrderIsIrrelevant` | vaidcord-py/src/vaidcord/permissions.py:382-384 | neither order nor repetition of roles changes any effective bit |
| `Permissions.PrivilegedPass` | vaidcord-py/src/vaidcord/permissions.py:371-388 | the owner and whoever @everyone or a role makes an administrator have exactly the defined permissions, whatever the overwrites |
| `Permissions.UnlimitedPasses` | vaidcord-py/src/vaidcord/permissions.py:597-615 | so they pass every check on defined bits |
| `Permissions.FirstDecides` | vaidcord-py/src/vaidcord/permissions.py:436-460 | for anybody else and any bit up to 52 the first that speaks decides: member allow, member deny, some role's allow, some role's deny, everyone's allow, everyone's deny, and at last the grants |
| `Permissions.LastCounts` | vaidcord-py/src/vaidcord/permissions.py:479-486 | the overwrite that counts for an id is the last one listed for it |
| `Permissions.TimedOutNeedsAllow` | vaidcord-py/src/vaidcord/permissions.py:391-395 | a timed-out member has a further bit only if an overwrite allows it |
| `CommandOrder.SortIsStable` | vaidcord-py/src/vaidcord/bot.py:671-678 | sorting by (type, name) orders by key, loses nothing and keeps entries with one key as they came |
| `CommandOrder.OrderedIsUnique` | vaidcord-py/src/vaidcord/bot.py:679 | two ordered lists of the same entries are equal when a key names one entry |
| `CommandSync.SingleChanged` | vaidcord-py/src/vaidcord/bot.py:650-679 | two commands are seen as changed exactly when type, name or any field but the seven of the server differ |
| `CommandSync.ListsIff` | vaidcord-py/src/vaidcord/bot.py:650-667 | a listing is one of the same commands in some order, give or take those seven fields, exactly when the normalised commands are the same bag |
| `CommandSync.UnchangedLists` | vaidcord-py/src/vaidcord/bot.py:670-679 | no change seen means the same commands up to order and server fields |
| `CommandSync.ListsUnchanged` | vaidcord-py/src/vaidcord/bot.py:670-679 | the same commands in any order are seen as unchanged when no key has rivals |
| `CommandSync.RivalsShow` | vaidcord-py/src/vaidcord/bot.py:671-679 | two different commands with one key: some order of the same listing is taken for a change |
| `CommandSync.ResolvePayload` | vaidcord-py/src/vaidcord/bot.py:629-647 | replacing writes desired; merging writes one entry per named key, at its first place and in its last form |
| `CommandSync.MergeMeaning` | vaidcord-py/src/vaidcord/bot.py:636-647 | merging keeps every named server command that is not desired and takes the last desired form of the rest, each key once |
| `CommandSync.ReplaceReaches` | vaidcord-py/src/vaidcord/bot.py:588-591 | after replacing the server lists exactly the desired commands |
| `CommandSync.MergeReaches` | vaidcord-py/src/vaidcord/bot.py:588-591 | after merging it lists each named command in its last desired form or as it was |
| `CommandSync.Settles` | vaidcord-py/src/vaidcord/bot.py:588-591 | after a sync, a second one writes nothing for any listing order if and only if merging, or no two desired commands are rivals |
| `CommandSync.GroupCommands` | vaidcord-py/src/vaidcord/bot.py:578-584 | each scope gets exactly the commands that target it, in order |
| `CommandSync.Group` | vaidcord-py/src/vaidcord/bot.py:576-586 | all scopes with their commands: global first, then guilds by first mention, configured guilds included |
| `CommandSync.WantedIs` | vaidcord-py/src/vaidcord/bot.py:578-584 | a scope gets exactly the commands of its guild, or without one of the development guild, or without either global ones, in registration order |
| `CommandSync.ScopesAre` | vaidcord-py/src/vaidcord/bot.py:576-586 | exactly the global scope, the scopes some command is for and the configured guilds are synced |
| `CommandSync.SyncOnce` | vaidcord-py/src/vaidcord/bot.py:573-597 | each scope is overwritten, once and with its resolved payload, exactly when what it lists differs from that payload |
| `CommandSync.SyncConverges` | vaidcord-py/src/vaidcord/bot.py:573-597 | from every server state, and for every later listing of the held commands in any order with any server fields, a second whole sync writes nothing if and only if merging, or no scope has rival commands |
| `RouteKey.RouteBucketKey` | vaidcord-go/ratelimit.go:38-56 | the loop builds method, separator and normalised path |
| `RouteKey.SplitOfJoin` | vaidcord-go/ratelimit.go:39-47 | joining slash-free segments and splitting gives them back |
| `RouteKey.SegmentsOf` | vaidcord-go/ratelimit.go:39 | the segments are what lies between the slashes of the path, once those at its ends are gone |
| `RouteKey.SameRouteIffSameNormal` | vaidcord-go/ratelimit.go:48-54 | normal forms are equal exactly when segments agree position by position, up to runs of at least fifteen digits that do not follow channels, guilds or webhooks |
| `RouteKey.SharedBucket` | vaidcord-rust/src/http.rs:55-77 | two requests share a key if and only if they have the same method and such segments |
| `RouteKey.Idempotent` | vaidcord-go/ratelimit.go:34-56 | a normalised path normalises to itself |

## Where the code and its documentation differ

- The comment at `vaidcord-go/voice_ogg.go:78-80` calls the carried fragment safe to prepend, and line 12
  promises reassembly. The fragment is later skipped as bytes before the capture pattern. The model
  follows the code: `OggStream.CleanStreamYields` says what comes out and
  `OggStream.ReassemblesIffNoneSpans` when that is what the format asks; `OggStream.SplitPacketIsLost` is
  a packet it loses.
- `include_router` does not reject the root of its own tree (`RouterCache.RootIntoChild`). The recursive
  invalidation it then starts never comes to an end: `RouterCache.InvalidationEnds` and
  `RouterCache.SafeInclusion` give the exact condition, and the operations take it as their precondition.
- Permission bits above 52 are kept by the flag type but not by `remove`, which masks with a complement of
  limited width. A removal happens for every member with the union of role denials, even an empty one.
- Go looks at the global window only before the bucket, Rust only once at the start.
  `GlobalLimited` in each module says exactly which calls this lets through.
- A Go close before HELLO is not classified; the Go and Rust close-code tables differ on 1000, 1001 and
  4003. Each model has its own table.
- A Rust READY without a session id is still followed by a RESUME with an empty id if another HELLO
  comes on a connection that opened with one (`RustGateway.EmptyResume`).

## Left out

- Include: asks that the new child does not already reach its lister; otherwise the source's own invalidation does not come to an end, so there is no result to state.
- AttachDispatcher: asks the same where it adds an edge.
- List: asks the same; the source returns, but the next registration at or above the bot does not.
- Execute: asks the same of each inclusion or attachment.
- Replay: asks the same of every inclusion or attachment of the run.
- CleanStreamYields: speaks of streams in which only the last page's unfinished packet may contain the capture pattern; one that does earlier can be taken for a page and swallow what follows.
- ReassemblesIffNoneSpans: speaks of the same streams.
- SharedBucket: asks that the method does not contain the separator, which no HTTP method does; a segment that is literally ":id" counts as hidden, as the code treats it.
- HeaderBudget: stated until the next header update or 429 for that key, as the design promises; headers that do not parse change nothing and are not events.
- ResolveDependencies: the source hands out its memo itself on the first call, so a caller that changes that dictionary changes the memo; values here cannot be aliased.
- Rate limiters, heartbeats: step machines over lock-protected sections instead of methods, since their properties are about interleavings; that a waiting future may be dropped is part of the Rust machine.
- Reconnect backoff, jitter, the wait after INVALID_SESSION and context cancellation: they delay or end runs without changing any handshake.
- Sockets, HTTP, JSON decoding, ffmpeg and TLS: inputs are decoded events; a failed read or send is an event or an end of a connection.
- Ciphers: any pair in which opening undoes sealing; the zero padding of the 4-byte nonce to cipher width is part of the cipher.
- Python's equality across types (1, True and 1.0) and options that are not mappings, in command payloads; payloads without a type or name, whose comparison raises.
- Validation of command options, and the rate-limited retry of a sync: a retry is a sync from another server state, which the results cover.
- Overwrites given as a mapping, and editing overwrites in place (`set_allow`, `set_deny`, `reset`): easy members.
- Handler invocation, signature inspection and annotation-based injection of the Python router: runtime reflection.
- Go router flattening, which repeats a router's own middleware, and the Python filter expressions: the Rust forms carry the ordering results.
- Go voice `HandlePayload` and `SealOpusFrame`: the Rust forms carry the results.
- Tokio `FramePacer`, the opus binding, DAVE, IP discovery, FSM storage, formatters, REST wrappers and data models: library behaviour or easy members.
- Trailing silence and speaking payloads of `Play`: sent outside the pacing loop.
