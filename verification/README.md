# Verified model of the Chameleon-PQ tunnel core

Chameleon-PQ is a point-to-point VPN. Two peers run a three-message hybrid handshake over
UDP, derive a session, and then exchange obfuscated datagrams; sessions are replaced by
rekeys while traffic runs. This project models that core in Dafny and proves what each
part promises the others.

How the modules follow the program:

| part | modules |
|---|---|
| machine words, bytes, results, ciphers | `Words`, `Bytes`, `Results`, `Aead` |
| anti-replay window, session, session manager | `ReplayWindows`, `Sessions`, `Workers` |
| data-path framing and masking | `Obf`, `DataPath` |
| many threads, one network, many sessions | `Senders`, `Submissions`, `Receivers`, `DataPlane`, `Deliveries`, `Directions`, `Rekey` |
| handshake messages, transcript, authentication | `Codec`, `Transcripts`, `HybridAuths`, `Handshakes`, `Agreement`, `HonestRuns` |
| fragments and their obfuscation | `Reassembly`, `HsObf` |
| cookies, rekey drivers | `Cookies`, `RekeyDrivers` |
| outbound pipeline, pacing, batched UDP | `Pipeline`, `Pacers`, `PacedLoops`, `Udp` |

Code that updates fields or buffers is modelled by classes and loops (`ReplayWindow`,
`Session`, `SessionManager`, `Reassembler`, `Transcript`, `Pacer`, `PacedLoop`), each method
tied to a function of the old state. Concurrency is modelled by step systems: a state, the
steps any thread or the network may take, and theorems over every run.

Assumptions, all of them visible as parameters or preconditions:

- Primitives are ideal. The AEAD opens what was sealed under the same key, nonce and
  associated data; in `Receivers` it opens nothing else. A presented signature that verifies
  under an honest key is over something that party signed; which bytes a scheme accepts for
  it is left open, and nothing is assumed of other keys. A value that passes as the cookie
  MAC of an input was revealed by an earlier challenge on that input. Hashes of distinct
  inputs are distinct terms. Diffie-Hellman and the KEM satisfy their agreement equations.
- Random choices (nonces, message ids, cut sizes, padding bytes, ephemeral keys), clock
  readings, socket results and everything the network delivers are arbitrary. Ephemeral
  X25519 keys of honest runs are distinct (`Agreement`).
- Fewer than 2^64 counters are asked of one session (`NoWrap`). `WrapReissues` shows what
  happens otherwise.

Where the code and its description differ, the code is followed:

- The wire type byte is recovered and never compared, and the associated data has it as a
  constant. Integrity is therefore stated of session, counter, frame type and payload.
- A refused reservation still advances the counter. `RefusalIsFinalUnlessWrapped` says exactly
  when a later one is granted after all.
- The installation of a session writes `current` and then `previous`. Two installations whose
  writes overlap leave an older session as `previous` (`OverlapMisplacesPrevious`);
  `InstallIsSafeIff` says what to check before beginning one.
- Opening a datagram reads `current`, tries it, and only then reads `previous`. With an
  installation in between it tries the old session twice and drops fresh traffic of the new
  one (`InstallationLosesFreshTraffic`), or an older one delivers (`OlderSessionDelivers`);
  `DeliveredIff` and `DeliveredIffReadAndUntouched` say exactly when a datagram is delivered.
- Two adjacent empty datagrams glued into one segmented send leave as one (`SameListIff`).
- The cover ratio is not validated. A negative one breaks the per-burst budget
  (`BudgetHoldsIff`).
- A late copy of a fragment reopens a completed message (`ReplayedFragmentReopens`).
- Length prefixes of the transcript are cast to 32 bits (`TruncatedLengthCollides`).

## Model

| member | source | states |
|---|---|---|
| `ReplayWindows.WindowRefinesHistory` | src/session.rs:107-126 | after any commits, the window holds their maximum and exactly those less than 2048 below it |
| `ReplayWindows.AcceptsIff` | src/session.rs:89-104 | the check accepts exactly what is above the highest, or less than 2048 below it and never committed |
| `ReplayWindows.AcceptsIffUntouched` | src/session.rs:89-104 | acceptance in one sentence: nobody committed the counter or one 2048 or more above it |
| `ReplayWindows.NeverTwice` | src/session.rs:89-126 | a committed counter is refused from then on, whatever was committed since |
| `ReplayWindows.ShiftedWordBit` | src/session.rs:64-85 | each bit of a shifted word is the bit `shift` places lower in the 2048-bit number, carries included |
| `ReplayWindows.ReplayWindow.ShiftWindow` | src/session.rs:56-86 | the in-place loop is one 2048-bit left shift for every amount: bit j becomes bit j - shift, or 0 |
| `ReplayWindows.ReplayWindow.SetBit` | src/session.rs:48-52 | sets one bit of the 2048 and leaves the others |
| `ReplayWindows.ReplayWindow.Check` | src/session.rs:89-104 | the bit test decides acceptance by the abstract window |
| `ReplayWindows.ReplayWindow.Commit` | src/session.rs:107-126 | the bitmap update is the commit of the abstract window |
| `Sessions.NonceInjective` | src/session.rs:270-276 | under one salt and cipher, distinct counters give distinct nonces |
| `Sessions.RefusalIsFinalUnlessWrapped` | src/session.rs:219-229 | after a refusal the next reservation is granted exactly when the add wrapped and landed low |
| `Sessions.WrapReissues` | src/session.rs:219-229 | a concrete wrap that hands out counter 0 twice |
| `Sessions.Session.ReserveCounters` | src/session.rs:219-229 | reservation as fetch-add and limit test, window untouched |
| `Sessions.Session.Decrypt` | src/session.rs:250-265 | check, open, re-check, commit: window and result as the specification says |
| `Sessions.Session.TryOpenObf` | src/session.rs:345-364 | trial decryption: not-for-this-session, error, or frame, with the window it leaves |
| `Sessions.SessionManager.ReserveOnCurrent` | src/session.rs:484-488 | the reservation and the session it was made on come as a pair |
| `Sessions.SessionManager.DecryptObf` | src/session.rs:528-540 | current first, then previous; which windows move and what is returned |
| `Sessions.SessionManager.NeedsRekey` | src/session.rs:546-567 | won exactly when the counter has reached the threshold, the last attempt is five seconds back and nobody holds the claim; otherwise nothing changes |
| `Sessions.SessionManager.InstallNewSession` | src/session.rs:575-585 | the new session is current, the replaced one previous, windows kept, claim released |
| `Sessions.SessionManager.RetirePrevious` | src/session.rs:587-589 | previous is emptied and nothing else changes |
| `Workers.UninterruptedTrial` | src/session.rs:250-265 | a worker whose check, open and commit steps run undisturbed ends exactly where trial decryption does |
| `Obf.UnmaskWire` | src/obf.rs:125-167 | masking is undone from the ciphertext sample: session id, counter and ciphertext come back |
| `Obf.WireBytes` | src/obf.rs:108-140 | each of the first 13 wire bytes is the header's XORed with the MAC of the last 16 bytes |
| `Obf.UnmaskedIff` | src/obf.rs:147-162 | what is read, and when, for every byte string |
| `Obf.SealWire` | src/obf.rs:125-140 | the XOR loop over the header yields the masked datagram |
| `Obf.Unmask` | src/obf.rs:147-162 | the receiver's XOR loop yields what unmasking means, and refuses short datagrams |
| `Obf.UnpackPacked` | src/obf.rs:173-238 | inner framing gives type and payload back whatever the padding, exactly when the length fits 16 bits |
| `Obf.UnpackIff` | src/obf.rs:222-238 | what unpacks is exactly a frame with any padding behind it; the two errors |
| `Obf.BucketIsLeast` | src/obf.rs:199-217 | bucketed padding goes to the least class that holds the frame and fits |
| `Obf.FrameTypeIff` | src/frame.rs:42-54 | the six types and no others |
| `Obf.WireLenBound` | src/obf.rs:199-217 | padding never pushes a datagram over 1280 bytes; full padding makes it exactly 1280 |
| `Obf.SafeTunMtuIsTight` | src/config.rs:729 | 1232 is the largest payload that fits 1280 bytes under both ciphers and every padding policy |
| `DataPath.DerivedKeysMirror` | src/session.rs:163-195 | the two ends of one secret send with what the other receives with |
| `Directions.DirectionKeys` | src/session.rs:394-432 | which label and salt each end sends and receives with; the keys of the two directions, and header and packet keys, differ under a derivation that separates labels |
| `Directions.NoncesOfDirectionsDiffer` | src/session.rs:173-177 | no nonce of one direction is a nonce of the other |
| `Directions.NonceBytes` | src/session.rs:270-276 | salt, little-endian counter, zeros |
| `Directions.NoNonceTwiceBothEnds` | src/session.rs:207-229 | over any two runs, one at each end, no two seals of a session share a nonce |
| `DataPath.DatagramLen` | src/session.rs:304-324 | the datagram's length by payload, cipher and policy |
| `DataPath.PeerDatagramOpens` | src/session.rs:304-364 | a datagram of the peer opens to its type and payload when its counter is acceptable, and is passed over otherwise |
| `DataPath.TrialDecides` | src/session.rs:528-540 | with a previous session or without: what opens under current is committed there and its frame or framing error returned; else the same for previous; anything else is an error and moves no window |
| `DataPath.TimelyTrafficIsDelivered` | src/session.rs:528-540 | for fixed sessions, the previous one there or not, and trials nobody interrupts: all traffic in any arrival order within the window is delivered in order |
| `Deliveries.DeliveredIff` | src/session.rs:528-540 | over every interleaving with workers, installations and retirements: a worker delivers a log entry exactly when a session it reads is the entry's and accepts the counter at the check and at the commit |
| `Deliveries.AcceptingIffUndisturbed` | src/session.rs:250-265 | between check and commit, acceptance is lost exactly when somebody commits the counter or one 2048 or more above it |
| `Deliveries.DeliveredIffReadAndUntouched` | src/session.rs:528-540 | the same told by the history, installations included: delivered exactly when the worker reads the entry's session and by its last step nobody has committed the counter or one 2048 or more above it |
| `Deliveries.PresentSessionDelivers` | src/session.rs:528-540 | traffic of the session that is current or previous when taken, with no installation or retirement meanwhile, is delivered exactly when nobody else used its counter up or left it 2048 behind |
| `Deliveries.RetiredIsNotRead` | src/session.rs:587-589 | after a retirement, until an installation finishes, no worker reads a previous session |
| `Deliveries.InstallationLosesFreshTraffic` | src/session.rs:528-540 | the run in which an installation between the two reads makes a worker drop fresh traffic of the current session |
| `Senders.NoNonceTwice` | src/session.rs:207-218 | no session key meets a nonce twice, across threads, batches and rekeys |
| `Senders.StepKeepsInv` | src/engine.rs:104-140 | every pin, add, seal and session switch keeps ranges disjoint, ordered and sealed at most once |
| `Submissions.CurrentIsLastSwitch` | src/session.rs:575-583 | the session a pin takes is the one last switched to |
| `Submissions.BatchesAreSubmissions` | src/session.rs:478-488 | in every run the reserved ranges are the granted adds in order, each with the packets its thread pinned, on the session current at the pin |
| `Submissions.LogIsSealSteps` | src/engine.rs:116-140 | the AEAD is used once a seal step, in their order, for that batch and index |
| `Submissions.SealsCarrySubmissions` | src/engine.rs:104-140 | every seal carries packet i of what its thread pinned, under the reserved counter plus i, with nonce, header and framing of the session current at the pin, whenever it is made |
| `DataPlane.CountersNeverReused` | src/session.rs:219-229 | over every run: counters unique and below the limit, ranges ordered, each batch sealed under the session it reserved on |
| `DataPlane.RefusedForGood` | src/session.rs:225-227 | over every run, a session that refused once refuses every later reservation of any size |
| `Receivers.MoveKeepsRInv` | src/session.rs:250-265 | every worker, installer and retirement step keeps windows equal to their commit histories |
| `DataPlane.DeliveredAtMostOnce` | src/engine.rs:147-153 | over every run: what is delivered was sealed by the peer, and each seal is delivered at most once |
| `DataPlane.OnlyOpenedDatagramsMoveWindows` | src/session.rs:250-265 | over every run a window changes only by committing a counter the peer sealed for it and never committed before |
| `DataPlane.PreviousIsReplacedIff` | src/session.rs:575-585 | in every reachable state: however the open installations finish, `previous` ends up empty or what `current` replaced, exactly when all open ones are of the current session (or none is and it is so already) |
| `DataPlane.InstallIsSafeIff` | src/session.rs:575-585 | a state just after an installation's first write settles that way exactly when no other installation was open |
| `DataPlane.OverlapMisplacesPrevious` | src/session.rs:575-585 | a concrete overlap that leaves the session before last as `previous` |
| `DataPlane.OnlyCurrentAndPreviousDeliver` | src/session.rs:528-589 | with installations one at a time, what delivers was current or previous when the worker read it; one session further back only when it was read between an installation's two writes |
| `Deliveries.OlderSessionDelivers` | src/session.rs:528-585 | the run in which a session two back delivers that way |
| `Deliveries.WireCarries` | src/session.rs:304-324 | the masked datagram of a log entry is what these theorems call its datagram |
| `Rekey.OneRekeyAtATime` | src/tunnel_loops.rs:671-726 | at most one initiator rekey is in flight and no claim is left behind, also when the peer's rekey releases it |
| `Rekey.ClaimsApart` | src/session.rs:546-567 | any two claims are five seconds apart for each step between them |
| `Rekey.WinsIffDue` | src/session.rs:546-567 | over every run: a tick wins exactly when the counter has reached the threshold, no rekey holds the claim and the last win is five seconds back; a win starts a rekey exactly when none is in flight |
| `Rekey.ClaimsWereDue` | src/tunnel_loops.rs:671-674 | every claim was won by a tick at or past the threshold |
| `Codec.EncodeThenDecode` | src/tunnel.rs:366-433 | 8192 bytes and the same message back exactly when the signature has at most 6923 bytes, whatever the padding |
| `Codec.DecodeThenEncode` | src/tunnel.rs:390-433 | what decodes is well-sized and encodes to the same bytes up to the padding |
| `Codec.Decode` | src/tunnel.rs:390-433 | the cursor stays in bounds on every byte string and reads the specified fields or refuses |
| `Codec.TypeIff` | src/tunnel.rs:219-231 | the four message types and no others |
| `Codec.TranscriptBytesBind` | src/tunnel.rs:435-456 | equal transcript bytes exactly when version, type, X25519 key, cipher id and KEM key or ciphertext are equal |
| `Codec.CookieLeavesTranscript` | src/net.rs:225-232 | an Init re-encoded with a cookie decodes to the same message but the cookie, with the same transcript |
| `Transcripts.Transcript.Absorb` | src/crypto.rs:263-266 | one more length-prefixed item in the hashed stream |
| `Transcripts.UniquelyDecodable` | src/crypto.rs:252-270 | equal hashed streams exactly when the lists of absorbed items are equal, for items below 2^32 bytes |
| `Transcripts.DecodableIff` | src/crypto.rs:263-266 | lists of items of up to n bytes are told apart by their streams exactly when n < 2^32 |
| `Transcripts.TruncatedLengthCollides` | src/crypto.rs:263-266 | beyond that bound two different lists share a stream |
| `Handshakes.HashTranscript` | src/tunnel.rs:537-568 | absorbing binding, Init and Response yields the transcript hash that the agreement theorems speak of |
| `Bytes.BindingIsSymmetric` | src/crypto.rs:93-108 | both sides compute the same identity binding |
| `Bytes.BindingNamesBoth` | src/crypto.rs:93-108 | equal bindings name the same two identities |
| `Bytes.BindingIsSorted` | src/crypto.rs:93-108 | the lesser identity comes first |
| `Aead.NegotiateIff` | src/aead.rs:88-95 | AEGIS exactly when both sides prefer it |
| `Handshakes.ChosenIff` | src/tunnel.rs:543-546 | the responder chooses AEGIS exactly when it prefers it and the Init asks for it |
| `Handshakes.RespondIff` | src/tunnel.rs:523-595 | on any bytes: answered exactly when an Init with a valid KEM key, a Diffie-Hellman result that is not zero, and a signature that fits |
| `Handshakes.FinalizeIff` | src/tunnel.rs:597-664 | on any bytes: established exactly on a Response with valid ciphertext, Diffie-Hellman result not zero, verifying proof, the confirmation tag of the very secret and transcript, and a known cipher |
| `Handshakes.ConfirmsIff` | src/tunnel.rs:668-704 | accepted exactly on a Confirm whose signature verifies over the answered transcript |
| `HybridAuths.Sign` | src/crypto.rs:207-213 | signs exactly when every leg does; the parts in order |
| `HybridAuths.Verify` | src/crypto.rs:215-230 | accepts exactly when every leg verifies its own full slice |
| `HybridAuths.SignThenVerify` | src/crypto.rs:206-234 | with fixed-length legs each slice is the leg's own signature, so the whole verifies exactly when each part does |
| `Handshakes.SameTranscriptSameSession` | src/tunnel.rs:523-664 | one transcript hash: same parties, same Init and Response, same session id and cipher, mirrored keys |
| `Handshakes.RespondOk` | src/tunnel.rs:523-595 | a response's transcript, KEM ciphertext, cipher and keys belong together |
| `Handshakes.FinalizeOk` | src/tunnel.rs:597-664 | an established initiator holds a signature that verifies as the peer's responder proof over its own transcript |
| `Agreement.RunKeepsInv` | src/tunnel.rs:495-704 | everything signed in any run was signed by a run of that party in that role |
| `Agreement.FinalizeAgrees` | src/tunnel.rs:597-664 | whatever the network does and whatever signature bytes verify: an initiator that establishes with an honest peer has exactly one agreeing responder run |
| `Agreement.ConfirmAgrees` | src/tunnel.rs:668-704 | a responder that establishes with an honest peer has exactly one initiator run that finalized the same transcript |
| `HonestRuns.UndisturbedEstablishesIff` | src/tunnel.rs:495-704 | with every message arriving as sent, both sides establish exactly when the messages fit, KEM key and ciphertext are valid, the Diffie-Hellman result is not zero and both signatures verify; and then they agree |
| `HonestRuns.BothSidesEstablish` | src/tunnel.rs:495-704 | that handshake is a run of the world of the agreement theorems, ending with both ends established |
| `Reassembly.ReachableTables` | src/tunnel.rs:97-195 | after any fragments and prunes: at most 64 strict partials with indices below total, at most 64, and chunks of at most 1024; no push ever reported a missing fragment |
| `Reassembly.PushKeepsBounds` | src/tunnel.rs:133-185 | one push keeps these bounds, is refused exactly for a bad header, size or total, and then changes nothing |
| `Reassembly.PruneKeepsBounds` | src/tunnel.rs:190-195 | one prune keeps these bounds |
| `Reassembly.PruneKeepsIffYoung` | src/tunnel.rs:190-195 | a prune keeps a message exactly when its first fragment is younger than the age, whatever came later |
| `Reassembly.PushLeavesOthers` | src/tunnel.rs:133-185 | a fragment leaves other messages as they were, and a new message at a full table is ignored |
| `Reassembly.Reassembler.PushParts` | src/tunnel.rs:133-185 | the method on the maps is the specified push and keeps the bounds |
| `Reassembly.ReassemblesInAnyOrder` | src/tunnel.rs:133-185 | any order, duplicates, other messages and prunes between: the message comes out when its last missing fragment arrives and never before |
| `Reassembly.ReplayedFragmentReopens` | src/tunnel.rs:133-185 | a late copy opens a fresh partial |
| `Reassembly.SplitFits` | src/tunnel.rs:80-95 | a cleartext message splits into what the reassembler takes exactly for 1 to 65536 bytes |
| `Reassembly.ClearFragmentIsOwn` | src/tunnel.rs:80-131 | cleartext fragments are read back as the message's own |
| `HsObf.VariableChunks` | src/hsobf.rs:159-169 | the cut concatenates to the blob; all but the last piece have 512 to 1024 bytes |
| `HsObf.CutCount` | src/hsobf.rs:159-169 | a blob of L > 1024 bytes makes between ceil(L/1024) and ceil((L-1024)/512)+1 pieces |
| `HsObf.HandshakeCut` | src/hsobf.rs:43-53 | a handshake message makes 9 to 16 fragments |
| `HsObf.WithinCapIff` | src/hsobf.rs:125-126 | every cut stays within the reassembler's 64 exactly for messages up to 33252 bytes |
| `HsObf.UnmaskFragmentWire` | src/hsobf.rs:174-192 | header masking of fragments is undone |
| `HsObf.UnmaskFragmentIff` | src/hsobf.rs:174-192 | what unmasks is exactly a fragment with its index below a count of 1 to 64 |
| `HsObf.FragmentBytes` | src/hsobf.rs:93-153 | the wire byte by byte, masked with the front of the MAC of the id |
| `HsObf.FrameEventIff` | src/net.rs:176-182 | on the cleartext path exactly handshake frames give fragments |
| `HsObf.SealAndFragment` | src/hsobf.rs:110-152 | the loop yields exactly the masked fragments of a cut of the sealed message |
| `HsObf.PipelineUndoesItself` | src/net.rs:94-183 | obfuscated (seal, cut anywhere, mask) or in clear frames; deliver in any order with noise, reassemble, open: the message, once complete and not before |
| `HsObf.SentDatagramsAreOwn` | src/net.rs:94-107 | what was sent is what that theorem calls the message's own fragments |
| `HsObf.DeriveKeyIsSymmetric` | src/hsobf.rs:58-87 | both ends derive the same obfuscation key |
| `HsObf.DeriveKeyIff` | src/hsobf.rs:58-87 | a pre-shared secret alone decides the key; without one the two identities do |
| `Cookies.CookieInputBinds` | src/crypto.rs:322-335 | the MAC's input names address family, address, port and time window |
| `Cookies.SameCookie` | src/net.rs:67-74 | folding the XORed bytes decides equality |
| `Cookies.CookieLifetime` | src/net.rs:65-77 | a cookie is accepted exactly in its own window and the next |
| `Cookies.GoodFor120DeadAt240` | src/net.rs:32-34 | good for 120 seconds from issue, dead 240 seconds after |
| `Cookies.RespondsOnlyToRoutable` | src/net.rs:330-365 | over every run with an unforgeable MAC, expensive work only for a source that was itself sent a cookie in this window or the last |
| `Cookies.ReturnedPeerIsRoutable` | src/net.rs:280-411 | the peer returned was challenged, then sent an Init with a good cookie, then the Confirm of that Init |
| `Cookies.ReturnsIff` | src/net.rs:280-411 | returned exactly when an Init with a good cookie was answered, then only others spoke and nothing timed out, then a good Confirm came from the same peer |
| `Cookies.ListeningAnswers` | src/net.rs:319-365 | while listening: respond, challenge with the source's own cookie, or nothing, and exactly when |
| `Cookies.TakesResponseIff` | src/net.rs:225-237 | what is no challenge is taken for the Response, whole |
| `Cookies.EchoIsAnswered` | src/net.rs:218-236 | one challenge and echo within 120 seconds reaches `respond` with the same handshake |
| `RekeyDrivers.AnswerIff` | src/rekey.rs:65-127 | which message the retry loop acts on, told without the loop, with handshake obfuscation or without |
| `RekeyDrivers.FirstMessageIff` | src/rekey.rs:75-95 | an attempt's message is the first the reassembler gives out over all that arrives |
| `RekeyDrivers.FairAttemptIsAnswered` | src/rekey.rs:65-95 | an attempt in which all datagrams of the peer's message arrive, in any order and before another message completes, is answered with that message |
| `RekeyDrivers.RekeyAsInitiator` | src/rekey.rs:42-127 | installs exactly when finalize establishes and the Confirm goes out; failure leaves sessions and claim alone |
| `RekeyDrivers.RekeyResponderConfirm` | src/rekey.rs:172-194 | installs exactly when the Confirm verifies, and then the session of the answered Init |
| `Pipeline.StepKeepsInv` | src/tunnel_loops.rs:243-324 | every step of submitter, jobs and sender keeps all unresolved jobs queued once and in order |
| `Pipeline.OutputIsInOrder` | src/tunnel_loops.rs:269-324 | in every reachable state the output is the successful batches of a prefix of the submissions, in order |
| `Pipeline.WireCarriesPackets` | src/engine.rs:116-140 | packet by packet: the wire is the packets of the sealed batches among the flushed ones, packet j of a batch under its session and first counter plus j |
| `Pipeline.JobsAreSubmissions` | src/tunnel_loops.rs:243-255 | the jobs are the granted submissions in order, with their packets and counters, and end as they finished |
| `Pipeline.CountersIncreaseOnWire` | src/tunnel_loops.rs:227-255 | on the wire every session's counters strictly increase |
| `Pipeline.SenderCompletes` | src/tunnel_loops.rs:269-324 | once the channel is closed and all jobs finished, the sender ends with everything sealed on the wire |
| `Pipeline.ClosedRunCompletes` | src/tunnel_loops.rs:261-287 | a run that closes the channel and finishes every granted submission ends with exactly the packets of the sealed ones on the wire |
| `Pipeline.StoppedIsComplete` | src/tunnel_loops.rs:281-287 | a sender that has stopped has resolved every submission |
| `Pipeline.WireOrderIsNeverRefused` | src/tunnel_loops.rs:227-242 | packets of a session that arrive in wire order, with any losses, are never refused by the peer's window |
| `Pacers.EmitsByHistory` | src/pacer.rs:93-118 | what a slot emits, as a function of the history alone; constant rate is never idle |
| `Pacers.BurstIsBudgeted` | src/pacer.rs:49-56 | the covers of a burst stay within per-trigger plus ratio times reals, for ratios not negative |
| `Pacers.BudgetHoldsIff` | src/pacer.rs:93-118 | the exact shapes for which the budget holds of every run |
| `Pacers.TriggersBounded` | src/pacer.rs:97-103 | triggers over a span T number at most T/cooldown + 1 |
| `Pacers.TotalCoverBounded` | src/pacer.rs:93-118 | total cover over any run is bounded by span, cooldown and real packets |
| `Pacers.Pacer.NextEmit` | src/pacer.rs:93-118 | the state update keeps the books of the history and emits what the history owes |
| `PacedLoops.PacedLoop.Stage` | src/tunnel_loops.rs:578-587 | the queue takes what it has room for, in order, and drops the tail |
| `PacedLoops.PacedLoop.Tick` | src/tunnel_loops.rs:610-653 | exactly `burst` datagrams at constant rate, at most that otherwise; order kept; cover paid for and never before a queued packet |
| `PacedLoops.NothingIsLost` | src/tunnel_loops.rs:578-653 | arrived = sent + failed + queued + tail-dropped, and what is sent is in arrival order |
| `PacedLoops.SlotAdds` | src/tunnel_loops.rs:619-645 | every datagram of a slot is a fragment, a packet or cover |
| `PacedLoops.SlotIsUniform` | src/tunnel_loops.rs:612-618 | real and cover datagrams all have 1280 bytes exactly when no packet is too large |
| `PacedLoops.TurnIsFair` | src/tunnel_loops.rs:619-645 | one round: a fragment first, then a packet, then cover, each accounted for |
| `Udp.GroupEqualSized` | src/udp.rs:248-261 | the list in order, in maximal runs of equal size |
| `Udp.BatchSend` | src/udp.rs:148-196 | segments of at most the limit, in order, up to the first refused send |
| `Udp.SendSizes` | src/udp.rs:166-185 | one datagram a send without GSO, up to the limit with it, only the last send shorter |
| `Udp.WireCarriesDatagrams` | src/udp.rs:148-196 | grouped and segmented in any way, the wire carries the datagrams in order, and the very list exactly when nothing is glued or no two empty ones are adjacent |
| `Udp.SameListIff` | src/udp.rs:148-196 | it is the very list under every segment limit exactly when no two empty datagrams are adjacent |
| `Udp.SendInRuns` | src/tunnel_loops.rs:314-320 | a list sent without refusal is on the wire in order, whole but for glued empty datagrams |
| `Udp.SplitUndoesGlue` | src/udp.rs:228-243 | a received message splits by its stride into what was coalesced |
| `Udp.SplitCovers` | src/udp.rs:228-243 | whatever the metadata: the pieces are the received bytes up to the buffer's end, cut at the stride |
| `Udp.ReceiveUndoesCoalescing` | src/udp.rs:228-243 | the counted messages, and no more, give back their datagrams |
| `Udp.SentIsReceived` | src/udp.rs:148-243 | whatever the segment limit and however the network coalesces, the receiver walks the list that was sent |

## Left out

- Real cryptography: HKDF, HMAC, SHA-256, X25519, ML-KEM, ML-DSA and the ciphers are ideal terms or parameters; zeroization and constant-time behaviour are not modelled.
- Indistinguishability of the wire image and of timing: statistical claims, not properties of states.
- tokio, rayon, sockets, TUN devices and panics in workers: they appear as steps, queues and job outcomes only.
- Wire order across a live profile switch, and the direct sends of keepalive, Profile and Close frames, which use other senders than the ordered one.
- The size of rekey fragments that ride in paced slots: they keep their own sizes, so `SlotIsUniform` speaks of real and cover datagrams.
- Rounding of the pacer's f32 allowance: it is a real number here, and the unlimited budget is an ordinary large one.
- Liveness of rekeys and handshakes: lost Confirms and crossing rekeys are retried or given up by the code.
- The cleartext data path (`encrypt`, `decrypt` by session id, `Frame`): it would repeat the obfuscated one without the masking. Cleartext handshake fragments are modelled.
- Cipher benchmarking and CPU detection: the preferred cipher is a parameter.
- The initiator's retry loop of the first handshake: `InitiatorReacts` is its reaction to one message; the resending around it is that of the rekey driver.
- Roaming, statistics, dead-peer detection, profile following, configuration parsing, command line, GUI and Android code: I/O plumbing.
- Handshake message constructors' random fields are parameters of `Respond` and `Start`; a party is its Ed25519 public key, since the ML-DSA leg contributes nothing to the binding.
- WrapReissues: the run theorems assume fewer than 2^64 reservations per session, which the code does not enforce.
- OnlyCurrentAndPreviousDeliver: assumes installations that do not overlap, because `OverlapMisplacesPrevious` shows that overlapping ones break it; `OlderSessionDelivers` shows why it admits a session two back.
- TimelyTrafficIsDelivered: fixed sessions, no installation or retirement, each trial undisturbed, and the current session's key does not open the previous session's ciphertext. What holds without these is `DeliveredIffReadAndUntouched`.
- PresentSessionDelivers: assumes that no other session's log entry has the same ciphertext, and that nothing is installed or retired while the worker is at it, because `InstallationLosesFreshTraffic` shows the loss otherwise.
- Zero-length segment sizes: a send whose segments are empty is taken to emit one empty datagram, as an unsegmented send does; what the kernel does with a zero size is not part of this model.
- Errors of the cleartext handshake path end an initiator's first handshake and a responder's wait for its Confirm; `PushHandshake` drops them, as the rekey driver and the responder's wait for an Init do.
- ReassemblesInAnyOrder: assumes that nobody else uses the message's id, that the table has room at its first fragment and that no prune removes it; the code loses the message otherwise.
- UniquelyDecodable: assumes items below 2^32 bytes, the bound beyond which `TruncatedLengthCollides` applies.
