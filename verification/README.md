# A verified model of the replicated file-sync server

The repository is a file-sync server in C. A manager keeps, for each user, up to two sessions,
a folder and an index of name and CRC, and passes every change on to the other session and to
backup servers over a packet protocol. When the manager's heartbeats stop, the backups elect a
new one with a bully election. This project models that logic in Dafny 4.11 and proves what it
keeps and what it does not. `dafny verify dfyconfig.toml` checks all of it.

## Layers

| files | what they model |
|---|---|
| `Bytes`, `Seqs`, `ServerCommon` | bytes, machine words, C strings, sequence vocabulary, addresses |
| `Crc`, `CrcBits`, `CrcPolynomial` | the bitwise CRC-32: the loops, the linear view, the polynomial view |
| `Wire`, `FileTransfer` | packet framing over short reads; files as announcement and chunks |
| `Text`, `EventText` | `%d`, `strtok_r` and friends; the text of events |
| `Streams`, `EventStream` | reading items from a stream that may stop anywhere; the events from manager to backup |
| `SyncQueue`, `ReplicaList`, `ContextTable` | the ring buffer, the list pruned while it is walked, the chained hash table |
| `UserState`, `UserContext` | sessions, index and folder of a user, as values and as mutable objects |
| `Replication`, `Failover`, `NextTerm` | the manager's operations, their events and the backup that replays them; a manager that dies at any byte, and the term of the next one |
| `Echo`, `EchoCrossing`, `EchoConvergence` | how one change, two at once, and any number of them travel between clients that all send back what they receive |
| `EchoOverwrite`, `EchoRemoval`, `EchoRuns` | two changes in a row by one session: when the second survives the echo of the first, when the echoes end, and runs in which it is lost |
| `Membership` | join announcements |
| `Election`, `ElectionProgress`, `ElectionTermination`, `ElectionRuns` | the election as a step system: agreement, who wins, that it ends, runs that go wrong |
| `ElectionServer` | one server's handlers on its flags and its linked list |

Code that changes state step by step is a method over classes and arrays, proved against
functions on values; the theorems are about those functions, over every input, every run or
every interleaving. The layers compose: the drained mesh is the start of an election phase
(`Membership.FailoverElectsTheHighest`), and framing, chunking and event text carry replication
down to the bytes (`Replication.BytesMirrorManager`, `Failover.BackupAtAnyByte`).

## Where the code does not do what it is for

Each of these is a lemma with the input or the run, beside the exact condition under which the
property does hold.

- Two managers. `is_manager_running` reads `is_election_running` and answers 0 when it is up
  (src/server/serverRoles.c:43-51), so the heartbeat monitor opens a second round just because one is
  running (src/server/serverRoles.c:168-183). The two rounds share an answer flag; the first to end
  clears it and the second wins below a live manager (`ElectionRuns.OverlappingRoundsBreakAgreement`).
  A round of the monitor is safe if and only if it is the only one of its server or no live server is
  above it (`ElectionRuns.SafeIffNoOverlap`), and without the unsafe ones agreement holds in every run
  (`Election.Agreement`). From every state in which a server below a live one has two sleeping rounds the
  cluster can go on to break it (`ElectionRuns.SecondRoundBreaksAgreement`).
- A lost round. The answer flag is cleared when a round ends, not when it begins, and the
  COORDINATOR handler raises it too, so a flag left over makes the highest server lose its first
  round to nobody (`ElectionRuns.StaleFlagLosesARound`). With no flag left over, the highest survivor
  can still lose its round to a server that answered it and has crashed since
  (`ElectionRuns.LateAnswerLosesARound`). `ElectionProgress.Progress` is the equivalence: the highest
  survivor always ends a round, and is the manager exactly if one of its rounds ended unanswered.
- A late packet. A session that has begun to exit may still finish one packet: the folder changes
  and the event goes out, but the manager's index does not change while the backup's does
  (`Replication.LateUploadDiverges`). `Replication.StepAgreement` and `Replication.StepMirrors`
  are equivalences.
- A manager that stops inside an upload. The backup takes the chunks that arrived for the whole
  file. `EventStream.CutItem` says for every byte of every item what is made of its beginning, and
  `Failover.BackupAtAnyByte` when the backup still mirrors the manager as it was after the operations
  whose items went out whole: exactly if the cut is not inside the data of an upload, or what arrived
  is what the file held before.
- A file that is gone before it is sent on. The reader takes the next event in its place
  (`EventStream.MissingFileSwallowsAnEvent`), and the code then builds a path from the null file name
  (src/server/server.c:616) and takes its length (src/util/communication.c:326), which kills the backup.
  An upload is found if and only if its file is in the folder (`EventStream.FoundIffInFolder`).
- A manager that stops between its sends. `notify_replicas` serves one replica after the other
  (src/server/replica.c:199-219), so the backups can be left at different items
  (`NextTerm.LaggingBackupDiverges`), and the next manager sends nobody what is missing: only what a
  later event touches comes together. A file of a user is the same at both at the end of a run of the
  next term if and only if it was at the start or an event of the run is about it
  (`NextTerm.NextTermReplicates`); the follower mirrors the new manager if and only if that covers every
  file (`NextTerm.CaughtUpIffTouched`).
- CRC collisions. A change that keeps the CRC stops at the server
  (`Echo.SomeWritesStopAtTheServer`); changes inside 32 bits never do (`Echo.BurstReachesAll`).
  `Echo.EchoQuiesces` is the equivalence.
- Two changes at once. Echoes die out after one change. When both sessions change a file at the
  same moment the echoes can go round for ever, exactly if the index tells the two changes apart: two
  writes, exactly if their CRCs differ (`EchoCrossing.EchoesGoOnIffTold`).
- Two changes in a row. The echo of a session's first change can reach the server behind the second, is
  news there and goes out again, and everyone ends with the older state: even a session that has received
  the first write may still have to send it back (`EchoRuns.ReceivedIsTooEarly`), and a file that is
  deleted and written anew at once is lost (`EchoRuns.RewrittenFileIsLost`). With two sessions, for
  changes to any contents, removals included: the second change survives if it is everywhere whenever all
  has come to rest, and the moment it is made is calm if what the author has yet to report is no news and
  the other session rests with the version the server knows. In a calm moment it survives if and only if
  the index tells it from that version, or it is that version; otherwise if and only if it is the first
  change again or a removal (`EchoOverwrite.SecondChangeSurvivesIff`). The echoes can go round for ever if
  and only if the moment is not calm and the index tells the two changes apart
  (`EchoOverwrite.SecondChangeGoesOnIff`).
- Sessions that stay different. Whatever the sessions of a user change, and whenever, they are all equal
  to the server whenever everything has come to rest, if and only if the CRC tells apart all contents that
  they may write, or there is one session only (`EchoConvergence.ConvergesIffToldApart`).
- Text fields. `strtok_r` merges delimiters (`Text.TokensOfFields`), so an event comes back exactly if
  its strings are non-empty and free of the bar character (`EventText.EventRoundTrip`).
- A full sync buffer of a session that has exited never drains, and its producer waits for good: ten
  entries and the exit lead there (`SyncQueue.FullBufferOfExitedSession`). A producer can still get
  through if and only if the session is active or fewer than ten entries wait
  (`SyncQueue.ProducerGetsThroughIff`).
- A user name with a byte above 127 is hashed through a wrapped `size_t`. `ContextTable.HashIsPolynomial`
  is the equivalence, `ContextTable.WrapMatters` an instance.

## Assumptions

- A link delivers an ANSWER to the server whose ELECTION it answers, as it is meant to: it goes back on
  the connection the ELECTION came in on, and in the code nobody reads the other end, for the sockets
  opened at src/server/serverRoles.c:325-335 are written to and only accepted ones are read. The
  three-second sleep of a round is long enough: it ends only after the answers of the live higher peers
  have been handled.
- The monitor may open a round at any time. In the code it waits for the round it has opened
  (src/server/serverRoles.c:182), so its second round is always beside one that an ELECTION opened.
- An election phase has fixed lists and a dead old manager, and no COORDINATOR has been handled yet.
- An operation of the manager and its notification are one step. New sessions of a user have an
  address no live session of that user has.
- The walk along a hash chain stops at its end, as it is meant to (src/util/contextHashTable.c:21
  tests the wrong variable).
- A `read` returns at least one byte while the peer still has something to say; `send` writes a whole
  packet. `sizeof(Packet)` is 8 and its payload starts at offset 6; words are little endian; `char`
  is signed and `size_t` has 64 bits.
- Opening, writing and removing files in the folder succeed, and paths fit `PATH_MAX`.

## Model

| member | source | states |
|---|---|---|
| `Election.NewEvents` | src/server/election.c:110-141 | a round sends ELECTION to every higher id of the list and to nobody else, and sleeps once, unless nobody is higher |
| `Election.StepKeepsInv` | src/server/election.c:129-241 | every protocol step keeps: managers are above all live servers, below a live server the running flag counts the sleeping rounds, and a sleeper still waits for each live higher server or has its answer |
| `Election.AgreementBrokenExactlyBy` | src/server/election.c:145-160 | a step puts a manager below a live server if and only if it ends a sleep with a clear flag below a live server |
| `Election.Agreement` | src/server/election.c:110-241 | for any number of servers and any interleaving in one phase in which the monitor opens no second round beside a running one below a live server, a live manager has the highest live id, and there is at most one |
| `ElectionProgress.HighestCanWake` | src/server/election.c:145-151 | the highest live server never waits for an answer, so its sleep can always end |
| `ElectionProgress.HighestHadARound` | src/server/election.c:110-231 | when a cascade opened by a live server has drained, a round of the highest survivor has ended, whoever crashed on the way |
| `ElectionProgress.ManagerIffUnanswered` | src/server/election.c:148-162 | in any run, a server becomes manager if and only if one of its rounds ended with no ANSWER since its previous one, and none left over |
| `ElectionProgress.HeardFromAbove` | src/server/election.c:209-215 | whoever answers a server is above it and was live when the phase began |
| `ElectionProgress.Progress` | src/server/election.c:129-164 | overlapping rounds or not, when the cascade has drained, the highest survivor has ended a round and is the manager if and only if one of its rounds ended unanswered; so it is, with no leftover flag and no answer |
| `ElectionProgress.ProgressFromTheTop` | src/server/election.c:129-164 | a server that is highest from the start is the manager if and only if it met no leftover flag or has had two rounds |
| `ElectionTermination.StepDescends` | src/server/election.c:110-231 | every step but a heartbeat timeout lowers a measure exponential in the number of higher ids, however often lists repeat an id |
| `ElectionTermination.CascadeTerminates` | src/server/election.c:110-231 | from any state whatever, the runs with no new heartbeat timeout have a common bound |
| `ElectionRuns.OverlappingRoundsBreakAgreement` | src/server/serverRoles.c:168-183 | a run of the monitor as written that ends with two live managers |
| `ElectionRuns.SecondRoundBreaksAgreement` | src/server/serverRoles.c:168-183 | from any state where a live server below another one has two sleeping rounds, a continuation makes it a manager below that one |
| `ElectionRuns.SafeIffNoOverlap` | src/server/serverRoles.c:168-183 | after a round of the monitor, managers stay above all live servers in every continuation without another unsafe one, if and only if no other round of its server was running or no live server is above it |
| `ElectionRuns.StaleFlagLosesARound` | src/server/election.c:148-154 | a run after which the only candidate is still a backup, because of a leftover flag |
| `ElectionRuns.LateAnswerLosesARound` | src/server/election.c:148-154 | a run after which the highest survivor is still a backup, because a server answered it and crashed |
| `ElectionServer.ElectionServer.SendElectionMsg` | src/server/election.c:110-127 | the walk over the linked list sends exactly the ELECTIONs of the step system, in list order |
| `ElectionServer.ElectionServer.StartElection` | src/server/election.c:129-143 | with nobody above in the list the server is manager, has decided and runs no round; otherwise it runs one and has sent ELECTION to all above; the answer flag stays |
| `ElectionServer.ElectionServer.FinishElection` | src/server/election.c:148-162 | the round is over and the flag down; the server becomes manager and decides exactly if the flag was down before |
| `ElectionServer.ElectionServer.ReceiveElection` | src/server/election.c:209-233 | always answers, and opens a round unless one is running |
| `ElectionServer.ElectionServer.ReceiveAnswer` | src/server/election.c:234-241 | the answer flag goes up and nothing else changes |
| `ElectionServer.ElectionServer.ReceiveCoordinator` | src/server/election.c:243-271 | the leader leaves the list, a leader is decided, the answer flag goes up; mode and round stay |
| `ElectionServer.NextPhase` | src/server/election.c:243-271 | when an election has ended and its manager dies after its COORDINATOR was handled, the followers are at the start of a phase again, so agreement holds failover after failover; all of them, and the manager, have decided |
| `ElectionServer.ManagersAreDecided` | src/server/election.c:139-162 | in any run, whoever has become manager has decided, so its role loop ends |
| `ElectionServer.NextPhaseFlags` | src/server/election.c:243-255 | in that phase a follower meets a leftover flag if and only if its list still names someone above it; with only live servers listed the highest one does not |
| `Membership.MeshCovers` | src/server/serverRoles.c:96-125 | for any interleaving of joins and deliveries, a backup's list plus its pending announcements are the manager's list without itself, as multisets |
| `Membership.DrainedMesh` | src/server/serverRoles.c:307-339 | with its channel drained, a backup's list holds every other registered id exactly once and never its own |
| `Membership.MeshOrder` | src/server/serverRoles.c:96-125 | the manager lists replicas newest first; a drained backup lists those that joined after it newest first, and then those before it oldest first |
| `Membership.MeshStartsPhase` | src/server/serverRoles.c:96-125 | a drained mesh without its manager, with any survivors, is the start of an election phase |
| `Membership.FailoverElectsTheHighest` | src/server/serverRoles.c:156-190 | joins, drained announcements, a dead manager and any election steps without such an overlap: a manager among the survivors has the highest id |
| `ReplicaList.ReplicaList.AddReplica` | src/server/replica.c:47-67 | a new socket goes to the front, a known one changes nothing; sockets stay distinct |
| `ReplicaList.ReplicaList.RemoveNode` | src/server/replica.c:76-92 | unlinks exactly the node at its position and returns the next one |
| `ReplicaList.ReplicaList.RemoveReplicaById` | src/server/replica.c:109-133 | removes the first replica of that id, and only that, or changes nothing if there is none |
| `ReplicaList.ReplicaList.NotifyReplicas` | src/server/replica.c:190-225 | one pass ends with the pruned list, returns the number of positions whose send was OK and lowers the count by the number of those whose socket was closed |
| `ReplicaList.PruneMembers` | src/server/replica.c:199-219 | exactly the replicas whose send found the socket closed are gone |
| `ReplicaList.PruneKeepsOrder` | src/server/replica.c:199-219 | the survivors keep their order |
| `ReplicaList.PruneKeepsSockets` | src/server/replica.c:190-225 | sockets stay distinct |
| `Crc.ComputeCrc32` | src/util/connectionManagement.c:8-33 | the buffered loops compute the CRC of the whole file for every way it is cut into reads; a missing file counts as zero |
| `CrcBits.RegisterBits` | src/util/connectionManagement.c:18-29 | on bits, byte for byte, the loop is the shift register fed with the bits of the file |
| `CrcBits.CrcFits` | src/util/connectionManagement.c:8-33 | the CRC is a 32-bit word |
| `CrcBits.PolyIsGenerator` | src/util/connectionManagement.c:24 | the constant is the CRC-32 generator, bit-reversed |
| `CrcBits.CrcIsAffine` | src/util/connectionManagement.c:8-33 | crc(a) xor crc(b) xor crc(c) = crc(a xor b xor c) for equal lengths |
| `CrcBits.BurstDetected` | src/util/connectionManagement.c:8-33 | files of equal length that agree outside 32 consecutive bits have equal CRCs if and only if they are equal |
| `CrcBits.CollisionExists` | src/util/connectionManagement.c:8-33 | the bound is sharp: to every file of at least five bytes there is another of its length and CRC |
| `CrcPolynomial.Division` | src/util/connectionManagement.c:22-27 | long division by the generator: quotient times generator plus remainder is the dividend |
| `CrcPolynomial.DivisionUnique` | src/util/connectionManagement.c:22-27 | and they are the only ones |
| `CrcPolynomial.CrcIsRemainder` | src/util/connectionManagement.c:8-33 | the CRC is the remainder of the message with its first 32 bits complemented, followed by 32 zeros, and complemented itself |
| `CrcPolynomial.EqualCrcIffDivisible` | src/util/connectionManagement.c:8-33 | two files of one length have the same CRC if and only if their difference is a multiple of the generator |
| `Wire.CreatePacket` | src/util/communication.c:56-71 | a payload that fits 16 bits is kept whole, a longer one is cut |
| `Wire.FrameLayout` | src/util/communication.h:33-37 | offset and byte order of type, length, payload and the two zero bytes, as numbers |
| `Wire.EncodeParts` | src/util/communication.c:56-71 | the bytes sent hold type, length and payload, followed by two zero bytes |
| `Wire.ReadPacket` | src/util/communication.c:73-126 | for every sequence of short reads, the buffer is the next packet and the stream goes on right after it; a stream that ends first gives the closed packet |
| `Wire.FramingRoundTrip` | src/util/communication.c:73-126 | every list of packets comes back with its types and payloads, 8 + length bytes each, and nothing of what follows is touched |
| `FileTransfer.CountIsChunks` | src/util/communication.c:205-215 | the announced count is the number of data packets |
| `FileTransfer.ChunkLayout` | src/util/communication.c:222-260 | piece i begins at byte 1000 i and ends 1000 bytes later or with the file |
| `FileTransfer.PacketLayout` | src/util/communication.c:195-260 | a file goes out as a packet of type 1 that announces one packet per 1000 bytes or part of them, and those packets, of type 0 |
| `FileTransfer.SendFile` | src/util/communication.c:195-252 | writes the announcement and the chunks for every size, the feof loop included; a missing file writes nothing |
| `FileTransfer.WritePacketsToFile` | src/util/communication.c:129-148 | the file is the joined payloads of the announced number of packets |
| `FileTransfer.ReceiveFile` | src/util/communication.c:276-287 | name from the announcement, content from the packets behind it |
| `FileTransfer.FileRoundTrip` | src/util/communication.c:195-287 | name and bytes come back for every content, and what follows is left in the stream |
| `FileTransfer.CutTransferTruncates` | src/util/communication.c:129-148 | a stream that ends inside data packet j leaves the first 1000 j bytes as the whole file |
| `FileTransfer.CutDataIsKept` | src/util/communication.c:129-148 | wherever the data stops, the file is cut to the full chunks that arrived |
| `FileTransfer.Transfer` | src/util/communication.c:195-287 | sender and receiver together, over any short reads, reproduce name and content |
| `Text.TokenOfField` | src/server/replica.c:325-387 | `strtok_r` gives a non-empty field up to its delimiter and leaves the rest |
| `Text.TokensOfFields` | src/server/replica.c:325-387 | of any list of joined fields, `strtok_r` gives exactly the non-empty ones, in order |
| `Text.AddressRoundTrip` | src/server/replica.c:305-360 | printed addresses and ports are read back |
| `Text.PtonExactly` | src/server/replica.c:350-360 | a text is read as four octets if and only if it is what is printed for them |
| `Text.DecimalMeans` | src/server/replica.c:305-325 | a printed number is its sign and the decimal digits of its value, without leading zeros |
| `Text.ScanIntOfDecimal` | src/server/election.c:31-83 | printed numbers are read back, whatever non-digit follows |
| `EventText.SessionEventText` | src/server/replica.c:235-256 | the exact text of a connect (code 0) and a disconnect (code 1) |
| `EventText.FileEventText` | src/server/replica.c:270-288 | the exact text of an upload (code 2) and a delete (code 5) |
| `EventText.ReplicaEventText` | src/server/replica.c:258-303 | the exact text of a join (code 3) and a heartbeat (code 4) |
| `EventText.EventRoundTrip` | src/server/replica.c:305-387 | an event of the constructors is restored if and only if its strings are non-empty and free of the bar character |
| `EventText.MissingFields` | src/server/replica.c:327-387 | a text that ends too early is an event with zeros and nulls, without any kind a connect |
| `EventText.IdAndPortRoundTrip` | src/server/serverRoles.c:307-312 | id and port travel in the user field of a join, negative ones too |
| `EventText.ElectionMessageText` | src/server/election.c:13-29 | the exact text of ELECTION (code 0), ANSWER (1) and COORDINATOR (2) |
| `EventText.ElectionEventRoundTrip` | src/server/election.c:13-83 | every election event is restored |
| `EventStream.SendEvent` | src/server/replica.c:154-176 | writes the event, then the file of an upload if it is there, or the delete packet |
| `EventStream.SendItem` | src/server/replica.c:154-176 | with the uploaded file in the folder, writes exactly the bytes of the item |
| `EventStream.ReadFile` | src/util/communication.c:304-323 | takes one packet and, for an announcement, the data packets it announces |
| `EventStream.ReadItem` | src/server/serverRoles.c:272-305 | one round of the backup's loop takes the next item from the stream, over any short reads |
| `EventStream.ItemText` | src/server/replica.c:154-176 | the exact text with which each item begins |
| `EventStream.ItemRoundTrip` | src/server/replica.c:154-176 | an item is read back, whatever follows it |
| `EventStream.PacketTypeDecides` | src/server/serverRoles.c:290-305 | a delete event followed by a file is read as an upload of that file: the packet behind the event decides |
| `EventStream.StreamRoundTrip` | src/server/serverRoles.c:272-305 | every sequence of heartbeats, connects, disconnects, joins, uploads and deletes is decoded as itself |
| `EventStream.MissingFileSwallowsAnEvent` | src/util/communication.c:195-204 | after the event of an upload whose file is gone, the reader takes the next event for the file and finds no name in it |
| `EventStream.FoundIffInFolder` | src/util/communication.c:195-204 | the reader finds an upload, with what the file now holds, if and only if the file is in the folder when it is sent on; otherwise the event behind it is used up |
| `EventStream.CutItem` | src/server/serverRoles.c:272-305 | of an item cut at any byte the backup finds an item if and only if an upload was announced in full, and then the file cut to the chunks that arrived |
| `EventStream.CutStream` | src/server/serverRoles.c:272-305 | the beginning of any stream of items, cut at any byte, gives the whole items and at most one shortened upload |
| `SyncQueue.PutAppends` | src/util/fileSync.c:22-30 | an entry goes to the end of the queue and overwrites none that is undelivered |
| `SyncQueue.TakeRemovesFirst` | src/util/fileSync.c:51-53 | the oldest entry leaves, the others stay |
| `SyncQueue.FileSyncBuffer.Add` | src/util/fileSync.c:16-34 | appends unless ten entries are waiting |
| `SyncQueue.FileSyncBuffer.Get` | src/util/fileSync.c:37-60 | an exited session gets the invalid entry, an empty buffer waits, otherwise the oldest entry comes out |
| `SyncQueue.Fifo` | src/util/fileSync.c:16-60 | for every interleaving, what was delivered is a prefix of what was added, the rest is in the ring, and end = (start + count) mod 10 |
| `SyncQueue.StuckAfterExit` | src/util/fileSync.c:19-20 | after the exit nothing is delivered, no more is added than there was room for, and a full buffer stays as it is for ever |
| `SyncQueue.ProducerGetsThroughIff` | src/util/fileSync.c:16-60 | some continuation lets a producer through if and only if the session is active or fewer than ten entries wait |
| `SyncQueue.FullBufferOfExitedSession` | src/util/fileSync.c:16-60 | ten entries and the exit, from the initial queue: no producer gets through any more |
| `ContextTable.KeyHash` | src/util/contextHashTable.c:42-50 | the loop computes the hash function, in `size_t` arithmetic with signed characters |
| `ContextTable.HashIsPolynomialWithWraps` | src/util/contextHashTable.c:42-50 | reducing in every round equals the base-131 polynomial modulo the size, up to the wraps of negative characters |
| `ContextTable.HashIsPolynomial` | src/util/contextHashTable.c:42-50 | the hash is the polynomial modulo the size if and only if the size divides the wraps; for ASCII keys there are none |
| `ContextTable.WrapMatters` | src/util/contextHashTable.c:42-50 | an instance: a one-byte key above 127 goes to another of the 30 buckets |
| `ContextTable.Get` | src/util/contextHashTable.c:20-26 | the value of the first node with the key, or null at the end of the chain |
| `ContextTable.PushMaps` | src/util/contextHashTable.c:52-65 | a node pushed on the bucket of its key updates the map at that key and nowhere else |
| `ContextTable.HashTable.Search` | src/util/contextHashTable.c:67-78 | looks up the map |
| `ContextTable.HashTable.Insert` | src/util/contextHashTable.c:52-65 | updates the map; every key stays in the bucket of its hash |
| `ContextTable.HashTable.GetOrCreateContext` | src/util/connectionManagement.c:36-44 | a known name keeps its context, a new one gets a new empty context, nobody else is disturbed |
| `UserState.AgreesMeans` | src/server/server.c:391-412 | index agreement spelt out: distinct names, exactly the files of the folder, each with the CRC-32 of its content |
| `UserState.SendAgreement` | src/server/server.c:630-669 | a received file keeps the agreement if and only if the session was active or the status is EXISTS |
| `UserState.DeleteAgreement` | src/server/server.c:415-433 | a delete packet keeps it if and only if the session was active or the status is NOT_FOUND |
| `UserState.DeleteCommandAgreement` | src/server/server.c:502-523 | the delete command always keeps it |
| `UserState.DeleteUndoesSend` | src/server/server.c:602-683 | deleting a new file restores index and folder as they were |
| `UserState.CommandIsDelete` | src/server/server.c:502-523 | for an existing file, list first or file first comes to the same |
| `UserState.ExitUndoesConnect` | src/server/server.c:61-93 | a new address is found in the lowest free slot, other slots are untouched, and its exit restores what was before |
| `UserState.SendKeepsRest` | src/server/server.c:630-669 | after a handled file the index has its CRC, and every other name as before |
| `UserState.DeleteKeepsRest` | src/util/connectionManagement.c:69-92 | a removal takes out exactly that name |
| `UserState.BurstIsUpdated` | src/server/server.c:402-409 | a file sent again with changes inside 32 bits is UPDATED if it changed at all, and EXISTS otherwise |
| `UserState.LateFileIsMissed` | src/server/server.c:619-669 | an instance of `SendAgreement`: a file from an exiting session is in the folder and not in the index |
| `UserState.OthersArePassed` | src/server/server.c:423-431 | one entry for every other occupied slot, in rising order, and none for the session itself or a free slot |
| `UserState.NoticedIsChange` | src/server/server.c:618-669 | a packet is passed on if and only if it changes the index; one from an inactive session never is |
| `UserState.ThirdSessionRefused` | src/server/server.c:61-93 | two sessions take the two slots in order, a third changes nothing |
| `UserContext.FileList.Get` | src/util/fileLinkedList.c:15-21 | finds the first node of a name, or null if there is none |
| `UserContext.FileList.Push` | src/util/fileLinkedList.c:6-13 | a new node in front of the list |
| `UserContext.FileList.Update` | src/server/server.c:652-654 | overwrites the CRC of exactly that node |
| `UserContext.FileList.Remove` | src/util/connectionManagement.c:69-92 | the unlink through `prev` removes exactly the first node of that name |
| `UserContext.Context.FindFreeSessionIndex` | src/util/connectionManagement.c:46-54 | the lowest free slot, or -1 |
| `UserContext.Context.GetSessionByAddress` | src/util/connectionManagement.c:155-179 | the session of the lowest slot with that address, or null |
| `UserContext.Context.Connect` | src/server/server.c:61-93 | puts a new active session with that address into the lowest free slot and tells the replicas; with none free nothing happens |
| `UserContext.Context.BeginExit` | src/server/server.c:525-527 | the session stops being active and keeps its slot |
| `UserContext.Context.FinishExit` | src/server/server.c:544-552 | its slot becomes free and the replicas are told |
| `UserContext.Context.DisconnectAll` | src/util/connectionManagement.c:181-215 | all slots become free, the files stay |
| `UserContext.Context.FileStatus` | src/server/server.c:391-412 | NOT_FOUND, UPDATED or EXISTS from the list and the CRC of the file on disk |
| `UserContext.Context.ForwardToOthers` | src/server/server.c:426-430 | the loop makes one entry of the given kind and name for every other session there is, in rising order |
| `UserContext.Context.RemoveFileFromUserList` | src/server/server.c:415-433 | index without the name; a manager that had it in the list makes a DELETE entry for every other session |
| `UserContext.Context.NoteReceivedFile` | src/server/server.c:630-669 | index with the new CRC; a manager makes a SEND entry for every other session unless the index had that CRC |
| `UserContext.Context.HandleIncomingFile` | src/server/server.c:602-683 | the folder in every case; index and entries for the other sessions only for an active session and only if the index changes; the event with the address of the session in every case |
| `UserContext.Context.DeleteCommand` | src/server/server.c:502-523 | an existing file leaves index and folder, every other session gets a DELETE entry, and the event goes out; a missing one changes nothing |
| `Replication.ApplyItem` | src/server/serverRoles.c:281-305 | the backup's loop body on a context does what the replay function says |
| `Replication.Perform` | src/server/server.c:374-388 | every operation of the manager, carried out by the handlers on a context, ends in the state of the step system, and the events they return are those of the items it emits, in order |
| `Replication.StepMirrors` | src/server/serverRoles.c:281-305 | after one operation and its replay the backup mirrors the user; equal indexes stay equal if and only if the packet was not late |
| `Replication.StepAgreement` | src/server/server.c:602-683 | an operation breaks index agreement if and only if it is late |
| `Replication.RunAgreement` | src/server/server.c:602-683 | along every run without late packets all indexes agree with their folders |
| `Replication.BackupStaysSound` | src/server/serverRoles.c:281-305 | a backup's index always agrees with its own folder, late packets or not |
| `Replication.BackupMirrorsManager` | src/server/serverRoles.c:281-305 | for every run from the empty state, replay never follows a null session and gives the same slots by address and folders, and without late packets the same indexes |
| `Replication.LateUploadDiverges` | src/server/server.c:525-527 | the run with a late upload: equal folders, different indexes |
| `Replication.BytesMirrorManager` | src/server/serverRoles.c:272-305 | the bytes the manager writes, read back by the backup's loop, make it mirror the manager |
| `Failover.BackupIsAnEarlierManager` | src/server/serverRoles.c:193-369 | after any number of items the backup mirrors what the manager was after some number of operations |
| `Failover.BackupAtAnyByte` | src/server/serverRoles.c:193-369 | after any number of bytes the backup mirrors the manager after the operations whose items went out whole if and only if the cut is not inside upload data that changes the file; it follows no null session and its index agrees |
| `Failover.PartMayShowAnOlderFile` | src/util/communication.c:129-148 | a shortened file can be what an older write left, so the backup can show an older state than that of its last whole item |
| `NextTerm.NextTermReplicates` | src/server/serverRoles.c:534-592 | of any two backups one becomes the manager: whatever it does, the other one replays it with the same sessions and no null one, and a file is the same at both if and only if it was before the term or an event of the term is about it; without late packets the same holds for index entries |
| `NextTerm.CaughtUpIffTouched` | src/server/serverRoles.c:534-592 | the follower mirrors the new manager if and only if every file that differed has been touched |
| `NextTerm.NextTermAfter` | src/server/replica.c:199-219 | backups left at different items of one manager differ only in files an item between them is about, and in the next term exactly those come together that its events are about |
| `NextTerm.LaggingBackupDiverges` | src/server/replica.c:199-219 | the run with one upload and two backups, of which one is served before the manager dies |
| `Echo.HandledIsAfter` | src/server/server.c:602-683 | the server step of the echo system is what packet handling does to one name, and other names are untouched |
| `Echo.HandledPassesOn` | src/server/server.c:630-669 | and its entries are those of packet handling: a buffer gets one exactly if the packet is passed on to that slot, of the same kind |
| `Echo.StepDescends` | src/client/client.c:313-370 | every step lowers the measure, if what reaches the server has the index expected |
| `Echo.StepKeepsInv` | src/client/client.c:279-370 | every step keeps: all traffic is about the change, and each session has it or has it coming |
| `Echo.QueuesStayShort` | src/server/server.c:630-669 | along every run about one change, no sync buffer ever holds more than one entry |
| `Echo.EchoIsNotForwarded` | src/server/server.c:630-669 | once the server has the change, an echo adds no entry to any sync buffer |
| `Echo.EchoQuiesces` | src/client/client.c:349-357 | one write or delete causes at most 4 + 6n steps among n sessions, and in the end all are equal to the server if and only if the index could tell the change, or nothing changed, or there is no other session |
| `Echo.BurstReachesAll` | src/server/server.c:402-409 | a change inside 32 bits reaches every session |
| `Echo.SomeWritesStopAtTheServer` | src/server/server.c:402-409 | to every file of at least five bytes there is a change that reaches no other session |
| `EchoCrossing.EchoesGoOnIffTold` | src/client/client.c:349-357 | when two sessions change a file at the same moment there are runs of any length if and only if the index tells the changes apart, for two writes if and only if their CRCs differ; otherwise at most 20 steps |
| `EchoOverwrite.SecondChangeSurvivesIff` | src/client/client.c:349-357 | a session makes two changes, of any contents or removals, with any steps in between: the second is everywhere at rest, however it goes on, if and only if the moment was calm and the index tells it from what the other session had, or that was the same; or the moment was not calm and it is the same change again or a removal |
| `EchoOverwrite.SecondChangeGoesOnIff` | src/client/client.c:349-357 | there are runs of any length after the second change if and only if the moment was not calm and the index tells the two changes apart |
| `EchoOverwrite.WaySurvivesIff` | src/client/client.c:313-357 | from a calm moment every run ends, and the change is everywhere at rest if and only if the index tells it from what the other session has, or it is the same |
| `EchoOverwrite.RemovalSurvives` | src/client/client.c:354-357 | a removal behind a write wins whenever everything comes to rest, wherever the write has got to |
| `EchoConvergence.ConvergesIffToldApart` | src/server/server.c:391-412 | any number of sessions make any changes at any moment: all equal the server in every state of rest if and only if the CRC tells apart the contents they may write, or there is one session only |
| `EchoRuns.ReceivedIsTooEarly` | src/client/client.c:279-357 | the run in which the other session has just received the first write, and the second one can still be lost |
| `EchoRuns.RewrittenFileIsLost` | src/client/client.c:349-357 | the run in which a file is deleted and written anew before the server hears of it, and ends up removed everywhere |

## Left out

- Sockets, `select`, `accept`, `connect`, name lookup, port binding, threads, joins and sleeps: foreign
  calls; links are sequences of messages or bytes, threads are interleaved steps.
- COORDINATOR messages interleaved with an election: a phase ends before the first one is handled, and the
  next begins when all followers have handled theirs. Reconnecting to a new leader is not part of this
  model; its join carries port -1, to which no backup can connect, so the followers' lists stay as they are.
- State transfer to replicas that join late: the code sends only the membership list, so replication is
  stated for backups present from the start.
- The role loops of src/server/serverRoles.c: they appear as steps of the election, of the mesh and of
  the event stream, not as loops with sleeps; the manager's join is modelled on values.
- Packets a session must not send: a SEND whose announcement points outside its packet, or another type
  where a file is expected, is undefined in the code; the reader returns no file for it.
- More than one late packet: an exiting session can finish only one; the model allows any number, which
  only makes the theorems stronger.
- The bound of the sync buffers inside the echo modules: one change never queues more than one entry
  per session (`Echo.QueuesStayShort`). Where many changes fill a buffer, the server thread that waits for
  room holds up its session and what comes behind it, which the model does not show.
- More than two sessions in `EchoCrossing` and `EchoOverwrite`: a user has at most two.
- A client's copy while it is being written: the receiver's write and the watcher's read are each one step.
- Names with '/' and empty names, whose paths lead outside the user's folder or to no file.
- Client notification on failover (src/util/connectionManagement.c:217-268), the client's console,
  `list_files`, downloads, argument parsing, printing, memory and descriptor discipline.
