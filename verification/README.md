# A verified model of mmosrv-cpp

mmosrv-cpp is a multi-process login system for game servers. A client asks Master
for a ticket, spends it at Login, proves its password there by SRP-6a, receives a
session token, and spends that at World. Tickets, tokens and the registry of live
processes all sit in one key/value store with expiry, kept by Master and reached by
the other processes over small authenticated messages. Every process runs one accept
loop per core around a shared connection counter.

The project models these parts in Dafny and proves what they promise, for every
input, every interleaving and every run:

- **Both sides of an honest SRP exchange agree** for every odd modulus that fits 2048
  bits, every hash function and all random choices, and the exchange succeeds exactly
  when B mod N and u are not zero.
- **What a proof proves**: for any bytes A and M1 from any peer, the server accepts exactly
  when A mod N and u are not zero and M1 is the hash of A, B and the key of (A v^u)^b. A
  client with another password than the registered one is accepted only when the two
  secrets, each with its own x, are equal or two named strings collide under the hash.
- **A whole login works over real bytes**: encoders, frames, remote store calls, both
  proofs and the token in the store; completion is characterised by an
  if-and-only-if, alone and among any other sessions whatever they do between its steps,
  the client is shown exactly the live worlds, and the token then opens World once, under
  the right name.
- **A remote store call is the local call**, for any MAC, including what happens to
  oversized requests and replies and to lost requests and replies; bytes that are not a
  sealed request leave the store as it is.
- **Tokens are used at most once** over every interleaving of sessions, losses, expiries
  and reused session addresses, with the origin of every name a World session carries,
  and nothing leaves the store but by a take, a new put of its key, or its expiry.
- **Sweeping is invisible**, a heartbeat keeps an entry listed exactly until its last
  expiry, and a listing between two beats can miss it exactly when some beat came too late.
- **The connection counter** is conserved, overshoots its cap by at most one per further
  thread (a bound that is attained), and never loses a wakeup; `wait_drained` returns before
  its deadline only on a counter that it has read as zero, with every session counted out.
- **Every wire format** is decoded exactly from the byte strings that begin with the
  encoding of the decoded message.

## How the model is laid out

| file | models |
|---|---|
| `Numerals.dfy`, `ByteIo.dfy` | fixed-width numbers, ByteWriter and ByteReader |
| `Framing.dfy` | length-prefixed frames, the reading and writing half of a session |
| `StoreWire.dfy`, `LoginWire.dfy` | the messages of the store, of Login and of Master |
| `SharedStore.dfy`, `StoreRuns.dfy` | the store object, and whole histories of it |
| `StoreRpc.dfy` | StoreHandler and StoreClient |
| `Registry.dfy` | random tokens and the service registry |
| `Modular.dfy`, `Srp6.dfy` | modular powers, the SRP-6a exchange |
| `LoginSession.dfy`, `HonestLogin.dfy` | the Login handler, a whole login |
| `TokenHop.dfy`, `Handlers.dfy` | the interleaved system, Master's and World's handlers |
| `InterleavedLogin.dfy` | the handlers' turns, and a whole login, inside the interleaved system |
| `ConnectionCount.dfy` | the accept loops and the shared counter |

What the source changes step by step is an object or a method with loops here
(ByteWriter, ByteReader, Connection, Store, StoreHandler, StoreClient, LoginHandler,
WorldHandler, MasterHandler, the encoders and decoders), each proved against a
function; the theorems are about those functions. Concurrent parts are state machines:
a run is a sequence of labels, a label carries every choice the environment makes, and
`Exec` says which state it leads to.

Choices made in the model:

- Integers on the wire are copied in host order. `HOST_ORDER` is an unspecified
  constant, so the results hold for little-endian and for big-endian hosts. The frame
  header is big-endian and is proved so between hosts of different order.
- SHA-256 and HMAC are arbitrary functions with 32-byte results; random numbers, the
  clock, the order in which a hash table is walked, the account database and network
  faults are arguments. A method that calls the store returns these circumstances as a ghost
  result and says that they are the call's own: its fault, the clock it ended at, and a walk
  of the very store that it found.
- The clock is read once per entry examined, as in the code, so a listing or a sweep
  sees many instants. Only what the clock and the reader/writer lock guarantee is
  assumed about them (`StoreRuns.WellTimed`).
- The atomics of the connection counter are sequentially consistent, although the code
  loads with relaxed order.
- A coroutine runs undisturbed between two waits, and a thread runs one coroutine at a
  time.

- Tickets, session tokens and registrations share one key space, so the hop theorems
  speak of the put that let a session in, and of what wrote it, not of a kind of key.

Where a promise does not hold as stated, the exact condition is proved:

- A registry entry refreshed *at most* ttl apart can be missed by a listing at the very
  instant of expiry. In every run, no legal listing between the first and the last beat
  misses the entry if and only if each beat comes *strictly* before the entry of the one
  before it expires (`StoreRuns.SteadyExactly`; `StoreRuns.GapLosesEntry` is the smallest
  instance, `StoreRuns.Heartbeat` what steady beats give).
- Login accepts up to 100000 registry entries from the store, the client at most 10000
  worlds; a longer list is refused by the client (`HonestLogin.WorldsReachClient`,
  `HonestLogin.WorldsShown`), and 10001 registered worlds are such a list
  (`HonestLogin.TooManyWorlds`).
- `handle_proof` ignores the result of storing the token, so the login completes even when
  that request is lost. Unless its key was in the store before, the token opens World
  exactly when the request was not lost and World takes it within 60 seconds
  (`Handlers.LoginThenWorld`).
- `world_handler.hpp` says that the first message is a session token issued by Login. Any
  live key of the store opens World (`InterleavedLogin.AnyLiveKeyOpensWorld`): a ticket of
  Master's lets a client in without a name, a registry key under the bytes of the
  registration (`InterleavedLogin.TicketsAndRegistrationsOpenWorld`). A session that has a
  name was let in by Login, for an accepted proof under that name, if and only if the key it
  presented has the form of a token (`TokenHop.WhoLetsIn`).
- With T threads the cap of max_connections can be exceeded by T - 1
  (`ConnectionCount.EveryRun`, `ConnectionCount.BoundAttained`).

## Model

| member | source | states |
|---|---|---|
| Numerals.NumberRoundTrip | include/security/srp6.hpp:73-87 | a number is recovered from its fixed-width bytes exactly when it fits the width |
| Numerals.DigitsRoundTrip | include/security/srp6.hpp:73-87 | bytes are recovered from the number they denote at the same width |
| Numerals.FirstByteLeads | include/security/srp6.hpp:73-78 | the first byte of a number is its most significant one |
| ByteIo.ImageInverse | include/net/byte_io.hpp:30-35 | the host-order memory image of a word and reading it back are inverse, on either byte order |
| ByteIo.U16Inverse | include/net/byte_io.hpp:61-68 | reading a 16-bit word undoes writing it, and an accepted read shows the bytes that were written |
| ByteIo.U32Inverse | include/net/byte_io.hpp:61-68 | the same for 32-bit words |
| ByteIo.Field16RoundTrip | include/net/byte_io.hpp:19-56 | a string behind a narrowed 16-bit length is read back exactly when it is shorter than 65536 bytes |
| ByteIo.Field32RoundTrip | include/net/byte_io.hpp:19-56 | the same for a 32-bit length |
| ByteIo.Field16Prefix | include/net/byte_io.hpp:46-56 | whatever a length-prefixed read accepts, the input begins with the encoding of the result |
| ByteIo.Field32Prefix | include/net/byte_io.hpp:46-56 | the same for a 32-bit length |
| ByteIo.ByteWriter.PutU16 | include/net/byte_io.hpp:21 | appends the host-order image of the word |
| ByteIo.ByteWriter.PutU32 | include/net/byte_io.hpp:22 | appends the host-order image of the word |
| ByteIo.ByteWriter.PutBytes | include/net/byte_io.hpp:23-24 | appends the bytes |
| ByteIo.ByteReader.GetU16 | include/net/byte_io.hpp:43 | yields the word and consumes it, or fails and leaves the data alone |
| ByteIo.ByteReader.GetU32 | include/net/byte_io.hpp:44 | yields the word and consumes it, or fails and leaves the data alone |
| ByteIo.ByteReader.GetBytes | include/net/byte_io.hpp:46-56 | yields and consumes exactly n bytes, or fails when fewer remain |
| Framing.SwapReversesDigits | include/net/framing.hpp:17-20 | byteswap32 reverses the four bytes of the word |
| Framing.HeaderIsBigEndian | include/net/framing.hpp:24-28 | on both host byte orders the header is the big-endian length, and from_network undoes to_network |
| Framing.FrameRoundTrip | include/session.hpp:100-139 | between hosts of any byte orders one frame is read back exactly when its payload has 1 to max_frame_bytes bytes |
| Framing.ReadWasFramed | include/session.hpp:124-139 | a payload is read only from a stream that begins with its frame, and has 1 to max_frame_bytes bytes |
| Framing.StreamRoundTrip | include/session.hpp:72-139 | the concatenation of any sends is read back as exactly those payloads, up to the first inadmissible one |
| Framing.GoodPrefixOfGood | include/session.hpp:132 | nothing is cut off exactly when every payload is admissible |
| Framing.DeliveredWasFramed | include/session.hpp:124-139 | whatever bytes arrive, they begin with the frames of the payloads delivered from them |
| Framing.Connection.Send | include/session.hpp:100-113 | puts the frame of the payload on the socket |
| Framing.Connection.ReadExactly | include/session.hpp:125-136 | reads exactly n bytes into the front of a buffer or fails |
| Framing.Connection.NextFrame | include/session.hpp:124-139 | overwrites the header and body buffers and yields the payload that the frame function says, or fails |
| Framing.Connection.Run | include/session.hpp:72-98 | delivers every frame in order until the first failing read, then the socket is closed |
| StoreWire.DecodeBodyExact | include/store/store_wire.hpp:138-187 | a body decodes to a message exactly when the message fits its fields and the body begins with its encoding |
| StoreWire.DecodeExact | include/store/store_wire.hpp:128-187 | a message is accepted exactly when its tag is valid for a body that begins with the encoding of a fitting message |
| StoreWire.RoundTrip | include/store/store_wire.hpp:42-187 | every encoded message is recovered exactly when its lengths fit and a list has at most 100000 entries, for any MAC |
| StoreWire.EntriesParsed | include/store/store_wire.hpp:172-178 | the counted loop recovers the entries and leaves the rest |
| StoreWire.ParsedEntries | include/store/store_wire.hpp:172-178 | entries that the loop accepted fit, and the input begins with their encoding |
| StoreWire.EncodePut | include/store/store_wire.hpp:42-52 | produces the sealed encoding of the put |
| StoreWire.EncodeGetOrTake | include/store/store_wire.hpp:54-64 | produces the sealed encoding of the key request, with zero value length and ttl |
| StoreWire.EncodeListPrefix | include/store/store_wire.hpp:94-97 | produces the sealed encoding of the listing request |
| StoreWire.EncodeBare | include/store/store_wire.hpp:66-80 | produces the sealed opcode of Ok and of NotFound |
| StoreWire.EncodeValue | include/store/store_wire.hpp:82-90 | produces the sealed encoding of the value |
| StoreWire.EncodeList | include/store/store_wire.hpp:101-113 | the loop produces the sealed encoding of all entries in order |
| StoreWire.DecodeAndVerify | include/store/store_wire.hpp:128-187 | the reader-based decoder computes the decoding function, error cases included |
| StoreWire.DecodeList | include/store/store_wire.hpp:168-180 | the counted loop with its cap computes the list decoding |
| LoginWire.DecodeExact | include/net/login_protocol.hpp:107-164 | a byte string decodes to a message exactly when the message fits and the string begins with its encoding |
| LoginWire.RoundTrip | include/net/login_protocol.hpp:45-164 | every message is recovered from its encoding exactly when its lengths fit and there are at most 10000 worlds |
| LoginWire.WorldsParsed | include/net/login_protocol.hpp:151-159 | the world loop recovers the worlds and leaves the rest |
| LoginWire.ParsedWorlds | include/net/login_protocol.hpp:151-159 | worlds that the loop accepted fit, and the input begins with their encoding |
| LoginWire.RedirectRoundTrip | include/net/master_protocol.hpp:18-50 | a redirection is recovered and not taken for the error reply exactly when its host fits and its ticket is shorter than 65535 bytes; the error reply is an error and no redirection |
| LoginWire.EncodeClientHello | include/net/login_protocol.hpp:45-51 | produces the encoding of the hello |
| LoginWire.EncodeClientProof | include/net/login_protocol.hpp:53-59 | produces the encoding of the client's proof |
| LoginWire.EncodeServerChallenge | include/net/login_protocol.hpp:61-67 | produces the encoding of the challenge |
| LoginWire.EncodeServerProof | include/net/login_protocol.hpp:69-75 | produces the encoding of the server's proof |
| LoginWire.EncodeError | include/net/login_protocol.hpp:77-81 | produces the encoding of the error |
| LoginWire.EncodeWorldList | include/net/login_protocol.hpp:83-94 | the loop produces the encoding of all worlds in order |
| LoginWire.DecodeMessage | include/net/login_protocol.hpp:107-164 | the reader-based decoder computes the decoding function, error cases included |
| LoginWire.DecodeWorldList | include/net/login_protocol.hpp:147-161 | the counted loop with its cap computes the world list decoding |
| LoginWire.EncodeRedirection | include/net/master_protocol.hpp:18-25 | produces the encoding of the redirection |
| LoginWire.DecodeRedirection | include/net/master_protocol.hpp:29-37 | the reader-based decoder computes the decoding function |
| SharedStore.ListBetween | include/store/shared_store.hpp:73-95 | under a moving clock a listing holds every matching pair live at its last reading and only pairs live at its first |
| SharedStore.PutSeen | include/store/shared_store.hpp:30-34 | after a put every reader sees the new value until ttl seconds later and then nothing, and every other key as before |
| SharedStore.TakeSeen | include/store/shared_store.hpp:48-55 | after a take no reader sees the key it found, and every other key, or every key if it found nothing, as before |
| SharedStore.ListSeen | include/store/shared_store.hpp:73-81 | a listing holds exactly the keys under the prefix that a lookup at their reading finds, with those values |
| SharedStore.SweepSeen | include/store/shared_store.hpp:60-68 | a sweep removes exactly what a lookup at its reading would not find |
| SharedStore.Store.Put | include/store/shared_store.hpp:30-34 | replaces the entry, expiring ttl after the clock reading |
| SharedStore.Store.Get | include/store/shared_store.hpp:37-42 | answers the live value and changes nothing |
| SharedStore.Store.Take | include/store/shared_store.hpp:48-55 | answers the live value and removes exactly that entry, or answers nothing and removes nothing |
| SharedStore.Store.SweepExpired | include/store/shared_store.hpp:60-68 | removes all that was expired at its start, nothing live at its end, and returns the size difference, whatever the order and the clock |
| SharedStore.Store.ListPrefix | include/store/shared_store.hpp:73-81 | lists, without duplicate keys, exactly the matching entries live when examined, with their values |
| StoreRuns.RepliesMean | include/store/shared_store.hpp:37-81 | the answers of a run in terms of the entries |
| StoreRuns.ApplyMeans | include/store/shared_store.hpp:30-68 | what each operation of a run leaves, in terms of the entries |
| StoreRuns.SweepIsInvisible | include/store/shared_store.hpp:37-81 | deleting every sweep from any well-timed run changes no answer, also from stores that differ by expired entries |
| StoreRuns.SweepsCanBeDeleted | include/store/shared_store.hpp:37-81 | the same for any run of the server from its empty store |
| StoreRuns.LastWriteHolds | include/store/shared_store.hpp:30-55 | after any run that never takes a key the store holds its last write, or that write has expired |
| StoreRuns.Heartbeat | include/registry/world_registry.hpp:78-90 | with beats strictly within the ttl, any listing after the first beat shows the latest value exactly until the last beat of the whole run expires |
| StoreRuns.LateBeatIsMissed | include/registry/world_registry.hpp:78-90 | in any well-timed run, if a beat comes at or after the expiry of the one before it, a listing at that instant is legal and misses the entry |
| StoreRuns.SteadyExactly | include/registry/world_registry.hpp:78-90 | in any run that never takes the key, no legal listing between two of its beats misses it if and only if every beat comes strictly before the entry of the one before it expires |
| StoreRuns.GapLosesEntry | include/registry/world_registry.hpp:78-90 | the smallest instance: two beats the ttl or more apart and a legal listing between them that misses the entry |
| StoreRpc.RemotePutIsLocal | include/store/store_client.hpp:39-44 | a remote put is the local put exactly when key and value take at most 4052 bytes and the request arrives, and answers true only then |
| StoreRpc.RemoteGetIsLocal | include/store/store_client.hpp:46-48 | a delivered remote get answers as the local get for keys of any length, and never changes the store |
| StoreRpc.RemoteTakeIsLocal | include/store/store_client.hpp:50-69 | a remote take has the effect of the local take unless the request is lost, and its answer unless either is lost |
| StoreRpc.RemoteListIsLocal | include/store/store_client.hpp:56-61 | a delivered remote listing is the walk of the store exactly when that has at most 100000 entries in 1 MiB, and empty otherwise |
| StoreRpc.ListedIsLocal | include/store/store_client.hpp:56-61 | under the circumstances that every remote call guarantees, a delivered listing that fits enumerates what the store lists, and the store stays as it is |
| StoreRpc.EncodedSize | include/store/store_wire.hpp:42-113 | the size of each message, from which the 44 bytes of overhead come |
| StoreRpc.UnsealedIsIgnored | include/store/store_handler.hpp:42-43 | a message without a valid tag leaves the store as it is and is not replied to |
| StoreRpc.OnlyRequestsAct | include/store/store_handler.hpp:36-66 | the store changes only by a sealed fitting put or take, and a reply goes out exactly to the four requests |
| StoreRpc.RequestsActExactly | include/store/store_handler.hpp:45-61 | what each sealed message does to the entries and what it is replied with |
| StoreRpc.OnlyAuthenticWires | include/store/store_handler.hpp:36-66 | whatever bytes arrive on a connection, the store changes only if they begin with the frame of a sealed put or take |
| StoreRpc.StoreHandler.OnMessage | include/store/store_handler.hpp:36-66 | verifies, decodes and dispatches one request onto the store object as the serving function says, with a walk of that store for listings, and does nothing on a message that fails verification |
| StoreRpc.StoreHandler.Accept | include/session.hpp:72-98 | one connection: read a frame, dispatch it onto this store, frame the reply; the store changes only by an authentic put or take |
| StoreRpc.StoreClient.RoundTrip | include/store/store_client.hpp:74-114 | one framed exchange with the server, under the given fault, at the clock's time and on the store as it is, every failure giving no answer |
| StoreRpc.StoreClient.Put | include/store/store_client.hpp:39-44 | encodes the put, calls, and reports whether Ok came back |
| StoreRpc.StoreClient.Get | include/store/store_client.hpp:46-69 | encodes the get, calls, and yields the value that came back, if any |
| StoreRpc.StoreClient.Take | include/store/store_client.hpp:52-69 | encodes the take, calls, and yields the value that came back, if any |
| StoreRpc.StoreClient.ListPrefix | include/store/store_client.hpp:56-61 | encodes the listing, calls, and yields the entries that came back, if any: when delivered and small enough, exactly the live entries of the store |
| Registry.BytesToHex | include/security/secure_random.hpp:29-39 | the loop computes the hexadecimal text |
| Registry.HexDigits | include/security/secure_random.hpp:29-46 | a token consists of hexadecimal digits only |
| Registry.HexMeans | include/security/secure_random.hpp:29-39 | the text denotes the same number as the bytes, two digits a byte with the higher one first |
| Registry.HexInjective | include/security/secure_random.hpp:29-46 | different random bytes give different tokens |
| Registry.LoginInfoRoundTrip | include/registry/world_registry.hpp:38-50 | a Login registration is recovered exactly when its host is shorter than 65536 bytes |
| Registry.WorldInfoRoundTrip | include/registry/world_registry.hpp:52-69 | a World registration is recovered exactly when host and name are shorter than 65536 bytes |
| Registry.Layouts | include/registry/world_registry.hpp:38-59 | the bytes of both registrations, field by field in their order |
| Registry.KeysApart | include/registry/world_registry.hpp:32-33 | tokens, Login keys and World keys never coincide or share a prefix |
| Registry.KeyTexts | src/main.cpp:150-183 | the registry keys of a Login and a World at a host, as text |
| Registry.CollectWorlds | include/registry/world_registry.hpp:93-100 | the loop keeps, in order, exactly the entries that decode |
| Registry.WorldsInOrder | include/registry/world_registry.hpp:93-100 | entries are kept in order, each by itself, exactly when they decode |
| Registry.PickLoginExact | include/registry/world_registry.hpp:106-110 | in a store written by the three writers, a Login is found exactly when one is live, and it is the one registered under its key |
| Modular.PowerOfTwoNotZero | include/security/srp6.hpp:198-201 | an odd modulus above 1 divides no power of two |
| Modular.CongruentPowers | include/security/srp6.hpp:206-209 | congruent bases have congruent powers |
| Srp6.BnRoundTrip | include/security/srp6.hpp:73-87 | the fixed-width encoding loses nothing exactly when no exception is raised |
| Srp6.NeverTooLarge | include/security/srp6.hpp:139-259 | the size exception never occurs in registration, challenge, verification or response, whatever bytes the peer sent; the client raises only for B = 0 |
| Srp6.SourceGroup | include/security/srp6.hpp:48-58 | the 2048-bit constant is odd, above 1 and fits 256 bytes |
| Srp6.ClientBase | include/security/srp6.hpp:246-249 | what the client subtracts leaves g^b |
| Srp6.SecretsAgree | include/security/srp6.hpp:206-254 | the client's and the server's formulas give the same residue for any modulus above 1 |
| Srp6.HonestChallenge | include/security/srp6.hpp:139-183 | what registration stores and the challenge that follows from it, for the x that is the hash of salt, username and password |
| Srp6.HonestSecrets | include/security/srp6.hpp:191-259 | both sides hold the same secret over the byte encodings, and A mod N is not zero |
| Srp6.Agreement | include/security/srp6.hpp:139-264 | with the right password both proofs are accepted exactly when B mod N and u are not zero |
| Srp6.AcceptanceMeansSameSecret | include/security/srp6.hpp:191-259 | for any challenge, a client of the protocol with any password is accepted exactly when A mod N and u are not zero and the secrets are equal, or the named encodings of the two secrets or the two named transcripts are different strings with the same hash |
| Srp6.HashedNumbers | include/security/srp6.hpp:99-112 | x is the hash of the salt and the hash of username, colon and password, and k that of N and g at full width |
| Srp6.RegistersExactly | include/security/srp6.hpp:139-152 | the stored verifier is g^x for the x of this salt, username and password |
| Srp6.BeginsExactly | include/security/srp6.hpp:167-183 | for any verifier bytes the challenge is k v + g^b |
| Srp6.VerifiesExactly | include/security/srp6.hpp:191-222 | for any A of any length and any M1 the server accepts exactly when A mod N and u are not zero and M1 is the hash of A, B and the key of (A v^u)^b, and answers with the hash of A, M1 and that key |
| Srp6.ZeroIsRefused | include/security/srp6.hpp:198-201 | an A that is zero modulo N is refused with any proof for any challenge |
| Srp6.RespondsExactly | include/security/srp6.hpp:227-259 | the client refuses exactly a B that is zero modulo N, and otherwise answers with g^a and the proof of the key of (B - k g^x)^(a + u x) |
| Srp6.ClientAcceptsExactly | include/security/srp6.hpp:261-264 | the client accepts exactly the proof of its own key: another key is refused unless the two transcripts collide |
| Srp6.PasswordBinding | include/security/srp6.hpp:99-104 | x is equal exactly for equal salts and equal strings of username and password, or when one of the named pairs of strings collides |
| Srp6.OtherPassword | include/security/srp6.hpp:191-259 | a client with another password than the registered one is accepted exactly when u is not zero and both secrets, each with its own x, are equal or named strings collide |
| Srp6.TranscriptBinding | include/security/srp6.hpp:79-129 | at fixed widths M1 is equal exactly when A, B and key are, or the two strings that were hashed differ and collide; likewise u for A and B |
| LoginSession.StageMachine | include/handlers/login_handler.hpp:61-164 | stages only move forward, a challenge is present when a proof is awaited, and Done is reached only through an accepted proof |
| LoginSession.OutOfTurnCloses | include/handlers/login_handler.hpp:61-74 | anything but the message that is due closes the session unanswered, with state and store as they were |
| LoginSession.ProofAnswered | include/handlers/login_handler.hpp:138-164 | a proof leads to Done exactly when A mod N and u are not zero and M1 is the hash of A, B and the key, and any other, A = 0 mod N included, is answered with the error and stores nothing |
| LoginSession.HelloNotAnswered | include/handlers/login_handler.hpp:93-117 | a ticket that is not found closes the session unanswered, a failing database is answered with the error after the ticket is spent |
| LoginSession.HelloAnswered | include/handlers/login_handler.hpp:103-136 | a hello with a live ticket is answered with the account's salt and challenge, or for an unknown username with a salt that depends on the username alone and the challenge of a random password |
| LoginSession.StandInSalts | include/handlers/login_handler.hpp:170-174 | the stand-in salt has 16 bytes, and usernames share it only if the codes of their labels agree there |
| LoginSession.LoginHandler.OnMessage | include/handlers/login_handler.hpp:61-74 | decodes, finds or creates the session's state, dispatches, and updates only that state and the store, also when a step raises; its calls are made on this store, under these faults |
| LoginSession.LoginHandler.HandleHello | include/handlers/login_handler.hpp:93-136 | takes the ticket from the store under the given fault and answers a real or stand-in challenge, an error, or closes |
| LoginSession.LoginHandler.HandleProof | include/handlers/login_handler.hpp:138-164 | verifies, stores the token and lists the store that this leaves, under the given faults, and sends the proof and the worlds, or the error |
| LoginSession.LoginHandler.OnDisconnect | include/handlers/login_handler.hpp:76-78 | forgets exactly this session |
| HonestLogin.HelloTurn | include/handlers/login_handler.hpp:93-136 | the first turn over bytes: the ticket is consumed and the account's challenge sent exactly when the ticket was found |
| HonestLogin.ProofTurnAccepted | include/handlers/login_handler.hpp:138-164 | the second turn over bytes for an accepted proof: the token is stored for the username, the server's proof arrives, and the client is shown the list of worlds if it accepts one of that length |
| HonestLogin.ProofTurnRefused | include/handlers/login_handler.hpp:140-147 | a refused proof ends the login |
| HonestLogin.HonestLogin | include/handlers/login_handler.hpp:61-164 | with the right password a login over framed bytes completes exactly when the username has at most 2010 bytes, the ticket is live, the store answers, and B mod N and u are not zero; it ends in Done with the token stored for that username unless that request was lost, and with what the client makes of the listing |
| HonestLogin.WorldsReachClient | include/net/login_protocol.hpp:147-161 | every listing that reached Login is shown to the client in full exactly when it has at most 10000 worlds |
| HonestLogin.WorldsShown | include/handlers/login_handler.hpp:157-161 | a completed login whose listing arrives shows exactly the registered worlds live at that moment, name for name, host for host, port and population, or nothing when there are more than 10000 |
| HonestLogin.TooManyWorlds | include/net/login_protocol.hpp:147-161 | 10001 registered worlds fit one listing, and the client is shown nothing |
| TokenHop.TakeKeeps | include/store/shared_store.hpp:48-55 | a successful take consumes the put that wrote the entry, once, and answers what it wrote |
| TokenHop.StepKeeps | include/handlers/login_handler.hpp:61-164 | every step of Master, Login, World, heartbeat, sweep or session life keeps the whole invariant |
| TokenHop.EveryRun | include/handlers/world_handler.hpp:44-69 | the invariant holds in every reachable state |
| TokenHop.AtMostOnce | include/handlers/world_handler.hpp:44-54 | successful takes consume distinct puts, every session let in owns one shared with no other, and a World session's name is what its put wrote: nothing by Master, a registration by a heartbeat, or by Login the username of an accepted proof |
| TokenHop.WhoLetsIn | include/handlers/world_handler.hpp:4-6 | a World session with a name was let in by a proof that Login accepted for that name if and only if the key it presented has the form of a token |
| TokenHop.NeverAgain | include/handlers/world_handler.hpp:44-54 | sessions let in at any two moments of a run, also at a reused address, were let in by different puts |
| TokenHop.Undisturbed | include/handlers/login_handler.hpp:88-91 | whatever the rest of the system does, a session finds itself and its state as it left them |
| TokenHop.NoInheritance | include/session.hpp:72-98 | with addresses reused arbitrarily, handlers that throw and any steps of others in between, the first message of a session that connects finds a stranger's state, and the tables hold only sessions not disconnected |
| TokenHop.NothingElseIsLost | include/store/shared_store.hpp:48-68 | over any run segment an entry that no sweep found expired is still there, the same one, unless its key was put again or its put was consumed |
| TokenHop.NeverStuck | include/handlers/login_handler.hpp:138-140 | the challenge is always there when a proof is checked |
| TokenHop.RegistryIntegrity | include/registry/world_registry.hpp:106-110 | in every run only tokens and registrations are stored, every entry under the Login prefix decodes, and Master finds a Login exactly when one is live |
| TokenHop.CallsAreRemote | include/store/store_client.hpp:39-69 | in every reachable state the system's calls agree with the byte-level calls, for any MAC |
| Handlers.WorldHandler.OnMessage | include/handlers/world_handler.hpp:44-54 | authenticates an unknown session by taking its token from this store under the given fault, and updates only that session |
| Handlers.WorldHandler.OnDisconnect | include/handlers/world_handler.hpp:67-69 | forgets exactly this session |
| Handlers.AuthenticatesExactly | include/handlers/world_handler.hpp:44-54 | an admitted session stays open, with its name and the store untouched; any other is admitted under the stored value exactly when its key is live and the answer comes back, and is closed otherwise |
| Handlers.StoreStepsInSystem | include/handlers/master_handler.hpp:45-59 | in the interleaved system Master's message stores a ticket for 30 seconds exactly when a Login is found, and a heartbeat is the remote put of the registration for 15 seconds |
| Handlers.TokenAdmitsOnce | include/handlers/world_handler.hpp:47-53 | a live token admits one session under the stored name, and the next one to present it is refused |
| Handlers.LoginThenWorld | include/handlers/world_handler.hpp:44-54 | after a completed login a token whose key is new opens World, under the account's name and once, exactly when the request to store it was not lost and World takes it within its 60 seconds |
| Handlers.MasterHandler.OnMessage | include/handlers/master_handler.hpp:45-59 | redirects to the first listed Login with a fresh 30-second ticket, or answers the error code and stores nothing |
| InterleavedLogin.WorldTurnInSystem | include/handlers/world_handler.hpp:44-54 | World's steps in the interleaved system, with anything of others between them, leave session and store as the handler's turn does |
| InterleavedLogin.HelloTurnInSystem | include/handlers/login_handler.hpp:93-136 | likewise for the three steps of Login's first turn |
| InterleavedLogin.ProofTurnInSystem | include/handlers/login_handler.hpp:138-164 | likewise for Login's second turn, refused at the message or carried through the put to the last stage |
| InterleavedLogin.LoginAmongOthers | include/handlers/login_handler.hpp:61-164 | an honest login among any other sessions completes exactly when its hello fits, the ticket is live when it is taken, the store answers, and B mod N and u are not zero; it owns the ticket's put, and its token's put is recorded for exactly this username |
| InterleavedLogin.AnyLiveKeyOpensWorld | include/handlers/world_handler.hpp:47-52 | any live key, whoever wrote it, lets a World session in under the value stored with it |
| InterleavedLogin.TicketsAndRegistrationsOpenWorld | include/handlers/world_handler.hpp:4-6 | runs in which a ticket and a registry key open World |
| InterleavedLogin.TokensOpenWorld | include/handlers/world_handler.hpp:4-6 | for every account a run in which an honest login's token opens World under the account's name |
| InterleavedLogin.LuckyLogin | include/security/srp6.hpp:191-259 | there are accounts and random choices for which an honest login is not refused |
| ConnectionCount.NumbersStep | include/server.hpp:227-260 | every step keeps the counter equal to registered sessions plus sessions in hand, and within its bound together with the admitted ones |
| ConnectionCount.PlacedStep | include/server.hpp:63-72 | every step keeps each session in one place of one thread |
| ConnectionCount.LedgerStep | include/server.hpp:286-292 | every step keeps sessions counted in and out at most once |
| ConnectionCount.WakeupStep | include/server.hpp:125-132 | every step keeps the wakeup invariant, and a load lets a caller return only when it reads zero |
| ConnectionCount.EveryRun | include/server.hpp:227-292 | in every state of every run the counter is conserved, never negative, at most max_connections + T - 1 (0 for a cap of 0), and no wakeup is lost |
| ConnectionCount.BoundAttained | include/server.hpp:237-246 | some run attains that bound, for every cap and every number of threads |
| ConnectionCount.ZeroMeansDrained | include/server.hpp:122-132 | the counter reads zero exactly when the sessions counted in are the sessions counted out |
| ConnectionCount.ParkedIsWoken | include/server.hpp:289-292 | a caller parked on a drained server is woken by a notification that some thread still owes |
| ConnectionCount.WaiterMoves | include/server.hpp:125-132 | how a caller of wait_drained moves: it returns exactly on loading zero or at its deadline, parks exactly while the counter is what it loaded, and is woken only by a notification or spuriously |
| ConnectionCount.ReturnedMeansDrained | include/server.hpp:125-132 | in every run in which its deadline does not pass, a caller that returned had loaded zero after its call, at a moment when every session counted in was counted out |

## Left out

- Sockets, resolvers, coroutines, idle timers, SO_REUSEPORT and core pinning: only "read exactly n bytes or fail" and the points where a coroutine waits are kept.
- OpenSSL: the BN functions are their mathematical meaning, SHA-256 and HMAC are arbitrary functions; errors inside the library are not modelled.
- Probabilistic and timing claims: that a stand-in account always fails, that tokens cannot be guessed, constant-time comparison.
- Primality of the group constant: agreement does not need it.
- The deadline of `wait_drained` is a step that may happen at any time; termination of a graceful stop and relaxed memory order are not modelled.
- The SQLite repository is a fixed map from username to salt and verifier, together with a flag for a failing lookup; accounts created while a run is in progress are not modelled.
- Overflow of the 64-bit steady clock, and messages of 4 GiB and more, whose frame header wraps.
- What World does with game packets once a session is authenticated (Channel and PlayerChannel dispatch), the UDP server, command-line tools and scripts.
- The registry codecs are functions on values, without the in-place updates of the writer and reader they use, which `ByteIo` models.
- `heartbeat_loop` never ends, so it appears as the puts it makes in a run rather than as a loop; SessionRegistry and the accept loop appear as steps of the state machine for the same reason.
- Exceptions between raising the counter and registering the session (out of memory) are not modelled.
- StoreRpc.RemoteListIsLocal: says nothing about a listing reply of 4 GiB or more, whose frame header wraps around.
