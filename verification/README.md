# Conveyance, verified

Conveyance lets an agent on a PC act through a phone: the daemon relays a request, the phone's
owner approves it, the phone executes exactly what was approved, and both ends keep a
hash-chained log. This project models the parts everything else rests on, in Dafny, and proves
what they promise. `dafny verify dfyconfig.toml` checks all of it.

- **Canonical text** (`Utf16`, `Utf8`, `Hex`, `Json`, `JsonReader`, `JsonExact`, `Message`). The
  recursive printer for canonical JSON (sections 3.2.2.2 and 3.2.3 of RFC 8785, integers only), a
  strict parser that accepts exactly what it prints, and from that: what a binding compares and
  what a signature covers.
- **Approval and execution** (`Binding`, `Approval`). The tracker of approved requests with its
  TTL and tombstones, and the phone's per-session protocol around it, over every history of calls.
- **The wire** (`Framing`, `Framer`, `Assembler`). Splitting with wrapping sequence numbers, the
  reassembly machine, and the byte-stream assembler, over any frames and any cutting of the stream.
- **The CBOR preflight** (`Cbor`, `CborTheorems`, `CborScan`). The scanner accepts exactly the
  encodings of one tree of a restricted grammar (section 3 of RFC 8949).
- **The log** (`HashChain`, `Recovery`, `Trail`, `Router`, `RouterRuns`, `Provenance`,
  `Displacement`). The hash chain, the startup sweep, the request router, every run of steps, crashes
  at any row, and sweeps that may crash too; what alone may write each row, and what becomes of a
  request that is no longer in flight.
- **Policy and timing** (`Glob`, `Policy`, `Watchdog`, `Session`). The greedy glob loop against
  the meaning of `*`, the timer watchdog, and the session it ends.
- **Key derivation** (`Hkdf`). HMAC (RFC 2104) and HKDF (section 2 of RFC 5869), filled in place.

Each object whose fields the program updates is a class whose methods are proved equal to a
function on values (`Step`, `Ingest`, `Record`, ...); theorems about histories are about those
functions. Clock readings, generated ids, what encoding, sending and signing return, and what the
CBOR library makes of bytes come in as parameters. Hash functions are parameters too, and nothing
is assumed of them: where a real hash would make something unlikely, the theorem names the collision.

Some of what one would expect is not so, and is stated as it is:

- The glob loop compares a pattern's `*` with the value's characters before treating it as a
  wildcard. `Glob.GlobExactIff`: it decides a value for every pattern if and only if the value has
  no `*` except possibly as its last character; `Glob.GlobMisses` gives the failing family, and
  `Policy.RuleCanFailToRaise` a rule that means a request and leaves it at tier 2.
- An approval is recorded before the signed response is encoded a second time
  (`Approval.ReservedMeansSigned`, `Approval.AcceptedMeansApproved`): the response then leaves if and
  only if that encoding succeeds, which it does whenever encoding depends on sizes alone.
- After an approval the route queue is drained although the request has just been put back in
  flight. `RouterRuns.ApprovedStaysInFlightIff`: it stays there if and only if nothing is queued or
  the head of the queue is refused at once. `Displacement.RequestsCanBeDisplaced` gives the run, from
  a fresh install, in which any second request takes the place of any approved first one.
- A result is logged only for the request in flight (`Displacement.ResultLoggedIff`), so from there
  the phone's signed result goes unlogged and the next sweep closes the executed request as timed out
  (`Displacement.ResultsCanBeLost`).
- The HKDF counter is incremented behind the last block. `Hkdf.Expand`: it overflows a u8 if and
  only if more than 254 * 32 bytes are asked for, although 255 * 32 pass the length check.
- The notes on the watchdog count its idle deadlines from the start; the code, and the model, count
  them from the last received activity.

## Model

| member | source | states |
|---|---|---|
| `Utf16.SortKeys` | crates/conveyance-crypto/src/canonical_json.rs:67-72 | whatever order a map yields its keys in, sorting gives the one strictly ascending arrangement by UTF-16 code units |
| `Utf16.AscendingUnique` | crates/conveyance-crypto/src/canonical_json.rs:67-72 | a set of keys has only one strictly ascending arrangement, so output does not depend on entry order |
| `Utf16.KeyLessStrict` | crates/conveyance-crypto/src/canonical_json.rs:67-72 | comparison of UTF-16 encodings is a strict total order on strings |
| `Utf16.UnitsAre` | crates/conveyance-crypto/src/canonical_json.rs:67-72 | a character of the basic plane is its own unit, any other the surrogate pair it is the worth of, high half first |
| `Utf16.LessIff` | crates/conveyance-crypto/src/canonical_json.rs:67-72 | one encoding is less than another if and only if at the first place they differ it has the smaller unit or has ended |
| `Hex.Encode` | crates/conveyance-crypto/src/lib.rs:111-119 | the loop computes lowercase hex, two digits a byte |
| `Hex.TextDigits` | crates/conveyance-crypto/src/lib.rs:111-119 | the digits of each byte are those of 0123456789abcdef, the high one first |
| `Hex.Decode` | crates/conveyance-crypto/src/lib.rs:126-157 | succeeds exactly on strings that encode some bytes, and gives those bytes; odd length and uppercase are refused |
| `Hex.TextInjective` | crates/conveyance-crypto/src/lib.rs:111-119 | different bytes have different hex |
| `Json.WriteString` | crates/conveyance-crypto/src/canonical_json.rs:104-122 | appends the quoted text with exactly the prescribed escapes |
| `Json.WriteNumber` | crates/conveyance-crypto/src/canonical_json.rs:88-99 | integers of i64 and u64 in plain decimal (what that is, leading zero and sign included, is `JsonExact.ParseExact`), floats refused |
| `Json.WriteArray` | crates/conveyance-crypto/src/canonical_json.rs:56-66 | appends the array's text, or refuses it when an item is outside the domain |
| `Json.WriteObject` | crates/conveyance-crypto/src/canonical_json.rs:67-84 | appends the members in sorted key order, or refuses when one is outside the domain |
| `Json.WriteValue` | crates/conveyance-crypto/src/canonical_json.rs:31-86 | succeeds exactly on values without a float anywhere inside, and then appends their canonical text |
| `JsonReader.RoundTrip` | crates/conveyance-crypto/src/canonical_json.rs:50-122 | parsing the canonical text of any in-domain value of any depth, with any text behind it that does not begin with a digit, gives the value back and leaves the rest; the reader takes no leading zero, no `-0`, no other escape and no keys out of order |
| `JsonExact.ParseExact` | crates/conveyance-crypto/src/canonical_json.rs:31-122 | the strict reader accepts a string with a rest if and only if the string is the canonical text of an in-domain value and that rest: printed text has no leading zero, no needless escape, and its keys strictly ascend |
| `JsonReader.TextInjective` | crates/conveyance-crypto/src/canonical_json.rs:31-122 | canonical text is unambiguous: equal text, equal values |
| `Utf8.EncodeInjective` | crates/conveyance-protocol/src/message.rs:429-438 | the bytes of a text determine it |
| `Utf8.ValidIsEncoding` | crates/conveyance-protocol/src/message.rs:687-689 | bytes that pass the UTF-8 check are the encoding of some text |
| `Utf8.EncodingIsValid` | crates/conveyance-protocol/src/message.rs:687-689 | the encoding of any text passes the UTF-8 check |
| `Message.FieldsDomain` | crates/conveyance-protocol/src/message.rs:247-267 | a request can be canonicalized exactly when its params are in the canonical domain |
| `Message.CanonicalBindingJson` | crates/conveyance-protocol/src/message.rs:763-766 | validates and then gives the canonical text of all eight fields |
| `Message.ToCanonicalString` | crates/conveyance-crypto/src/canonical_json.rs:45-48 | the same text for an execute request |
| `Message.BindingDetermines` | crates/conveyance-protocol/src/message.rs:120-167 | approval and execute text agree if and only if all eight fields do, params as a JSON value and an absent requester not the same as a present one |
| `Message.ApprovalPayloadCovers` | crates/conveyance-protocol/src/message.rs:429-438 | approval signing payloads agree if and only if the responses agree in everything but the signature |
| `Message.ExecutePayloadCovers` | crates/conveyance-protocol/src/message.rs:429-438 | execute signing payloads exist exactly for float-free bodies and cover every field but the signature |
| `Message.ContextsSeparate` | crates/conveyance-protocol/src/message.rs:341-342 | no bytes are both an approval and an execute signing payload |
| `Message.RequestSays` | crates/conveyance-protocol/src/message.rs:120-137 | the canonical object of a request has exactly the record's names, each holding its own field; operation types by their wire words |
| `Message.ApprovalSays` | crates/conveyance-protocol/src/message.rs:139-151 | an approval is signed over its id, decision word and, if there is one, reason, under those names |
| `Message.ExecuteSays` | crates/conveyance-protocol/src/message.rs:169-185 | an execute response is signed over id, status word, body, time and, if there is one, HTTP status, under those names |
| `Message.ContextsSay` | crates/conveyance-protocol/src/message.rs:341-342 | the two signing contexts, byte for byte |
| `Binding.ApprovedRequestTracker.constructor` | crates/conveyance-protocol/src/binding.rs:52-58 | starts with nothing pending and nothing consumed |
| `Binding.ApprovedRequestTracker.RecordApproval` | crates/conveyance-protocol/src/binding.rs:67-98 | new state and answer on every path: refusals in order, pruning, duplicate ids, the frozen text |
| `Binding.ApprovedRequestTracker.ValidateExecute` | crates/conveyance-protocol/src/binding.rs:104-147 | new state and answer on every path, including what is removed without a tombstone |
| `Binding.ApprovedRequestTracker.PruneTombstones` | crates/conveyance-protocol/src/binding.rs:151-154 | keeps exactly the tombstones of at most twice the TTL |
| `Binding.PendingAndConsumedDisjoint` | crates/conveyance-protocol/src/binding.rs:83-98 | over every history no id is both pending and tombstoned |
| `Binding.ExecuteSucceedsIff` | crates/conveyance-protocol/src/binding.rs:67-147 | an execute request is accepted if and only if the history holds a recorded response that approves, under its own id, exactly its eight fields, at most one TTL old, with no execute request for the id since |
| `Binding.RecordSucceedsIff` | crates/conveyance-protocol/src/binding.rs:67-98 | over every history a response is recorded if and only if it is an approval, under the request's id, of an authenticated request in the domain, and the id has neither an approval waiting nor an execute request that left a tombstone within twice the TTL |
| `Binding.NotRecordedBecause` | crates/conveyance-protocol/src/binding.rs:67-98 | which refusal a response gets, each if and only if its cause is there: the domain, then not an approval, then another id, then a duplicate id |
| `Binding.RefusedBecause` | crates/conveyance-protocol/src/binding.rs:104-147 | which refusal an execute request gets, each if and only if its cause is in the history: replayed, unknown, expired, or other fields than approved |
| `Binding.ApprovalsAreNotShared` | crates/conveyance-protocol/src/binding.rs:104-147 | no two executions rest on the same approval |
| `Binding.TombstoneStands` | crates/conveyance-protocol/src/binding.rs:104-154 | an execution's tombstone stands while the clock is within twice the TTL of it |
| `Binding.TombstoneOrigin` | crates/conveyance-protocol/src/binding.rs:104-154 | every tombstone was left, at its time, by an execute request for its id |
| `Binding.ExecutionsAreFarApart` | crates/conveyance-protocol/src/binding.rs:83-154 | two executions of one id are more than twice the TTL apart, re-approved or not |
| `Approval.ApprovalProtocol.RegisterRequest` | crates/conveyance-crypto-ffi/src/approval.rs:253-265 | an id is registered once; a second time is refused |
| `Approval.ApprovalProtocol.DecodeRequestBytes` | crates/conveyance-crypto-ffi/src/approval.rs:293-304 | only authenticated approval requests in the domain are registered |
| `Approval.ApprovalProtocol.DecodeInboundBytes` | crates/conveyance-crypto-ffi/src/approval.rs:306-332 | approval requests are registered, other messages handed on |
| `Approval.ApprovalProtocol.SignResponse` | crates/conveyance-crypto-ffi/src/approval.rs:395-451 | new state and answer on every path; the response is encoded before the id is reserved and again after the approval is recorded |
| `Approval.ApprovalProtocol.ValidateExecute` | crates/conveyance-crypto-ffi/src/approval.rs:453-460 | the tracker decides, for authenticated execute requests only |
| `Approval.OneRegistration` | crates/conveyance-crypto-ffi/src/approval.rs:253-265 | over every history no id is registered twice |
| `Approval.OneSignature` | crates/conveyance-crypto-ffi/src/approval.rs:395-451 | over every history no id is signed for twice, however long after |
| `Approval.SignedSays` | crates/conveyance-crypto-ffi/src/approval.rs:395-451 | over every history a signed response carries the id of the handle's request, the decision and reason of the call, and the signature made |
| `Approval.RegisteredSays` | crates/conveyance-crypto-ffi/src/approval.rs:253-332 | a registered handle carries the request that came in, unchanged |
| `Approval.DuplicateDecisionIff` | crates/conveyance-crypto-ffi/src/approval.rs:395-451 | a decision is refused as a duplicate if and only if its id was reserved by an earlier one, and as foreign if and only if its handle is of another session |
| `Approval.RegisteredIff` | crates/conveyance-crypto-ffi/src/approval.rs:253-332 | an authenticated request in the domain is registered if and only if no earlier call registered its id; otherwise it is refused as a duplicate |
| `Approval.InboundSays` | crates/conveyance-crypto-ffi/src/approval.rs:306-332 | which other messages are handed on, exactly: unchanged, and changing nothing |
| `Approval.ReservedMeansSigned` | crates/conveyance-crypto-ffi/src/approval.rs:395-451 | once an id is reserved the response leaves if and only if there is a signature and the second encoding succeeds: recording cannot fail, nor can that encoding if it depends on sizes alone |
| `Approval.SpentStaysSpent` | crates/conveyance-crypto-ffi/src/approval.rs:395-460 | an answered id that is not pending never becomes pending again |
| `Approval.OneExecution` | crates/conveyance-crypto-ffi/src/approval.rs:395-460 | over every history no id is executed twice, even after its tombstone is pruned |
| `Approval.AcceptedMeansApproved` | crates/conveyance-crypto-ffi/src/approval.rs:253-460 | an accepted execution goes back to one registration and one signed approval, in that order, of exactly the executed request and at most one TTL old; the response left if and only if it encoded again |
| `Approval.AcceptedIff` | crates/conveyance-crypto-ffi/src/approval.rs:395-460 | over every history an execute request is accepted if and only if an approval of exactly its request was signed at most one TTL before, with no execute request for its id in between |
| `Approval.RequestsCanBeAccepted` | crates/conveyance-crypto-ffi/src/approval.rs:253-460 | any request in the domain that is registered, approved and executed within the TTL is accepted |
| `Framing.FrameFields` | crates/conveyance-wire/src/framing.rs:100-112 | an encoded frame reads back as its sequence number, flags and payload |
| `Framing.FrameLayout` | crates/conveyance-wire/src/framing.rs:100-112 | six header bytes, length and number high byte first, flags and a zero, and then the payload |
| `Framing.MaxFramePayload` | crates/conveyance-wire/src/framing.rs:95-97 | header and payload fill one GATT operation exactly; an MTU below 23 counts as 23 |
| `Framing.SplitMessage` | crates/conveyance-wire/src/framing.rs:126-162 | the loop gives the frames of the recursive definition, and the next free sequence number; a zero size is refused |
| `Framing.CountFrames` | crates/conveyance-wire/src/framing.rs:135 | rounding the division up, and never below one, counts the frames |
| `Framer.FrameReassembler.IngestFrame` | crates/conveyance-wire/src/framing.rs:207-263 | new state and answer for every frame in every state: the checks in order, and what an error leaves behind |
| `Framer.FrameReassembler.Deliver` | crates/conveyance-wire/src/framing.rs:265-305 | what each kind of data frame does, with the cap checked for all but a START and END frame |
| `Framer.IdleMeansEmpty` | crates/conveyance-wire/src/framing.rs:207-305 | after any frames and any errors an idle machine holds nothing |
| `Framer.TrainBehind` | crates/conveyance-wire/src/framing.rs:207-305 | what an assembling machine holds, while it is within its cap, is the payloads of a START and middles with consecutive numbers |
| `Framer.MessagesAreCarried` | crates/conveyance-wire/src/framing.rs:207-305 | every message that comes out is one START and END frame of at most 65535 bytes, or a START, middles and an END with consecutive numbers and at most the cap |
| `Framer.OverCapIsTerminal` | crates/conveyance-wire/src/framing.rs:264-305 | once over its cap the machine never delivers again, whatever frames follow: all but ACKs are refused |
| `Framer.AcceptedIff` | crates/conveyance-wire/src/framing.rs:207-305 | a frame is accepted if and only if it is a well-formed ACK, or a data frame in its turn, with its START, and within the cap unless it is START and END at once |
| `Framer.DeliversIff` | crates/conveyance-wire/src/framing.rs:265-305 | an accepted frame completes a message if and only if it carries END |
| `Framer.CountsIff` | crates/conveyance-wire/src/framing.rs:207-263 | a frame uses up a sequence number if and only if it comes in its turn, whether then accepted or not; the next is expected one further, wrapping |
| `Framer.NumbersAreConsecutive` | crates/conveyance-wire/src/framing.rs:207-305 | over any frames, across messages and errors, data frames that use up numbers carry consecutive ones |
| `Framer.AcceptedCounts` | crates/conveyance-wire/src/framing.rs:207-305 | every accepted data frame uses up its number |
| `Framer.FrameRefusedBecause` | crates/conveyance-wire/src/framing.rs:207-305 | which error a well-formed frame gets: nested and stray middle exactly by flags and state, a gap exactly when out of turn or an END without START, too large with its size |
| `Framer.MalformedBecause` | crates/conveyance-wire/src/framing.rs:207-228 | which error a malformed frame gets, and that it changes nothing |
| `Assembler.InboundAssembler.IngestBytes` | crates/conveyance-wire/src/assembler.rs:41-77 | new state, and the messages or the error, for every chunk in every state |
| `Assembler.InboundAssembler.DrainFrames` | crates/conveyance-wire/src/assembler.rs:52-76 | the loop takes whole frames off the buffer until none is left or one is refused |
| `Assembler.InboundAssembler.IsIdle` | crates/conveyance-wire/src/assembler.rs:33-35 | idle exactly when nothing is buffered and no message is being assembled |
| `Assembler.ChunkingDoesNotMatter` | crates/conveyance-wire/src/assembler.rs:41-77 | if one call accepts a byte string, every way of cutting it into calls gives the same messages and the same final state |
| `Assembler.NeverTruncated` | crates/conveyance-wire/src/assembler.rs:41-77 | no call yields a truncated-frame or length-mismatch error |
| `Assembler.OversizeIsRefused` | crates/conveyance-wire/src/assembler.rs:41-51 | a call that would bring the buffer past 131072 bytes is refused with its size and does not reach the framer |
| `Assembler.AcksDoNotMatter` | crates/conveyance-wire/src/framing.rs:230-240 | ACK frames put in at any boundaries change nothing |
| `Assembler.RunMessage` | crates/conveyance-wire/src/framing.rs:126-295 | one message split at any legal size from any sequence number, across the u16 wrap, comes out as it went in |
| `Assembler.StreamRoundTrip` | crates/conveyance-wire/src/assembler.rs:41-77 | any messages, split with chained numbers, with ACKs in between and the stream cut anyhow within the cap, come out exactly as sent and leave the assembler idle |
| `CborScan.TakeByte` | crates/conveyance-protocol/src/message.rs:727-733 | takes the byte at the offset, or fails at the end of the input |
| `CborScan.TakeBytes` | crates/conveyance-protocol/src/message.rs:735-745 | takes that many bytes, or fails when there are fewer |
| `CborScan.ScanArgument` | crates/conveyance-protocol/src/message.rs:694-725 | the argument of an initial byte, big-endian (its worth is `CborTheorems.ArgumentWorth`), or the indefinite-length mark |
| `CborScan.AppendStringChunk` | crates/conveyance-protocol/src/message.rs:679-692 | appends the chunk; a text chunk must be UTF-8 by itself |
| `CborScan.ScanString` | crates/conveyance-protocol/src/message.rs:651-677 | reads a definite or indefinite string and gives its chunks joined |
| `CborScan.ScanTextKey` | crates/conveyance-protocol/src/message.rs:643-649 | map keys are text strings |
| `CborScan.ScanArray` | crates/conveyance-protocol/src/message.rs:591-612 | agrees with the tree reader on arrays |
| `CborScan.ScanCounted` | crates/conveyance-protocol/src/message.rs:598-602 | agrees with the tree reader; a count that is honoured is no larger than the bytes it took |
| `CborScan.ItemTurns` | crates/conveyance-protocol/src/message.rs:598-609 | whatever the u64 count and whether or not reading fails, an array's loop gets through no more items than there are bytes |
| `CborScan.EntryTurns` | crates/conveyance-protocol/src/message.rs:623-639 | the same for a map's loop, of at least two bytes an entry |
| `CborScan.ScanMap` | crates/conveyance-protocol/src/message.rs:614-641 | agrees with the tree reader on maps; keys distinct after joining chunks; a count that is honoured is at most half the bytes it took |
| `CborScan.ScanItem` | crates/conveyance-protocol/src/message.rs:544-589 | agrees with the tree reader on every input: same end, or same error |
| `CborScan.ScanCbor` | crates/conveyance-protocol/src/message.rs:535-542 | accepts exactly the encodings of one valid tree; reports trailing data exactly when something stands behind one |
| `CborTheorems.ItemSound` | crates/conveyance-protocol/src/message.rs:544-725 | what the reader returns is a valid tree, and its encoding and the rest make up the input |
| `CborTheorems.ItemComplete` | crates/conveyance-protocol/src/message.rs:544-725 | the encoding of any valid tree, with anything behind it, is read back as that tree |
| `CborTheorems.PrefixFree` | crates/conveyance-protocol/src/message.rs:535-745 | bytes determine the tree and where it ends |
| `CborTheorems.BigEndianFirst` | crates/conveyance-protocol/src/message.rs:694-725 | the first byte of an argument is its most significant, for any number of bytes |
| `CborTheorems.ArgumentWorth` | crates/conveyance-protocol/src/message.rs:694-725 | the worth of an argument of each kind: the additional information itself, or 1, 2, 4 or 8 bytes written out |
| `CborTheorems.LongStringIsRead` | crates/conveyance-protocol/src/message.rs:651-725 | a binary string of 256 to 65535 bytes behind its two-byte length is read whole, whatever follows |
| `CborTheorems.NestingLimit` | crates/conveyance-protocol/src/message.rs:544-547 | arrays nested 64 deep are read and any deeper are refused for their depth |
| `CborTheorems.FirstByteRefused` | crates/conveyance-protocol/src/message.rs:544-589 | tags, simple values other than the four and the sized ones, and a break out of place are refused |
| `CborTheorems.AdditionalRefused` | crates/conveyance-protocol/src/message.rs:694-725 | reserved additional information and integers of indefinite length are refused |
| `CborTheorems.DuplicateKeyRefused` | crates/conveyance-protocol/src/message.rs:614-641 | a second key of the same content, however either is cut into chunks, makes the map invalid |
| `CborTheorems.OtherKeyRefused` | crates/conveyance-protocol/src/message.rs:643-649 | a key that is not a text string makes the map invalid |
| `HashChain.EventContentJson` | crates/conveyance-crypto/src/hashchain.rs:100-120 | never fails, whatever the payload text, and gives the canonical bytes of the four fields |
| `HashChain.ContentInjective` | crates/conveyance-crypto/src/hashchain.rs:100-110 | hashed bytes determine the event |
| `HashChain.EventSays` | crates/conveyance-crypto/src/hashchain.rs:100-110 | the hashed object has exactly the four names, each holding its own field |
| `HashChain.ComputeEntryHash` | crates/conveyance-crypto/src/hashchain.rs:123-129 | the hash of the previous hash and the event's content |
| `HashChain.BuildChain` | crates/conveyance-crypto/src/hashchain.rs:132-145 | gives a verifying chain of exactly these events |
| `HashChain.VerifyChain` | crates/conveyance-crypto/src/hashchain.rs:150-176 | accepts exactly the chain of the rows' own events; otherwise names the least bad row, its link broken if and only if its previous hash is not the head before it |
| `HashChain.VerifiesAppend` | crates/conveyance-crypto/src/hashchain.rs:132-176 | a row keeps a verifying chain verifying if and only if it is the one linked to the head |
| `HashChain.PrefixVerifies` | crates/conveyance-crypto/src/hashchain.rs:11-14 | the stated limitation: dropping the newest rows is never noticed |
| `HashChain.HeadDetermines` | crates/conveyance-crypto/src/hashchain.rs:123-176 | verified chains with one last hash are equal, or two distinct inputs with one hash are named, or (only for unequal lengths) an input hashing to the genesis value |
| `HashChain.LogDb.Append` | crates/conveyance-core/src/storage/logdb.rs:65-121 | adds the row linked to the head or, when storage fails, nothing; a verifying log stays verifying |
| `Recovery.Newest` | crates/conveyance-daemon/src/recovery.rs:45-56 | first index and newest type of every id |
| `Recovery.Collect` | crates/conveyance-daemon/src/recovery.rs:58-62 | every id but the lifecycle id once, in whatever order the map yields them |
| `Recovery.SortByIndex` | crates/conveyance-daemon/src/recovery.rs:63 | the same entries, ascending by first index |
| `Recovery.FindOrphans` | crates/conveyance-daemon/src/recovery.rs:45-64 | exactly the open ids in order of first appearance, whatever the map's order |
| `Recovery.SweepOrphanedRequests` | crates/conveyance-daemon/src/recovery.rs:40-83 | only extends the log, by one timeout row per open id in that order, up to the first row storage refuses; succeeds if and only if none is; a verifying chain stays verifying |
| `Recovery.SweepResumes` | crates/conveyance-daemon/src/recovery.rs:40-83 | a sweep cut off after any of its rows is taken up exactly where it stopped; after a whole one nothing is open, so a second appends nothing |
| `Recovery.ClosingSays` | crates/conveyance-daemon/src/recovery.rs:64-81 | a closing row is a timeout of its id whose payload reads back as the reason and the type of the row it was left behind |
| `Trail.TerminalIsLast` | crates/conveyance-daemon/src/session.rs:74-78 | in a disciplined log nothing stands behind a terminal row of an id |
| `Trail.ResultHasHistory` | crates/conveyance-daemon/src/session.rs:984-1131 | an execution result has its sending, grant and request behind it |
| `Trail.SweepFits` | crates/conveyance-daemon/src/recovery.rs:64-81 | any part of a sweep keeps the log disciplined |
| `Router.Owner.constructor` | crates/conveyance-daemon/src/session.rs:1236-1258 | a session starts with an empty tracker, an empty queue and nothing in flight |
| `Router.Owner.Teardown` | crates/conveyance-daemon/src/session.rs:697-716 | drops the flight and the queue and logs the end |
| `Router.Owner.StartRoute` | crates/conveyance-daemon/src/session.rs:752-867 | new parts and logged rows on every path, from entropy failure to a broken link |
| `Router.Owner.DrainRouteQueue` | crates/conveyance-daemon/src/session.rs:1172-1176 | starts the head of the queue, whatever is in flight |
| `Router.Owner.FinishApproval` | crates/conveyance-daemon/src/session.rs:922-1087 | nothing is trusted before the signature; denial and expiry close the id; approval is carried out |
| `Router.Owner.CarryOut` | crates/conveyance-daemon/src/session.rs:984-1085 | the grant, the two tracker calls, the sending and each way they can fail |
| `Router.Owner.FinishExecute` | crates/conveyance-daemon/src/session.rs:1095-1132 | a signed result is logged as terminal, an unsigned one only noted |
| `Router.Owner.TryCompleteRoute` | crates/conveyance-daemon/src/session.rs:875-914 | only the awaited kind of message for the id in flight is taken, and then the queue is drained |
| `Router.Owner.RouteTimedOut` | crates/conveyance-daemon/src/session.rs:1138-1169 | closes the id in flight and drains the queue |
| `Router.Owner.OnRoute` | crates/conveyance-daemon/src/session.rs:554-580 | starts at once, queues, or refuses when eight are waiting |
| `Router.Owner.OnMessage` | crates/conveyance-daemon/src/session.rs:606-686 | an answer is completed; otherwise a ping is answered without a row, a farewell or undecodable bytes end the session, anything else is only noted |
| `RouterRuns.GrantSucceeds` | crates/conveyance-daemon/src/session.rs:984-1056 | once the grant is logged neither tracker call nor the rebuilding can fail, so the sending follows |
| `RouterRuns.RunKeeps` | crates/conveyance-daemon/src/session.rs:507-1176 | over every run of steps, crashes and sweeps the log is disciplined and what is in flight matches it |
| `Provenance.RowHasCause` | crates/conveyance-daemon/src/session.rs:507-1176 | in every run each row of a request was written by the one thing that may: a grant or sending by a signed approval for the id in flight, a denial by a signed response that does not approve, a result by a signed result, a timeout by a deadline or a sweep of an open id, a request by its start |
| `Provenance.GrantsAreSigned` | crates/conveyance-daemon/src/session.rs:922-1056 | in every run a grant or a sending goes back to a signed message that approves that id |
| `Provenance.GrantLoggedIff` | crates/conveyance-daemon/src/session.rs:922-1056 | a step logs a grant, and a sending, if and only if its message is a signed approval for the id in flight |
| `Provenance.DenialLoggedIff` | crates/conveyance-daemon/src/session.rs:948-983 | a step logs a denial if and only if its message is a signed response, not approving, for the id in flight |
| `Provenance.UnsignedIsOnlyNoted` | crates/conveyance-daemon/src/session.rs:938-1107 | an unsigned approval or result leaves the tracker as it was and writes one note and no row of the request |
| `Provenance.WhatIsAsked` | crates/conveyance-daemon/src/session.rs:752-867 | in every run at most eight wait, everything waiting was routed, and what the phone is asked to approve has the service, method, endpoint, params and requester of an operation that was routed |
| `Provenance.StartOutcome` | crates/conveyance-daemon/src/session.rs:752-867 | what starting a request leaves in flight, queued and logged, by whether an id was drawn, the domain, the encoding and the sending |
| `Provenance.RouteOutcome` | crates/conveyance-daemon/src/session.rs:554-580 | while a request is in flight a command waits behind the others, or is refused when eight do, and nothing is logged |
| `Provenance.OtherwiseOutcome` | crates/conveyance-daemon/src/session.rs:606-686 | a message that answers nothing touches neither tracker nor requests; it ends the session if and only if it is a farewell, undecodable, or a ping whose answer does not get out |
| `RouterRuns.RowHasPredecessor` | crates/conveyance-daemon/src/session.rs:752-1169 | in every run each row of an id but its request stands right behind one it may follow |
| `RouterRuns.ResultFollowsRequest` | crates/conveyance-daemon/src/session.rs:752-1169 | in every run an execution result follows a sending, which follows a grant, which follows a request, all of its id |
| `RouterRuns.OneTerminalRow` | crates/conveyance-daemon/src/session.rs:752-1169 | in every run no id has more than one terminal row |
| `RouterRuns.SweptIdsAreClosed` | crates/conveyance-daemon/src/recovery.rs:40-83 | right after a sweep every id but the lifecycle id has exactly one terminal row, and it is its newest |
| `RouterRuns.GrantedIsSent` | crates/conveyance-daemon/src/session.rs:984-1056 | in every run, while the daemon is up, no id rests on a grant without a sending |
| `RouterRuns.RequestsCanComplete` | crates/conveyance-daemon/src/session.rs:752-1132 | for any request in the domain there is a run, from a fresh install, whose log is request, grant, sending and result |
| `RouterRuns.ApprovedStaysInFlightIff` | crates/conveyance-daemon/src/session.rs:882-891 | an approved request stays in flight if and only if the queue is empty or its head is refused at once; otherwise the head is in flight in its place, or nothing when the link breaks |
| `Displacement.StepClear` | crates/conveyance-daemon/src/session.rs:507-1176 | no step writes a row for a known request that is not in flight, nor puts it back in flight |
| `Displacement.AbandonedUntilSweep` | crates/conveyance-daemon/src/session.rs:507-1176 | in every run a request not in flight gets no further row, from any steps or crashes, until a sweep |
| `Displacement.SweepTimesOut` | crates/conveyance-daemon/src/recovery.rs:40-83 | a sweep closes whatever has a row and no terminal one, as timed out |
| `Displacement.ResultLoggedIff` | crates/conveyance-daemon/src/session.rs:892-901 | a signed result is logged if and only if its request is in flight and was sent for execution |
| `Displacement.RequestsCanBeDisplaced` | crates/conveyance-daemon/src/session.rs:882-891 | for any two requests there is a run, from a fresh install, in which the first is approved and sent and the second, queued behind it, is in flight in its place |
| `Displacement.ResultsCanBeLost` | crates/conveyance-daemon/src/session.rs:882-901 | from there the signed result writes no row for its id, and after a restart the log has the executed request as timed out |
| `Glob.GlobMatches` | crates/conveyance-protocol/src/policy.rs:140-167 | the loop terminates and computes the function the theorems below are about |
| `Glob.GlobIsSound` | crates/conveyance-protocol/src/policy.rs:137-167 | a true answer is always a match, for every pattern and value |
| `Glob.GlobIsExact` | crates/conveyance-protocol/src/policy.rs:137-167 | on values without an inner star the answer is exactly the declarative match |
| `Glob.GlobMisses` | crates/conveyance-protocol/src/policy.rs:147-150 | the failing family: a value with a star inside, and the pattern that ends there |
| `Glob.MissedPattern` | crates/conveyance-protocol/src/policy.rs:147-150 | every value with an inner star has a pattern that means it and that the loop denies |
| `Glob.GlobExactIff` | crates/conveyance-protocol/src/policy.rs:140-167 | the loop is exact on a value for all patterns if and only if the value has no star but a last one |
| `Policy.MatchesRule` | crates/conveyance-protocol/src/policy.rs:122-134 | every pattern the rule gives must pass |
| `Policy.RuleFiresAsMeant` | crates/conveyance-protocol/src/policy.rs:122-134 | a rule fires only on requests it means, and on all of them when their fields have no inner star |
| `Policy.RulesFireAsMeantIff` | crates/conveyance-protocol/src/policy.rs:122-167 | all rules fire exactly as meant on a request if and only if its three fields have no inner star |
| `Policy.RuleCanFailToRaise` | crates/conveyance-protocol/src/policy.rs:88-167 | every request with an inner star, not DELETE and to a seen destination, stays at tier 2 under some tier-3 rule that means it |
| `Policy.Evaluate` | crates/conveyance-protocol/src/policy.rs:88-118 | tier 3 exactly for DELETE in any case, a destination not among the newest 30, or a matching tier-3 rule; each reason reported if and only if it is there, in that order; tier 2 otherwise |
| `Policy.DeleteInAnyCase` | crates/conveyance-protocol/src/policy.rs:88-118 | the method counts as DELETE if and only if it is those six letters, each in either case |
| `Watchdog.Validated` | crates/conveyance-core/src/session/timers.rs:57-78 | parameters are accepted exactly within the bounds, and then unchanged |
| `Watchdog.Select` | crates/conveyance-core/src/session/timers.rs:141-178 | the arm that is ready first, among several at once any, a warning counting as given if and only if the owner still takes it |
| `Watchdog.Watch` | crates/conveyance-core/src/session/timers.rs:123-180 | for every schedule of signals, every tie and whenever the owner stops listening the run ends, nothing in it comes after the hard cap, the cap is reached exactly at its time, all deadlines are kept, every signal before its end was received, and with an owner that stays only idle expiry or the cap ends it |
| `Watchdog.IdleExpiryIsExact` | crates/conveyance-core/src/session/timers.rs:153-178 | idle expiry comes exactly one idle timeout after the last received activity or the start, with exactly one warning in that window, `warn_before` earlier |
| `Watchdog.WindowsAreKept` | crates/conveyance-core/src/session/timers.rs:123-180 | nothing outlasts the idle window of the last received activity, or of the start, and every warning in it comes `warn_before` its end |
| `Session.Transition` | crates/conveyance-core/src/session/state.rs:112-145 | each state is entered by exactly these events from exactly these states; everything else is refused, and everything once ended |
| `Session.EstablishedSession.Send` | crates/conveyance-core/src/session/mod.rs:148-152 | refused unless established; otherwise the transport decides |
| `Session.EstablishedSession.Receive` | crates/conveyance-core/src/session/mod.rs:154-170 | refused unless established; the buffer is wiped on success and keeps the residue on failure |
| `Session.EstablishedSession.OnActivity` | crates/conveyance-core/src/session/mod.rs:192-203 | rescues a warned session and signals the watchdog if its channel has room; refused once ended |
| `Session.EstablishedSession.HandleTimerEvent` | crates/conveyance-core/src/session/mod.rs:208-228 | warns an active session; expiry and the cap end it with their reason |
| `Session.EstablishedSession.End` | crates/conveyance-core/src/session/mod.rs:242-255 | ends an established session and tears it down; otherwise nothing |
| `Session.EstablishedSession.Teardown` | crates/conveyance-core/src/session/mod.rs:260-266 | no timers, no transport, no buffered plaintext |
| `Session.AlwaysSane` | crates/conveyance-core/src/session/mod.rs:139-266 | over every history a session is ended exactly when an ending call was made, and holds a transport exactly while it is not |
| `Session.RefusedOnceEnded` | crates/conveyance-core/src/session/mod.rs:139-266 | over every history sending, receiving and activity are refused exactly from the first ending call on, with no transport and an empty buffer |
| `Session.WarnedIff` | crates/conveyance-core/src/session/mod.rs:192-228 | over every history a live session is warned if and only if a warning came and no activity since |
| `Hkdf.XorInPlace` | crates/conveyance-crypto/src/hkdf.rs:53-58 | every byte of the block is combined with the mask, in place |
| `Hkdf.NewHmac` | crates/conveyance-crypto/src/hkdf.rs:41-69 | the two keyed states of RFC 2104 |
| `Hkdf.Sign` | crates/conveyance-crypto/src/hkdf.rs:71-81 | HMAC of the parts joined |
| `Hkdf.ZeroPaddedKey` | crates/conveyance-crypto/src/hkdf.rs:41-50 | zeros at the end of a key that fits a block make no difference |
| `Hkdf.PaddedKey` | crates/conveyance-crypto/src/hkdf.rs:41-58 | the key block byte by byte, zero behind the key, and the two pads with 0x36 and 0x5c |
| `Hkdf.LongKey` | crates/conveyance-crypto/src/hkdf.rs:41-50 | a key longer than a block counts as its hash |
| `Hkdf.Extract` | crates/conveyance-crypto/src/hkdf.rs:85-87 | HMAC of the input under the salt; 32 zero bytes extract the same key as an empty salt |
| `Hkdf.Expand` | crates/conveyance-crypto/src/hkdf.rs:90-119 | fills the buffer with the first octets of T(1), T(2), ... of section 2.3 of RFC 5869; the counter overflows if and only if more than 254 * 32 octets are asked for |
| `Hkdf.OkmPrefix` | crates/conveyance-crypto/src/hkdf.rs:90-119 | a shorter output is the beginning of a longer one |
| `Hkdf.BlockOf` | crates/conveyance-crypto/src/hkdf.rs:90-119 | each block is the HMAC of the one before it, the info and its number |

## Left out

- CborScan.TakeBytes: the size error for a length that overflows the address space is the truncation error here.
- CborScan.ScanCbor: the texts of malformed-input errors, and the size error for a length that overflows the address space, are one error here; which inputs are refused is exact.
- Router.Owner.StartRoute: payload text and timestamps of log rows are inputs, and replies to the caller, deadlines and the activity reset are not modelled.
- Router.Owner.FinishApproval: whether a signature verifies is an input; the same holds for execution results.
- RouterRuns.RunKeeps: log appends succeed or the daemon crashes, and generated ids are new to the log; the program ignores append errors.
- RouterRuns.GrantSucceeds: the tracker's two clock readings are in order and within its TTL of each other, as within one handler call.
- Provenance.GrantLoggedIff: the same of the clock readings.
- Watchdog.Watch: deadlines are urgent, and handing an event to its channel takes no time.
- Session.EstablishedSession.Send: the Noise cipher is any pair of functions; wiping memory is modelled as emptying the buffer.
- HashChain.LogDb.Append: SQLite is a sequence of rows that takes a row or does not; the separate head metadata is not modelled.
- Whole-service liveness of the route queue: the program does not keep one-at-a-time service when requests are queued.
- Ed25519, X25519, SHA-256, BLAKE2s, Argon2id, ChaCha20-Poly1305 and BIP-39 internals: library primitives.
- What ciborium and serde make of bytes that pass the preflight: foreign code; decoded messages are inputs.
- BLE, Noise handshakes, IPC, tasks, signals and shutdown: I/O.
- Pairing, its QR code, nonce guard and state machine: mostly transport sequencing and small tables.
- MCP shim, JSON-RPC, command line, log query and diff, configuration: thin translation and formatting.
- TOML parsing and validation of the phone policy: parsing is a library's, and validation is one range check a rule.
