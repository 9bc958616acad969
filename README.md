# ECAM protocol core of longshot, in Dafny

longshot drives De'Longhi ECAM coffee machines over Bluetooth LE. This project
models the parts of it that do not depend on the radio or on the async runtime:

- **Packet framing** (`packet.dfy`, modules `Packet` and `EcamPackets`).
  - The table-free 16-bit checksum loop, proved equal to a left fold of its per-byte update.
  - The update is proved to be exactly one byte step of CRC-16/CCITT (generator 0x1021, most significant bit first, no reflection, no final XOR). Seeded with 0x1D0F, the checksum is the CRC-16/AUG-CCITT parameterisation: the catalogue check value of `"123456789"` is `E5CC`.
  - `packetize`: the `0d, length, payload, checksum` frame.
  - `stringify`: two lower-case hex digits per byte.
  - The two packet wrappers and their constructors.
- **Commands** (`command.dfy`, module `Command`).
  - The fixed payloads of the brew, monitor and turn-on requests.
  - The machine state code table.
  - The positional monitor-state decoder.
  - The response dispatcher keyed on the first byte.
- **Driver front end** (`ecam.dfy`, module `Ecam`).
  - Classifying a monitor state into stand-by, ready or busy.
  - The status-interest reference count, shared between the interest and its handles.
  - The one-way `alive` flag.
  - The interest discipline of waiting for a state and reading the current one.

`base.dfy` holds the byte type (`bv8`, so arithmetic wraps as `u8` does) and
the `Option`/`Result` wrappers. The checksum register is a `bv16`, so every
shift and XOR wraps modulo 2^16 as the `u16` register does.

Each operation is paired with a partner:

- The checksum has the bitwise CRC reference definition, a fold/append law, and the residue law: a buffer followed by its own checksum has checksum zero, and no other two bytes do that.
- Framing has a receiving-side check, `Unframe`, and both round trips.
- Hex rendering has the reading-back function `Unstringify`.
- The machine-state decoder has the code table written back (`Code`).
- The status classification has the exactly-one-match law.
- The interest count has the invariant that it always equals the number of live handles.

## Model

| member | source | states |
|---|---|---|
| Packet.UpdateByte | src/protocol/packet.rs:72-75 | no contract of its own: the four-line `u16` update of the register by one byte, with 16-bit wrap-around; `Packet.UpdateIsCcitt` states what it computes |
| Packet.Fold | src/protocol/packet.rs:71-76 | no contract of its own: the loop over the buffer as a left fold of `UpdateByte`; `Packet.FoldIsCcitt` and `Packet.FoldAppend` state its properties |
| Packet.Crc | src/protocol/packet.rs:70-76 | no contract of its own: the fold started from the seed `0x1D0F`; `Packet.CrcIsAugCcitt` states that it is CRC-16/AUG-CCITT |
| Packet.BigEndian | src/protocol/packet.rs:78 | the checksum bytes are two, the high byte then the low byte, and they recombine to the register |
| Packet.Checksum | src/protocol/packet.rs:69-79 | the loop's result is the big-endian final register of the left fold of the per-byte update from 0x1D0F over the buffer |
| Packet.ChecksumOfEmpty | src/protocol/packet.rs:69-79 | the checksum of the empty buffer is the seed, `1d 0f` |
| Packet.FoldAppend | src/protocol/packet.rs:71-76 | checksumming `a + b` continues from the register reached after `a` |
| Packet.UpdateIsCcitt | src/protocol/packet.rs:72-75 | the four-line byte update equals eight textbook CRC-16/CCITT shift-and-conditional-XOR steps after XOR-ing the byte into the high half |
| Packet.FoldIsCcitt | src/protocol/packet.rs:71-76 | the fold of the update equals the bitwise CRC-16/CCITT register from any start value |
| Packet.CrcIsAugCcitt | src/protocol/packet.rs:69-79 | the checksum register is CRC-16/CCITT seeded with 0x1D0F (CRC-16/AUG-CCITT) |
| Packet.CrcCheckValue | src/protocol/packet.rs:69-79 | the checksum register of `"123456789"` is the CRC-16/AUG-CCITT check value `E5CC` |
| Packet.ChecksumVectorCoffee | src/protocol/packet.rs:108-111 | the coffee frame prefix checksums to `77 ff` |
| Packet.ChecksumVectorBrew | src/protocol/packet.rs:112-115 | the second brew frame prefix checksums to `c4 7e` |
| Packet.ChecksumVectorTurnOn | src/protocol/packet.rs:116 | the turn-on frame prefix checksums to `55 12` |
| Packet.CrcResidue | src/protocol/packet.rs:69-79 | a buffer followed by its own checksum bytes has checksum register zero |
| Packet.CrcResidueUnique | src/protocol/packet.rs:69-79 | two trailing bytes that bring the register to zero are the buffer's checksum bytes |
| Packet.Frame | src/protocol/packet.rs:81-89 | the frame has length `n + 4`; byte 0 is `0d`; byte 1 is `n + 3`; bytes 2 to `n + 1` are the payload; the last two bytes are the checksum of everything before them |
| Packet.Packetize | src/protocol/packet.rs:81-89 | it fails ("Packet too large") exactly when `n + 3` does not fit a byte, and otherwise returns the frame |
| Packet.UnframeFrame | src/protocol/packet.rs:81-89 | the receiving-side check accepts every frame and gives back its payload |
| Packet.FrameUnframe | src/protocol/packet.rs:81-89 | whatever the receiving-side check accepts is exactly the frame of the payload it gives back |
| Packet.FrameCheckByResidue | src/protocol/packet.rs:87 | a frame's checksum bytes are right if and only if the checksum register over the whole frame is zero |
| Packet.FrameVectorCoffee | src/protocol/packet.rs:121-124 | the coffee payload packetizes to `0d 0f 83 f0 02 01 01 00 67 02 02 00 00 06 77 ff` |
| Packet.FrameVectorBrew | src/protocol/packet.rs:125-128 | the second brew payload packetizes to `0d 0d 83 f0 05 01 01 00 78 00 00 06 c4 7e` |
| Packet.FrameVectorTurnOn | src/protocol/packet.rs:129-132 | the turn-on payload packetizes to `0d 07 84 0f 02 01 55 12` |
| Packet.Stringify | src/protocol/packet.rs:91-96 | the rendering has exactly two characters per byte |
| Packet.StringifyDigits | src/protocol/packet.rs:91-96 | byte `i` is rendered at positions `2i` and `2i + 1`, the high nibble first, as hex digits |
| Packet.StringifyAlphabet | src/protocol/packet.rs:94 | every character of the rendering is a lower-case hex digit |
| Packet.UnstringifyStringify | src/protocol/packet.rs:91-96 | reading the rendering back as hex pairs gives the original bytes, so the rendering loses nothing |
| EcamPackets.EcamDriverPacket.FromVec | src/protocol/packet.rs:17-19 | the packet holds exactly the given bytes |
| EcamPackets.EcamDriverPacket.Stringify | src/protocol/packet.rs:21-23 | the packet's rendering has two characters per byte and reads back to its bytes |
| EcamPackets.EcamDriverPacket.Packetize | src/protocol/packet.rs:25-27 | it fails exactly when the bytes are too long for a frame; otherwise the result is a frame that unframes to the packet's bytes |
| EcamPackets.EcamPacket.FromUndecodeableBytes | src/protocol/packet.rs:38-44 | no representation, and the bytes are the input |
| EcamPackets.EcamPacket.FromRepresentation | src/protocol/packet.rs:60-66 | the representation is kept, and the bytes are its encoding, so the packet is consistent with its representation |
| Command.BrewRequest.Encode | src/command.rs:93-101 | the coffee request is 12 bytes starting `83 f0` |
| Command.MonitorRequestVersion.Encode | src/command.rs:105-117 | every monitor request is two bytes ending in `0f` |
| Command.MonitorEncodeInjective | src/command.rs:105-117 | the three versions have distinct encodings |
| Command.StateRequest.Encode | src/command.rs:127-133 | the turn-on request is 4 bytes starting `84 0f` |
| Command.Request.Encode | src/command.rs:80-89 | each variant delegates to its own encoder; a raw request encodes to exactly its bytes |
| Command.RequestEncodeInjective | src/command.rs:80-133 | distinct encodable non-raw requests have distinct payloads |
| Command.RequestFits | src/command.rs:80-133 | every encodable non-raw request fits in a frame, so packetizing it cannot fail |
| Command.CoffeeFrame | src/command.rs:95-99 | the coffee request frames to the packetize test vector |
| Command.TurnOnFrame | src/command.rs:129-131 | the turn-on request frames to the packetize test vector |
| Command.MachineState.Decode | src/command.rs:177-192 | every byte decodes; the decoded state's code is that byte, so decoding is injective; the result is `Unknown` exactly for codes other than 0, 1, 2, 4, 5, 6, 7, 8, 10, 11, 12 |
| Command.MachineStateCodeDecode | src/command.rs:177-192 | decoding the code of any state that decoding can produce gives that state back |
| Command.MachineStateDecodeInjective | src/command.rs:178-190 | distinct bytes decode to distinct states |
| Command.MonitorState.Decode | src/command.rs:147-157 | it needs at least 10 bytes; the fields written back are bytes 5 to 9; the raw bytes are the input |
| Command.MonitorStateDecodeFields | src/command.rs:150-154 | apart from the raw copy, the decoded state depends only on bytes 5 to 9 |
| Command.Response.Decode | src/command.rs:137-143 | it is a state response exactly when the first byte is `75`; a raw response keeps the data unchanged; a state response keeps the bytes after the first two as its raw copy, its fields are bytes 7 to 11 and its machine state is well formed, which by `Command.MonitorStateDetermined` makes it exactly the monitor state decoded from those bytes (so code 0 is stand-by, never an unknown state) |
| Command.MonitorStateDetermined | src/command.rs:147-157 | a monitor state whose raw bytes, five fields and well-formed machine state agree with some data is the decoding of that data |
| Command.MonitorV2IsStateTag | src/command.rs:113-138 | the V2 monitor request's leading byte is the byte that marks a state response |
| Ecam.EcamStatus.Extract | src/ecam/ecam.rs:19-27 | stand-by exactly when the machine is in stand-by, whatever the progress; ready exactly when it is ready-or-dispensing with progress 0; busy otherwise; never unknown |
| Ecam.EcamStatus.Matches | src/ecam/ecam.rs:29-31 | a status matches exactly when it is the extracted one, so unknown never matches |
| Ecam.AtMostOneMatches | src/ecam/ecam.rs:29-31 | at most one status matches a monitor state; with `Ecam.SomeStatusMatches`, exactly one does |
| Ecam.SomeStatusMatches | src/ecam/ecam.rs:19-31 | one of stand-by, ready and busy always matches |
| Ecam.InterestCount.constructor | src/ecam/ecam.rs:45 | the shared count starts at zero with no handles |
| Ecam.StatusInterest.constructor | src/ecam/ecam.rs:43-47 | a new interest has count zero |
| Ecam.StatusInterest.Lock | src/ecam/ecam.rs:49-54 | the count goes up by exactly one, and the new handle shares the same counter |
| Ecam.StatusInterest.Count | src/ecam/ecam.rs:56-58 | the count is the number of live handles |
| Ecam.StatusInterestHandle.constructor | src/ecam/ecam.rs:51-53 | a new handle refers to the very counter it was built from, so the handle and the interest share one count |
| Ecam.StatusInterestHandle.Drop | src/ecam/ecam.rs:61-65 | dropping a live handle takes exactly one off the count, which therefore never underflows |
| Ecam.Ecam.constructor | src/ecam/ecam.rs:97-107 | a new driver is alive, its interest count is valid and zero |
| Ecam.Ecam.IsAlive | src/ecam/ecam.rs:199-205 | reports the flag |
| Ecam.Ecam.Deaden | src/ecam/ecam.rs:239-243 | the flag is false afterwards, whatever it was, and the interest count is untouched |
| Ecam.Ecam.Drop | src/ecam/ecam.rs:246-250 | dropping the driver leaves it dead and the interest count untouched |
| Ecam.Ecam.WaitForState | src/ecam/ecam.rs:150-165 | it succeeds if and only if some observed status matches the wanted one, and fails when the updates end first; the interest count is the same afterwards as before and still valid, and the liveness flag is kept |
| Ecam.Ecam.CurrentState | src/ecam/ecam.rs:168-187 | it returns the classification of the last status, or an error when there is none; the interest count is the same afterwards as before and still valid, and the liveness flag is kept |

## Left out

- Bluetooth LE, MQTT, the command line and file reading are not modelled: they are I/O.
- The reader task, `write_monitor_loop`, `packet_tap` and `write` of `Ecam` are not modelled: they are tokio tasks, channels and timeouts.
- The ready-lock semaphore is not modelled. `Ecam.Ecam.WaitForState` and `Ecam.Ecam.CurrentState` take the observed statuses as a parameter in place of the watch channel and do not model waiting.
- Ecam.Ecam.IsAlive: a poisoned mutex makes `is_alive` report false and `deaden` do nothing. Nothing in the model panics, so poisoning is not modelled.
- `EcamMachineState` is defined in `hardware_enums`, which is not part of this model. It is an abstract datatype that distinguishes only stand-by and ready-or-dispensing.
- The monitor state that `ecam.rs` classifies compares its `state` with `EcamMachineState`, not with `command.rs`'s `MachineState`. `Ecam.MonitorState` keeps only the two fields the classification reads.
- `ParameterRequest::encode` is `unimplemented!()`, so it has no behaviour. Command.Request.Encode: requires that the request is not a parameter request.
- `EcamPacket::from_bytes` (src/protocol/packet.rs:47-57) is not modelled: it calls `PartialDecode::partial_decode`, a trait whose implementations are outside the modelled files. The `PartialDecode`/`PartialEncode` traits are not part of this model either. EcamPackets.EcamPacket.FromRepresentation takes the encoder as a parameter.
- `EcamDriverPacket::from_slice` is test-only, and so is the `hex::decode` helper. `Packet.Unstringify` is this model's own inverse of the rendering, not a function of the source.
- `Accessory`, `Strength` and `Size` are declared in `command.rs` but no operation uses them.
- Packet.Packetize: the source panics with "Packet too large" when the length byte overflows. The model returns `Err(PacketTooLarge)` on exactly those inputs.
- Command.Response.Decode and Command.MonitorState.Decode: an out-of-range slice index panics in the source. The model turns these into preconditions: at least one byte, and at least 12 for a state response.
- Ecam.StatusInterest.Lock: the counter is a `usize` and the model uses an unbounded `nat`. Overflow after 2^64 live handles is not modelled.
- `Packet.Unframe` is a receiving-side check written for this model. The source has no such function.
