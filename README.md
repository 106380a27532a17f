# SLIP file transfer and CRC reference model, in Dafny

This project models the file-transfer path of an FPGA/SoC test repository.
A host-side Python sender frames a file as one META frame followed by
numbered DATA frames, and SLIP-encodes each frame onto a serial line. A
bare-metal C receiver does the rest:

- it pulls bytes out of the UART through a small software buffer;
- it splits them into SLIP frames;
- it checks each META/DATA header;
- it appends the payloads to memory.

The project also models the software CRC-32 reference `crc_sw_model`, its
`reflect_bits` helper and the six test vectors of the host testbench.

Modules, one per source file of the core:

- `Bytes`: the fixed-width integer types, the little-endian loaders
  `rd16`/`rd32` with the `struct.pack` packers they invert, and the `memset`
  and `memcpy` both receivers use.
- `Slip`: the decoder `split_byte_stream`.
  - `Feed`/`FeedAll` are the pure step and run, and `Dispatches` lists the
    frames they hand on.
  - The class `Splitter` keeps the static state, with `frame_buf` as an
    array.
  - Also here: the encoder `slip_encode` (`Encode`, the method
    `SlipEncode`) and the decode-of-encode round trip.
  - The decoder code is the same in `SLIP/x07_receiver.c` and `main.c`; only
    the buffer capacity differs.
- `X07Receiver`: the checked receiver of `SLIP/x07_receiver.c`.
  - `OnMeta`/`OnData`/`OnFrame` are the session as values. The class
    `Receiver` updates `transfer_info` and a 64 MiB memory array in place,
    and is proved against those functions.
  - `ReceiveAll` is the polling loop: decoder plus handlers over a byte
    stream.
- `MainReceiver`: the unchecked variant in `main.c`. Three of its META
  checks are commented out, and DATA goes into a 10 KiB `data_buf`.
- `Sender`: `SLIP/x07_sender.py` lines 44-92.
  - It covers chunk and name clamping, META/DATA packing and the send loop.
  - `DataFrames` and `Stream` describe what the loop writes, and the method
    `SendData` is the loop itself.
- `Transfer`: the end-to-end property. Feeding the sender's whole stream to
  a receiver that sits between frames leaves the file's bytes in memory and
  the session complete. This assumes each `wait_ack` returns (see Left out).
- `UartRx`: `uart_read_byte_nonblock`. One data-register word carries up to
  three bytes plus a count in its top byte.
- `CrcModel`: `reflect_bits` and `crc_sw_model` of `tb_crc_host.c`, together
  with the six test vectors. The byte order of the model is a parameter
  (see Findings).

Modelling choices:

- Memory-mapped registers become parameters.
  - `uart->rxstate` and `uart->rxdata` become the values the two reads
    return.
  - The write window at `0x80000000` becomes the array `mem`, indexed from
    `MEM_BASE`.
- `os.urandom` becomes the parameter `fileId`.
- The C `|` of shifted bytes in `rd16`/`rd32` is written as the equal
  weighted sum.
- `x & 1` on the status register is written as `x % 2`.
- The `uint32_t` counters `expect_seq = seq + 1` wrap modulo 2^32
  explicitly.

## Model

| member | source | states |
|---|---|---|
| Bytes.Rd16 | SLIP/x07_receiver.c:57-60 | the loaded value's low byte is p[off] and its high byte p[off+1] |
| Bytes.Rd32 | SLIP/x07_receiver.c:61-67 | the four bytes of the loaded value, least significant first, are p[off..off+4] |
| Bytes.Le16 | SLIP/x07_sender.py:78 | struct.pack "<H" gives two bytes whose little-endian value is x |
| Bytes.Le32 | SLIP/x07_sender.py:68 | struct.pack "<I" gives four bytes whose little-endian value is x |
| Bytes.Rd16OfLe16 | SLIP/x07_receiver.c:57-60 | rd16 of a packed 16-bit field gives the packed value, wherever the field sits |
| Bytes.Rd32OfLe32 | SLIP/x07_receiver.c:61-67 | rd32 of a packed 32-bit field gives the packed value, wherever the field sits |
| Bytes.Le16OfRd16 | main.c:71-73 | packing what rd16 loaded gives back the two loaded bytes |
| Bytes.Le32OfRd32 | main.c:74-79 | packing what rd32 loaded gives back the four loaded bytes |
| Slip.Initial | SLIP/x07_receiver.c:22-23 | the decoder starts with an empty frame in a buffer of the given capacity |
| Slip.Feed | SLIP/x07_receiver.c:69-103 | one byte keeps the decoder valid, keeps the buffer size, and dispatches only frames that fit their buffer |
| Slip.DispatchOnlyOnEnd | SLIP/x07_receiver.c:71-74 | a frame is handed on iff the byte is END inside a non-empty frame, and it is exactly frame_buf[..frame_num] |
| Slip.EndStartsFrame | SLIP/x07_receiver.c:75-77 | END always empties the frame and enters the in-frame state |
| Slip.IdleDrops | SLIP/x07_receiver.c:93-100 | outside a frame every byte except END is dropped and nothing changes |
| Slip.EscapeEntersEsc | SLIP/x07_receiver.c:79-83 | ESC inside a frame enters the escape state and changes nothing else |
| Slip.EscapedByteStored | SLIP/x07_receiver.c:86-95 | after ESC, ESC_END is stored as END, ESC_ESC as ESC and any other byte as itself |
| Slip.EndAfterEscDiscards | SLIP/x07_receiver.c:71-77 | END right after ESC discards the partial frame without dispatching it |
| Slip.OverflowDiscards | SLIP/x07_receiver.c:94-99 | a data byte arriving with the buffer full drops the frame and returns to idle |
| Slip.FeedAllAppend | SLIP/x07_receiver.c:69-103 | decoding a + b is decoding a and then b, for the state and the dispatched frames |
| Slip.NoEndNoDispatch | SLIP/x07_receiver.c:71-74 | a stream without END dispatches nothing |
| Slip.EndingInEndResets | SLIP/x07_receiver.c:75-76 | a stream ending in END leaves the decoder at the start of an empty frame |
| Slip.DispatchesWithinBuffer | SLIP/x07_receiver.c:72-73 | every dispatched frame is non-empty and no longer than the buffer |
| Slip.EscapeAllAppend | SLIP/x07_sender.py:46-52 | escaping a + b is escaping a, then b |
| Slip.NoEndInside | SLIP/x07_sender.py:46-52 | the escaped payload never contains END |
| Slip.EscapeAllLength | SLIP/x07_sender.py:46-52 | escaping grows the payload by one byte per END or ESC in it |
| Slip.EncodeShape | SLIP/x07_sender.py:44-54 | an encoded frame starts and ends with END, has no END inside, and is 2 + one per special byte longer than the payload |
| Slip.SlipEncode | SLIP/x07_sender.py:44-54 | the loop's output is the SLIP encoding of the payload |
| Slip.DecodeOne | SLIP/x07_receiver.c:85-95 | decoding the escape of one byte stores that byte and dispatches nothing |
| Slip.DecodeEscaped | SLIP/x07_receiver.c:85-100 | decoding an escaped payload that fits writes it into the buffer at frame_num |
| Slip.EscapedQuiet | SLIP/x07_receiver.c:71-74 | an escaped payload never causes a dispatch |
| Slip.RoundTrip | SLIP/x07_receiver.c:69-103 | decoding an encoded non-empty payload that fits dispatches any pending frame, then exactly that payload |
| Slip.EmptyPayload | SLIP/x07_sender.py:44-54 | an empty payload encodes to END END, and the receiver dispatches nothing for it |
| Slip.Splitter.SplitByte | SLIP/x07_receiver.c:69-103 | the in-place decoder step changes state, frame_buf and frame_num exactly as Feed and returns the dispatched frame |
| Slip.Splitter.constructor | SLIP/x07_receiver.c:22-23 | the statics start as the initial decoder |
| Sender.ClampChunk | SLIP/x07_sender.py:65 | the chunk is within [64, 4096], is unchanged inside that range and is saturated outside it |
| Sender.ClampName | SLIP/x07_sender.py:63 | the name is the first min(len, 255) bytes of the given name |
| Sender.PackMeta | SLIP/x07_sender.py:68 | the META frame is the 13-byte header plus the name |
| Sender.PackData | SLIP/x07_sender.py:78 | the DATA frame is the 11-byte header plus the payload |
| Sender.MetaHeaderRoundTrip | SLIP/x07_sender.py:68 | the receiver's rd32/rd16 at offsets 2, 6, 10 and byte 12 read back file id, size, chunk and name length, and the name follows |
| Sender.DataHeaderRoundTrip | SLIP/x07_sender.py:78 | the receiver's rd32/rd16 at offsets 1, 5, 9 read back file id, sequence number and payload length, and the payload follows |
| Sender.PayloadOfData | SLIP/x07_sender.py:78-79 | the payload of a DATA frame is what follows its header |
| Sender.PayloadsAreData | SLIP/x07_sender.py:76-81 | the payloads of the DATA frames, concatenated, are the file from the current offset |
| Sender.FrameCount | SLIP/x07_sender.py:76-81 | the loop sends no frame iff the file is empty, and exactly ceil(remaining / chunk) frames |
| Sender.FrameFields | SLIP/x07_sender.py:76-81 | frame i has type DATA, the file id, sequence number seq + i and a non-empty payload of at most chunk bytes |
| Sender.NextFrame | SLIP/x07_sender.py:77-81 | one iteration sends the encoded frame of the next piece and advances off by its length and seq by one |
| Sender.SentOneMore | SLIP/x07_sender.py:79-81 | what has been written plus what remains to send is always the whole DATA stream |
| Sender.SendData | SLIP/x07_sender.py:74-81 | the loop writes the encodings of all DATA frames, in order |
| Sender.SendFile | SLIP/x07_sender.py:62-81 | send_file writes the encoded META frame and then the DATA stream, or fails to pack when the size exceeds 32 bits |
| Bytes.Zeros | SLIP/x07_receiver.c:132 | memset gives n zero bytes |
| X07Receiver.OnMeta | SLIP/x07_receiver.c:119-149 | META keeps the session invariant and never touches memory |
| X07Receiver.OnData | SLIP/x07_receiver.c:151-185 | DATA keeps the session invariant, never lowers received and never changes total |
| X07Receiver.OnFrame | SLIP/x07_receiver.c:105-117 | dispatching on the type byte keeps the session invariant |
| X07Receiver.MetaEffect | SLIP/x07_receiver.c:119-149 | a rejected META changes nothing; an accepted one opens a fresh session with the header's fields and the name, zero-filled after fname_len as memset leaves it |
| X07Receiver.DataChangesIffAccepted | SLIP/x07_receiver.c:151-172 | DATA changes the session iff every check passes: active, length, file id, sequence number, total and memory range |
| X07Receiver.DataEffect | SLIP/x07_receiver.c:174-184 | an accepted DATA copies the payload at the write pointer, advances received and the pointer by its length, expects seq + 1 (mod 2^32), and ends the session exactly when received reaches total |
| X07Receiver.NoSessionNoWrite | SLIP/x07_receiver.c:153 | without an active session DATA changes nothing |
| X07Receiver.MetaReadsOnlyFrame | SLIP/x07_receiver.c:121-127 | META reads only the frame's own bytes, never stale bytes beyond frame_num |
| X07Receiver.DataReadsOnlyFrame | SLIP/x07_receiver.c:154-162 | DATA reads only the frame's own bytes |
| X07Receiver.OnFrameReadsOnlyFrame | SLIP/x07_receiver.c:105-117 | the handled result depends only on the frame's content |
| X07Receiver.Receive | SLIP/x07_receiver.c:69-74 | one byte through decoder and handlers keeps the receiver invariant |
| X07Receiver.ReceiveAll | SLIP/x07_receiver.c:188-195 | the polling loop keeps the receiver invariant |
| X07Receiver.OnFramesAppend | SLIP/x07_receiver.c:105-117 | handling the frames of a + b is handling a's frames, then b's |
| X07Receiver.ReceiveAllDecodes | SLIP/x07_receiver.c:188-195 | the loop's effect is the decoder run plus the handlers over the dispatched frames, in order |
| X07Receiver.ReceiveAllAppend | SLIP/x07_receiver.c:188-195 | receiving a + b is receiving a, then b |
| X07Receiver.ReceiveEncoded | SLIP/x07_receiver.c:69-117 | receiving one encoded frame that fits handles any pending frame, then exactly that payload, and leaves the decoder between frames |
| X07Receiver.Receiver.constructor | SLIP/x07_receiver.c:53-54 | the statics start idle with no session |
| X07Receiver.Receiver.SplitByteStream | SLIP/x07_receiver.c:69-103 | the in-place decoder and handlers behave exactly as Receive |
| X07Receiver.Receiver.HandleFrame | SLIP/x07_receiver.c:105-117 | the in-place handler behaves exactly as OnFrame |
| X07Receiver.Receiver.HandleMeta | SLIP/x07_receiver.c:119-149 | the in-place META handler behaves exactly as OnMeta and leaves memory alone |
| X07Receiver.Receiver.HandleData | SLIP/x07_receiver.c:151-185 | the in-place DATA handler behaves exactly as OnData |
| Bytes.Memcpy | SLIP/x07_receiver.c:175 | memcpy overwrites exactly the destination window with the source, and nothing else; both receivers use it |
| MainReceiver.OnMeta | main.c:150-174 | META keeps the invariant and never touches data_buf |
| MainReceiver.OnData | main.c:179-212 | DATA keeps the invariant, never lowers received and never changes total |
| MainReceiver.OnFrame | main.c:131-145 | dispatching on the type byte keeps the invariant |
| MainReceiver.MetaEffect | main.c:150-174 | only a short META is refused; any other opens a session with the header's fields and copies fname_len bytes even past the frame, zero-filled after them; fname_len stays 0 |
| MainReceiver.MetaReadsStaleBytes | main.c:170-173 | two frames with the same content but different bytes after frame_num give different names |
| MainReceiver.DataChangesIffAccepted | main.c:179-198 | DATA changes the session iff every check passes |
| MainReceiver.DataEffect | main.c:200-211 | an accepted DATA copies the payload to data_buf[received..], advances received, expects seq + 1 (mod 2^32), and ends the session exactly when received reaches total |
| MainReceiver.OversizedNeverCompletes | main.c:197-198 | with a declared total above data_buf's size, no DATA frame ever ends the session |
| MainReceiver.Receive | main.c:99-129 | one byte through decoder and handlers keeps the invariant |
| MainReceiver.ReceiveAll | main.c:99-129 | a byte stream keeps the invariant |
| MainReceiver.Initial | main.c:99-107 | the initial state satisfies the invariant |
| MainReceiver.Receiver.constructor | main.c:99-107 | the statics start as Initial |
| MainReceiver.Receiver.SplitByteStream | main.c:99-129 | the in-place decoder and handlers behave exactly as Receive |
| MainReceiver.Receiver.HandleFrame | main.c:131-145 | the in-place handler behaves exactly as OnFrame |
| MainReceiver.Receiver.HandleMeta | main.c:150-174 | the in-place META handler behaves exactly as OnMeta |
| MainReceiver.Receiver.HandleData | main.c:179-212 | the in-place DATA handler behaves exactly as OnData |
| Transfer.Padded | SLIP/x07_receiver.c:22 | a frame in the fixed frame_buf has the payload as its content |
| Transfer.ReceiveFrames | SLIP/x07_sender.py:69-79 | receiving the encodings of frames that fit hands each payload, in order, to the handlers and leaves the decoder between frames |
| Transfer.MetaOpensSession | SLIP/x07_sender.py:68 | the sender's META opens a session for its file id, size, chunk and name, at offset 0 and sequence 0 |
| Transfer.DataArrives | SLIP/x07_receiver.c:151-185 | the sender's next DATA frame is accepted: its payload lands at the current offset, and the session advances by one frame |
| Transfer.DataPhase | SLIP/x07_receiver.c:151-185 | the sender's whole DATA sequence fills memory with the rest of the file and ends the session exactly when the file is complete |
| Transfer.FileArrives | SLIP/x07_sender.py:62-81 | after the whole stream the receiver's memory holds the file, the rest of memory is untouched, the session has the sender's id, size, chunk, name length and name bytes, received == total, and it is closed (only an empty file leaves it open) |
| Transfer.FileArrivesAtStart | SLIP/x07_receiver.c:188-195 | a freshly started receiver given the sender's stream ends with the file in memory |
| UartRx.ClampCount | SLIP/uart_read_byte_nonblock.h:40-42 | the byte count is unchanged inside [1, 3], a count of 0 becomes 1 and one above 3 becomes 3 |
| UartRx.Unpack | SLIP/uart_read_byte_nonblock.h:45-47 | three bytes come from one register word |
| UartRx.UnpackRoundTrip | SLIP/uart_read_byte_nonblock.h:40-47 | the three bytes, least significant first, and the count byte make up the register word |
| UartRx.Step | SLIP/uart_read_byte_nonblock.h:25-56 | a buffered byte is handed out first; else with no data nothing changes; else the word's first byte is returned and its next count - 1 bytes are buffered; rx_sw_idx + rx_sw_cnt <= 3 is kept |
| UartRx.BufferedIgnoresRegisters | SLIP/uart_read_byte_nonblock.h:26-30 | while bytes are buffered the registers are not consulted |
| UartRx.Run | SLIP/uart_read_byte_nonblock.h:25-56 | successive calls keep the invariant and yield one result per call |
| UartRx.DrainInOrder | SLIP/uart_read_byte_nonblock.h:26-30 | as many calls as there are buffered bytes return them in order and empty the buffer |
| UartRx.OneWordPerRefill | SLIP/uart_read_byte_nonblock.h:33-55 | one register word yields exactly its clamped count of bytes, least significant first, over consecutive calls |
| UartRx.Receiver.constructor | SLIP/uart_read_byte_nonblock.h:11-13 | the statics start zeroed and empty |
| UartRx.Receiver.ReadByteNonblock | SLIP/uart_read_byte_nonblock.h:25-56 | the in-place function updates rx_sw_buf, rx_sw_cnt and rx_sw_idx and returns exactly as Step |
| CrcModel.ReflectBit | tb_crc_host.c:5-13 | bit j of the reflection is bit width-1-j of the input below width, and 0 above |
| CrcModel.ReflectBits | tb_crc_host.c:5-13 | the loop computes the reflection |
| CrcModel.ReflectNoHighBits | tb_crc_host.c:5-13 | the reflection has no bits at or above width |
| CrcModel.ReflectLowBitsOnly | tb_crc_host.c:5-13 | the reflection depends only on the input's low width bits |
| CrcModel.ReflectInvolution | tb_crc_host.c:5-13 | reflecting twice gives back any value that fits the width |
| CrcModel.ReflectZero | tb_crc_host.c:5-13 | zero reflects to zero |
| CrcModel.ReflectByte | tb_crc_host.c:30-38 | the inner loop reflects the input byte |
| CrcModel.ShiftEight | tb_crc_host.c:44-50 | the eight shift / conditional-XOR steps |
| CrcModel.NextByte | tb_crc_host.c:26-38 | the byte taken in each round, optionally reflected |
| CrcModel.ByteLoop | tb_crc_host.c:23-51 | the byte loop computes the register after all eight bytes |
| CrcModel.OutputStage | tb_crc_host.c:53-61 | the output is reflected if asked, then XORed with a nonzero final value |
| CrcModel.CrcSwModel | tb_crc_host.c:16-64 | crc_sw_model computes Crc for the given byte order |
| CrcModel.ZeroMessage | tb_crc_host.c:16-64 | zero data with zero seed and no final XOR gives zero |
| CrcModel.AsWrittenVector1 | tb_crc_host.c:93-102 | the byte order as written gives 0x19D8FA9B for test case 1, not the expected value |
| CrcModel.Vector1 | tb_crc_host.c:93-102 | most significant byte first gives the expected 0x36CE4FEC |
| CrcModel.Vector2 | tb_crc_host.c:104-113 | most significant byte first gives the expected 0x287DEEE5 |
| CrcModel.Vector3 | tb_crc_host.c:115-124 | most significant byte first gives the expected 0xA777BE14 |
| CrcModel.Vector4 | tb_crc_host.c:126-135 | most significant byte first gives the expected 0x417955BC |
| CrcModel.Vector5 | tb_crc_host.c:137-146 | most significant byte first gives the expected 0xC80D8C93 |
| CrcModel.Vector6MsbFirst | tb_crc_host.c:148-157 | most significant byte first gives 0x642B1DCB, not the expected 0xEF26C3B7 |
| CrcModel.Vector6AsWritten | tb_crc_host.c:148-157 | the byte order as written gives 0x922614C0, not the expected 0xEF26C3B7 |

## Left out

- Memory-mapped I/O is not modelled.
  - The register reads in `uart_read_byte_nonblock` are parameters.
  - `uart_init_for_rx` (`SLIP/uart_read_byte_nonblock.h:16-19`) only writes
    a baud divisor and is left out.
  - The constructor `__init_uart` in `main.c` is left out for the same
    reason.
- The infinite polling loops are not modelled as loops.
  - `x07_receiver_task` and `main` are modelled by `ReceiveAll` over the
    byte sequence they would read.
  - `ReceiveAll` does not model the loop never returning.
- `uart_rx` in `main.c` (lines 81-97) is not modelled.
  - It feeds the same byte `rxdata & 0xFF` fifoCount times, because
    `rxdata >> 9;` discards its result.
  - Its count is not clamped.
  - It is not on the path that `SLIP/x07_receiver.c` uses.
- The serial port, `time.sleep`, the progress `print`s and the `printf`s in
  `main.c` are left out: they are I/O only.
- Sender.SendFile: `wait_ack` (`SLIP/x07_sender.py:32-42`) is not I/O only.
  - It blocks until the bytes "ACK" arrive, and `send_file` calls it after
    META (line 70) and after every DATA frame (line 80).
  - Neither modelled receiver sends "ACK": `TYPE_ACK` at
    `SLIP/x07_receiver.c:14` is never used, and `main.c` writes nothing back.
  - The program as written therefore stalls after the META frame and sends
    no DATA.
  - `Sender.SendFile`, `Sender.Stream` and `Transfer.FileArrives` describe the
    stream written when every `wait_ack` call returns.
- `os.urandom` is left out: the file id is a parameter of the sender.
- The argument parsing of `x07_sender.py` (lines 94-105) is left out.
- `SLIP/x07_sender.py` is two copies spliced together.
  - Line 19 reads `while True# x07_send_no_ack.py`, and line 106 reads
    `raise SystemExit(rc):`, so the file as a whole is not valid Python.
  - The model follows the complete copy at lines 32-92.
  - The fragment at lines 1-19 and the second copy at lines 106-184 are not
    modelled. That copy has the `is_first_frame` flag and an "END" reply.
- Sender.SendFile: the name parameter stands for the UTF-8 encoding of
  the file's basename, `os.path.basename(path).encode("utf-8")` at
  `SLIP/x07_sender.py:63`. Path handling and UTF-8 encoding are not
  modelled. The default argument `chunk=1024` (line 56) is not modelled
  either: the chunk is always passed in.
- The hardware CRC testers (`tb_crc.c`, `CRC/tb_crc.c`, `crc_test.c`), FatFs
  and the VGA test are left out: they drive peripherals this model does not
  have.
- MainReceiver: there is no end-to-end transfer lemma like
  `Transfer.FileArrives` for `main.c`. Its META handler accepts frames the
  checked variant refuses. Its per-frame behaviour is stated by `MetaEffect`
  and `DataEffect`.
- X07Receiver.MetaEffect: the clamp `if (fname_len > 255)` at
  `SLIP/x07_receiver.c:129` is dead code for a `uint8_t`, so it has no
  counterpart.
- Bytes.Rd32: the bitwise OR is modelled as the equal weighted sum of the
  bytes, and the equality with the OR is not proved in this model.
- UartRx.Step: `rxstate & 1` is modelled as `rxstate % 2`, which is the same
  value for unsigned words.
- CrcModel.Vector6MsbFirst: test case 6 matches neither byte order. No
  corrected member reproduces its expected value.

## Findings

| source | as written | input that shows it | evidently intended | confidence | as-written member | corrected member |
|---|---|---|---|---|---|---|
| tb_crc_host.c:26-27 | the 64-bit input is consumed least significant byte first | test case 1: data 0x766970736F636574, poly 0x04C11DB7, no seed, no reflection gives 0x19D8FA9B, not 0x36CE4FEC | most significant byte first, which reproduces test cases 1-5 | not executed; proved in Dafny | CrcModel.AsWrittenVector1 | CrcModel.Vector1 |
| main.c:156-173 | fname_len bytes are copied from buf + 13 with no check against frame_num | a 13-byte META frame whose byte 12 is 1 copies a stale byte of frame_buf into the name | the range check `13 + fname_len > frame_num` of SLIP/x07_receiver.c:127 | not executed; proved in Dafny | MainReceiver.MetaReadsStaleBytes | X07Receiver.MetaReadsOnlyFrame |
