# A verified model of m-bus

m-bus is a Modbus master and slave for embedded systems. This project models its protocol core in
Dafny and proves what the core is for: that frames with errors are refused, that receiving does not
depend on how bytes and interrupts interleave, that a slave answers as the Modbus application
protocol says although it builds its response over the request, that master, transport, slave and
tables together behave like a plain map from addresses to bits and registers, and that messages and
connections over TCP stay in step.

`dafny verify dfyconfig.toml` checks everything.

## The parts

- **CRC-16** (`Registers`, `CrcTables`, `CrcSpec`, `CrcAlgebra`, `Crc`, `CrcOrder`, `CrcErrors`).
  `Crc.MbCrc` is the loop over the two tables of `src/mb_crc.c`; `CrcSpec.BitwiseCrc` is the
  division of section 6.2.2 of "MODBUS over Serial Line Specification and Implementation Guide
  V1.02". All 256 entries of both tables are checked against the division. `Registers` is the
  algebra of linear feedback registers over any type, `CrcOrder` shows that the zero-input step
  has order 32767, and `CrcErrors` gives the error detection theorems.
- **RTU** (`RtuMachine`, `RtuFrame`, `RtuReception`, `RtuVerdict`, `RtuNext`, `RtuDriver`, `RtuTransmit`,
  `RtuExchange`). `mb_rtu_rx` runs beside the receive hook and two timers. `RtuMachine` has one step for
  each access to the FIFO or to the event flags, and its lemmas keep their invariants over every
  interleaving.
  `RtuDriver.Port` is the code itself, loops and all, proved to follow that machine in every
  schedule: the schedule is given in advance and every access lets it run until the access is due.
  `RtuExchange.Wire` has the code of `src/mb_rtu.c` at both ends of a line.
- **Slave** (`Pdu`, `Tables`, `SlaveSpec`, `Slave`, `SlaveService`, `SlaveProperties`, `SlaveBytes`). The handlers
  of `src/mb_slave.c` work in place on one 253-byte array. `SlaveSpec` says what they must answer
  without knowing the array, and `SlaveProperties` says, cell by cell and byte by byte, what that
  means, and `SlaveBytes` says it once more in numbers: function codes, exception codes and the
  values of bytes, bits and registers. `Tables` holds the callbacks of `sample/slave.c` for tables of
  any size up to 65536.
- **Master and end to end** (`PlainMap`, `Master`, `EndToEnd`, `CallValues`). `PlainMap` knows only
  areas, indices and cells; `CallValues` says in numbers what its calls are: data model addresses,
  slave numbers, the bytes of a caller's buffer, error numbers. `EndToEnd.RunCalls` makes any
  sequence of calls with the code of `src/mbus.c`, has
  them served by the code of `src/mb_slave.c`, and is proved to agree with the plain map in every
  result and in the final tables. Master and slave share a bus that loses nothing; or a serial line
  with the code of `src/mb_rtu.c` at both ends, frames written in any pieces and received in any
  interleaving without late bytes; or a TCP connection with the code of `src/mb_tcp.c` at both ends
  and the bytes cut into any pieces.
- **TCP** (`TcpSocket`, `TcpFraming`, `TcpTransport`, `TcpSlave`, `TcpExchange`). The framing of
  section 3.1.3 of
  "MODBUS Messaging on TCP/IP Implementation Guide V1.0b", the loops over short reads and writes,
  the open/close state, the slave task on top, and a whole exchange between two ends.

## How the environment enters

- Sockets, the serial FIFO, timers and event flags are objects or states whose answers are chosen
  arbitrarily beforehand: how many bytes a call transfers, whether it fails, when an interrupt
  comes. Results hold for every choice.
- `os_event_wait` is not part of the repository's portable code; it is taken to hand over a copy of
  the flags and to clear none. A timer callback runs only after the hook for the latest byte has.
- The host is little-endian, as `src/mb_rtu.c:208` and the byte swaps of `src/mbus.c` need.
- Table callbacks answer 0 or one of the four exceptions -1 to -4, and may change their answer
  between any two calls. A failing callback leaves data and tables as they are. Tables do not
  share memory with each other or with a PDU buffer.
- A C function that changes its arguments' memory is a method on that memory. Parts of one C
  function that are methods of their own here keep the order of its statements.

## Results that are not what one might expect

- Section 2.5.1.1 of the serial line guide has a receiver discard a frame with a silence of more
  than 1.5 characters in it. `src/mb_rtu.c` does not always: the hook of the next byte withdraws the
  T1P5 flag, and if the receiver has not looked in between, the two parts count as one frame.
  `RtuReception.GapUnnoticed` gives, for every frame that fits and every place to cut it in two, a run
  in which it is taken whole. Exactly: a reception is refused with EFRAME_NOK if and
  only if RX_AVAIL was up at some moment of the last wait, the guard at `src/mb_rtu.c:330`; otherwise
  the bytes read, from both sides of a gap, are judged as one frame (`RtuVerdict.RefusedIff`,
  `RtuVerdict.GapUnnoticedIff`). A gap is always noticed when the receiver leaves the receive loop
  on T1P5 before the hook of the next byte has withdrawn it (`RtuVerdict.GapNoticedOnLeaving`).
- A frame with fewer than two bytes after the address can pass the CRC only as the bytes FF FF, and
  is accepted only by a slave with unit 255 (`RtuFrame.ShortFrames`); the result is then negative.
  Units up to 247, all that `mb_rtu_bringup` lets pass, are safe in every run
  (`RtuVerdict.NeverNegative`).
- Two flipped bits go unnoticed exactly when their distance is a multiple of 32767 bits
  (`CrcErrors.TwoErrorsMissedIff`), so never in an RTU frame.
- The clear of all flags at `src/mb_rtu.c:341` does not always leave the line ready for the next call.
  Every run of the next call goes right if and only if the line is settled: with an empty FIFO, no
  hook call may be due and T1P5 may not run; with bytes there, their hook call must not be over or
  both timers must still run (`RtuNext.NextGoesRightIff`). Otherwise the next call may return without
  a byte having been sent, judging whatever lies in `slave_rx` (`RtuNext.TimersLeft`), or wait for
  ever with a byte in the FIFO (`RtuNext.ByteLeft`). After a frame of more than 253 bytes behind the
  address, none of them late, the latter always happens: its last bytes are left
  (`RtuNext.OverlongLeaves`).
- A failed write of -1 is not seen as a failure by `mb_rtu_write`, which keeps it in a `size_t`: the
  loop goes one byte back, to the byte before the buffer if it was the first, and has one more byte
  to send (`RtuTransmit.OneFailure`). A part goes out right if and only if no write used for it
  returned 0 or -1 (`RtuTransmit.WholeIff`).
- `src/mbus.c:110-112` takes the caller's slave number for both the connection's handle and the unit.
  Over TCP the unit byte of a request is the handle's low byte, and the slave answers whatever it is.
  On a bus a slave number that is not 0 but has the low byte 0 reaches all slaves, and the caller
  waits in vain (`PlainMap.Deliver`).
- An RTU PDU of 252 or 253 bytes is always refused: the 253-byte buffer must also hold the CRC
  (`RtuFrame.RoundTrip`). So over a serial line a call can write 122 registers or 1960 coils and read
  124 registers or 1992 bits, which is less than `src/mbus.c` lets pass (`PlainMap.WritePasses`,
  `PlainMap.ReadPasses`).
- A read/write request whose read callback fails after the write leaves the write done and answers
  with an exception (`SlaveProperties.WriteComesFirst`). A request that fails validation changes
  nothing.
- The TCP receiver takes the bytes an MBAP length field announces, and so finds the next message, if
  and only if the field is between 2 and 254 (`TcpFraming.LengthField`). A field of 0 wraps around
  and makes it take 253 bytes, 1 brings the connection down, and after more than 254 it goes on in
  the middle of the message (`TcpFraming.LengthFieldOdd`).
- Section 6 of the application protocol has a slave check whether it supports a function before it
  looks at quantity and address. `src/mb_slave.c` looks for the callback last, so that a table
  without one answers EILLEGAL_FUNCTION if and only if the rest of the request is valid
  (`SlaveProperties.UnsupportedRead`, `SlaveProperties.UnsupportedWrite`,
  `SlaveProperties.UnsupportedSingle`, `SlaveProperties.UnsupportedReadWrite`);
  `SlaveProperties.UnsupportedUnnoticed` is a request that is answered otherwise.

## Model

| member | source | states |
|---|---|---|
| `CrcSpec.TableHiIsSteps` | src/mb_crc.c:19-39 | every entry of the first table is the low byte of eight steps of the reflected-0xA001 division |
| `CrcSpec.TableLoIsSteps` | src/mb_crc.c:42-62 | every entry of the second table is the high byte of those steps |
| `Crc.TableRound` | src/mb_crc.c:79-81 | one round with the tables is the exclusive or of the byte followed by eight division steps |
| `Crc.MbCrc` | src/mb_crc.c:71-85 | the table loop over any part of a buffer equals the bit-by-bit division, for every preload |
| `CrcAlgebra.CrcConcat` | src/mb_rtu.c:193-194 | chained calls give the CRC of the concatenation |
| `CrcAlgebra.CrcIsFeed` | src/mb_crc.c:71-85 | the division taken bytewise is the register fed with the message's bits, lowest first |
| `Crc.ZeroResidue` | src/mb_rtu.c:305-306 | the CRC over a message and two more bytes is zero if and only if they are the message's CRC, low byte first |
| `CrcErrors.MissedIff` | src/mb_rtu.c:304-310 | a corrupted frame passes if and only if the error pattern alone has CRC zero |
| `CrcErrors.ParityInvariant` | src/mb_crc.c:71-85 | the register's bit parity is the preload's plus that of all message bits |
| `CrcErrors.OddErrorsDetected` | src/mb_crc.c:71-85 | every odd number of flipped bits is detected, at any length |
| `CrcOrder.Order` | src/mb_crc.c:71-85 | feeding d zero bits returns the register to 1 if and only if 32767 divides d |
| `CrcErrors.TwoErrorsMissedIff` | src/mb_crc.c:71-85 | two flipped bits are missed if and only if 32767 divides their distance |
| `CrcErrors.UpToThreeErrorsDetected` | src/mb_rtu.c:284-310 | one, two or three flipped bits are detected in every frame of up to 4095 bytes |
| `CrcErrors.BurstDetected` | src/mb_crc.c:71-85 | any error within 16 consecutive bits in transmission order, byte aligned or not, is detected in a frame of any length |
| `RtuFrame.RoundTrip` | src/mb_rtu.c:138-208 | what tx sends for a PDU is received as that PDU if it has at most 251 bytes and the unit matches or is 0, and otherwise refused for the reason named |
| `RtuFrame.AcceptedIff` | src/mb_rtu.c:282-355 | with two or more bytes after the address, exactly the frames a sender would build are accepted |
| `RtuFrame.KnownFrame` | src/mb_rtu.c:192-208 | the frame of unit 2 and PDU 07 ends in 41 12, as in the serial line guide's example |
| `RtuFrame.VerdictByNumber` | src/mb_rtu.c:304-355 | for all bytes: -102 if too long, else -103 if for another unit, else the PDU's length if they are a sender's frame, and else -101, but for FF FF |
| `RtuFrame.HighByteAfterEight` | src/mb_crc.c:42-62 | the low table vanishes only at index 0 |
| `RtuFrame.ShortFrames` | src/mb_rtu.c:304-351 | a frame with fewer than two bytes after the address is accepted only as FF FF by unit 255 |
| `RtuFrame.AcceptedHasCrc` | src/mb_rtu.c:304-351 | no byte string deserves a negative count from a unit up to 247 |
| `RtuMachine.StepInv` | src/mb_rtu.c:76-339 | every step of every thread keeps: no byte lost, doubled or reordered, no lost wakeup, a timer pending after every byte |
| `RtuMachine.StepClean` | src/mb_rtu.c:258-356 | every step keeps that without a late byte the verdict depends only on the bytes and the unit |
| `RtuMachine.StepRefusing` | src/mb_rtu.c:286-339 | every step keeps that a frame which overruns the buffer, or gets a byte after the receive loop, is refused |
| `RtuMachine.RunInv` | src/mb_rtu.c:244-356 | the three invariants hold in every state of every run |
| `RtuReception.ChunkingDoesNotMatter` | src/mb_rtu.c:258-356 | however bytes are split over hook calls and reads, with none after T1P5 the result is a function of bytes and unit, and the buffer holds the bytes after the address in order |
| `RtuReception.TransmittedIsReceived` | src/mb_rtu.c:138-356 | a transmitted frame of at most 251 PDU bytes is received as its PDU in every interleaving, with the broadcast flag right |
| `RtuReception.CleanReceptionsChain` | src/mb_rtu.c:341-355 | after such a frame the next reception starts from scratch |
| `RtuNext.NextGoesRightIff` | src/mb_rtu.c:260-355 | after any reception, refused frames and late bytes included, every run of the next call receives what it must, and can end once something has come, if and only if the line is settled |
| `RtuNext.TimersLeft` | src/mb_rtu.c:322-341 | after a frame and two bytes too many, refused, a run in which the next call returns an error with nothing sent, for any address left in slave_rx |
| `RtuNext.ByteLeft` | src/mb_rtu.c:322-341 | a run in which a frame is received and a byte stays in the FIFO that the next call cannot receive before another comes |
| `RtuNext.OverlongLeaves` | src/mb_rtu.c:286-341 | in every run an overlong frame without late bytes is refused, all of it beyond 253 bytes after the address stays in the FIFO, and the next call cannot end before another byte comes |
| `RtuReception.BadFramesRefused` | src/mb_rtu.c:286-339 | more than 253 bytes after the address before T3P5, or a byte after the receive loop, ends in EFRAME_NOK |
| `RtuReception.NoLostWakeup` | src/mb_rtu.c:156-177 | at every wait an unread byte has RX_AVAIL up or a hook call on the way, or, at the first wait if that was not so at the start, T1P5; the count never exceeds 253 |
| `RtuReception.NeverStuck` | src/mb_rtu.c:258-339 | once a byte has come, something other than a further byte can always happen |
| `RtuReception.Completes` | src/mb_rtu.c:286-355 | after both timers, mb_rtu_rx ends within 16 of its own steps |
| `RtuReception.TimeoutsChain` | src/mb_rtu.c:260-272 | a timeout loses nothing: the next call begins with the bytes that have come, and all that is proved of a reception holds for it |
| `RtuReception.GapUnnoticed` | src/mb_rtu.c:76-85 | for every frame that fits, cut in two by a silence anywhere, a run in which it is received whole |
| `RtuVerdict.RefusedIff` | src/mb_rtu.c:322-355 | in every run the result is EFRAME_NOK if and only if RX_AVAIL was up at some moment of the last wait, and otherwise what the address and the bytes in the buffer deserve |
| `RtuVerdict.GapUnnoticedIff` | src/mb_rtu.c:76-85 | with a byte after T1P5 the frame passes that check if and only if RX_AVAIL stayed down; then nothing was thrown away and both parts were judged as one |
| `RtuVerdict.PendingIsNoticed` | src/mb_rtu.c:322-339 | a byte whose hook call is not over at the last wait, with T3P5 clear, always spoils the frame |
| `RtuVerdict.GapNoticedOnLeaving` | src/mb_rtu.c:286-302 | leaving the receive loop on T1P5 before the hook of the next byte has withdrawn it always spoils the frame |
| `RtuVerdict.CallsChain` | src/mb_rtu.c:244-356 | over any number of calls, timeouts and refused frames among them: as long as each reception with a call after it leaves the line settled, every call begins as it must and returns ETIMEOUT with nothing lost, EFRAME_NOK, or what the bytes of its own frame deserve |
| `RtuVerdict.FramesInOrder` | src/mb_rtu.c:138-356 | any number of frames sent one after the other, each to the unit that listens or to all, are received as their PDUs in order with the broadcast flag right, in every interleaving without late bytes |
| `RtuVerdict.NeverNegative` | src/mb_rtu.c:304-355 | in every run, late bytes or not, a unit up to 247 returns one of the three errors or the count of a frame that carries its CRC |
| `RtuDriver.Port.MbRtuRead` | src/mb_rtu.c:156-177 | the four accesses put the right bytes in the buffer and leave the line as the machine does, whatever happens in between |
| `RtuDriver.Port.MbRtuRx` | src/mb_rtu.c:244-356 | the code's result, buffer, line and broadcast flag are the machine's in every schedule |
| `RtuTransmit.SerialOut.MbRtuWrite` | src/mb_rtu.c:138-154 | with results of any size, 0 or -1, and the size_t wrapped as on the host, the bytes sent are those of Send |
| `RtuTransmit.WholeIff` | src/mb_rtu.c:138-154 | what Send says: the buffer goes out once, first byte to last, if and only if no write used for it returned 0 or -1 |
| `RtuTransmit.TooMany` | src/mb_rtu.c:138-154 | with no 0 among the results used every byte of the buffer goes out, and too many do if and only if a write failed |
| `RtuTransmit.OneFailure` | src/mb_rtu.c:140-152 | a single -1 sends the byte before once more, which is the one before the buffer if the first write fails |
| `RtuTransmit.SerialOut.MbRtuTx` | src/mb_rtu.c:179-208 | address, PDU and CRC go out as they should if and only if none of the writes used returns 0 or -1, and where none returns 0 anything else shows on the wire |
| `RtuExchange.Wire.Serve` | src/mb_slave.c:395-507 | while a frame comes in, a request for the slave is executed and its response goes out as a frame, a broadcast is executed in silence, and nothing happens for another unit |
| `RtuExchange.Wire.Exchange` | src/mb_rtu.c:138-356 | over a serial line, the code at both ends, the master is left with the slave's response, a timeout, or nothing if it asked all, in every interleaving without late bytes |
| `Pdu.WithHas` | src/mb_slave.c:35-54 | setting a bit changes that bit and no other |
| `Pdu.UnpackPack` | src/mb_slave.c:35-54 | bits packed into bytes are read back |
| `Pdu.PackUnpack` | src/mb_slave.c:107-111 | bytes whose pad bits are zero are determined by their bits |
| `Pdu.RegsPack` | src/mb_slave.c:56-68 | registers stored in network order are read back |
| `Pdu.HasValue` | src/mb_slave.c:35-54 | bit k is the one of value 2^k |
| `Pdu.WordValue` | src/mb_slave.c:56-68 | a register's value is 256 times the first byte plus the second |
| `Pdu.WordOfValue` | src/mbus.c:177-179 | the register of a number has that value |
| `Tables.BitTable.Get` | sample/slave.c:26-39 | the bits land in the data in order; other bytes and the pad bits stay |
| `Tables.BitTable.Set` | sample/slave.c:41-54 | exactly the named cells take the bits of the data |
| `Tables.RegTable.Get` | sample/slave.c:67-78 | the registers land in the data in network order, other bytes stay |
| `Tables.RegTable.Set` | sample/slave.c:80-91 | exactly the named cells take the registers of the data |
| `Tables.BitTable.constructor` | sample/slave.c:115-117 | a table over any bytes that hold its cells |
| `Tables.RegTable.constructor` | sample/slave.c:118-119 | a table over any registers that hold its cells |
| `Slave.ReadBits` | src/mb_slave.c:70-114 | the response over the request is the packed cells with pad bits zero, or the exception |
| `Slave.ReadRegisters` | src/mb_slave.c:116-148 | the response over the request is the cells in network order, or the exception |
| `Slave.WriteBit` | src/mb_slave.c:150-181 | one cell changes and the request is echoed, or nothing changes |
| `Slave.WriteBits` | src/mb_slave.c:183-224 | the cells take the request's bits and it is echoed, or nothing changes |
| `Slave.WriteRegister` | src/mb_slave.c:226-249 | one cell changes and the request is echoed, or nothing changes |
| `Slave.WriteRegisters` | src/mb_slave.c:251-287 | the cells take the request's registers and it is echoed, or nothing changes |
| `Slave.ReadWriteRegisters` | src/mb_slave.c:289-345 | the table is written before it is read although the response overlays the request |
| `Slave.Diagnostics` | src/mb_slave.c:347-365 | a loopback is echoed whole, any other sub-function refused |
| `Slave.Slave.Dispatch` | src/mb_slave.c:408-475 | each function code goes to its handler and table; a broadcast read does nothing |
| `Slave.Slave.Execute` | src/mb_slave.c:408-486 | the buffer holds the whole response over the rest of the request, the tables are those of the specification |
| `SlaveSpec.ResponseShape` | src/mb_slave.c:408-486 | every response is the function with bit 7 and an exception 1 to 4, or the function with at least one more byte, or the loopback echo, and fits the buffer |
| `SlaveSpec.HandleKeepsTables` | src/mb_slave.c:408-475 | no request changes a table's size or callbacks or the two input tables |
| `SlaveProperties.BitsAreRead` | src/mb_slave.c:70-114 | count is ceil(quantity / 8), bit i is cell address + i, every pad bit 0, or, in the code's order, the first exception that applies and nothing changed |
| `SlaveProperties.RegistersAreRead` | src/mb_slave.c:116-148 | register i of the response is cell address + i, or, in the code's order, the first exception that applies |
| `SlaveProperties.UnsupportedRead` | src/mb_slave.c:70-148 | a read from a table without a read callback is answered with EILLEGAL_FUNCTION if and only if quantity and address are valid |
| `SlaveProperties.UnsupportedWrite` | src/mb_slave.c:183-287 | a multiple write to a table without a write callback is if and only if quantity, address, count and length are valid |
| `SlaveProperties.UnsupportedSingle` | src/mb_slave.c:150-249 | a single write is if and only if address and, for a coil, value are valid |
| `SlaveProperties.UnsupportedReadWrite` | src/mb_slave.c:289-345 | a read/write request to a table that lacks either callback is if and only if the write is valid and, where only the read callback is missing, the read too |
| `SlaveProperties.UnsupportedUnnoticed` | src/mb_slave.c:70-114 | a request for no coils to a slave that cannot read them is answered with EILLEGAL_DATA_VALUE |
| `SlaveProperties.CoilIsWritten` | src/mb_slave.c:150-181 | FF00 and 0000 set and clear exactly one coil, any other value is refused |
| `SlaveProperties.RegisterIsWritten` | src/mb_slave.c:226-249 | exactly one register takes the value |
| `SlaveProperties.CoilsAreWritten` | src/mb_slave.c:183-224 | all or nothing: exactly the named coils hold the carried bits and the head is echoed, or the first exception and no change |
| `SlaveProperties.RegistersAreWritten` | src/mb_slave.c:251-287 | all or nothing for registers |
| `SlaveProperties.WriteComesFirst` | src/mb_slave.c:289-345 | the response holds the registers after the write, overlapping ranges included; a request that fails validation changes nothing |
| `SlaveBytes.CellsByValue` | src/mb_slave.c:35-43 | cell i of a table of bits is the bit of value 2^(i % 8) of byte i / 8 |
| `SlaveBytes.ReadBitsByValue` | src/mb_slave.c:70-114 | functions 1 and 2 in numbers: exception 3, 2, 1 or the callback's, or count and bits by value, pad bits 0 |
| `SlaveBytes.ReadRegistersByValue` | src/mb_slave.c:116-148 | functions 3 and 4 in numbers: 256 times the first byte of a pair plus the second is the register |
| `SlaveBytes.WriteCoilByValue` | src/mb_slave.c:150-181 | function 5 in numbers: 65280 sets and 0 clears exactly one coil |
| `SlaveBytes.WriteCoilsByValue` | src/mb_slave.c:183-224 | function 15 in numbers: every named coil takes the bit of value 2^(i % 8) of its byte, no other changes |
| `SlaveBytes.WriteRegisterByValue` | src/mb_slave.c:226-249 | function 6 in numbers: exactly one register takes the value of bytes 3 and 4 |
| `SlaveBytes.WriteRegistersByValue` | src/mb_slave.c:251-287 | function 16 in numbers |
| `SlaveBytes.ReadWriteByValue` | src/mb_slave.c:289-345 | function 23 in numbers: all checks, then the write, then the registers as they are after it |
| `SlaveBytes.DiagnosticsByValue` | src/mb_slave.c:347-365 | function 8: sub-function 0 is echoed whole and changes nothing, any other is refused with 1 |
| `SlaveBytes.OtherFunctions` | src/mb_slave.c:367-393 | with no vendor functions every other function code is refused with 1 |
| `SlaveBytes.Broadcasts` | src/mb_slave.c:410-475 | a broadcast read does nothing, every other broadcast request does what it does otherwise |
| `SlaveService.HandleRequest` | src/mb_slave.c:395-507 | tables, buffer, transaction and transport after one request are those of Served |
| `SlaveService.OneTurn` | src/mb_slave.c:406-505 | every request received is executed, answered or not; its response goes out under its id and unit unless it was broadcast or something newer had come, which is then taken instead |
| `SlaveService.Discipline` | src/mb_slave.c:395-537 | over every run, the user changing callback answers and input tables between turns, the messages sent answer different requests in their order, each under its id and unit and well-formed |
| `PlainMap.ReadBack` | src/mbus.c:53-290 | what a write stored is what a read fetches, and other reads do not notice |
| `PlainMap.CoilsChanged` | src/mb_slave.c:183-224 | a write to a run of coils is an update of the plain map |
| `CallValues.Places` | src/mbus.c:74-107 | 0x0_0001, 0x1_0001, 0x3_0001 and 0x4_0001 are the first coil, input, input register and holding register, and so on; there is nothing else |
| `CallValues.BufferCells` | src/mbus.c:127-150 | bit i of a caller's buffer is the one of value 2^(i % 8) of byte i / 8; a register there has its low byte first |
| `CallValues.ReadBitsOf` | src/mbus.c:53-153 | a read of coils or inputs in numbers: -1, -104, -3, -2, -1, the callback's answer, or the cells of the slave's table |
| `CallValues.ReadRegistersOf` | src/mbus.c:53-153 | a read of registers in numbers |
| `CallValues.BitsArrive` | src/mbus.c:53-153 | a read of bits returns 0 exactly when nothing is against it, and then the buffer's bits are the slave's cells |
| `CallValues.RegistersArrive` | src/mbus.c:53-153 | a read of registers returns 0 exactly when nothing is against it, and then low byte plus 256 times high byte is the slave's register |
| `CallValues.WriteCoilsOf` | src/mbus.c:212-290 | a write of coils in numbers, and the slave's tables after it, heard, broadcast or not heard |
| `CallValues.WriteHoldingOf` | src/mbus.c:212-290 | a write of registers in numbers, likewise |
| `CallValues.WriteCoilOf` | src/mbus.c:155-210 | a single write sets its coil if the value is not 0 and clears it if it is, and changes nothing else |
| `CallValues.WriteRegisterOf` | src/mbus.c:155-210 | a single write gives its register the value, and changes nothing else |
| `CallValues.CoilReadsBack` | src/mbus.c:155-210 | a single coil that was written is read back, other places read as before |
| `CallValues.RegisterReadsBack` | src/mbus.c:155-210 | a single register that was written is read back, other places read as before |
| `CallValues.WriteElsewhere` | src/mbus.c:164-178 | inputs, input registers and addresses that do not exist cannot be written |
| `CallValues.CallsInOrder` | src/mbus.c:53-290 | in a run every call finds what the calls before it have left |
| `Master.ErrorComesBack` | src/mbus.c:31-51 | the exception a slave encodes is the error the master returns |
| `Master.ErrorsByNumber` | src/mbus.c:31-51 | codes 1 to 4 are the errors -1 to -4 and any other is -105; bit 7 marks an exception |
| `Master.UnitOfValue` | src/mbus.c:112 | the unit is the slave number's low byte |
| `Master.Master.Exchange` | src/mbus.c:110-127 | the transaction has the low byte of the slave number for its unit and the next id, and leaves the master with what the line brings |
| `Master.ReadAnswered` | src/mb_slave.c:70-148 | the slave's response to a read request is what the plain map holds |
| `Master.WriteAnswered` | src/mb_slave.c:183-287 | the slave's tables and response after a write are what the plain map says |
| `Master.WritesIgnoreBroadcast` | src/mb_slave.c:442-468 | a write does the same whether it is broadcast or not |
| `Master.CopySwapped` | src/mbus.c:139-143 | the loop exchanges every two bytes |
| `Master.Master.Unload` | src/mbus.c:127-150 | the caller's buffer holds the cells of the response in host order, its rest is untouched |
| `Master.Master.MbusRead` | src/mbus.c:53-153 | result and buffer are those of the plain map, for every slave number, address and quantity the line takes, on the bus, over a serial line and over TCP |
| `Master.Master.MbusWriteSingle` | src/mbus.c:155-210 | result and tables are those of the plain map, on the bus, over a serial line and over TCP |
| `Master.Master.MbusWrite` | src/mbus.c:212-290 | result and tables are those of the plain map, on the bus, over a serial line and over TCP |
| `Master.Cable.Exchange` | src/mbus.c:110-127 | on the bus the slave's response is left with the master if its unit is asked, and otherwise a timeout, or nothing for slave 0 |
| `Master.OverWire` | src/mb_rtu.c:138-356 | the same over a serial line for requests and responses of at most 251 bytes |
| `Master.OverConnection` | src/mb_tcp.c:98-192 | over a connection the master is left with the slave's response, in whatever pieces the bytes come |
| `EndToEnd.RunCalls` | src/mbus.c:53-290 | over every sequence of calls, on a bus that loses nothing, over a serial line in whatever interleaving, or over a TCP connection in whatever pieces, all results and the final tables are those of the plain map |
| `TcpSocket.OsTcpRecv` | src/ports/linux/mbal_tcp.c:252-273 | a success is the whole head of the stream; if no recv fails it succeeds when enough comes, in whatever pieces |
| `TcpSocket.OsTcpSend` | src/ports/linux/mbal_tcp.c:229-250 | a success is the whole buffer sent, in whatever pieces |
| `TcpSocket.OnlyTheOpenPeer` | src/mb_tcp.c:53-180 | in an orderly log every call concerns the connection accepted last, with no close in between; so none is closed twice |
| `TcpFraming.DeframeBytes` | src/mb_tcp.c:108-170 | the first message of a stream is the one framed there |
| `TcpFraming.BytesByValue` | src/mb_tcp.c:108-113 | the header in numbers: id, protocol and length with the high byte first, then the unit |
| `TcpFraming.DeframeByValue` | src/mb_tcp.c:157-190 | and as it is taken from a stream |
| `TcpFraming.RequestsByProtocol` | src/mb_tcp.c:182-186 | the requests among the messages are those of protocol 0 |
| `TcpFraming.StreamRoundTrip` | src/mb_tcp.c:98-192 | deframing a stream of framed messages gives them back in order |
| `TcpFraming.LengthField` | src/mb_tcp.c:158-170 | exactly the bytes announced are taken, and the next message found, if and only if the length field is between 2 and 254 |
| `TcpFraming.LengthFieldOdd` | src/mb_tcp.c:158-180 | what happens at 0, at 1 and above 254 |
| `TcpFraming.LeadsFrames` | src/mb_tcp.c:128-192 | messages taken one after the other are the first ones of the stream |
| `TcpTransport.Tcp.MbTcpTx` | src/mb_tcp.c:98-126 | the message goes out framed, or a part of it does and the connection is closed and down |
| `TcpTransport.Tcp.MbTcpRx` | src/mb_tcp.c:128-192 | a timeout changes nothing; otherwise one whole message is taken, and delivered if of protocol 0 and dropped if not; anything else brings the connection down, once |
| `TcpTransport.Tcp.GetMessage` | src/mb_tcp.c:157-170 | header and PDU of exactly the next message of the stream, or no success |
| `TcpTransport.Tcp.Bringup` | src/mb_tcp.c:53-74 | afterwards the connection is the one accepted, or still none |
| `TcpTransport.ReceiveAll` | src/mb_tcp.c:128-192 | repeated rx gives the requests among the first messages of a stream in order, whatever happens, and all of them if no call fails, for every segmentation and any timeouts |
| `TcpSlave.Respond` | src/mb_slave.c:406-506 | the request is executed and its response goes out under the transaction's id and unit, whole unless the connection breaks down |
| `TcpSlave.HandleTcp` | src/mb_slave.c:395-507 | one call changes nothing on a timeout, leaves scrap in the buffer on a breakdown, and otherwise serves exactly the next message of the stream |
| `TcpSlave.RunSlave` | src/mb_slave.c:509-537 | from the start of the task, over every run of connections, timeouts, failures and changes the user makes to callbacks and input tables: only the open connection is used; tables and bytes sent are those of serving the messages taken, with each change made in its turn; connections without failures end complete; with enough turns every message is answered |
| `TcpSlave.OneReplyEach` | src/mb_tcp.c:108-192 | on every connection one well-formed reply for each request, in order, under its id and unit, and the stream of replies deframes to them |
| `TcpExchange.Exchange` | src/mb_tcp.c:98-192 | request and response between two ends: the master is left with exactly the slave's response, as over a transport that loses nothing |

## Left out

- Sockets, serial ports, epoll, termios, timers, threads, allocation, logging and tracepoints: the environment, present only through what it answers.
- The Windows and rt-kernel ports: near copies of what is modelled.
- Command line and shell front ends, `src/mb_master.c`, `src/mb_transport.c`, the BSP files: argument parsing, locking wrappers and one-line dispatch.
- `mb_rtu_bringup` and the T1P5/T3P5 computation: easy arithmetic on strings and baud rates.
- Vendor functions: arbitrary user code. The slave modelled has none configured, so every other function code is answered with an exception.
- `mbus_loopback`, `mbus_send_msg`, `mbus_get_msg`: the first copies from the start of the response, header included, so data does not come back unchanged; the others hand bytes through.
- Response matching in the master: it does not compare id, function or byte count, so the results are about a paired slave.
- The input callbacks of `sample/slave.c` that return constants: the input tables here hold arbitrary cells and have a read callback like the others.
- RtuDriver.Port.MbRtuRead: reads that fail or deliver fewer bytes than were available are not modelled.
- RtuTransmit.SerialOut.MbRtuTx: draining and transmit enable are not modelled. size_t has 64 bits, and fewer than 2^63 results are given, which keeps the size from wrapping to 0.
- RtuReception.CleanReceptionsChain: only for frames that fit and have no late byte; RtuNext.NextGoesRightIff is about all others.
- RtuExchange.Wire.Exchange: the ends take turns, one sending only when the other has finished; no write fails, no byte is late, and PDUs have at most 251 bytes.
- Slave.Slave.Amend: the user changes callback answers and input tables between requests, not within one, and not the coils and holding registers.
- EndToEnd.RunCalls: one slave on the line; over a connection the calls are for the slave at its end, and no call on either socket fails or times out; over a serial line requests and responses have at most 251 bytes.
- TcpSocket.Net.Accept: a connection number of 0 or less counts as no connection; a descriptor 0 would be leaked by the source.
