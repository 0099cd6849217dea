# The host half of the mcu-co protocol, verified

`mcu-co` is a microcontroller that a Linux host drives over a serial line: framed commands go out, framed responses
come back, each guarded by a 16-bit CRC. This project models the host side, from the CRC register up to whole sessions
and the command line tool, and proves what each layer promises the next.

| layer | files | models |
|---|---|---|
| integers and layouts | `Words`, `Endianess`, `Status` | uint8_t, uint16_t, uint32_t as `bv8`, `bv16`, `bv32`; little-endian stores |
| frame check | `Crc16`, `BitStrings`, `ShiftRegister`, `Crc16Machine`, `Polynomials`, `Crc16Division`, `Crc16Order`, `ErrorDetection`, `WireBursts`, `FrameCheck` | `library/src/crc16.c` |
| codec | `Protocol`, `Codec`, `CommandBuilders`, `ResponseParser`, `WorkedFrames`, `PublishedVectors` | `library/src/protocol.c`, `library/include/protocol_defs.h` |
| port and receiver | `Uart`, `Reception`, `CommandTransport` | `library/src/uart.c`, `library/src/command_transport.c` |
| calls and sessions | `Mcuco`, `CallLaws`, `Session`, `SessionCalls` | `library/src/mcuco.c` |
| command line tool | `Strtoul`, `CliWords`, `Cli`, `CliCommands`, `CliWire`, `CliLines`, `CliRun` | `cli/commands.c` |

How the pieces meet:

* The CRC method works on a `bv16` register as the C loop does. Its specification is a shift register on bit strings,
  and that is polynomial long division over GF(2), with polynomials as sets of exponents. From there come linearity,
  a bijection per clock, the parity law, the order 32767 of x modulo the generator, and the guarantees for frames.
* `Uart.Port` is the environment. It decides freely what poll, read and write return and how long they take, and it
  logs every byte moved, every clock sample, every poll and the errno of every call that failed. The transfer loops and the receiver are proved against all
  such behaviours. `Reception.Receive` is the pure account of a byte stream that the receiver must agree with.
* `Session` counts commands and answers over abstract channels; `SessionCalls` shows that what the contracts of the calls
  say of any sequence of calls makes it a run of that session, and so carries the counting over to the calls' statuses.
* On the command line side every word list, digit place, row name and opcode is written down a second time, apart from
  the parsers and builders, as a table of what the words mean; lines are followed from the words typed to the bytes sent.
* The firmware's command decoder and response encoder are not in the repository. `Protocol.DecodeCommand` and
  `Protocol.ReplyFrame` are the inverses that the layouts in `library/include/protocol_defs.h` prescribe.

Results that differ from what a reader of the source might expect:

* A NACK whose reason byte is 0 is reported as success (`CallLaws.ZeroReasonPassesForSuccess`). The exact condition is
  `CallLaws.JudgeExactly`; with the documented reasons 1 to 10, success means an acknowledgement
  (`CallLaws.CallIsTruthful`).
* A 16-bit CRC is expected to catch every burst of 16 bits. Because the CRC goes out low byte first, this fails on the
  wire for exactly twelve patterns at fixed distances from the end of the frame (`WireBursts.ESCAPES`): a damaged frame
  whose damage lies within 16 consecutive bits of ACK, DATA and CRC is accepted if and only if it is one of them
  (`FrameCheck.BurstAcceptedExactly`). All straddle DATA and CRC and span 13 to 16 bits, so every burst of at most 12 bits
  is caught (`FrameCheck.ShortBurstRejected`), and 12 is sharp: a burst of 13 turns an ACK into a NACK unnoticed
  (`WorkedFrames.BurstIntoTheCheckCanPass`). Bursts of 16 bits within ACK and DATA, and any damage within the CRC bytes,
  are caught.
* The frequency word accepts white space and a sign, and a negated magnitude that wraps round into 1 to 1000000
  (`CliWords.FrequencyWords`, `CliWords.NegatedMaximumIsOneHertz`).
* After an exchange is given up before its response began to be read, every later call on the handle decodes an
  earlier command's answer (`Session.RepliesLag`, `Session.GivingUpShifts`). An exchange given up half way through its
  response does not have this effect, as long as the unread bytes hold no SOF.
* The header asks callers for a buffer that holds any command; the builders need only room for the frame at hand, and
  the contracts follow the code.

Assumptions about the environment, all in `Uart.Port`: the clock never runs backwards; only finitely many system calls
complete within one millisecond; signals interrupt writes finitely often; poll reports a timeout only after waiting it
out; write takes at least one byte of a non-empty request.

## Model

| member | source | states |
|---|---|---|
| Crc16.Compute | library/src/crc16.c:6-33 | the nested loop over a slice of a buffer computes the CRC of exactly those bytes; a null pointer gives the seed |
| Crc16Machine.StepIsFeed | library/src/crc16.c:21-28 | one shift-and-XOR of the 16-bit word is one clock of the shift register with the taps of the generator |
| Crc16Machine.RunAdvances | library/src/crc16.c:15-30 | loading whole bytes at the top of the register equals feeding their bits serially, for data of any length |
| Crc16Division.CrcIsTheRemainder | library/src/crc16.c:6-33 | a word is the CRC of the data if and only if it is the remainder of 0xFFFF x^(8n) + M x^16 by x^16 + x^12 + x^5 + 1 |
| Polynomials.AdvanceDivides | library/src/crc16.c:19-29 | the shift register leaves a remainder of long division: some quotient times the generator plus the register is the dividend |
| Polynomials.RemainderUnique | library/src/crc16.c:19-29 | a dividend has at most one remainder of degree below 16 |
| ShiftRegister.AdvanceLinear | library/src/crc16.c:19-29 | superposition: sums of states and inputs lead to sums of states |
| ShiftRegister.FeedInjective | library/src/crc16.c:21-28 | no two registers step to the same one |
| ShiftRegister.FeedSurjective | library/src/crc16.c:21-28 | every register is stepped to: the clock can be run backwards |
| ShiftRegister.OneInputReaches | library/src/crc16.c:15-30 | from any register exactly one 16-bit input leads to any other |
| ShiftRegister.LoadAtOnce | library/src/crc16.c:17-29 | up to 16 bits XORed into the top at once and then clocked through equal the same bits fed one by one |
| ShiftRegister.Residue | library/src/crc16.c:19-29 | a word clears the register exactly when it equals the register |
| ShiftRegister.AdvanceParity | library/src/crc16.c:19-29 | the register carries the parity of everything fed to it |
| ErrorDetection.ParityLaw | library/src/crc16.c:6-33 | the one bits of the data and of its CRC are together even in number |
| ErrorDetection.CheckIsZeroResidue | library/src/protocol.c:340-343 | comparing the CRC is testing data followed by CRC, high byte first, for a zero residue |
| ErrorDetection.BurstsChangeCrc | library/src/crc16.c:6-33 | data of any length that differs only inside 16 consecutive bits has a different CRC |
| Crc16Order.PowerAdd | library/src/crc16.c:21-28 | powers of x modulo the generator multiply by adding exponents |
| Crc16Order.PowerIsOne | library/src/crc16.c:21-28 | x^k is 1 modulo the generator exactly for the multiples of 32767 |
| ErrorDetection.TwoFlipsResidue | library/src/crc16.c:6-33 | two flips cancel exactly when they are a multiple of 32767 bits apart |
| ErrorDetection.DistanceFour | library/src/crc16.c:6-33 | one to three flips anywhere in up to 4093 bytes of data and their CRC are always noticed |
| ErrorDetection.OddDistance | library/src/crc16.c:6-33 | any odd number of flips in data of any length and its CRC is noticed |
| Polynomials.ClearsExactlyMultiples | library/src/crc16.c:19-29 | bits leave a clear register clear exactly when the generator divides them |
| FrameCheck.AcceptedExactly | library/src/protocol.c:339-346 | with ACK, DATA and CRC of an accepted frame changed in any way, the parser accepts the result exactly when the changed bits, CRC bytes swapped, are a multiple of the generator |
| FrameCheck.FewFlipsRejected | library/src/protocol.c:339-346 | flip one, two or three bits among ACK, DATA and CRC bytes of an accepted frame and the parser rejects it |
| FrameCheck.OddFlipsRejected | library/src/protocol.c:339-346 | the same for any odd number of flips |
| FrameCheck.BurstRejected | library/src/protocol.c:339-346 | the same for a burst of at most 16 bits confined to ACK and DATA, whatever trails the frame |
| FrameCheck.BurstAcceptedExactly | library/src/protocol.c:339-346 | damage within 16 consecutive wire bits of ACK, DATA and CRC is accepted if and only if it is one of the twelve patterns |
| FrameCheck.ShortBurstRejected | library/src/protocol.c:339-346 | damage within 12 consecutive wire bits anywhere in ACK, DATA and CRC is rejected |
| FrameCheck.CheckDamageRejected | library/src/protocol.c:339-346 | any damage confined to the two CRC bytes is rejected |
| WireBursts.BurstPassesExactly | library/src/protocol.c:339-346 | on bit strings of any length: a nonzero burst of at most 16 wire bits leaves no residue exactly for the twelve patterns |
| WireBursts.EscapesAreWide | library/src/protocol.c:339-346 | each of the twelve patterns spans 13 to 16 bits |
| WorkedFrames.BurstIntoTheCheckCanPass | library/src/protocol.c:341 | two accepted frames, an ACK and a NACK, whose wire difference is a burst of exactly 13 bits |
| WorkedFrames.PublishedFrames | library/tests/test_protocol.cpp:11-160 | the model produces the first published command frames and the bare ACK, CRC bytes included |
| PublishedVectors.PublishedResponses | library/tests/test_protocol.cpp:48-100 | every published response, CRC bytes included, is received as the flag and data it stands for |
| PublishedVectors.MalformedResponses | library/tests/test_protocol.cpp:100-147 | nothing is parsed without the start byte 0xA5 and a LEN from 1 to 5 with that many bytes behind it; any other LEN ends a reception at once |
| PublishedVectors.BusyIsReported | library/tests/test_mcuco.cpp:111-113 | the published busy NACK makes any call report status 6 |
| PublishedVectors.ProbeTellsDevices | library/tests/test_mcuco.cpp:328-352 | the probe takes the published answer and refuses the one with a wrong last letter |
| Endianess.PutU16Le | library/src/endianess.c:5-16 | stores the two bytes low first and nothing else, or reports a null pointer |
| Endianess.PutU32Le | library/src/endianess.c:18-31 | stores the four bytes low first and nothing else, or reports a null pointer |
| Endianess.GetU16Le | library/src/endianess.c:33-43 | loads the little-endian value through the out-pointer, which is untouched on failure |
| Endianess.GetU32Le | library/src/endianess.c:45-55 | loads the little-endian value through the out-pointer, which is untouched on failure |
| Words.Le32RoundTrip | library/src/endianess.c:18-55 | a 32-bit value survives its little-endian bytes |
| Words.Le16ByValue | library/src/endianess.c:33-43 | the 16-bit value is the first byte plus 256 times the second |
| Words.Le32ByValue | library/src/endianess.c:45-55 | the 32-bit value is the first two bytes' 16-bit value plus 2^16 times that of the last two |
| Words.FromLe16RoundTrip | library/src/endianess.c:5-43 | two bytes survive the 16-bit value they make |
| CommandBuilders.BuildFrame | library/src/protocol.c:24-54 | writes the whole frame and keeps every later byte, or refuses and writes nothing |
| CommandBuilders.BuildProbe | library/src/protocol.c:56-59 | the buffer holds the command's frame, or is unchanged with -ERR_ARG when it does not fit |
| CommandBuilders.BuildReset | library/src/protocol.c:61-64 | as above for reset |
| CommandBuilders.BuildGpioCfg | library/src/protocol.c:66-84 | frame of these arguments, or untouched buffer exactly for fields out of range or no room |
| CommandBuilders.BuildGpioSet | library/src/protocol.c:86-104 | frame of these arguments, or untouched buffer exactly for fields out of range or no room |
| CommandBuilders.BuildGpioGet | library/src/protocol.c:106-118 | frame of these arguments, or untouched buffer exactly for fields out of range or no room |
| CommandBuilders.BuildGroupCfg | library/src/protocol.c:120-137 | frame with the 32-bit frequency, or untouched buffer exactly for fields out of range or no room |
| CommandBuilders.BuildGroupGet | library/src/protocol.c:139-150 | frame of these arguments, or untouched buffer exactly for fields out of range or no room |
| CommandBuilders.BuildGpioToggle | library/src/protocol.c:152-164 | frame of these arguments, or untouched buffer exactly for fields out of range or no room |
| CommandBuilders.BuildIrqCfg | library/src/protocol.c:166-184 | frame of these arguments, or untouched buffer exactly for fields out of range or no room |
| CommandBuilders.BuildIrqBind | library/src/protocol.c:186-219 | frame of these arguments, or untouched buffer exactly for fields out of range or no room; the edge may not be off |
| CommandBuilders.BuildIrqUnbind | library/src/protocol.c:221-233 | frame of these arguments, or untouched buffer exactly for fields out of range or no room |
| CommandBuilders.BuildGroupRelease | library/src/protocol.c:235-246 | frame of these arguments, or untouched buffer exactly for fields out of range or no room |
| CommandBuilders.BuildChannelCfg | library/src/protocol.c:248-266 | frame of these arguments, or untouched buffer exactly for fields out of range or no room |
| CommandBuilders.BuildChannelSet | library/src/protocol.c:268-286 | frame with the 16-bit duty, or untouched buffer exactly for fields out of range or no room |
| CommandBuilders.BuildChannelGet | library/src/protocol.c:288-300 | frame of these arguments, or untouched buffer exactly for fields out of range or no room |
| CommandBuilders.BuildChannelRelease | library/src/protocol.c:302-314 | frame of these arguments, or untouched buffer exactly for fields out of range or no room |
| CommandBuilders.BuiltDecodes | library/src/protocol.c:56-314 | every builder: success exactly for fields in range and room enough, and then the far end decodes the same typed arguments and later bytes are kept; otherwise the buffer is unchanged |
| Codec.CommandSurvives | library/include/protocol_defs.h:4-5 | a frame, whatever follows it, is decoded back to its command and its exact length |
| Codec.FramesAreInjective | library/include/protocol_defs.h:49-72 | no command's frame is a prefix of another's, across all sixteen builders |
| Codec.CommandsSurvive | library/src/protocol.c:22-54 | back-to-back frames delimit themselves: the command list is recovered |
| Codec.ReplySurvives | library/include/protocol_defs.h:6 | an encoded response is parsed back to its flag and data, whatever bytes follow |
| Codec.ParserCharacterised | library/src/protocol.c:316-357 | the parser accepts exactly the inputs that begin with an encoded response, and returns what was encoded |
| ResponseParser.ParseResponse | library/src/protocol.c:316-357 | agrees with the pure parser; on anything but OK the response object is unchanged; null pointers are refused |
| ResponseParser.Decode | library/src/protocol.c:323-356 | fills flag, length and exactly the data bytes, leaving the rest of the fixed buffer alone |
| Uart.UartRead | library/src/uart.c:131-189 | on every exit the consumed bytes are those laid into the buffer in order and the rest is untouched; success means the full count and that no call failed; a failure is exactly the errno of the one call that failed, a hang-up or end of line being a lost connection, or a timeout that is never early; every poll ends at the one deadline, and the loop terminates |
| Uart.UartWrite | library/src/uart.c:191-210 | across short writes and signals the bytes sent are the front of the buffer, all of it on success and a proper prefix on failure, whose errno is returned |
| CommandTransport.ReadExactly | library/src/command_transport.c:20-39 | success means the full count and no failed call; no response means the deadline passed or a call timed out, and an I/O error that one call failed in another way; every poll waits to the shared deadline, off by just the gap between two neighbouring clock samples taken during this call |
| CommandTransport.LostIsNotSilent | library/src/command_transport.c:29-36 | a lost connection is never reported as silence, nor is anything before the deadline while every call does well |
| CommandTransport.TransmitCommand | library/src/command_transport.c:51-64 | OK exactly when the whole frame went out; on an I/O error a proper prefix did |
| CommandTransport.ReceiveResponse | library/src/command_transport.c:66-110 | the outcome is what the consumed bytes alone make it, nothing beyond the frame is consumed, the response changes only on OK, silence and I/O errors are told apart as above, all polls share one deadline, up to the gap between two neighbouring clock samples of this reception, the narrowing to int is lossless, and the hunt terminates |
| CommandTransport.ReceiveRest | library/src/command_transport.c:88-109 | the same from behind the SOF byte on |
| Reception.DecidedEarly | library/src/command_transport.c:77-109 | once the bytes so far decide, later bytes change nothing |
| Reception.StreamDecides | library/src/command_transport.c:66-110 | two receptions of one stream, however it was cut, stop at the same byte with the same outcome |
| Reception.ReceiveCharacterised | library/src/command_transport.c:77-109 | a stream is accepted, using so many bytes, exactly when those bytes are SOF-free junk and one encoded response |
| Reception.FoundExactlyBehindJunk | library/src/command_transport.c:77-109 | an encoded response behind other bytes is received from exactly where it stands if and only if those bytes hold no SOF |
| Reception.Resynchronises | library/src/command_transport.c:77-109 | frames separated by any SOF-free junk are received in order, leaving exactly the tail |
| Reception.EachTakesItsOwn | library/src/command_transport.c:66-110 | the k-th of several receptions in a row consumes precisely its own junk and frame and decodes its own reply |
| Mcuco.StatusFromResponse | library/src/mcuco.c:18-33 | an ACK is OK, a one-byte NACK is exactly its reason byte, any other NACK is a bad frame |
| Mcuco.Exchange | library/src/mcuco.c:38-71 | a refused frame touches nothing; otherwise the bytes sent and received determine the status; undecided, it is silence only after the whole timeout or a timed-out call and an I/O error only after another failure; the response is stored only on OK |
| Mcuco.Call | library/src/mcuco.c:159-196 | a call without data: refused locally with an untouched wire exactly when a field is out of range, else one exchange of its frame with the same account of silence and failure |
| Mcuco.GpioToggle | library/src/mcuco.c:198-224 | OK stores 1 if the one data byte is nonzero and 0 if it is zero; on any other status the level keeps its old value |
| Mcuco.GpioGet | library/src/mcuco.c:226-252 | OK stores 1 if the one data byte is nonzero and 0 if it is zero; on any other status the level keeps its old value |
| Mcuco.GroupGet | library/src/mcuco.c:307-336 | OK stores the value whose little-endian bytes are the four data bytes; otherwise the out-parameter keeps its old value |
| Mcuco.ChannelGet | library/src/mcuco.c:377-406 | OK stores the value whose little-endian bytes are the two data bytes; otherwise the out-parameter keeps its old value |
| Mcuco.Probe | library/src/mcuco.c:131-157 | OK only for the four characters MCUO |
| Mcuco.Open | library/src/mcuco.c:78-118 | a handle comes only with a successful probe; on every failure the port that was opened is closed, and errno is ETIMEDOUT exactly when the probe reported no response, which is silence for the whole timeout, a timed-out call or a NACK with that code, and EPROTO otherwise |
| CallLaws.JudgeExactly | library/src/mcuco.c:20-33 | success is fitting data with an ACK, or with a one-byte NACK whose reason is zero |
| CallLaws.ZeroReasonPassesForSuccess | library/src/mcuco.c:32 | the concrete NACK that is reported as success |
| CallLaws.CallIsTruthful | library/include/mcuco.h:6-37 | with reasons 1 to 10: OK exactly for a whole frame sent and an ACK of the right shape; a status from 1 to 10 exactly for a one-byte NACK, and then it is that byte; every other status is one of four host codes |
| CallLaws.ReasonReachesCaller | library/src/mcuco.c:18-33 | whatever the reason, a one-byte NACK with a nonzero byte makes that byte the status of any call; other NACKs, unfitting ACKs and frames that do not parse are bad frames |
| CallLaws.HostCodes | library/include/mcuco.h:24-36 | the four host codes are 0x80 to 0x83, in order, clear of the firmware's |
| CallLaws.RefusedLocally | library/include/mcuco.h:24-26 | ERR_ARG from an open handle means exactly that a field was out of range and nothing was sent |
| CallLaws.WireLogReadsBack | library/src/mcuco.c:40-51 | the wire log of any run is read back as exactly the locally accepted commands in order; a final broken-off write adds nothing |
| Session.RunsKeepCount | library/src/mcuco.c:38-71 | every step of host, far end and channels keeps the account of commands, answers and bytes in flight |
| Session.RepliesPair | library/src/uart.c:73-75 | with every exchange answered, every call decodes its own command's answer, and both channels are empty between exchanges |
| Session.RepliesLag | library/src/command_transport.c:77-78 | an answered exchange decodes the answer as many commands back as exchanges were given up before their answer began to arrive; answers given up half read are skipped and cause no lag |
| Session.GiveUpHalfRead | library/src/command_transport.c:77-86 | the unread end of a half-read answer becomes junk ahead of the next answer, and the account still balances |
| Session.AnswersInOrder | library/include/mcuco.h:99 | the far end's n-th answer answers the n-th command issued |
| Session.GivingUpShifts | library/src/command_transport.c:77-86 | for any two commands, a run in which the second call decodes the first one's answer |
| SessionCalls.TurnIsRun | library/src/mcuco.c:38-71 | what a call's contract says of it is a piece of a session run: begin, write, take each byte read, give up if undecided |
| SessionCalls.CallsAreARun | library/src/mcuco.c:38-71 | any sequence of calls is a session run that begins exactly the commands not refused locally and finishes each |
| SessionCalls.CallJudgesLaggedAnswer | library/src/command_transport.c:77-86 | a call that decoded a response judged the answer as many commands back as calls were given up before their answer began to arrive |
| SessionCalls.CallJudgesOwnAnswer | library/src/mcuco.c:38-71 | if every call so far decoded a response, the last judged its own command's answer and both channels are empty |
| Strtoul.ConvertDigits | cli/commands.c:63-80 | a word that starts with a digit is consumed whole exactly when it is all digits, and its value only saturates |
| Strtoul.PlaceValue | cli/commands.c:72 | each place to the left weighs ten times as much |
| Strtoul.DecimalReadsBack | cli/commands.c:332 | a number printed in decimal is read back as itself |
| CliWords.DirectionWords | cli/commands.c:18-33 | the word at each place of the list of directions, and no other, gives the encoding of that place |
| CliWords.LevelWords | cli/commands.c:35-50 | the same for low and high |
| CliWords.PolarityWords | cli/commands.c:113-128 | the same for active-high and active-low |
| CliWords.EdgeWords | cli/commands.c:148-185 | the same for the four edges; a binding takes all but off |
| CliWords.ActionWords | cli/commands.c:187-208 | the same for low, high and toggle |
| CliWords.PortWords | cli/commands.c:52-61 | the same for the letters A to G |
| CliWords.PinWords | cli/commands.c:63-80 | accepts exactly the digit strings of any length worth at most 15, at their true value |
| CliWords.TimerWords | cli/commands.c:82-98 | accepts exactly the digit strings of any length worth at most 2, at their true value |
| CliWords.DutyWords | cli/commands.c:130-146 | accepts exactly the digit strings of any length worth at most 100, and returns ten times the value |
| CliWords.FrequencyWords | cli/commands.c:100-111 | exactly which words are accepted, signs and wrap-around included, and the value returned |
| CliWords.FrequencyWordsSpelledOut | cli/commands.c:100-111 | the same on the word taken apart: exactly blanks, at most one sign and digits, worth 1 to 1000000 as they stand or, behind a minus, short of ULONG_MAX + 1 by that much |
| CliWords.PlainFrequencyWords | cli/commands.c:100-111 | on words of digits alone: accepted exactly from 1 to 1000000, at the true value |
| CliWords.NegatedMaximumIsOneHertz | cli/commands.c:100-111 | the negation of ULONG_MAX is accepted as one hertz |
| Cli.Args.ParseValue | cli/commands.c:210-258 | accepts exactly the words that stand for a number of the kind asked for, leaves that number in the field of the kind and every other field as it was; a refused word changes nothing |
| Cli.FindCommand | cli/commands.c:409-420 | returns a row of that name, or nothing exactly when there is none |
| Cli.NamesOneRow | cli/commands.c:383-404 | two leading words name at most one row |
| Cli.ArgsParse | cli/commands.c:422-451 | accepts exactly the lines of a row's two names and one word of each kind it asks for; every field of the row then holds the number its word stands for and no other field changed; on rejection no command is reported |
| Cli.RowsHaveDistinctTargets | cli/commands.c:383-404 | no row writes two of its values to one field |
| Cli.EveryWordHolds | cli/commands.c:441-447 | after parsing, each field still holds the value of its own word |
| Cli.TypedIsRead | cli/commands.c:422-451 | the lines that read as a row are exactly those typed as the row asks, whatever the fields held before |
| CliCommands.AcceptedLineIsACommand | cli/commands.c:383-451 | the command of every accepted line is in range and decodes back from its frame, and each field holds its own word's value; which bytes it sends is LineOnWire |
| CliCommands.AcceptedLineIsNeverRefused | cli/commands.c:453-461 | on an open handle no accepted line is refused with ERR_ARG |
| CliCommands.WorkedLine | cli/commands.c:387 | "gpio cfg output A 5" is the published command |
| CliWire.TableIsNamed | cli/commands.c:383-404 | the table holds exactly the sixteen rows under their full names, and each sends the opcode its two names ask for |
| CliWire.PayloadIsNumbers | library/include/mcuco.h:38-40 | a payload is the call's arguments one behind the other, least significant byte first, in argument order |
| CliLines.LineOnWire | library/include/mcuco.h:38-40 | an accepted line sends the opcode its two leading words name and, as payload, the numbers its other words stand for in the order typed |
| CliLines.SpelledLine | cli/commands.c:265-404 | every line of a row's names and words that stand for numbers is accepted, and sends those numbers |
| CliLines.PublishedLines | library/tests/test_protocol.cpp:11-493 | for each of the sixteen rows a line of the tool sends the frame published for it |
| CliLines.RangesAreDocumented | library/include/mcuco.h:42-95 | what the builders accept is, for every command, exactly the documented ranges |
| CliLines.TypeableExactly | cli/commands.c:422-451 | a command can be typed if and only if it is in range and a duty is in whole percents |
| CliRun.RunCommand | cli/commands.c:453-461 | makes the library call of the row with the fields parsed; prints only for a read that succeeded, and then what the data say |
| CliRun.PrintedLevelIsTyped | cli/commands.c:260-263 | a printed level typed again means the same level |

## Left out

- Call: one method over the command type stands for the eleven library calls that return no data; they differ only in the builder they use.
- RepliesLag: nothing is claimed once a response was given up half read with a SOF byte among its unread bytes, because the next reception starts a frame there.
- CallJudgesLaggedAnswer: the same restriction, carried over from the session.
- CallsAreARun: a call whose write broke off is outside the claim, because what the far end makes of the cut frame is the firmware's affair.
- AcceptedExactly: damage to SOF and LEN is outside the claim, because a changed LEN moves the place where the CRC is looked for.
- UartWrite: relies on write never returning 0 for a non-empty request; the code has no branch for it.
- ReceiveResponse: milliseconds are unbounded integers, so the width of C long, and its overflow on 32-bit targets after long uptimes, are not modelled.
- Open: allocation failure and the errno of a failing device open are not distinguished from other failures to open.
- Opening and configuring the port (termios, ioctl, flush): foreign calls; a port is obtained new and without stale input.
- The real clock, poll, read and write: replaced by an environment that may return anything within the stated assumptions.
- The firmware: only the layouts of what it reads and writes appear; pin state, PWM groups and interrupt bindings do not.
- Status messages, version string, option parsing, and usage text: no content to prove.
- The example programs: easy next to the core.
