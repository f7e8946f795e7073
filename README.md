# BDM probe firmware, modelled in Dafny

This project models the firmware of an RP2040-based debug probe, `rp2040_bdm.py`, a CircuitPython program.
The string and integer built-ins are modelled as that runtime (a MicroPython port) implements them.
The probe drives the Background Debug Mode (BDM) port of a Motorola MC68332 CPU.
It exchanges 17-bit words over three signal lines:

- a clock (`dsclk`);
- data to the target (`dsi`);
- data from the target (`dso`).

It also uses a reset line and a freeze-sense line. A host sends text commands over a serial
channel, one per line. The probe answers each with one reply line.

The model has the same five layers as the firmware, one module each, plus two helper modules:

| module | file | what it models |
|---|---|---|
| `Bits` | `bits.dfy` | Python's `>>`, `&`, `\|` and `<<` on unbounded integers, as used on the wire |
| `Text` | `text.dfy` | the runtime's `str.split()`, `str.upper()`, `int(s, 16)` and the `{:04X}` format on ASCII text |
| `Wire` | `wire.dfy` | the link driver `bdm_transfer_word` and the `Link` that owns the lines |
| `ModeControl` | `modecontrol.dfy` | `enter_bdm_mode`, `cpu_halted`, `cpu_reset`, `stop_cpu` |
| `Access` | `access.dfy` | `read_sys_reg`, `write_sys_reg`, `run_cpu`, `read_memory`, `write_memory` |
| `Dispatcher` | `dispatcher.dfy` | `handle_command` |
| `LineLoop` | `lineloop.dfy` | `main_loop` and the serial channel |

**The link.** The global pin objects become one `Wire.Link` object.

- It has fields `dsclk`, `dsi` and `reset` for the output levels.
- It keeps an append-only `trace` of events:
  - `Drive(pin, level)`: a pin write;
  - `SampleDso(level)`: a read of the target's data line;
  - `Delay(us)`: a sleep, kept with its duration in microseconds.
- The target's data line is an arbitrary stream `dso: nat -> bool`. The field `cursor` counts the samples taken from it so far.
- The freeze line is a fixed `freeze: bool`.
- `Link.Valid()` ties these together. Each output field holds the last level the trace wrote to that pin. The samples in the trace are `dso(0)`, ..., `dso(cursor - 1)`, in order.

**How each operation is stated.** Every imperative operation is a method on the link. Its
contract gives the events it appends, as a function of the starting cursor (`Transfer`,
`Transfers`, `EnterBdmEvents`, ...). Lemmas then state what those event sequences mean:

- which levels each line sees, in what order;
- which samples are taken;
- which words cross the wire.

**The dispatcher.** It is split into a pure `Parse` of the line and an `Execute` of the resulting
request. This is equivalent to `handle_command`, because every branch of `handle_command` parses
all of its arguments before its first pin write.

**The line loop.** The main loop is a method over a `Channel`. The channel holds the bytes still to
be read and the strings written so far. The method's contract states the output, the link trace
and the cursor in terms of the lines that `Scan` assembles from the input.

Behaviours of the code a reader may not expect:

- `read_memory` with an odd `length` reads one more word. `range(address, address + length, 2)` visits ceil(length/2) addresses, so the last byte is read.
- `write_memory` sends a trailing odd byte. It goes out as a word equal to that byte, because the slice `data_bytes[i:i+2]` is then one byte long.
- A byte that is not ASCII ends `main_loop`. `decode('ascii')` raises outside the `try` of `handle_command`, so the exception leaves the loop.
- A line of only whitespace is still answered, with "ERROR: Empty command". Only an empty buffer gets no reply.

## Model

| member | source | states |
|---|---|---|
| Bits.AndLowMask | rp2040_bdm.py:69 | `x & (2^n - 1)` is `x mod 2^n` for every integer `x`, negative ones included (two's complement) |
| Bits.OrDisjoint | rp2040_bdm.py:69 | `a \| b` is `a + b` when `b` fits in the low `n` bits and those bits of `a` are clear |
| Bits.PackMsbBits | rp2040_bdm.py:32 | the bits `(x >> bit) & 1` for `bit` from n-1 down to 0, packed most significant first, give `x mod 2^n` |
| Bits.MsbBitsPack | rp2040_bdm.py:39 | the accumulation `(r << 1) \| b` inverts bit extraction: the n bits of a packed n-bit sequence are that sequence |
| Bits.LowBitsOnly | rp2040_bdm.py:32 | the bits n-1..0 of `x` depend only on `x mod 2^n` |
| Bits.Shr | rp2040_bdm.py:32 | Python's `x >> k`, halving `k` times rounding down; which bits it exposes is stated by `Wire.WireBitsValue` |
| Bits.BitAnd | rp2040_bdm.py:69 | Python's `x & m`, bit by bit; its value for a low mask is stated by `Bits.AndLowMask` |
| Bits.BitOr | rp2040_bdm.py:39 | Python's `a \| b`, bit by bit; its value on disjoint bits is stated by `Bits.OrDisjoint` |
| Text.Tokens | rp2040_bdm.py:104 | `strip().split()`: every token is a non-empty run of characters that are not whitespace; how whitespace is skipped is stated by `Text.TokensSkipSpace` and `Text.TokensSpaced` |
| Text.TokensSkipSpace | rp2040_bdm.py:104 | whitespace in front of a line is skipped: it yields no token |
| Text.TokensSpaced | rp2040_bdm.py:104 | words typed with any whitespace before and after them and any non-empty run of whitespace between them split back into exactly those words, in order |
| Text.Upper | rp2040_bdm.py:107 | `upper()`: same length, no lower-case letter left, each lower-case letter replaced by its upper-case partner and every other character kept |
| Text.UpperSpells | rp2040_bdm.py:107 | comparing `upper()` of a token with an upper-case word is comparing the token with that word case-insensitively |
| Text.ParseHex | rp2040_bdm.py:122 | `int(s, 16)` succeeds exactly on a non-empty run of hexadecimal digits, with a value below 16 to the power of its length |
| Text.Hex04 | rp2040_bdm.py:124 | `format(v, '04X')`, the hexadecimal digits of `v` zero-padded to four places; what it gives is stated by `Text.Hex04Shape` and `Text.Hex04RoundTrip` |
| Text.TokensEmptyIff | rp2040_bdm.py:104-106 | `strip().split()` gives no token exactly when every character is whitespace |
| Text.TokensJoin | rp2040_bdm.py:104 | splitting words joined by single spaces gives back the words |
| Text.HexValueSomeIff | rp2040_bdm.py:122 | a digit string has a hexadecimal value exactly when every character is a hexadecimal digit |
| Text.Hex04RoundTrip | rp2040_bdm.py:124 | `int(format(v, '04X'), 16) == v` for every `v` |
| Text.Hex04Shape | rp2040_bdm.py:124 | `format(v, '04X')` has at least four upper-case hexadecimal digits, exactly four iff `v < 0x10000`, and a longer rendering has no leading zero |
| Wire.Link.constructor | rp2040_bdm.py:10-27 | the lines start with clock high, data low and reset high; the trace is empty and no sample has been taken |
| Wire.Link.Drive | rp2040_bdm.py:33 | a pin write appends one `Drive` event and changes only that pin's field |
| Wire.Link.Sample | rp2040_bdm.py:38 | a read of `dso` returns the next sample of the stream, records it and advances the cursor by one |
| Wire.Link.Sleep | rp2040_bdm.py:34 | a wait appends one `Delay` event with its duration and changes no line |
| Wire.Link.Pulse | rp2040_bdm.py:35-37 | a clock pulse writes the clock low, waits, writes it high; the clock ends high, data, reset and the cursor are unchanged |
| Wire.Link.ClockBit | rp2040_bdm.py:33-40 | one bit cell: drive the data line, pulse the clock low then high, take one sample; the clock ends high |
| Wire.Link.TransferWord | rp2040_bdm.py:29-41 | `bdm_transfer_word`: the trace grows by exactly the 17 bit cells of `Transfer` (in order, as `Wire.TransferCells` states), the cursor by 17; the result is `Reply`, below 0x10000; the clock ends high and reset is untouched |
| Wire.Link.ShiftBit | rp2040_bdm.py:32-40 | one pass of the loop: the trace grows by the next bit cell, the cursor by one, and the response becomes the samples so far packed most significant first |
| Wire.BitCell | rp2040_bdm.py:33-40 | the seven events of one pass of the loop, in source order; their meaning is stated by `Wire.BitCellProjections` |
| Wire.Transfer | rp2040_bdm.py:31-40 | one exchange is exactly 119 events, the 17 bit cells |
| Wire.TransferCells | rp2040_bdm.py:31-40 | event block i of an exchange is the bit cell that drives wire bit i and takes sample `start + i`, for i from 0 to 16, in order |
| Wire.Reply | rp2040_bdm.py:41 | the word returned is below 0x10000 |
| Wire.BitCellProjections | rp2040_bdm.py:33-38 | in a bit cell the data line is written once, then the clock falls and rises, and exactly one sample is taken |
| Wire.FrameProjections | rp2040_bdm.py:31-40 | a frame of n bit cells writes the data bits in order, gives n low-high clock pulses, never writes reset, and records the n samples in order |
| Wire.CellsFrame | rp2040_bdm.py:31-40 | after n passes of the loop, the trace is the frame of the first n wire bits and the first n samples |
| Wire.ShiftedPack | rp2040_bdm.py:39 | after n passes, `response` is the n samples packed most significant first |
| Wire.ReplyFromResponse | rp2040_bdm.py:41 | `response & 0xFFFF` after 17 passes is `Reply`: the status sample is masked away |
| Wire.OutBit | rp2040_bdm.py:32 | `0 if bit == 16 else (cmd >> bit) & 1` is 0 or 1, and 1 exactly where the wire bit of `cmd` is set |
| Wire.ShiftIn | rp2040_bdm.py:39 | `(response << 1) \| in_bit` is `2·response + in_bit`: the sample goes in below the earlier ones |
| Wire.TransferShape | rp2040_bdm.py:31-38 | one exchange pulses the clock exactly 17 times, drives the data line with the wire bits of `cmd`, never writes reset, and takes the next 17 samples |
| Wire.WireBitsValue | rp2040_bdm.py:32 | the first wire bit is 0 and the next 16 are bits 15..0 of `cmd`, most significant first; they depend only on `cmd mod 2^16` and pack to it |
| Wire.ReplyBits | rp2040_bdm.py:38-41 | the 16 bits of the returned word are samples 2..17 of the exchange, most significant first |
| Wire.TransfersAppend | rp2040_bdm.py:74-75 | exchanges run back to back: the second run starts at the sample after the first run's last |
| Wire.TransfersClock | rp2040_bdm.py:35-37 | k exchanges give exactly 17k clock pulses |
| Wire.TransfersData | rp2040_bdm.py:33 | k exchanges drive the data line with each word's wire bits in turn and never touch reset |
| Wire.TransfersSamples | rp2040_bdm.py:38 | k exchanges take the next 17k samples, in order |
| Wire.LastLevelIsLastWrite | rp2040_bdm.py:10-27 | a line shows the last level written to it, or its initial level if it was never written |
| ModeControl.EnterBdmOrder | rp2040_bdm.py:48-52 | entering BDM drives the clock (halt request) low before it asserts reset, and asserts reset before releasing it; the data line is untouched and nothing is sampled |
| ModeControl.EnterBdmLevels | rp2040_bdm.py:48-52 | whatever came before, after entering BDM the clock is low, reset is released and the data line is unchanged |
| ModeControl.ResetShape | rp2040_bdm.py:58-61 | a reset pulses reset low then high, leaves clock and data as they were, and samples nothing |
| ModeControl.EnterBdmEvents | rp2040_bdm.py:48-52 | the five events of `enter_bdm_mode` in source order; what they do to each line is stated by `ModeControl.EnterBdmOrder` |
| ModeControl.ResetEvents | rp2040_bdm.py:58-61 | the four events of `cpu_reset` in source order; what they do is stated by `ModeControl.ResetShape` |
| ModeControl.StopEvents | rp2040_bdm.py:81-82 | entering BDM followed by the 50 ms wait of `stop_cpu` |
| ModeControl.EnterBdmMode | rp2040_bdm.py:44-52 | `enter_bdm_mode`: appends exactly the five events of entering BDM; the clock ends low, reset high, data unchanged, no sample taken |
| ModeControl.CpuHalted | rp2040_bdm.py:54-55 | `cpu_halted`: returns the freeze line and changes nothing, so no output line is written |
| ModeControl.CpuReset | rp2040_bdm.py:57-61 | `cpu_reset`: appends the reset pulse; reset ends high and clock and data are untouched |
| ModeControl.StopCpu | rp2040_bdm.py:80-83 | `stop_cpu`: enters BDM, waits, and returns exactly the freeze line |
| Access.Opcode | rp2040_bdm.py:69 | `base \| (reg & 0x3F)` is `base + reg mod 64` |
| Access.OpcodeBlock | rp2040_bdm.py:69 | an opcode stays within the 64 opcodes after its base, and distinct registers 0..63 get distinct opcodes |
| Access.OpcodeRanges | rp2040_bdm.py:64-73 | read opcodes lie in 0x6000..0x603F and write opcodes in 0x7000..0x703F |
| Access.TransfersTwo | rp2040_bdm.py:74-75 | two words exchanged in a row are the exchange of the first, then of the second 17 samples later |
| Access.ReadSysReg | rp2040_bdm.py:68-70 | `read_sys_reg`: exactly one exchange, of the read opcode; returns its reply |
| Access.WriteSysReg | rp2040_bdm.py:72-75 | `write_sys_reg`: exactly two exchanges, the write opcode and then `val` |
| Access.RunCpu | rp2040_bdm.py:77-78 | `run_cpu`: exactly one exchange, of 0xA000 |
| Access.Range2 | rp2040_bdm.py:88 | `range(lo, hi, 2)`; the addresses it visits are stated by `Access.Range2Visits` |
| Access.Range2Visits | rp2040_bdm.py:88 | `range(address, address + length, 2)` visits ceil(length/2) addresses (none for length ≤ 0), the k-th being `address + 2k` |
| Access.ReadCmdsRange | rp2040_bdm.py:88-91 | the words of a memory read alternate 0x8000 and the addresses that range visits |
| Access.WordBytes | rp2040_bdm.py:92 | `to_bytes(2, 'big')` gives two bytes, high byte first, whose big-endian value is the word |
| Access.FromBytesBig | rp2040_bdm.py:98 | `int.from_bytes(_, 'big')`; it inverts `Access.WordBytes`, as `Access.WordBytesRoundTrip` states |
| Access.WordBytesRoundTrip | rp2040_bdm.py:92 | `to_bytes(2, 'big')` and `int.from_bytes(_, 'big')` undo each other on 16-bit words and 2-byte strings |
| Access.ReadBytesAt | rp2040_bdm.py:91-92 | bytes 2k and 2k+1 of the result are the high and low byte of the reply to the k-th address exchange |
| Access.ReadMemory | rp2040_bdm.py:85-93 | `read_memory`: exactly 2·ceil(length/2) exchanges, alternating 0x8000 and `address + 2k`; returns the 2·ceil(length/2) reply bytes |
| Access.ReadWord | rp2040_bdm.py:89-92 | one pass of the loop: the trace grows by the exchanges of 0x8000 and the address, the cursor by 34, and the value is the reply to the second |
| Access.ChunkWord | rp2040_bdm.py:97-98 | the word of chunk j, `int.from_bytes(data_bytes[2j:2j+2], 'big')`; its value is stated by `Access.ChunkWordValue` |
| Access.ChunkWordValue | rp2040_bdm.py:97-98 | a full pair is sent as its big-endian word, and a trailing odd byte as a word equal to that byte |
| Access.WriteMemory | rp2040_bdm.py:95-101 | `write_memory`: exactly 2·ceil(len(data)/2) exchanges, alternating 0x9000 and the chunk words; `address` is never sent and empty data sends nothing |
| Access.WriteChunk | rp2040_bdm.py:97-101 | one pass of the loop: the trace grows by the exchanges of 0x9000 and the chunk's word, the cursor by 34 |
| Dispatcher.HexArg | rp2040_bdm.py:126-127 | an argument parses exactly when it is a non-empty run of hexadecimal digits, to a value that fits in that many hexadecimal places; otherwise it carries the `ValueError` message |
| Dispatcher.HexArgRoundTrip | rp2040_bdm.py:124-127 | an argument written as `{:04X}` parses back to the value written |
| Dispatcher.ReadRegRequest | rp2040_bdm.py:122 | READ_REG succeeds exactly when its argument parses; it keeps the token as typed, and otherwise carries that argument's exception |
| Dispatcher.WriteRegRequest | rp2040_bdm.py:126-127 | WRITE_REG succeeds exactly when both arguments parse; the register is parsed first, so on failure it carries the register's exception if that fails and the value's otherwise |
| Dispatcher.Words | rp2040_bdm.py:68-78 | GO and READ_REG exchange one word, WRITE_REG two, and every other request none |
| Dispatcher.VerbOf | rp2040_bdm.py:107-130 | `args[0].upper()` compared with the six verbs in turn; which tokens name which verb is stated by `Dispatcher.VerbNames` |
| Dispatcher.Parse | rp2040_bdm.py:104-134 | no verb exactly when the line has no token; a register read has exactly two tokens and a write three, the register token kept as typed and each argument's value the one `int(_, 16)` gives; a parse failure happens only under READ_REG or WRITE_REG |
| Dispatcher.Effect | rp2040_bdm.py:109-132 | a request takes exactly 17 samples of the target's data line per word it exchanges, the next ones in the stream, and RESET and STOP take none |
| Dispatcher.Response | rp2040_bdm.py:103-136 | the reply starts with "ERROR: " exactly for an empty line, a malformed line, a failed `int(_, 16)` and a STOP that does not find the CPU halted |
| Dispatcher.HandleCommand | rp2040_bdm.py:103-136 | `handle_command`: the reply is `Response` of the parsed request, and the link sees exactly that request's `Effect`, with the cursor advanced by 17 per word exchanged |
| Dispatcher.Execute | rp2040_bdm.py:109-136 | each request runs its branch: the reply, the events on the link and the samples taken |
| Dispatcher.ExecuteMode | rp2040_bdm.py:110-132 | RESET, STOP and STATUS work the reset and freeze lines and exchange no word |
| Dispatcher.ExecuteWire | rp2040_bdm.py:118-129 | GO, READ_REG and WRITE_REG exchange exactly their words |
| Dispatcher.ExecuteError | rp2040_bdm.py:104-136 | an empty line, a malformed line or a bad argument does nothing on the link, whatever its state |
| Dispatcher.BlankIff | rp2040_bdm.py:104-106 | "ERROR: Empty command" is the answer exactly when the line is all whitespace |
| Dispatcher.ParseByTokens | rp2040_bdm.py:104-107 | only the tokens matter, and of the verb only its upper-case form: the verb is case-insensitive |
| Dispatcher.MalformedIff | rp2040_bdm.py:121-134 | "unknown or malformed" exactly when the verb is none of the six, or READ_REG lacks exactly one argument, or WRITE_REG lacks exactly two |
| Dispatcher.VerbNames | rp2040_bdm.py:107-130 | a token names each verb exactly when it spells that verb with its letters in any case |
| Dispatcher.StatusReply | rp2040_bdm.py:130-132 | STATUS touches no line; it answers "HALTED" iff the freeze line is high and "RUNNING" iff it is low |
| Dispatcher.WriteRegParseFailure | rp2040_bdm.py:125-136 | WRITE_REG with an argument that is not hexadecimal exchanges nothing and reports the exception of the first failing argument |
| Dispatcher.ReadRegReply | rp2040_bdm.py:121-124 | READ_REG echoes its token as typed, exchanges one read opcode in 0x6000..0x603F, and reports the reply as four upper-case hex digits that parse back to it |
| Dispatcher.WriteRegEcho | rp2040_bdm.py:125-129 | WRITE_REG echoes the unmasked value, which parses back, with four digits iff it fits in 16 bits; the wire carries only `val mod 2^16` |
| Dispatcher.WriteRegWire | rp2040_bdm.py:72-75 | the two exchanges of a register write: the opcode, then the data word, whose wire bits encode `val mod 2^16` |
| Dispatcher.ParseCommandLine | rp2040_bdm.py:104-132 | the canonical line of a request (single spaces, upper-case verb, the value as `{:04X}`) parses back to that request |
| Dispatcher.ParseSpaced | rp2040_bdm.py:104 | however the words of a line are spaced, it means what the words joined by single spaces mean |
| Dispatcher.ParseWriteRegLine | rp2040_bdm.py:125-127 | a WRITE_REG line with any hexadecimal spelling of its value, lower-case or without leading zeros, writes that value |
| LineLoop.Channel.Read | rp2040_bdm.py:142 | `read(1)` takes the next byte of the input |
| LineLoop.Channel.Write | rp2040_bdm.py:148 | `write` appends one string to the output |
| LineLoop.AsciiRun | rp2040_bdm.py:144 | the number of leading bytes that `decode('ascii')` accepts before the first that it rejects |
| LineLoop.Decode | rp2040_bdm.py:144 | `decode('ascii')` of bytes that are all ASCII: one character per byte |
| LineLoop.DecodeCodes | rp2040_bdm.py:144 | each decoded character has the code of its byte |
| LineLoop.MainLoop | rp2040_bdm.py:138-151 | `main_loop`: the banner is written once, before anything is read; then one reply plus "\r\n" per assembled line, in order, each handled against the link as the earlier lines left it; the loop ends at the first byte that is not ASCII |
| LineLoop.ServeChar | rp2040_bdm.py:143-151 | one character: a line break with a non-empty buffer handles it and empties the buffer; a line break with an empty buffer does nothing; any other character is appended |
| LineLoop.HandleLine | rp2040_bdm.py:146-149 | a complete line is handed to `handle_command` and its reply written with "\r\n" |
| LineLoop.Step | rp2040_bdm.py:145-151 | one character never changes the lines already handed over and hands over at most one more, exactly when it is a line break and the buffer is non-empty |
| LineLoop.Scan | rp2040_bdm.py:141-151 | the lines the loop hands over for an input, and its buffer; their properties are stated by the lemmas `LineLoop.ScanTidy` to `LineLoop.ScanFramed` |
| LineLoop.ScanTidy | rp2040_bdm.py:145-151 | the loop never hands over an empty line or one that contains a line break |
| LineLoop.ScanContent | rp2040_bdm.py:145-151 | no character except a line break is lost: the lines and the buffer, put together, are the input without its line breaks |
| LineLoop.ScanFromAppend | rp2040_bdm.py:141-151 | reading `a` then `b` is reading `a + b` |
| LineLoop.ScanFromWord | rp2040_bdm.py:150-151 | characters that are not line breaks only grow the buffer |
| LineLoop.ScanFromBreaks | rp2040_bdm.py:145-149 | a run of line breaks hands over the buffer if it is non-empty, and does nothing more |
| LineLoop.ScanPending | rp2040_bdm.py:145-151 | nothing is handled until a line break arrives |
| LineLoop.ScanFramed | rp2040_bdm.py:145-151 | lines sent each followed by one or more line breaks, as the host sends them, are handed over one for one |
| LineLoop.LineExamples | rp2040_bdm.py:145-149 | "X\r\n" gives exactly one line and "\n\n" none |

## Left out

- `mc68332_bdm_host.py` and `test_communication.py`, the host shell and a manual smoke test, are not part of this model. They do I/O only. The one exception is the line format the host sends, what the user typed followed by `'\n'`, which `ScanFramed` uses. `CommandLine` is one canonical way to type each request; `ParseSpaced`, `ParseByTokens` and `ParseWriteRegLine` cover other spacing, letter case and value spellings.
- The `board`, `digitalio` and `usb_cdc` set-up (rp2040_bdm.py:1-27) is not modelled. It becomes the `Link` and `Channel` objects; only the initial line levels are kept.
- Sleeps do not wait. They are `Delay` events that keep their durations. Electrical timing is not modelled.
- The target is not modelled. Its data line is an arbitrary sample stream and its freeze line a fixed level for the whole session. So no property relates what a register write sends to what a later read returns.
- Text.ParseHex: accepts only a non-empty run of hexadecimal digits. The runtime's `int(s, 16)` also accepts a sign, a `0x` prefix and underscores between digits, so `READ_REG 2_A` reads register 0x2A on the device. Those forms are answered with an exception here instead of a value. Negative values and their `04X` rendering are therefore not reached.
- Text.IntParseError: gives the message of a runtime built to report errors in full, `invalid syntax for integer with base 16: '<arg>'`. A build with normal error reporting leaves out the argument, and a terse build also the base. The escaping of quotes and backslashes inside the quoted argument is not modelled.
- `Text.IsSpace` and `Text.UpperChar` cover ASCII only. The input is ASCII by the time it reaches them, because `main_loop` decodes it with `decode('ascii')`. Whitespace is the runtime's set (space and tab to carriage return), not CPython's, which also splits on 0x1C to 0x1F.
- Exceptions other than a failed `int(_, 16)` are not modelled. The hardware calls raise none here.
- The `None` result of `usb_serial.read(1)` (rp2040_bdm.py:143) is not modelled. `Channel.Read` is called only when a byte is waiting.
- The infinite `while True` (rp2040_bdm.py:141) is modelled as running until the bytes sent so far are used up. Running longer only repeats this on later input.
- Writing the reply with `encode('ascii')` is not modelled. Output is kept as strings.
- LineLoop.MainLoop: the exception raised by a byte that is not ASCII is modelled as the loop ending. The exception itself is not carried further.
