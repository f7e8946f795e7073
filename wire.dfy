/** The link driver: the probe's three output lines, the bit-serial 17-bit
    word exchange, and the trace of pin writes against which the protocol's
    edge ordering is stated. */
module Wire {
  import opened Bits

  /** The output lines: the serial clock (which doubles as the halt request
      line), the data line to the target, and the target's reset line
      (active low). */
  datatype Pin = Dsclk | Dsi | Reset

  /** What the probe does on the link: drive an output line, sample the
      data line coming back from the target, or wait. */
  datatype Event = Drive(pin: Pin, level: bool) | SampleDso(level: bool) | Delay(us: nat)

  /** Wait after each half of a bit cell, in microseconds. */
  const BitDelay: nat := 10

  // ---------------------------------------------------------------------
  // The shape of one word exchange

  /** One bit cell: drive the data line, clock low, clock high (the target
      latches the driven bit and the probe samples its input), wait. */
  function BitCell(out: bool, sample: bool): seq<Event>
  {
    [Drive(Dsi, out), Delay(BitDelay), Drive(Dsclk, false), Delay(BitDelay),
     Drive(Dsclk, true), SampleDso(sample), Delay(BitDelay)]
  }

  /** The bit cells for the driven bits `outs` and sampled bits `ins`. */
  function Frame(outs: seq<bool>, ins: seq<bool>): (f: seq<Event>)
    requires |outs| == |ins|
    ensures |f| == 7 * |outs|
  {
    if outs == [] then []
    else Frame(outs[..|outs| - 1], ins[..|ins| - 1]) + BitCell(outs[|outs| - 1], ins[|ins| - 1])
  }

  /** The 17 bits driven for `cmd`, for bit positions 16 down to 0: a forced
      0 at position 16, then `(cmd >> b) & 1` for `b` from 15 down to 0. */
  function WireBits(cmd: int): (w: seq<bool>)
    ensures |w| == 17
  {
    seq(17, i requires 0 <= i < 17 => WireBit(cmd, i))
  }

  /** Wire bit `i` of `cmd`: 0 for `i == 0`, else bit `16 - i` of `cmd`. */
  function WireBit(cmd: int, i: nat): bool
    requires i < 17
  {
    i > 0 && Shr(cmd, 16 - i) % 2 == 1
  }

  /** `n` successive values of the input line `line` from sample `start` on. */
  function Window(line: nat -> bool, start: nat, n: nat): (w: seq<bool>)
    ensures |w| == n
  {
    seq(n, i requires 0 <= i < n => line(start + i))
  }

  /** The first `n` bit cells of the exchange of `cmd` whose first sample
      is number `start`. */
  function Cells(cmd: int, line: nat -> bool, start: nat, n: nat): (c: seq<Event>)
    requires n <= 17
    ensures |c| == 7 * n
  {
    if n == 0 then []
    else Cells(cmd, line, start, n - 1) + BitCell(WireBit(cmd, n - 1), line(start + n - 1))
  }

  /** The first `n` samples from number `start` on, shifted in most
      significant first. */
  function Shifted(line: nat -> bool, start: nat, n: nat): nat
  {
    if n == 0 then 0 else 2 * Shifted(line, start, n - 1) + (if line(start + n - 1) then 1 else 0)
  }

  /** The events of one exchange of `cmd` whose first sample is number `start`. */
  function Transfer(cmd: int, line: nat -> bool, start: nat): (t: seq<Event>)
    ensures |t| == 119
  {
    seq(119, i requires 0 <= i < 119 => CellEvent(cmd, line, start, i))
  }

  /** Event `i` of the exchange of `cmd`: event `i % 7` of bit cell `i / 7`. */
  function CellEvent(cmd: int, line: nat -> bool, start: nat, i: nat): Event
    requires i < 119
  {
    BitCell(WireBit(cmd, i / 7), line(start + i / 7))[i % 7]
  }

  /** The word an exchange starting at sample `start` returns: the last 16
      samples, most significant first; the first (status) sample is dropped. */
  function Reply(line: nat -> bool, start: nat): (w: nat)
    ensures w < 0x10000
  {
    Pow2Values();
    Pack(Window(line, start + 1, 16))
  }

  /** The events of the exchanges of `cmds`, one after another. */
  function Transfers(cmds: seq<int>, line: nat -> bool, start: nat): (t: seq<Event>)
    ensures |t| == 119 * |cmds|
  {
    if cmds == [] then []
    else Transfers(cmds[..|cmds| - 1], line, start) + Transfer(cmds[|cmds| - 1], line, start + 17 * (|cmds| - 1))
  }

  // ---------------------------------------------------------------------
  // Reading a trace back

  /** The level of the last write to `pin`, or `initial` if there is none. */
  function LastLevel(t: seq<Event>, pin: Pin, initial: bool): bool
  {
    if t == [] then initial
    else if t[|t| - 1] == Drive(pin, true) then true
    else if t[|t| - 1] == Drive(pin, false) then false
    else LastLevel(t[..|t| - 1], pin, initial)
  }

  /** The levels written to `pin`, in order. */
  function Writes(t: seq<Event>, pin: Pin): seq<bool>
  {
    if t == [] then []
    else Writes(t[..|t| - 1], pin) + (if t[|t| - 1].Drive? && t[|t| - 1].pin == pin then [t[|t| - 1].level] else [])
  }

  /** The samples of the target's data line, in order. */
  function Samples(t: seq<Event>): seq<bool>
  {
    if t == [] then []
    else Samples(t[..|t| - 1]) + (if t[|t| - 1].SampleDso? then [t[|t| - 1].level] else [])
  }

  /** `n` clock pulses: low, high, low, high, ... */
  function Pulses(n: nat): (p: seq<bool>)
    ensures |p| == 2 * n
  {
    seq(2 * n, i requires 0 <= i < 2 * n => i % 2 == 1)
  }

  lemma {:induction false} WritesAppend(a: seq<Event>, b: seq<Event>, pin: Pin)
    ensures Writes(a + b, pin) == Writes(a, pin) + Writes(b, pin)
    decreases |b|
  {
    if b == [] {
      assert a + b == a;
    } else {
      assert (a + b)[..|a + b| - 1] == a + b[..|b| - 1];
      WritesAppend(a, b[..|b| - 1], pin);
    }
  }

  lemma {:induction false} SamplesAppend(a: seq<Event>, b: seq<Event>)
    ensures Samples(a + b) == Samples(a) + Samples(b)
    decreases |b|
  {
    if b == [] {
      assert a + b == a;
    } else {
      assert (a + b)[..|a + b| - 1] == a + b[..|b| - 1];
      SamplesAppend(a, b[..|b| - 1]);
    }
  }

  /** The level a pin shows is the last level written to it. */
  lemma {:induction false} LastLevelIsLastWrite(t: seq<Event>, pin: Pin, initial: bool)
    ensures LastLevel(t, pin, initial)
         == (var w := Writes(t, pin); if w == [] then initial else w[|w| - 1])
    decreases |t|
  {
    if t != [] {
      LastLevelIsLastWrite(t[..|t| - 1], pin, initial);
    }
  }

  lemma BitCellProjections(out: bool, sample: bool)
    ensures Writes(BitCell(out, sample), Dsi) == [out]
    ensures Writes(BitCell(out, sample), Dsclk) == [false, true]
    ensures Writes(BitCell(out, sample), Reset) == []
    ensures Samples(BitCell(out, sample)) == [sample]
  {
    BitCellData(out, sample);
    BitCellClock(out, sample);
    BitCellReset(out, sample);
    BitCellSamples(out, sample);
  }

  lemma BitCellData(out: bool, sample: bool)
    ensures Writes(BitCell(out, sample), Dsi) == [out]
  {
    var c := BitCell(out, sample);
    assert c[..7] == c;
    assert c[..1][..0] == c[..0];
    assert Writes(c[..1], Dsi) == [out];
    assert c[..2][..1] == c[..1];
    assert Writes(c[..2], Dsi) == [out];
    assert c[..3][..2] == c[..2];
    assert Writes(c[..3], Dsi) == [out];
    assert c[..4][..3] == c[..3];
    assert Writes(c[..4], Dsi) == [out];
    assert c[..5][..4] == c[..4];
    assert Writes(c[..5], Dsi) == [out];
    assert c[..6][..5] == c[..5];
    assert Writes(c[..6], Dsi) == [out];
    assert c[..7][..6] == c[..6];
    assert Writes(c[..7], Dsi) == [out];
  }

  lemma BitCellClock(out: bool, sample: bool)
    ensures Writes(BitCell(out, sample), Dsclk) == [false, true]
  {
    var c := BitCell(out, sample);
    assert c[..7] == c;
    assert c[..1][..0] == c[..0];
    assert Writes(c[..1], Dsclk) == [];
    assert c[..2][..1] == c[..1];
    assert Writes(c[..2], Dsclk) == [];
    assert c[..3][..2] == c[..2];
    assert Writes(c[..3], Dsclk) == [false];
    assert c[..4][..3] == c[..3];
    assert Writes(c[..4], Dsclk) == [false];
    assert c[..5][..4] == c[..4];
    assert Writes(c[..5], Dsclk) == [false, true];
    assert c[..6][..5] == c[..5];
    assert Writes(c[..6], Dsclk) == [false, true];
    assert c[..7][..6] == c[..6];
    assert Writes(c[..7], Dsclk) == [false, true];
  }

  lemma BitCellReset(out: bool, sample: bool)
    ensures Writes(BitCell(out, sample), Reset) == []
  {
    var c := BitCell(out, sample);
    assert c[..7] == c;
    assert c[..1][..0] == c[..0];
    assert Writes(c[..1], Reset) == [];
    assert c[..2][..1] == c[..1];
    assert Writes(c[..2], Reset) == [];
    assert c[..3][..2] == c[..2];
    assert Writes(c[..3], Reset) == [];
    assert c[..4][..3] == c[..3];
    assert Writes(c[..4], Reset) == [];
    assert c[..5][..4] == c[..4];
    assert Writes(c[..5], Reset) == [];
    assert c[..6][..5] == c[..5];
    assert Writes(c[..6], Reset) == [];
    assert c[..7][..6] == c[..6];
    assert Writes(c[..7], Reset) == [];
  }

  lemma BitCellSamples(out: bool, sample: bool)
    ensures Samples(BitCell(out, sample)) == [sample]
  {
    var c := BitCell(out, sample);
    assert c[..7] == c;
    assert c[..1][..0] == c[..0];
    assert Samples(c[..1]) == [];
    assert c[..2][..1] == c[..1];
    assert Samples(c[..2]) == [];
    assert c[..3][..2] == c[..2];
    assert Samples(c[..3]) == [];
    assert c[..4][..3] == c[..3];
    assert Samples(c[..4]) == [];
    assert c[..5][..4] == c[..4];
    assert Samples(c[..5]) == [];
    assert c[..6][..5] == c[..5];
    assert Samples(c[..6]) == [sample];
    assert c[..7][..6] == c[..6];
    assert Samples(c[..7]) == [sample];
  }


  /** Read back through the trace, a frame drives the data line with `outs`
      in order, pulses the clock once per bit, leaves the reset line alone
      and samples `ins` in order. */
  lemma {:induction false} FrameProjections(outs: seq<bool>, ins: seq<bool>)
    requires |outs| == |ins|
    ensures Writes(Frame(outs, ins), Dsi) == outs
    ensures Writes(Frame(outs, ins), Dsclk) == Pulses(|outs|)
    ensures Writes(Frame(outs, ins), Reset) == []
    ensures Samples(Frame(outs, ins)) == ins
    decreases |outs|
  {
    if outs != [] {
      var n := |outs|;
      var o', i' := outs[..n - 1], ins[..n - 1];
      assert outs == o' + [outs[n - 1]];
      assert ins == i' + [ins[n - 1]];
      FrameProjections(o', i');
      FrameSnoc(o', i', outs[n - 1], ins[n - 1]);
      PulsesAppend(n - 1, 1);
      assert Pulses(1) == [false, true];
    }
  }

  lemma FrameSnoc(outs: seq<bool>, ins: seq<bool>, out: bool, sample: bool)
    requires |outs| == |ins|
    ensures Writes(Frame(outs + [out], ins + [sample]), Dsi) == Writes(Frame(outs, ins), Dsi) + [out]
    ensures Writes(Frame(outs + [out], ins + [sample]), Dsclk) == Writes(Frame(outs, ins), Dsclk) + [false, true]
    ensures Writes(Frame(outs + [out], ins + [sample]), Reset) == Writes(Frame(outs, ins), Reset)
    ensures Samples(Frame(outs + [out], ins + [sample])) == Samples(Frame(outs, ins)) + [sample]
  {
    var f := Frame(outs, ins);
    var cell := BitCell(out, sample);
    assert (outs + [out])[..|outs|] == outs && (ins + [sample])[..|ins|] == ins;
    assert Frame(outs + [out], ins + [sample]) == f + cell;
    BitCellProjections(out, sample);
    WritesAppend(f, cell, Dsi);
    WritesAppend(f, cell, Dsclk);
    WritesAppend(f, cell, Reset);
    SamplesAppend(f, cell);
  }

  /** The wire bits are a leading 0 followed by the 16 low bits of `cmd`,
      most significant first; so they depend only on `cmd mod 2^16` and
      carry exactly that value. */
  lemma WireBitsValue(cmd: int)
    ensures !WireBits(cmd)[0] && WireBits(cmd)[1..] == MsbBits(cmd, 16)
    ensures WireBits(cmd) == WireBits(cmd % 0x10000)
    ensures Pack(WireBits(cmd)) == cmd % 0x10000
  {
    WireBitsMsb(cmd, 16);
    WireBitsMsb(cmd % 0x10000, 16);
    Pow2Values();
    LowBitsOnly(cmd, 16);
    assert WireBits(cmd) == [false] + MsbBits(cmd, 16);
    assert WireBits(cmd % 0x10000) == [false] + MsbBits(cmd % 0x10000, 16);
    PackAppend([false], MsbBits(cmd, 16));
    PackMsbBits(cmd, 16);
  }

  lemma WireBitsMsb(cmd: int, n: nat)
    requires n == 16
    ensures WireBits(cmd)[1..] == MsbBits(cmd, n)
  {
    forall i | 0 <= i < n ensures WireBits(cmd)[1..][i] == MsbBits(cmd, n)[i] {
      MsbBitsAt(cmd, n, i);
    }
  }

  /** One exchange is 17 bit cells, one per wire bit of `cmd`, the
      probe sampling the next value of the input line in each. */
  lemma TransferCells(cmd: int, line: nat -> bool, start: nat)
    ensures forall i :: 0 <= i < 17 ==>
      Transfer(cmd, line, start)[7 * i .. 7 * i + 7] == BitCell(WireBits(cmd)[i], line(start + i))
  {
    forall i | 0 <= i < 17
      ensures Transfer(cmd, line, start)[7 * i .. 7 * i + 7] == BitCell(WireBits(cmd)[i], line(start + i))
    {
      TransferCell(cmd, line, start, i);
    }
  }

  lemma TransferCell(cmd: int, line: nat -> bool, start: nat, i: nat)
    requires i < 17
    ensures Transfer(cmd, line, start)[7 * i .. 7 * i + 7] == BitCell(WireBit(cmd, i), line(start + i))
  {
    var t, c := Transfer(cmd, line, start)[7 * i .. 7 * i + 7], BitCell(WireBit(cmd, i), line(start + i));
    forall j | 0 <= j < 7 ensures t[j] == c[j] {
      CellEventAt(cmd, line, start, i, j, 7 * i + j);
    }
  }

  lemma CellEventAt(cmd: int, line: nat -> bool, start: nat, i: nat, j: nat, k: nat)
    requires i < 17 && j < 7 && k == 7 * i + j
    ensures CellEvent(cmd, line, start, k) == BitCell(WireBit(cmd, i), line(start + i))[j]
  {
    assert k / 7 == i && k % 7 == j;
  }

  /** Read back through the trace, one exchange pulses the clock low then
      high 17 times, drives the data line with the wire bits of `cmd`, leaves
      the reset line alone, and takes the next 17 samples of the input line. */
  lemma TransferShape(cmd: int, line: nat -> bool, start: nat)
    ensures Writes(Transfer(cmd, line, start), Dsclk) == Pulses(17)
    ensures Writes(Transfer(cmd, line, start), Dsi) == WireBits(cmd)
    ensures Writes(Transfer(cmd, line, start), Reset) == []
    ensures Samples(Transfer(cmd, line, start)) == Window(line, start, 17)
  {
    CellsFrame(cmd, line, start, 17);
    CellsTransfer(cmd, line, start);
    assert WireBits(cmd)[..17] == WireBits(cmd);
    FrameProjections(WireBits(cmd), Window(line, start, 17));
  }

  /** The word returned is the 16 samples after the status sample, read as
      a 16-bit number most significant bit first. */
  lemma ReplyBits(line: nat -> bool, start: nat)
    ensures MsbBits(Reply(line, start), 16) == Window(line, start + 1, 16)
  {
    MsbBitsPack(Window(line, start + 1, 16));
  }

  /** The data-line bits of a run of exchanges: the wire bits of each
      command in turn. */
  function WireStream(cmds: seq<int>): (w: seq<bool>)
    ensures |w| == 17 * |cmds|
  {
    if cmds == [] then [] else WireStream(cmds[..|cmds| - 1]) + WireBits(cmds[|cmds| - 1])
  }

  /** Read back through the trace, a run of exchanges pulses the clock 17
      times per word. */
  lemma {:induction false} TransfersClock(cmds: seq<int>, line: nat -> bool, start: nat)
    ensures Writes(Transfers(cmds, line, start), Dsclk) == Pulses(17 * |cmds|)
    decreases |cmds|
  {
    if cmds != [] {
      var init, a := cmds[..|cmds| - 1], 17 * (|cmds| - 1);
      TransfersClock(init, line, start);
      var t0, t1 := Transfers(init, line, start), Transfer(cmds[|cmds| - 1], line, start + a);
      TransfersSnoc(cmds, line, start, start + a);
      TransferShape(cmds[|cmds| - 1], line, start + a);
      WritesAppend(t0, t1, Dsclk);
      PulsesAppend(a, 17);
      assert a + 17 == 17 * |cmds|;
    }
  }

  /** A run of exchanges drives the data line with the wire bits of each
      command in order, and never drives the reset line. */
  lemma {:induction false} TransfersData(cmds: seq<int>, line: nat -> bool, start: nat)
    ensures Writes(Transfers(cmds, line, start), Dsi) == WireStream(cmds)
    ensures Writes(Transfers(cmds, line, start), Reset) == []
    decreases |cmds|
  {
    if cmds != [] {
      var init, a := cmds[..|cmds| - 1], 17 * (|cmds| - 1);
      TransfersData(init, line, start);
      var t0, t1 := Transfers(init, line, start), Transfer(cmds[|cmds| - 1], line, start + a);
      TransfersSnoc(cmds, line, start, start + a);
      TransferShape(cmds[|cmds| - 1], line, start + a);
      WritesAppend(t0, t1, Dsi);
      WritesAppend(t0, t1, Reset);
    }
  }

  /** A run of exchanges samples the input line once per clock pulse, in
      order, from sample `start` on. */
  lemma {:induction false} TransfersSamples(cmds: seq<int>, line: nat -> bool, start: nat)
    ensures Samples(Transfers(cmds, line, start)) == Window(line, start, 17 * |cmds|)
    decreases |cmds|
  {
    if cmds != [] {
      var init, a := cmds[..|cmds| - 1], 17 * (|cmds| - 1);
      TransfersSamples(init, line, start);
      var t0, t1 := Transfers(init, line, start), Transfer(cmds[|cmds| - 1], line, start + a);
      TransfersSnoc(cmds, line, start, start + a);
      TransferShape(cmds[|cmds| - 1], line, start + a);
      SamplesAppend(t0, t1);
      WindowSplit(line, start, a, 17);
      assert a + 17 == 17 * |cmds|;
    }
  }

  /** The bit driven at loop position `bit`: 0 at position 16, else
      `(cmd >> bit) & 1`. It is a 0 or a 1, and a 1 exactly where the wire
      bits of `cmd` hold one. */
  function OutBit(cmd: int, bit: nat): (b: nat)
    requires bit < 17
    ensures b <= 1
    ensures (b == 1) == WireBit(cmd, 16 - bit)
  {
    if bit == 16 then 0
    else
      Pow2Values();
      AndLowMask(Shr(cmd, bit), 1);
      BitAnd(Shr(cmd, bit), 1)
  }

  /** Event `i` of the first `n` bit cells is event `i` of the whole exchange. */
  lemma {:induction false} CellsAt(cmd: int, line: nat -> bool, start: nat, n: nat, i: nat)
    requires i < 7 * n && n <= 17
    ensures Cells(cmd, line, start, n)[i] == CellEvent(cmd, line, start, i)
  {
    if i < 7 * (n - 1) {
      CellsAt(cmd, line, start, n - 1, i);
    } else {
      assert i / 7 == n - 1;
    }
  }

  /** All 17 bit cells make up the exchange. */
  lemma CellsTransfer(cmd: int, line: nat -> bool, start: nat)
    ensures Cells(cmd, line, start, 17) == Transfer(cmd, line, start)
  {
    forall i | 0 <= i < 119 ensures Cells(cmd, line, start, 17)[i] == Transfer(cmd, line, start)[i] {
      CellsAt(cmd, line, start, 17, i);
    }
  }

  /** The bit cells are the frame of the wire bits and the samples. */
  lemma {:induction false} CellsFrame(cmd: int, line: nat -> bool, start: nat, n: nat)
    requires n <= 17
    ensures Cells(cmd, line, start, n) == Frame(WireBits(cmd)[..n], Window(line, start, n))
  {
    if n > 0 {
      CellsFrame(cmd, line, start, n - 1);
      var outs, ins := WireBits(cmd)[..n], Window(line, start, n);
      assert outs[..n - 1] == WireBits(cmd)[..n - 1] && ins[..n - 1] == Window(line, start, n - 1);
    }
  }

  /** Shifting in is packing the samples. */
  lemma {:induction false} ShiftedPack(line: nat -> bool, start: nat, n: nat)
    ensures Shifted(line, start, n) == Pack(Window(line, start, n))
  {
    if n > 0 {
      ShiftedPack(line, start, n - 1);
      var ins := Window(line, start, n);
      assert ins[..n - 1] == Window(line, start, n - 1);
    }
  }

  /** `(response << 1) | in_bit` appends `in_bit` below the bits of `response`. */
  lemma ShiftIn(response: nat, inBit: bool)
    ensures BitOr(2 * response, if inBit then 1 else 0) == 2 * response + (if inBit then 1 else 0)
  {
    Pow2Values();
    OrDisjoint(2 * response, if inBit then 1 else 0, 1);
  }

  /** `response & 0xFFFF` on the 17 shifted-in samples is the reply word. */
  lemma ReplyFromResponse(line: nat -> bool, start: nat, response: nat)
    requires response == Shifted(line, start, 17)
    ensures BitAnd(response, 0xFFFF) == Reply(line, start)
  {
    var ins := Window(line, start, 17);
    ShiftedPack(line, start, 17);
    AndLowMask(response, 16);
    Pow2Values();
    PackDropHead(ins);
    assert ins[1..] == Window(line, start + 1, 16);
  }

  /** Shifting in one more sample. */
  lemma ShiftedStep(line: nat -> bool, start: nat, n: nat)
    ensures Shifted(line, start, n + 1) == 2 * Shifted(line, start, n) + (if line(start + n) then 1 else 0)
  {
  }

  /** One more bit cell, sampling the next value of the input line. */
  lemma CellsStep(t: seq<Event>, cmd: int, line: nat -> bool, start: nat, n: nat, inBit: bool)
    requires n < 17 && inBit == line(start + n)
    ensures t + Cells(cmd, line, start, n) + BitCell(WireBit(cmd, n), inBit) == t + Cells(cmd, line, start, n + 1)
  {
    AppendAssoc(t, Cells(cmd, line, start, n), BitCell(WireBit(cmd, n), inBit));
  }

  /** The steps of one bit cell, appended one after another. */
  lemma CellTrace(t: seq<Event>, out: bool, b: bool)
    ensures t + [Drive(Dsi, out)] + [Delay(BitDelay)] + [Drive(Dsclk, false), Delay(BitDelay), Drive(Dsclk, true)]
          + [SampleDso(b)] + [Delay(BitDelay)] == t + BitCell(out, b)
  {
  }

  /** Appending to a trace piece by piece is appending the pieces joined. */
  lemma AppendAssoc(a: seq<Event>, b: seq<Event>, c: seq<Event>)
    ensures a + b + c == a + (b + c)
  {
  }

  /** Exchanges run back to back: the second run starts at the sample
      after the last one the first run took. */
  lemma {:induction false} TransfersAppend(a: seq<int>, b: seq<int>, line: nat -> bool, start: nat)
    ensures Transfers(a + b, line, start) == Transfers(a, line, start) + Transfers(b, line, start + 17 * |a|)
    decreases |b|
  {
    if b == [] {
      assert a + b == a;
    } else {
      var b', last := b[..|b| - 1], b[|b| - 1];
      var at := start + 17 * |a| + 17 * |b'|;
      var ta, tb', tl := Transfers(a, line, start), Transfers(b', line, start + 17 * |a|), Transfer(last, line, at);
      assert Transfers(a + b, line, start) == Transfers(a + b', line, start) + tl by {
        TransfersSnoc(a + b, line, start, at);
        assert (a + b)[..|a + b| - 1] == a + b';
      }
      TransfersAppend(a, b', line, start);
      assert Transfers(b, line, start + 17 * |a|) == tb' + tl by {
        TransfersSnoc(b, line, start + 17 * |a|, at);
      }
      AppendAssoc(ta, tb', tl);
    }
  }

  /** The exchanges of a non-empty run are those of all but its last
      command, then the exchange of the last one. */
  lemma TransfersSnoc(cmds: seq<int>, line: nat -> bool, start: nat, at: nat)
    requires cmds != [] && at == start + 17 * (|cmds| - 1)
    ensures Transfers(cmds, line, start) == Transfers(cmds[..|cmds| - 1], line, start) + Transfer(cmds[|cmds| - 1], line, at)
  {
  }

  /** A trace extended by the exchanges of `done` and then of `more` is
      extended by the exchanges of `done + more`. */
  lemma TraceExtend(before: seq<Event>, done: seq<int>, more: seq<int>, line: nat -> bool, start: nat)
    ensures before + Transfers(done, line, start) + Transfers(more, line, start + 17 * |done|)
         == before + Transfers(done + more, line, start)
  {
    TransfersAppend(done, more, line, start);
    AppendAssoc(before, Transfers(done, line, start), Transfers(more, line, start + 17 * |done|));
  }

  lemma TransfersOne(cmd: int, line: nat -> bool, start: nat)
    ensures Transfers([cmd], line, start) == Transfer(cmd, line, start)
  {
    assert [cmd][..0] == [];
  }

  /** The level a pin shows after `a + b` is its level after `b` starting
      from its level after `a`. */
  lemma {:induction false} LastLevelAppend(a: seq<Event>, b: seq<Event>, pin: Pin, initial: bool)
    ensures LastLevel(a + b, pin, initial) == LastLevel(b, pin, LastLevel(a, pin, initial))
    decreases |b|
  {
    if b == [] {
      assert a + b == a;
    } else {
      assert (a + b)[..|a + b| - 1] == a + b[..|b| - 1];
      LastLevelAppend(a, b[..|b| - 1], pin, initial);
    }
  }

  lemma WindowSplit(line: nat -> bool, start: nat, a: nat, b: nat)
    ensures Window(line, start, a + b) == Window(line, start, a) + Window(line, start + a, b)
  {
  }

  lemma PulsesAppend(a: nat, b: nat)
    ensures Pulses(a + b) == Pulses(a) + Pulses(b)
  {
    forall i | 0 <= i < 2 * b ensures Pulses(a + b)[2 * a + i] == Pulses(b)[i] {
      assert (2 * a + i) % 2 == i % 2;
    }
  }

  // ---------------------------------------------------------------------
  // The link

  /** The probe's side of the link. The output lines hold the last level
      written; `trace` records every write, sample and wait in order; `dso`
      is the data line from the target, as the sequence of values it shows
      at successive samples, of which `cursor` have been taken; `freeze` is
      the level of the target's freeze line (high while halted). */
  class Link {
    var dsclk: bool
    var dsi: bool
    var reset: bool
    var trace: seq<Event>
    var cursor: nat
    const dso: nat -> bool
    const freeze: bool

    /** The lines show the last level written to them (the initial levels
        being clock high, data low, reset released), and the samples in the
        trace are the input line's values, each taken once, in order. */
    ghost predicate Valid()
      reads this
    {
      && dsclk == LastLevel(trace, Dsclk, true)
      && dsi == LastLevel(trace, Dsi, false)
      && reset == LastLevel(trace, Reset, true)
      && Samples(trace) == Window(dso, 0, cursor)
    }

    /** The pin set-up: clock high, data low, reset high. */
    constructor (dso: nat -> bool, freeze: bool)
      ensures Valid()
      ensures dsclk && !dsi && reset
      ensures trace == [] && cursor == 0
      ensures this.dso == dso && this.freeze == freeze
    {
      dsclk, dsi, reset := true, false, true;
      trace, cursor := [], 0;
      this.dso, this.freeze := dso, freeze;
    }

    /** `pin.value = level`. */
    method Drive(pin: Pin, level: bool)
      requires Valid()
      modifies this`dsclk, this`dsi, this`reset, this`trace
      ensures Valid()
      ensures trace == old(trace) + [Event.Drive(pin, level)]
      ensures dsclk == (if pin == Dsclk then level else old(dsclk))
      ensures dsi == (if pin == Dsi then level else old(dsi))
      ensures reset == (if pin == Reset then level else old(reset))
      ensures cursor == old(cursor)
    {
      match pin {
        case Dsclk => dsclk := level;
        case Dsi => dsi := level;
        case Reset => reset := level;
      }
      trace := trace + [Event.Drive(pin, level)];
      assert trace[..|trace| - 1] == old(trace);
    }

    /** `time.sleep(us / 1e6)`, kept as a marker in the trace. */
    method Sleep(us: nat)
      requires Valid()
      modifies this`trace
      ensures Valid()
      ensures trace == old(trace) + [Delay(us)]
    {
      trace := trace + [Delay(us)];
      assert trace[..|trace| - 1] == old(trace);
    }

    /** `dso.value`: the next value of the target's data line. */
    method Sample() returns (b: bool)
      requires Valid()
      modifies this`trace, this`cursor
      ensures Valid()
      ensures b == dso(old(cursor))
      ensures trace == old(trace) + [SampleDso(b)]
      ensures cursor == old(cursor) + 1
    {
      b := dso(cursor);
      trace := trace + [SampleDso(b)];
      assert trace[..|trace| - 1] == old(trace);
      assert Window(dso, 0, cursor + 1) == Window(dso, 0, cursor) + [b];
      cursor := cursor + 1;
    }

    /** One pass of the loop body of `bdm_transfer_word`: put `out` on the
        data line, clock low, clock high, sample the target's data line. */
    method ClockBit(out: bool) returns (b: bool)
      requires Valid()
      modifies this`dsclk, this`dsi, this`reset, this`trace, this`cursor
      ensures Valid()
      ensures b == dso(old(cursor))
      ensures trace == old(trace) + BitCell(out, b)
      ensures cursor == old(cursor) + 1
      ensures dsclk && reset == old(reset)
    {
      Drive(Dsi, out);
      Sleep(BitDelay);
      Pulse();
      b := Sample();
      Sleep(BitDelay);
      CellTrace(old(trace), out, b);
    }

    /** One clock pulse: clock low, wait, clock high. */
    method Pulse()
      requires Valid()
      modifies this`dsclk, this`dsi, this`reset, this`trace
      ensures Valid()
      ensures trace == old(trace) + [Event.Drive(Dsclk, false), Delay(BitDelay), Event.Drive(Dsclk, true)]
      ensures dsclk && dsi == old(dsi) && reset == old(reset) && cursor == old(cursor)
    {
      Drive(Dsclk, false);
      Sleep(BitDelay);
      Drive(Dsclk, true);
    }

    /** `bdm_transfer_word(cmd)`: shift out a 0 and then bits 15..0 of
        `cmd` while shifting in 17 samples; return the last 16 of them. */
    method TransferWord(cmd: int) returns (word: int)
      requires Valid()
      modifies this`dsclk, this`dsi, this`reset, this`trace, this`cursor
      ensures Valid()
      ensures trace == old(trace) + Transfer(cmd, dso, old(cursor))
      ensures cursor == old(cursor) + 17
      ensures word == Reply(dso, old(cursor))
      ensures 0 <= word < 0x10000
      ensures dsclk && reset == old(reset)
    {
      ghost var start := cursor;
      ghost var n: nat := 0;
      var response := 0;
      for bit := 17 downto 0
        invariant n == 17 - bit
        invariant Valid()
        invariant cursor == start + n
        invariant response == Shifted(dso, start, n)
        invariant trace == old(trace) + Cells(cmd, dso, start, n)
        invariant bit < 17 ==> dsclk
        invariant reset == old(reset)
      {
        response := ShiftBit(cmd, bit, old(trace), start, n, response);
        n := n + 1;
      }
      // response & 0xFFFF
      ReplyFromResponse(dso, start, response);
      word := BitAnd(response, 0xFFFF);
      CellsTransfer(cmd, dso, start);
    }

    /** One pass of the loop of `bdm_transfer_word`, at loop position `bit`
        after `n` passes: exchange the bit cell and shift the sample into
        the response. */
    method ShiftBit(cmd: int, bit: nat, ghost before: seq<Event>, ghost start: nat, ghost n: nat, response: int)
      returns (next: int)
      requires Valid() && bit < 17 && n == 16 - bit
      requires cursor == start + n && response == Shifted(dso, start, n)
      requires trace == before + Cells(cmd, dso, start, n)
      modifies this`dsclk, this`dsi, this`reset, this`trace, this`cursor
      ensures Valid() && cursor == start + n + 1
      ensures next == Shifted(dso, start, n + 1)
      ensures trace == before + Cells(cmd, dso, start, n + 1)
      ensures dsclk && reset == old(reset)
    {
      var inBit := ClockBit(OutBit(cmd, bit) == 1);
      CellsStep(before, cmd, dso, start, n, inBit);
      ShiftedStep(dso, start, n);
      // (response << 1) | in_bit
      ShiftIn(response, inBit);
      next := BitOr(2 * response, if inBit then 1 else 0);
    }
  }
}
