/** The mode controller: forcing the target into background debug mode
    through the reset and halt-request lines, sensing the freeze line, and
    resetting the target. */
module ModeControl {
  import opened Wire

  /** Settle time after each edge of the reset pulse that enters debug mode. */
  const EnterSettleUs: nat := 20000
  /** Settle time after each edge of a plain reset pulse. */
  const ResetSettleUs: nat := 10000
  /** Wait between entering debug mode and sensing the freeze line. */
  const StopSettleUs: nat := 50000

  /** `enter_bdm_mode`: clock (halt request) low, reset asserted, wait,
      reset released, wait. */
  function EnterBdmEvents(): seq<Event>
  {
    [Drive(Dsclk, false), Drive(Reset, false), Delay(EnterSettleUs), Drive(Reset, true), Delay(EnterSettleUs)]
  }

  /** `cpu_reset`: reset asserted, wait, reset released, wait. */
  function ResetEvents(): seq<Event>
  {
    [Drive(Reset, false), Delay(ResetSettleUs), Drive(Reset, true), Delay(ResetSettleUs)]
  }

  /** `stop_cpu`: enter debug mode, then wait before sensing the freeze line. */
  function StopEvents(): seq<Event>
  {
    EnterBdmEvents() + [Delay(StopSettleUs)]
  }

  /** Position of the first event `e` in `t`, or `|t|` if there is none. */
  function IndexOf(t: seq<Event>, e: Event): (i: nat)
    ensures i <= |t|
    ensures i < |t| ==> t[i] == e
    ensures forall j :: 0 <= j < i ==> t[j] != e
  {
    if t == [] then 0 else if t[0] == e then 0 else 1 + IndexOf(t[1..], e)
  }

  /** Entering debug mode drives the halt request low before the reset pulse,
      and the reset pulse asserts before it releases; the data line is not
      touched and the target's data line is not sampled. */
  lemma EnterBdmOrder()
    ensures IndexOf(EnterBdmEvents(), Drive(Dsclk, false)) < IndexOf(EnterBdmEvents(), Drive(Reset, false))
    ensures IndexOf(EnterBdmEvents(), Drive(Reset, false)) < IndexOf(EnterBdmEvents(), Drive(Reset, true))
    ensures IndexOf(EnterBdmEvents(), Drive(Reset, true)) < |EnterBdmEvents()|
    ensures Writes(EnterBdmEvents(), Dsclk) == [false]
    ensures Writes(EnterBdmEvents(), Reset) == [false, true]
    ensures Writes(EnterBdmEvents(), Dsi) == []
    ensures Samples(EnterBdmEvents()) == []
  {
    var t := EnterBdmEvents();
    assert t[1..][0] == Drive(Reset, false);
    assert t[1..][1..][1..][0] == Drive(Reset, true);
    assert t[..5] == t;
    assert t[..1][..0] == [];
    assert Writes(t[..1], Dsclk) == [false] && Writes(t[..1], Reset) == [];
    assert Writes(t[..1], Dsi) == [] && Samples(t[..1]) == [];
    assert t[..2][..1] == t[..1];
    assert Writes(t[..2], Dsclk) == [false] && Writes(t[..2], Reset) == [false];
    assert Writes(t[..2], Dsi) == [] && Samples(t[..2]) == [];
    assert t[..3][..2] == t[..2];
    assert Writes(t[..3], Dsclk) == [false] && Writes(t[..3], Reset) == [false];
    assert Writes(t[..3], Dsi) == [] && Samples(t[..3]) == [];
    assert t[..4][..3] == t[..3];
    assert Writes(t[..4], Dsclk) == [false] && Writes(t[..4], Reset) == [false, true];
    assert Writes(t[..4], Dsi) == [] && Samples(t[..4]) == [];
    assert t[..5][..4] == t[..4];
  }

  /** Whatever came before, after entering debug mode the clock line is low,
      the reset line is released and the data line is as it was. */
  lemma EnterBdmLevels(before: seq<Event>, clock: bool, data: bool, rst: bool)
    ensures LastLevel(before + EnterBdmEvents(), Dsclk, clock) == false
    ensures LastLevel(before + EnterBdmEvents(), Reset, rst) == true
    ensures LastLevel(before + EnterBdmEvents(), Dsi, data) == LastLevel(before, Dsi, data)
  {
    var t := EnterBdmEvents();
    EnterBdmOrder();
    LastLevelsAfter(before, t, clock, data, rst);
  }

  /** After a block of events `t`, each line shows the last level `t` wrote
      to it, or the level it showed before if `t` does not write it. */
  lemma LastLevelsAfter(before: seq<Event>, t: seq<Event>, clock: bool, data: bool, rst: bool)
    ensures (var w := Writes(t, Dsclk);
      LastLevel(before + t, Dsclk, clock) == if w == [] then LastLevel(before, Dsclk, clock) else w[|w| - 1])
    ensures (var w := Writes(t, Dsi);
      LastLevel(before + t, Dsi, data) == if w == [] then LastLevel(before, Dsi, data) else w[|w| - 1])
    ensures (var w := Writes(t, Reset);
      LastLevel(before + t, Reset, rst) == if w == [] then LastLevel(before, Reset, rst) else w[|w| - 1])
  {
    forall p: Pin, x: bool
      ensures (var w := Writes(t, p);
        LastLevel(before + t, p, x) == if w == [] then LastLevel(before, p, x) else w[|w| - 1])
    {
      LastLevelAppend(before, t, p, x);
      LastLevelIsLastWrite(t, p, LastLevel(before, p, x));
    }
  }

  /** A plain reset pulses the reset line low then high and leaves the clock
      and data lines alone; afterwards the reset line is released. */
  lemma ResetShape(before: seq<Event>, clock: bool, data: bool, rst: bool)
    ensures Writes(ResetEvents(), Reset) == [false, true]
    ensures Writes(ResetEvents(), Dsclk) == [] && Writes(ResetEvents(), Dsi) == []
    ensures Samples(ResetEvents()) == []
    ensures LastLevel(before + ResetEvents(), Reset, rst) == true
    ensures LastLevel(before + ResetEvents(), Dsclk, clock) == LastLevel(before, Dsclk, clock)
    ensures LastLevel(before + ResetEvents(), Dsi, data) == LastLevel(before, Dsi, data)
  {
    var t := ResetEvents();
    assert t[..4] == t;
    assert t[..1][..0] == [];
    assert Writes(t[..1], Dsclk) == [] && Writes(t[..1], Reset) == [false];
    assert Writes(t[..1], Dsi) == [] && Samples(t[..1]) == [];
    assert t[..2][..1] == t[..1];
    assert Writes(t[..2], Dsclk) == [] && Writes(t[..2], Reset) == [false];
    assert Writes(t[..2], Dsi) == [] && Samples(t[..2]) == [];
    assert t[..3][..2] == t[..2];
    assert Writes(t[..3], Dsclk) == [] && Writes(t[..3], Reset) == [false, true];
    assert Writes(t[..3], Dsi) == [] && Samples(t[..3]) == [];
    assert t[..4][..3] == t[..3];
    LastLevelsAfter(before, t, clock, data, rst);
  }

  /** `enter_bdm_mode()`. */
  method EnterBdmMode(link: Link)
    requires link.Valid()
    modifies link`dsclk, link`dsi, link`reset, link`trace
    ensures link.Valid()
    ensures link.trace == old(link.trace) + EnterBdmEvents()
    ensures !link.dsclk && link.reset && link.dsi == old(link.dsi)
    ensures link.cursor == old(link.cursor)
  {
    link.Drive(Dsclk, false);
    link.Drive(Reset, false);
    link.Sleep(EnterSettleUs);
    link.Drive(Reset, true);
    link.Sleep(EnterSettleUs);
  }

  /** `cpu_halted()`: the level of the freeze line. It changes nothing, so in
      particular it drives no output line. */
  method CpuHalted(link: Link) returns (halted: bool)
    ensures halted == link.freeze
  {
    halted := link.freeze == true;
  }

  /** `cpu_reset()`. */
  method CpuReset(link: Link)
    requires link.Valid()
    modifies link`dsclk, link`dsi, link`reset, link`trace
    ensures link.Valid()
    ensures link.trace == old(link.trace) + ResetEvents()
    ensures link.reset && link.dsclk == old(link.dsclk) && link.dsi == old(link.dsi)
    ensures link.cursor == old(link.cursor)
  {
    link.Drive(Reset, false);
    link.Sleep(ResetSettleUs);
    link.Drive(Reset, true);
    link.Sleep(ResetSettleUs);
  }

  /** `stop_cpu()`: enter debug mode, wait, and report the single sample of
      the freeze line. */
  method StopCpu(link: Link) returns (halted: bool)
    requires link.Valid()
    modifies link`dsclk, link`dsi, link`reset, link`trace
    ensures link.Valid()
    ensures link.trace == old(link.trace) + StopEvents()
    ensures halted == link.freeze
    ensures !link.dsclk && link.reset && link.dsi == old(link.dsi)
    ensures link.cursor == old(link.cursor)
  {
    EnterBdmMode(link);
    link.Sleep(StopSettleUs);
    halted := CpuHalted(link);
  }
}
