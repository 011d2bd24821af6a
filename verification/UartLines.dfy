/** BusSwitcher and the line handling of UartConnector, writing to mock lines. */
module UartLines {
  import opened Wrappers
  import opened Sequences
  import opened GpioMock
  import opened LineSequence

  ghost function Line(g: GpioMock?): set<GpioMock> {
    if g == null then {} else {g}
  }

  ghost predicate Ready(g: GpioMock?)
    reads Line(g)
  {
    g == null || g.Driven()
  }

  ghost function Value(g: GpioMock?): bool
    reads Line(g)
  {
    g != null && g.value
  }

  /** The source's write to an optional line: nothing happens when it is not configured. */
  method Write(g: GpioMock?, v: bool) returns (thrown: Option<LineError>)
    modifies Line(g)
    ensures thrown == None <==> old(Ready(g))
    ensures Ready(g) <==> old(Ready(g))
    ensures Value(g) == if g != null && old(Ready(g)) then v else old(Value(g))
  {
    thrown := None;
    if g != null {
      thrown := g.SetValue(v);
    }
  }

  class BusSwitcher {
    const busLine: GpioMock?
    const i2cLine: GpioMock?
    const spiLine: GpioMock?
    const uartLine: GpioMock?

    constructor (bus: GpioMock?, i2c: GpioMock?, spi: GpioMock?, uart: GpioMock?)
      ensures busLine == bus && i2cLine == i2c && spiLine == spi && uartLine == uart
    {
      busLine, i2cLine, spiLine, uartLine := bus, i2c, spi, uart;
    }

    ghost function Lines(): set<GpioMock> {
      Line(busLine) + Line(i2cLine) + Line(spiLine) + Line(uartLine)
    }

    /** No two optional lines are the same physical line. */
    ghost predicate Apart() {
      && Line(busLine) !! Line(i2cLine) !! Line(spiLine) !! Line(uartLine)
    }

    /** The lines a toggle writes accept writes. */
    ghost predicate Usable()
      reads Lines()
    {
      if busLine != null then busLine.Driven() else Ready(i2cLine) && Ready(spiLine) && Ready(uartLine)
    }

    /** The lines the switcher writes: with a common line those of the single buses are left alone. */
    ghost function Written(): (w: set<GpioMock>)
      ensures w <= Lines()
    {
      if busLine != null then {busLine} else Line(i2cLine) + Line(spiLine) + Line(uartLine)
    }

    /** What the lines carry, written or not. */
    ghost function Now(): BusLevels
      reads Lines()
    {
      BusLevels(Value(busLine), Value(i2cLine), Value(spiLine), Value(uartLine))
    }

    ghost function Named(c: Config): bool {
      && (c.bus <==> busLine != null) && (c.i2c <==> i2cLine != null)
      && (c.spi <==> spiLine != null) && (c.uart <==> uartLine != null)
    }

    /** From lines in any state. `path` lists the levels after each write. */
    method Init(ghost c: Config) returns (ghost path: seq<BusLevels>)
      requires Apart() && Named(c)
      modifies Written()
      ensures Usable() && Now() == Off(c, old(Now()))
      ensures path == ToggleWrites(c, old(Now()), false, false, false)
    {
      path := [];
      if busLine != null {
        busLine.InitOutput(false);
        path := [Now()];
        return;
      }
      if i2cLine != null {
        i2cLine.InitOutput(false);
        path := [Now()];
      }
      if spiLine != null {
        spiLine.InitOutput(false);
        path := path + [Now()];
      }
      if uartLine != null {
        uartLine.InitOutput(false);
        path := path + [Now()];
      }
    }

    /** Throws exactly when some line it would write is not a driven output; otherwise the lines go
        through the specified levels. `path` lists the levels after each write. */
    method Toggle(i2c: bool, spi: bool, uart: bool, ghost c: Config)
      returns (thrown: Option<LineError>, ghost path: seq<BusLevels>)
      requires Apart() && Named(c)
      modifies Written()
      ensures thrown == None <==> old(Usable())
      ensures old(Usable()) ==>
                && Usable() && path == ToggleWrites(c, old(Now()), i2c, spi, uart)
                && Now() == Settle(old(Now()), path)
    {
      path := [];
      if busLine != null {
        thrown := busLine.SetValue(i2c || spi || uart);
        path := [Now()];
        return;
      }
      thrown := Write(i2cLine, i2c);
      if thrown.Some? {
        return;
      }
      ghost var l1 := Now();
      path := if i2cLine != null then [l1] else [];
      thrown := Write(spiLine, spi);
      if thrown.Some? {
        return;
      }
      ghost var l2 := Now();
      path := path + if spiLine != null then [l2] else [];
      thrown := Write(uartLine, uart);
      path := path + if uartLine != null then [Now()] else [];
    }
  }

  /** The line handling of UartConnector. */
  class UartLines {
    const power: GpioMock?
    const pgm: GpioMock?
    const switcher: BusSwitcher
    const resetOnInit: bool
    const disableOnShutdown: bool
    /** What the lines carried when construction began, and the moments since. */
    ghost var start: Levels
    ghost var history: seq<Moment>

    ghost function Setup(): Config {
      Config(power != null, pgm != null, switcher.busLine != null, switcher.i2cLine != null,
             switcher.spiLine != null, switcher.uartLine != null, resetOnInit, disableOnShutdown)
    }

    ghost function AllLines(): set<GpioMock> {
      Line(power) + Line(pgm) + switcher.Lines()
    }

    ghost predicate Apart() {
      Line(power) !! Line(pgm) !! switcher.Lines() && switcher.Apart()
    }

    /** What the lines carry right now. */
    ghost function Now(): Levels
      reads AllLines()
    {
      Levels(Value(power), Value(pgm), switcher.Now())
    }

    /** Every line the connector writes is a driven output, and the history ends with the present. */
    ghost predicate Valid()
      reads this, AllLines()
    {
      && Apart() && Ready(power) && Ready(pgm) && switcher.Usable()
      && Now() == After(start, history)
    }

    constructor (power: GpioMock?, pgm: GpioMock?, switcher: BusSwitcher, resetOnInit: bool, disableOnShutdown: bool)
      ensures this.power == power && this.pgm == pgm && this.switcher == switcher
      ensures this.resetOnInit == resetOnInit && this.disableOnShutdown == disableOnShutdown
    {
      this.power, this.pgm, this.switcher := power, pgm, switcher;
      this.resetOnInit, this.disableOnShutdown := resetOnInit, disableOnShutdown;
      start, history := Levels(false, false, LOW), [];
    }

    /** The PGM and power lines become outputs. */
    method InitOwnLines()
      requires Apart()
      modifies this`start, this`history, Line(power), Line(pgm)
      ensures Ready(power) && Ready(pgm) && start == old(Now())
      ensures var before, c := old(Now()), Setup();
              var l1 := if c.pgm then before.(pgm := false) else before;
              var l2 := if c.power then l1.(power := true) else l1;
              && Now() == l2
              && history == (if c.pgm then [Moment(l1, Starting)] else [])
                          + (if c.power then [Moment(l2, Starting)] else [])
    {
      start, history := Now(), [];
      if pgm != null {
        pgm.InitOutput(false);
        history := [Moment(Now(), Starting)];
      }
      if power != null {
        power.InitOutput(true);
        history := history + [Moment(Now(), Starting)];
      }
    }

    /** The bus lines become outputs. */
    method InitBusLines(ghost during: Activity)
      requires Apart() && Ready(power) && Ready(pgm)
      modifies this`history, switcher.Written()
      ensures Ready(power) && Ready(pgm) && switcher.Usable()
      ensures Now() == old(Now()).(buses := Off(Setup(), old(Now()).buses))
      ensures history == old(history) + Moments(old(Now()), TogglePath(Setup(), old(Now()).buses, Nothing), during)
    {
      ghost var l := Now();
      hide ToggleWrites;
      ghost var path := switcher.Init(Setup());
      history := history + Moments(l, path, during);
    }

    /** The first half of initGpio: every line the connector writes becomes an output. The lines may have
        been in any state before. */
    method InitLines()
      requires Apart()
      modifies this`start, this`history, Line(power), Line(pgm), switcher.Written()
      ensures Valid() && start == old(Now()) && history == Starts(Setup(), start)
    {
      ghost var before := Now();
      MatchesNow();
      InitOwnLines();
      ghost var l := Now();
      InitBusLines(Starting);
      hide TogglePath, Initial, After, Matches, Moments, Off;
      StartsEnd(Setup(), before);
      InitialAfterwards(Setup(), before, l);
    }

    lemma InitialAfterwards(c: Config, before: Levels, l: Levels)
      requires Matches(c, before) && l.buses == before.buses
      requires l.power == (if c.power then true else before.power) && l.pgm == if c.pgm then false else before.pgm
      ensures l.(buses := Off(c, l.buses)) == Initial(c, before)
    {
    }

    method InitGpio() returns (thrown: Option<LineError>)
      requires Apart()
      modifies this`start, this`history, Line(power), Line(pgm), switcher.Written()
      ensures Valid() && thrown == None
      ensures start == old(Now()) && history == Up(Setup(), start, [])
    {
      ghost var before := Now();
      ghost var c := Setup();
      ghost var begun := Initial(c, before);
      ghost var first := Starts(c, before);
      ghost var reset: seq<Operation> := if resetOnInit then [Reset] else [];
      MatchesNow();
      InitLines();
      hide *;
      StartsEnd(c, before);
      ResetPrefix(c, begun, reset);
      assert first + [] == first;
      thrown := None;
      if resetOnInit {
        thrown := ResetTr();
        if thrown.Some? {
          return;
        }
      }
      ghost var done := PerformAll(c, begun, reset);
      assert history == first + done;
      AfterAppend(before, first, done);
      PerformOneMore(c, begun, reset, Toggle(Select(Uart)));
      thrown := ToggleBus(Uart, true);
      assert reset + [Toggle(Select(Uart))] == Construction(c) by {
        ConstructionIs(c);
      }
      ConcatAssociates(first, done, Perform(c, After(begun, done), Toggle(Select(Uart))));
      UpBegins(c, before);
    }

    lemma MatchesNow()
      ensures Matches(Setup(), Now())
    {
    }

    /** A write to the power line, as it shows in the history. */
    method WritePower(v: bool, ghost during: Activity) returns (thrown: Option<LineError>)
      requires Valid() && power != null
      modifies this`history, power
      ensures Valid() && thrown == None
      ensures Now() == old(Now()).(power := v) && history == old(history) + [Moment(Now(), during)]
      ensures power.valueCallback == old(power.valueCallback)
      ensures power.valueCallback && old(power.value) != v ==>
                power.valueCalls == old(power.valueCalls) + [(old(power.value), v)]
    {
      hide After;
      thrown := power.SetValue(v);
      history := history + [Moment(Now(), during)];
      EndsWith(start, old(history), Moment(Now(), during));
    }

    method WritePgm(v: bool, ghost during: Activity) returns (thrown: Option<LineError>)
      requires Valid() && pgm != null
      modifies this`history, pgm
      ensures Valid() && thrown == None
      ensures Now() == old(Now()).(pgm := v) && history == old(history) + [Moment(Now(), during)]
    {
      hide After;
      thrown := pgm.SetValue(v);
      history := history + [Moment(Now(), during)];
      EndsWith(start, old(history), Moment(Now(), during));
    }

    /** A toggle, as it shows in the history. */
    method Switch(i2c: bool, spi: bool, uart: bool, ghost during: Activity) returns (thrown: Option<LineError>)
      requires Valid()
      modifies this`history, switcher.Written()
      ensures Valid() && thrown == None
      ensures var l := old(Now()); var ms := Moments(l, ToggleWrites(Setup(), l.buses, i2c, spi, uart), during);
              history == old(history) + ms && Now() == After(l, ms)
    {
      hide ToggleWrites, After, Settle;
      ghost var l := Now();
      ghost var path;
      thrown, path := switcher.Toggle(i2c, spi, uart, Setup());
      ghost var ms := Moments(l, path, during);
      hide Moments;
      history := history + ms;
      SettleIsAfter(l, path, during);
      AfterAppend(start, old(history), ms);
    }

    method ResetTr() returns (thrown: Option<LineError>)
      requires Valid()
      modifies this`history, Line(power)
      ensures Valid() && thrown == None
      ensures history == old(history) + Perform(Setup(), After(start, old(history)), Reset)
      ensures power != null && old(power.value) && old(power.valueCallback) ==>
                power.valueCalls == old(power.valueCalls) + [(true, false), (false, true)]
    {
      if power == null {
        assert history == history + [];
        return None;
      }
      ghost var l := Now();
      thrown := WritePower(false, Resetting);
      if thrown.Some? {
        return;
      }
      thrown := WritePower(true, Resetting);
      assert history == old(history) + ResetPath(Setup(), l);
    }

    /** toggleI2c, toggleSpi and toggleUart. */
    method ToggleBus(b: Bus, enable: bool) returns (thrown: Option<LineError>)
      requires Valid()
      modifies this`history, switcher.Written()
      ensures Valid() && thrown == None
      ensures history == old(history)
        + Perform(Setup(), After(start, old(history)), Toggle(if enable then Select(b) else Nothing))
      ensures switcher.busLine != null ==> Value(switcher.busLine) == enable
      ensures switcher.busLine == null ==>
                && Value(switcher.i2cLine) == (switcher.i2cLine != null && enable && b == I2c)
                && Value(switcher.spiLine) == (switcher.spiLine != null && enable && b == Spi)
                && Value(switcher.uartLine) == (switcher.uartLine != null && enable && b == Uart)
    {
      ghost var to := if enable then Select(b) else Nothing;
      thrown := Switch(enable && b == I2c, enable && b == Spi, enable && b == Uart, Toggling(Now().buses, to));
      hide ToggleWrites, After, Moments;
    }

    method Handle(call: LineCall) returns (thrown: Option<LineError>)
      requires Valid()
      modifies this`history, Line(power), switcher.Written()
      ensures Valid() && thrown == None
      ensures history == old(history) + Perform(Setup(), After(start, old(history)), AsOperation(call))
      ensures call.CallToggle? && switcher.busLine != null ==> Value(switcher.busLine) == call.enable
      ensures call.CallToggle? && switcher.busLine == null ==>
                && Value(switcher.i2cLine) == (switcher.i2cLine != null && call.enable && call.b == I2c)
                && Value(switcher.spiLine) == (switcher.spiLine != null && call.enable && call.b == Spi)
                && Value(switcher.uartLine) == (switcher.uartLine != null && call.enable && call.b == Uart)
    {
      match call
      case CallReset => thrown := ResetTr();
      case CallToggle(b, enable) => thrown := ToggleBus(b, enable);
    }

    method InitAndAbandon() returns (thrown: Option<LineError>)
      requires Apart()
      modifies this`start, this`history, Line(power), Line(pgm), switcher.Written()
      ensures Valid() && thrown == None && start == old(Now())
      ensures history == Abandoned(Setup(), start) && Now() == Initial(Setup(), start)
      ensures forall m :: m in history ==> Safe(Setup(), start, m)
    {
      hide *;
      ghost var c, before := Setup(), Now();
      MatchesNow();
      AbandonedSafe(c, before);
      thrown := InitGpio();
      if thrown.Some? {
        return;
      }
      EndsNow();
      ghost var l := Now();
      ghost var ms := Moments(l, ToggleWrites(c, l.buses, false, false, false), Stopping);
      AbandonedIs(c, before, l, ms);
      thrown := Switch(false, false, false, Stopping);
      EndsNow();
    }

    lemma EndsNow()
      requires Valid()
      ensures Now() == After(start, history)
      ensures Now() == Levels(Value(power), Value(pgm), switcher.Now())
    {
    }

    lemma NamedLines()
      ensures Setup().power == (power != null) && Setup().disableOnShutdown == disableOnShutdown
    {
    }

    /** The destructor's optional writes to the connector's own lines. */
    method PowerOff() returns (thrown: Option<LineError>)
      requires Valid()
      modifies this`history, Line(power)
      ensures Valid() && thrown == None
      ensures var c, l := Setup(), old(Now()); var off := l.(power := false);
              && Now() == (if c.power && c.disableOnShutdown then off else l)
              && history == old(history) + if c.power && c.disableOnShutdown then [Moment(off, Stopping)] else []
    {
      if power != null && disableOnShutdown {
        thrown := WritePower(false, Stopping);
      } else {
        assert history == history + [];
        thrown := None;
      }
    }

    method PgmOff() returns (thrown: Option<LineError>)
      requires Valid()
      modifies this`history, Line(pgm)
      ensures Valid() && thrown == None
      ensures var c, l := Setup(), old(Now()); var off := l.(pgm := false);
              && Now() == (if c.pgm then off else l)
              && history == old(history) + if c.pgm then [Moment(off, Stopping)] else []
    {
      if pgm != null {
        thrown := WritePgm(false, Stopping);
      } else {
        assert history == history + [];
        thrown := None;
      }
    }

    /** The destructor, and then the destructor of the switcher, a member of the connector. */
    method Destroy() returns (thrown: Option<LineError>)
      requires Valid()
      modifies this`history, Line(power), Line(pgm), switcher.Written()
      ensures Valid() && thrown == None
      ensures history == old(history) + Destruction(Setup(), After(start, old(history)))
    {
      hide ToggleWrites, After, Moments;
      ghost var l := Now();
      thrown := PowerOff();
      if thrown.Some? {
        return;
      }
      thrown := Switch(false, false, false, Stopping);
      if thrown.Some? {
        return;
      }
      thrown := PgmOff();
      if thrown.Some? {
        return;
      }
      thrown := Switch(false, false, false, Stopping);
      DestructionIs(Setup(), l, old(history));
    }
  }

  /** A call on a living connector. */
  datatype LineCall = CallReset | CallToggle(b: Bus, enable: bool)

  function AsOperation(call: LineCall): Operation {
    match call
    case CallReset => Reset
    case CallToggle(b, enable) => Toggle(if enable then Select(b) else Nothing)
  }

  function AsOperations(calls: seq<LineCall>): (ops: seq<Operation>)
    ensures |ops| == |calls|
  {
    seq(|calls|, i requires 0 <= i < |calls| => AsOperation(calls[i]))
  }

  lemma OneMoreCall(calls: seq<LineCall>, i: nat)
    requires i < |calls|
    ensures AsOperations(calls[..i + 1]) == AsOperations(calls[..i]) + [AsOperation(calls[i])]
  {
  }

  /** Any calls on a living connector; the first exception would end them. */
  method Use(lines: UartLines, calls: seq<LineCall>) returns (thrown: Option<LineError>)
    requires lines.Valid() && Matches(lines.Setup(), lines.start)
    requires lines.history == Up(lines.Setup(), lines.start, [])
    modifies lines`history, Line(lines.power), lines.switcher.Written()
    ensures lines.Valid() && thrown == None
    ensures lines.history == Up(lines.Setup(), lines.start, AsOperations(calls))
  {
    hide *;
    ghost var c, start := lines.Setup(), lines.start;
    assert AsOperations(calls[..0]) == [];
    thrown := None;
    for i := 0 to |calls|
      invariant lines.Valid() && thrown == None
      invariant lines.history == Up(c, start, AsOperations(calls[..i]))
    {
      ghost var done, op := AsOperations(calls[..i]), AsOperation(calls[i]);
      UpOneMore(c, start, done, op);
      OneMoreCall(calls, i);
      thrown := lines.Handle(calls[i]);
      if thrown.Some? {
        return;
      }
    }
    assert calls[..|calls|] == calls;
  }

  method UseAndDestroy(lines: UartLines, calls: seq<LineCall>) returns (thrown: Option<LineError>)
    requires lines.Valid() && Matches(lines.Setup(), lines.start)
    requires lines.history == Up(lines.Setup(), lines.start, [])
    modifies lines`history, Line(lines.power), Line(lines.pgm), lines.switcher.Written()
    ensures thrown == None
    ensures lines.history == Life(lines.Setup(), lines.start, AsOperations(calls))
    ensures forall m :: m in lines.history ==> Safe(lines.Setup(), lines.start, m)
    ensures Value(lines.power) <==> lines.power != null && !lines.disableOnShutdown
    ensures !Value(lines.pgm) && lines.switcher.Now() == Off(lines.Setup(), lines.start.buses)
  {
    hide *;
    ghost var c, start := lines.Setup(), lines.start;
    LifeIs(c, start, AsOperations(calls));
    LifeSafe(c, start, AsOperations(calls));
    lines.NamedLines();
    thrown := Use(lines, calls);
    if thrown.Some? {
      return;
    }
    thrown := lines.Destroy();
    lines.EndsNow();
  }

  method UseFromTheStart(lines: UartLines, calls: seq<LineCall>) returns (thrown: Option<LineError>)
    requires lines.Apart()
    modifies lines`start, lines`history, Line(lines.power), Line(lines.pgm), lines.switcher.Written()
    ensures thrown == None && lines.start == old(lines.Now())
    ensures lines.history == Life(lines.Setup(), lines.start, AsOperations(calls))
    ensures forall m :: m in lines.history ==> Safe(lines.Setup(), lines.start, m)
    ensures Value(lines.power) <==> lines.power != null && !lines.disableOnShutdown
    ensures !Value(lines.pgm) && lines.switcher.Now() == Off(lines.Setup(), lines.start.buses)
  {
    lines.MatchesNow();
    hide *;
    thrown := lines.InitGpio();
    if thrown.Some? {
      return;
    }
    thrown := UseAndDestroy(lines, calls);
  }

  /** A whole life, from lines in any state: construction, any calls, destruction, ended by the first
      exception if there were one. No line write ever fails, every moment from the first initialising
      write on is safe, and the written lines are left as the configuration asks. With a common line those
      of the single buses are not touched, so all bus lines end low iff those were found low. */
  method LiveAndDie(power: GpioMock?, pgm: GpioMock?, switcher: BusSwitcher, resetOnInit: bool,
                    disableOnShutdown: bool, calls: seq<LineCall>)
    returns (thrown: Option<LineError>, ghost history: seq<Moment>)
    requires Line(power) !! Line(pgm) !! switcher.Lines() && switcher.Apart()
    modifies Line(power), Line(pgm), switcher.Written()
    ensures thrown == None
    ensures var c := Config(power != null, pgm != null, switcher.busLine != null, switcher.i2cLine != null,
                            switcher.spiLine != null, switcher.uartLine != null, resetOnInit, disableOnShutdown);
            var before := Levels(old(Value(power)), old(Value(pgm)), old(switcher.Now()));
            && history == Life(c, before, AsOperations(calls)) && (forall m :: m in history ==> Safe(c, before, m))
            && switcher.Now() == Off(c, before.buses)
            && (switcher.Now() == LOW <==> switcher.busLine == null || High(before.buses) == 0)
    ensures Value(power) <==> power != null && !disableOnShutdown
    ensures !Value(pgm)
  {
    var lines := new UartLines(power, pgm, switcher, resetOnInit, disableOnShutdown);
    hide Life, Safe, AsOperations;
    thrown := UseFromTheStart(lines, calls);
    history := lines.history;
  }

  /** Construction when opening the port throws after initGpio: the switcher's destructor runs and the
      connector's own does not. */
  method FailToOpen(power: GpioMock?, pgm: GpioMock?, switcher: BusSwitcher, resetOnInit: bool,
                    disableOnShutdown: bool)
    returns (thrown: Option<LineError>, ghost history: seq<Moment>)
    requires Line(power) !! Line(pgm) !! switcher.Lines() && switcher.Apart()
    modifies Line(power), Line(pgm), switcher.Written()
    ensures thrown == None
    ensures var c := Config(power != null, pgm != null, switcher.busLine != null, switcher.i2cLine != null,
                            switcher.spiLine != null, switcher.uartLine != null, resetOnInit, disableOnShutdown);
            var before := Levels(old(Value(power)), old(Value(pgm)), old(switcher.Now()));
            && history == Abandoned(c, before) && (forall m :: m in history ==> Safe(c, before, m))
            && switcher.Now() == Off(c, before.buses)
    ensures Value(power) <==> power != null
    ensures !Value(pgm)
  {
    var lines := new UartLines(power, pgm, switcher, resetOnInit, disableOnShutdown);
    hide Abandoned, Safe;
    thrown := lines.InitAndAbandon();
    history := lines.history;
  }

  /** The mock lines of a switcher with a common line and an I2C line found high: the connector's whole
      life leaves it high. */
  method StaysHigh(calls: seq<LineCall>) returns (i2cLine: GpioMock)
    ensures i2cLine.value
  {
    var busLine := new GpioMock();
    i2cLine := new GpioMock();
    i2cLine.InitOutput(true);
    var switcher := new BusSwitcher(busLine, i2cLine, null, null);
    var thrown, history := LiveAndDie(null, null, switcher, false, false, calls);
  }
}
