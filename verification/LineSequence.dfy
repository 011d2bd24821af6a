/** The values the connector's lines pass through, moment by moment, and what holds at each. */
module LineSequence {
  import opened Sequences

  datatype Bus = I2c | Spi | Uart

  /** Which lines a configuration names, and its two flags. */
  datatype Config = Config(power: bool, pgm: bool, bus: bool, i2c: bool, spi: bool, uart: bool,
                           resetOnInit: bool, disableOnShutdown: bool)

  /** The values of the bus lines; a line that is not configured counts as low. */
  datatype BusLevels = BusLevels(bus: bool, i2c: bool, spi: bool, uart: bool)

  const LOW: BusLevels := BusLevels(false, false, false, false)

  datatype Levels = Levels(power: bool, pgm: bool, buses: BusLevels)

  /** The bus a toggle selects, if any. */
  datatype Selection = Nothing | Select(b: Bus)

  datatype Activity = Starting | Resetting | Toggling(from: BusLevels, to: Selection) | Stopping

  /** The values right after one line write, and what the connector was doing. */
  datatype Moment = Moment(levels: Levels, during: Activity)

  datatype Operation = Reset | Toggle(to: Selection)

  // ------------------------------------------------------------ the writes

  /** BusSwitcher::toggle: the common line alone when it is configured, else i2c, spi, uart in turn. */
  function ToggleWrites(c: Config, l: BusLevels, i2c: bool, spi: bool, uart: bool): seq<BusLevels> {
    if c.bus then [l.(bus := i2c || spi || uart)]
    else
      var l1 := if c.i2c then l.(i2c := i2c) else l;
      var l2 := if c.spi then l1.(spi := spi) else l1;
      var l3 := if c.uart then l2.(uart := uart) else l2;
      (if c.i2c then [l1] else []) + (if c.spi then [l2] else []) + (if c.uart then [l3] else [])
  }

  function Settle(l: BusLevels, writes: seq<BusLevels>): BusLevels {
    if writes == [] then l else writes[|writes| - 1]
  }

  function TogglePath(c: Config, l: BusLevels, to: Selection): seq<BusLevels> {
    ToggleWrites(c, l, to == Select(I2c), to == Select(Spi), to == Select(Uart))
  }

  function Moments(l: Levels, writes: seq<BusLevels>, during: Activity): (ms: seq<Moment>)
    ensures |ms| == |writes|
    ensures forall i :: 0 <= i < |ms| ==> ms[i] == Moment(l.(buses := writes[i]), during)
  {
    seq(|writes|, i requires 0 <= i < |writes| => Moment(l.(buses := writes[i]), during))
  }

  function ResetPath(c: Config, l: Levels): seq<Moment> {
    if c.power then [Moment(l.(power := false), Resetting), Moment(l.(power := true), Resetting)] else []
  }

  function Perform(c: Config, l: Levels, op: Operation): seq<Moment> {
    match op
    case Reset => ResetPath(c, l)
    case Toggle(to) => Moments(l, TogglePath(c, l.buses, to), Toggling(l.buses, to))
  }

  function After(l: Levels, ms: seq<Moment>): Levels {
    if ms == [] then l else ms[|ms| - 1].levels
  }

  function PerformAll(c: Config, l: Levels, ops: seq<Operation>): seq<Moment>
    decreases ops
  {
    if ops == [] then []
    else
      var first := Perform(c, l, ops[0]);
      first + PerformAll(c, After(l, first), ops[1..])
  }

  /** The operations of construction: an optional reset, then the UART bus. */
  function Construction(c: Config): seq<Operation> {
    (if c.resetOnInit then [Reset] else []) + [Toggle(Select(Uart))]
  }

  /** The bus lines switched off: with a common line it is the only one that is written. */
  function Off(c: Config, l: BusLevels): BusLevels {
    if c.bus then l.(bus := false) else LOW
  }

  /** The levels once initialisation is over, from those found before it. */
  function Initial(c: Config, before: Levels): Levels {
    Levels(c.power, false, Off(c, before.buses))
  }

  /** Destruction: power, the UART bus, PGM, and the switcher's own destructor. */
  function Destruction(c: Config, l: Levels): seq<Moment> {
    var l1 := if c.power && c.disableOnShutdown then l.(power := false) else l;
    var first := if c.power && c.disableOnShutdown then [Moment(l1, Stopping)] else [];
    var second := Moments(l1, TogglePath(c, l1.buses, Nothing), Stopping);
    var l2 := After(l1, second);
    var third := if c.pgm then [Moment(l2.(pgm := false), Stopping)] else [];
    var l3 := if c.pgm then l2.(pgm := false) else l2;
    first + second + third + Moments(l3, TogglePath(c, l3.buses, Nothing), Stopping)
  }

  /** The initialising writes: PGM, power, then the bus lines in the order of a toggle. */
  function Starts(c: Config, before: Levels): seq<Moment> {
    var l1 := if c.pgm then before.(pgm := false) else before;
    var l2 := if c.power then l1.(power := true) else l1;
    (if c.pgm then [Moment(l1, Starting)] else [])
    + (if c.power then [Moment(l2, Starting)] else [])
    + Moments(l2, TogglePath(c, l2.buses, Nothing), Starting)
  }

  /** Everything a connector's lines go through, from the first initialising write to destruction. */
  function Life(c: Config, before: Levels, ops: seq<Operation>): seq<Moment> {
    Up(c, before, ops) + Destruction(c, After(before, Up(c, before, ops)))
  }

  /** The same before destruction. */
  function Up(c: Config, before: Levels, ops: seq<Operation>): seq<Moment> {
    Starts(c, before) + PerformAll(c, Initial(c, before), Construction(c) + ops)
  }

  /** Destruction as its four stretches, appended one by one to what went before. */
  lemma DestructionIs(c: Config, l: Levels, h: seq<Moment>)
    ensures var l1 := if c.power && c.disableOnShutdown then l.(power := false) else l;
            var first := if c.power && c.disableOnShutdown then [Moment(l.(power := false), Stopping)] else [];
            var second := Moments(l1, ToggleWrites(c, l1.buses, false, false, false), Stopping);
            var l2 := After(l1, second);
            var third := if c.pgm then [Moment(l2.(pgm := false), Stopping)] else [];
            var l3 := if c.pgm then l2.(pgm := false) else l2;
            var fourth := Moments(l3, ToggleWrites(c, l3.buses, false, false, false), Stopping);
            h + first + second + third + fourth == h + Destruction(c, l)
  {
    hide ToggleWrites, After, Moments;
  }

  // ------------------------------------------------------------ what holds

  function High(b: BusLevels): nat {
    (if b.i2c then 1 else 0) + (if b.spi then 1 else 0) + (if b.uart then 1 else 0)
  }

  function Rank(b: Bus): nat {
    match b case I2c => 0 case Spi => 1 case Uart => 2
  }

  predicate Enabled(l: BusLevels, b: Bus) {
    match b case I2c => l.i2c case Spi => l.spi case Uart => l.uart
  }

  predicate Named(c: Config, b: Bus) {
    match b case I2c => c.i2c case Spi => c.spi case Uart => c.uart
  }

  /** The bus has a line of its own that toggles write: there is no common line. */
  predicate Switched(c: Config, b: Bus) {
    !c.bus && Named(c, b)
  }

  /** The toggle selects a bus that stands before the one enabled until now. */
  predicate MovesEarlier(c: Config, from: BusLevels, to: Selection) {
    to.Select? && Switched(c, to.b) && exists b :: Enabled(from, b) && Rank(to.b) < Rank(b)
  }

  /** Lines that are not configured count as low. */
  predicate Matches(c: Config, l: Levels) {
    && (l.power ==> c.power) && (l.pgm ==> c.pgm) && (l.buses.bus ==> c.bus)
    && forall b :: Enabled(l.buses, b) ==> Named(c, b)
  }

  predicate SameSingles(l: BusLevels, k: BusLevels) {
    l.i2c == k.i2c && l.spi == k.spi && l.uart == k.uart
  }

  predicate NoneRaised(from: BusLevels, to: BusLevels) {
    (to.bus ==> from.bus) && (to.i2c ==> from.i2c) && (to.spi ==> from.spi) && (to.uart ==> from.uart)
  }

  /** Between operations: PGM low and power on; without a common line at most one bus is enabled, and
      with one the lines of the single buses are as they were found. */
  predicate Settled(c: Config, before: Levels, l: Levels) {
    && !l.pgm && l.power == c.power
    && (c.bus ==> SameSingles(before.buses, l.buses))
    && (!c.bus ==> !l.buses.bus && High(l.buses) <= 1)
    && forall b :: Enabled(l.buses, b) ==> Named(c, b)
  }

  /** Two buses are enabled only while moving to an earlier bus, and never three. */
  predicate OneBus(c: Config, m: Moment) {
    && High(m.levels.buses) <= 2
    && (High(m.levels.buses) == 2 ==> m.during.Toggling? && MovesEarlier(c, m.during.from, m.during.to))
  }

  /** At every moment PGM is low, and with a common line the lines of the single buses are as they were
      found. During initialisation no bus line rises and power is as it was or on. */
  predicate Safe(c: Config, before: Levels, m: Moment) {
    && !m.levels.pgm
    && (c.bus ==> SameSingles(before.buses, m.levels.buses))
    && if m.during.Starting? then
         NoneRaised(before.buses, m.levels.buses)
         && (m.levels.power == before.power || m.levels.power == c.power)
       else SafeRunning(c, m)
  }

  /** Afterwards power is off only inside a reset or at shutdown, and without a common line at most one
      bus is enabled, two while moving to an earlier one. */
  predicate SafeRunning(c: Config, m: Moment) {
    && (c.power && !m.levels.power ==> m.during == Resetting || (m.during == Stopping && c.disableOnShutdown))
    && (m.levels.power ==> c.power)
    && (!c.bus ==> OneBus(c, m))
  }

  /** Without a common line, a toggle from a settled state ends with exactly the selected bus enabled, if
      it has a line, and passes through a moment with two enabled iff it moves to an earlier bus. With
      one, the common line says whether any bus is selected and the single lines do not change. */
  lemma ToggleSettles(c: Config, before: Levels, l: Levels, to: Selection)
    requires Settled(c, before, l)
    ensures var path := TogglePath(c, l.buses, to); var end := Settle(l.buses, path);
            && Settled(c, before, l.(buses := end))
            && (!c.bus ==> forall b :: Enabled(end, b) <==> Switched(c, b) && to == Select(b))
            && (c.bus ==> (end.bus <==> to.Select?) && SameSingles(l.buses, end))
            && (forall i :: 0 <= i < |path| ==>
                  Safe(c, before, Moment(l.(buses := path[i]), Toggling(l.buses, to))))
            && (!c.bus ==> ((exists i :: 0 <= i < |path| && High(path[i]) == 2) <==> MovesEarlier(c, l.buses, to)))
  {
    var path := TogglePath(c, l.buses, to);
    var from := l.buses;
    assert Enabled(from, I2c) == from.i2c && Enabled(from, Spi) == from.spi && Enabled(from, Uart) == from.uart;
    if c.bus {
      var end := from.(bus := to.Select?);
      assert path == [end];
      assert forall b :: Enabled(end, b) == Enabled(from, b);
    } else {
      SinglesToggled(c, from, to);
      var end := Settle(from, path);
      assert forall b :: Enabled(end, b) ==> Named(c, b);
      hide TogglePath, MovesEarlier, Enabled;
    }
  }

  /** A toggle without a common line, from at most one enabled bus. */
  lemma SinglesToggled(c: Config, from: BusLevels, to: Selection)
    requires !c.bus && !from.bus && High(from) <= 1 && forall b :: Enabled(from, b) ==> Named(c, b)
    ensures var path := TogglePath(c, from, to); var end := Settle(from, path);
            && !end.bus && High(end) <= 1
            && (forall b :: Enabled(end, b) <==> Switched(c, b) && to == Select(b))
            && (forall i :: 0 <= i < |path| ==>
                  High(path[i]) <= 2 && (High(path[i]) == 2 ==> MovesEarlier(c, from, to)))
            && ((exists i :: 0 <= i < |path| && High(path[i]) == 2) <==> MovesEarlier(c, from, to))
  {
    var path := TogglePath(c, from, to);
    assert Enabled(from, I2c) == from.i2c && Enabled(from, Spi) == from.spi && Enabled(from, Uart) == from.uart;
    forall i | 0 <= i < |path|
      ensures High(path[i]) <= 2 && (High(path[i]) == 2 ==> MovesEarlier(c, from, to))
    {
    }
    if MovesEarlier(c, from, to) {
      assert High(path[if to.b == Spi && c.i2c then 1 else 0]) == 2;
    }
  }

  lemma PerformSafe(c: Config, before: Levels, l: Levels, op: Operation)
    requires Settled(c, before, l)
    ensures Settled(c, before, After(l, Perform(c, l, op)))
    ensures forall m :: m in Perform(c, l, op) ==> Safe(c, before, m)
  {
    if op.Toggle? {
      ToggleSettles(c, before, l, op.to);
      var path := TogglePath(c, l.buses, op.to);
      hide TogglePath, Settled, Safe;
      if path == [] {
        assert l.(buses := l.buses) == l;
      }
    }
  }

  lemma {:induction false} RunSafe(c: Config, before: Levels, l: Levels, ops: seq<Operation>)
    requires Settled(c, before, l)
    ensures Settled(c, before, After(l, PerformAll(c, l, ops)))
    ensures forall m :: m in PerformAll(c, l, ops) ==> Safe(c, before, m)
    decreases ops
  {
    if ops != [] {
      PerformSafe(c, before, l, ops[0]);
      hide Settled, Safe, Perform;
      var first := Perform(c, l, ops[0]);
      RunSafe(c, before, After(l, first), ops[1..]);
      AfterAppend(l, first, PerformAll(c, After(l, first), ops[1..]));
    }
  }

  lemma AfterAppend(l: Levels, a: seq<Moment>, b: seq<Moment>)
    ensures After(l, a + b) == After(After(l, a), b)
  {
    if b == [] {
      assert a + b == a;
    }
  }

  lemma {:induction false} PerformAllAppend(c: Config, l: Levels, a: seq<Operation>, b: seq<Operation>)
    ensures PerformAll(c, l, a + b) == PerformAll(c, l, a) + PerformAll(c, After(l, PerformAll(c, l, a)), b)
    decreases a
  {
    hide Perform;
    if a == [] {
      assert a + b == b;
    } else {
      var first := Perform(c, l, a[0]);
      var next := After(l, first);
      assert (a + b)[1..] == a[1..] + b;
      PerformAllAppend(c, next, a[1..], b);
      AfterAppend(l, first, PerformAll(c, next, a[1..]));
    }
  }

  lemma EndsWith(l: Levels, ms: seq<Moment>, m: Moment)
    ensures After(l, ms + [m]) == m.levels
  {
  }

  lemma SettleIsAfter(l: Levels, writes: seq<BusLevels>, during: Activity)
    ensures After(l, Moments(l, writes, during)) == l.(buses := Settle(l.buses, writes))
  {
  }

  /** Switching off, from any levels, raises no line on the way. */
  lemma OffRaisesNone(c: Config, b: BusLevels)
    requires (forall x :: Enabled(b, x) ==> Named(c, x)) && (b.bus ==> c.bus)
    ensures var path := TogglePath(c, b, Nothing);
            && Settle(b, path) == Off(c, b)
            && forall i :: 0 <= i < |path| ==> NoneRaised(b, path[i]) && (c.bus ==> SameSingles(b, path[i]))
  {
    assert Enabled(b, I2c) == b.i2c && Enabled(b, Spi) == b.spi && Enabled(b, Uart) == b.uart;
  }

  lemma StartsEnd(c: Config, before: Levels)
    requires Matches(c, before)
    ensures After(before, Starts(c, before)) == Initial(c, before)
  {
    var l1 := if c.pgm then before.(pgm := false) else before;
    var l2 := if c.power then l1.(power := true) else l1;
    OffRaisesNone(c, before.buses);
    assert l2.(buses := Off(c, before.buses)) == Initial(c, before);
    var path := TogglePath(c, l2.buses, Nothing);
    SettleIsAfter(l2, path, Starting);
    hide TogglePath, Enabled, Matches, Initial, Off;
    var first := if c.pgm then [Moment(l1, Starting)] else [];
    var second := if c.power then [Moment(l2, Starting)] else [];
    var third := Moments(l2, path, Starting);
    assert Starts(c, before) == first + second + third;
    hide Starts;
    AfterAppend(before, first + second, third);
    AfterAppend(before, first, second);
  }

  /** No initialising write raises a bus line; PGM is low from the first of them on. */
  lemma StartsSafe(c: Config, before: Levels)
    requires Matches(c, before)
    ensures forall m :: m in Starts(c, before) ==> Safe(c, before, m)
  {
    OffRaisesNone(c, before.buses);
    var l1 := if c.pgm then before.(pgm := false) else before;
    var l2 := if c.power then l1.(power := true) else l1;
    var first := if c.pgm then [Moment(l1, Starting)] else [];
    var second := if c.power then [Moment(l2, Starting)] else [];
    var path := TogglePath(c, l2.buses, Nothing);
    hide TogglePath, SafeRunning, Settle, Enabled, Off;
    assert Safe(c, before, Moment(l2, Starting)) && (c.pgm ==> Safe(c, before, Moment(l1, Starting)));
    SafeMoments(c, before, l2, path, Starting);
    hide Safe, Matches, NoneRaised, SameSingles;
    SafeAppend(c, before, first, second);
    SafeAppend(c, before, first + second, Moments(l2, path, Starting));
  }

  lemma SafeMoments(c: Config, before: Levels, l: Levels, path: seq<BusLevels>, during: Activity)
    requires forall i :: 0 <= i < |path| ==> Safe(c, before, Moment(l.(buses := path[i]), during))
    ensures forall m :: m in Moments(l, path, during) ==> Safe(c, before, m)
  {
    hide Safe;
  }

  lemma SafeAppend(c: Config, before: Levels, a: seq<Moment>, b: seq<Moment>)
    requires forall m :: m in a ==> Safe(c, before, m)
    requires forall m :: m in b ==> Safe(c, before, m)
    ensures forall m :: m in a + b ==> Safe(c, before, m)
  {
    hide Safe;
  }

  lemma ResetPrefix(c: Config, l: Levels, reset: seq<Operation>)
    requires reset == if c.resetOnInit then [Reset] else []
    ensures PerformAll(c, l, reset) == if c.resetOnInit then Perform(c, l, Reset) else []
  {
    assert [Reset][1..] == [];
  }

  lemma ConstructionIs(c: Config)
    ensures Construction(c) == (if c.resetOnInit then [Reset] else []) + [Toggle(Select(Uart))]
  {
  }

  lemma PerformOneMore(c: Config, l: Levels, ops: seq<Operation>, op: Operation)
    ensures PerformAll(c, l, ops + [op]) == PerformAll(c, l, ops) + Perform(c, After(l, PerformAll(c, l, ops)), op)
  {
    PerformAllAppend(c, l, ops, [op]);
    assert [op][1..] == [];
  }

  lemma UpOneMore(c: Config, before: Levels, ops: seq<Operation>, op: Operation)
    requires Matches(c, before)
    ensures Up(c, before, ops + [op])
         == Up(c, before, ops) + Perform(c, After(before, Up(c, before, ops)), op)
  {
    hide *;
    StartsEnd(c, before);
    UpIs(c, before, ops);
    UpIs(c, before, ops + [op]);
    var i, all := Initial(c, before), Construction(c) + ops;
    ConcatAssociates(Construction(c), ops, [op]);
    PerformOneMore(c, i, all, op);
    AfterAppend(before, Starts(c, before), PerformAll(c, i, all));
    ConcatAssociates(Starts(c, before), PerformAll(c, i, all), Perform(c, After(i, PerformAll(c, i, all)), op));
  }

  lemma UpIs(c: Config, before: Levels, ops: seq<Operation>)
    ensures Up(c, before, ops) == Starts(c, before) + PerformAll(c, Initial(c, before), Construction(c) + ops)
  {
  }

  lemma UpBegins(c: Config, before: Levels)
    ensures Up(c, before, []) == Starts(c, before) + PerformAll(c, Initial(c, before), Construction(c))
  {
    assert Construction(c) + [] == Construction(c);
  }

  lemma LifeIs(c: Config, before: Levels, ops: seq<Operation>)
    ensures Life(c, before, ops)
         == Up(c, before, ops) + Destruction(c, After(before, Up(c, before, ops)))
  {
  }

  /** The switcher's part of destruction, from any power state. */
  lemma SwitchOff(c: Config, l: Levels)
    requires (forall x :: Enabled(l.buses, x) ==> Named(c, x)) && (l.buses.bus ==> c.bus)
    requires !c.bus ==> High(l.buses) <= 1
    ensures var ms := Moments(l, TogglePath(c, l.buses, Nothing), Stopping);
            && After(l, ms) == l.(buses := Off(c, l.buses))
            && forall m :: m in ms ==>
                 && m.during == Stopping && m.levels.power == l.power && m.levels.pgm == l.pgm
                 && (c.bus ==> SameSingles(l.buses, m.levels.buses))
                 && (!c.bus ==> High(m.levels.buses) <= 1)
  {
    OffRaisesNone(c, l.buses);
    hide TogglePath;
  }

  lemma OffAgain(c: Config, l: BusLevels)
    ensures Off(c, Off(c, l)) == Off(c, l) && (c.bus ==> SameSingles(l, Off(c, l))) && (!c.bus ==> Off(c, l) == LOW)
    ensures forall x :: Enabled(Off(c, l), x) ==> Enabled(l, x)
  {
    assert forall x :: !Enabled(LOW, x);
    assert c.bus ==> forall x :: Enabled(Off(c, l), x) == Enabled(l, x);
  }

  /** Switching off is safe at shutdown. */
  lemma OffSafe(c: Config, before: Levels, l: Levels)
    requires (forall x :: Enabled(l.buses, x) ==> Named(c, x)) && (l.buses.bus ==> c.bus)
    requires !c.bus ==> High(l.buses) <= 1
    requires c.bus ==> SameSingles(before.buses, l.buses)
    requires !l.pgm && (l.power ==> c.power) && (c.power && !l.power ==> c.disableOnShutdown)
    ensures Safe(c, before, Moment(l, Stopping))
    ensures forall m :: m in Moments(l, TogglePath(c, l.buses, Nothing), Stopping) ==> Safe(c, before, m)
    ensures After(l, Moments(l, TogglePath(c, l.buses, Nothing), Stopping)) == l.(buses := Off(c, l.buses))
  {
    SwitchOff(c, l);
    hide TogglePath, Enabled, Off, After, Moments;
  }

  /** Destruction leaves power as configured, PGM low and the written bus lines low. */
  lemma DestructionSafe(c: Config, before: Levels, l: Levels)
    requires Settled(c, before, l)
    ensures forall m :: m in Destruction(c, l) ==> Safe(c, before, m)
    ensures After(l, Destruction(c, l)) == Levels(c.power && !c.disableOnShutdown, false, Off(c, l.buses))
  {
    var l1 := if c.power && c.disableOnShutdown then l.(power := false) else l;
    var first := if c.power && c.disableOnShutdown then [Moment(l1, Stopping)] else [];
    var second := Moments(l1, TogglePath(c, l1.buses, Nothing), Stopping);
    assert l.buses.bus ==> c.bus;
    OffSafe(c, before, l1);
    OffAgain(c, l.buses);
    OffSettled(c, l.buses);
    var l2 := l1.(buses := Off(c, l.buses));
    assert l2 == After(l1, second);
    var third := if c.pgm then [Moment(l2.(pgm := false), Stopping)] else [];
    assert l2.(pgm := false) == l2;
    OffSafe(c, before, l2);
    var fourth := Moments(l2, TogglePath(c, l2.buses, Nothing), Stopping);
    assert Destruction(c, l) == first + second + third + fourth;
    hide TogglePath, Off, Safe, Destruction, Settled, High, Enabled, SameSingles;
    SafeAppend(c, before, first, second);
    SafeAppend(c, before, first + second, third);
    SafeAppend(c, before, first + second + third, fourth);
    AfterAppend(l, first + second + third, fourth);
    AfterAppend(l, first + second, third);
    AfterAppend(l, first, second);
  }

  lemma OffSettled(c: Config, b: BusLevels)
    requires b.bus ==> c.bus
    ensures (Off(c, b).bus ==> c.bus) && (!c.bus ==> High(Off(c, b)) == 0)
  {
  }

  /** Every moment before destruction is safe, and operations end settled. */
  lemma UpSafe(c: Config, before: Levels, ops: seq<Operation>)
    requires Matches(c, before)
    ensures forall m :: m in Up(c, before, ops) ==> Safe(c, before, m)
    ensures Settled(c, before, After(before, Up(c, before, ops)))
  {
    StartsSafe(c, before);
    StartsEnd(c, before);
    InitialSettled(c, before);
    RunSafe(c, before, Initial(c, before), Construction(c) + ops);
    hide Starts, PerformAll, Construction, Safe, Settled;
    AfterAppend(before, Starts(c, before), PerformAll(c, Initial(c, before), Construction(c) + ops));
  }

  lemma InitialSettled(c: Config, before: Levels)
    requires Matches(c, before)
    ensures Settled(c, before, Initial(c, before))
  {
    OffAgain(c, before.buses);
  }

  /** For every configuration, whatever the lines carried before, and every run of resets and bus
      toggles between construction and destruction, every moment is safe, and in the end the written bus
      lines are low, the others as they were found, and a configured power line is low iff power is to be
      disabled on shutdown. */
  lemma LifeSafe(c: Config, before: Levels, ops: seq<Operation>)
    requires Matches(c, before)
    ensures forall m :: m in Life(c, before, ops) ==> Safe(c, before, m)
    ensures After(before, Life(c, before, ops))
         == Levels(c.power && !c.disableOnShutdown, false, Off(c, before.buses))
  {
    UpSafe(c, before, ops);
    var l := After(before, Up(c, before, ops));
    DestructionSafe(c, before, l);
    AfterAppend(before, Up(c, before, ops), Destruction(c, l));
    SameOff(c, before, l);
    hide Up, Destruction, Safe, Settled, Off;
  }

  lemma SameOff(c: Config, before: Levels, l: Levels)
    requires Settled(c, before, l)
    ensures Off(c, l.buses) == Off(c, before.buses)
  {
  }

  // ------------------------------------------------------------ resets and selections

  function Resets(ops: seq<Operation>): nat {
    if ops == [] then 0 else (if ops[0].Reset? then 1 else 0) + Resets(ops[1..])
  }

  /** Moments of a reset at which power is off. */
  function PowerCuts(ms: seq<Moment>): nat {
    if ms == [] then 0
    else (if ms[0].during.Resetting? && !ms[0].levels.power then 1 else 0) + PowerCuts(ms[1..])
  }

  lemma {:induction false} CutsAppend(a: seq<Moment>, b: seq<Moment>)
    ensures PowerCuts(a + b) == PowerCuts(a) + PowerCuts(b)
  {
    if a == [] {
      assert a + b == b;
    } else {
      assert (a + b)[1..] == a[1..] + b;
      CutsAppend(a[1..], b);
    }
  }

  lemma {:induction false} NoCuts(ms: seq<Moment>)
    requires forall m :: m in ms ==> !m.during.Resetting?
    ensures PowerCuts(ms) == 0
  {
    if ms != [] {
      NoCuts(ms[1..]);
    }
  }

  lemma {:induction false} CutsOf(c: Config, l: Levels, ops: seq<Operation>)
    ensures PowerCuts(PerformAll(c, l, ops)) == if c.power then Resets(ops) else 0
    decreases ops
  {
    if ops != [] {
      var first := Perform(c, l, ops[0]);
      if ops[0].Reset? {
        if c.power {
          assert first[1..] == [first[1]] && [first[1]][1..] == [];
        }
      } else {
        NoCuts(first);
      }
      hide Perform;
      CutsOf(c, After(l, first), ops[1..]);
      CutsAppend(first, PerformAll(c, After(l, first), ops[1..]));
    }
  }

  /** Over a whole life power is cut once for each reset, the one at construction included, when there is
      a power line. */
  lemma PowerCutsAreResets(c: Config, before: Levels, ops: seq<Operation>)
    ensures PowerCuts(Life(c, before, ops))
         == if c.power then (if c.resetOnInit then 1 else 0) + Resets(ops) else 0
  {
    hide *;
    var l := After(before, Up(c, before, ops));
    NoCutsAtEnds(c, before, l);
    ConstructionResets(c, ops);
    LifeIs(c, before, ops);
    UpIs(c, before, ops);
    CutsAppend(Up(c, before, ops), Destruction(c, l));
    CutsAppend(Starts(c, before), PerformAll(c, Initial(c, before), Construction(c) + ops));
    CutsOf(c, Initial(c, before), Construction(c) + ops);
  }

  lemma NoCutsAtEnds(c: Config, before: Levels, l: Levels)
    ensures PowerCuts(Starts(c, before)) == 0 && PowerCuts(Destruction(c, l)) == 0
  {
    hide TogglePath, PowerCuts, After;
    NoCuts(Starts(c, before));
    NoCuts(Destruction(c, l));
  }

  lemma ConstructionResets(c: Config, ops: seq<Operation>)
    ensures Resets(Construction(c) + ops) == (if c.resetOnInit then 1 else 0) + Resets(ops)
  {
    var toggle := Toggle(Select(Uart));
    assert ([toggle] + ops)[1..] == ops;
    if c.resetOnInit {
      assert Construction(c) + ops == [Reset] + ([toggle] + ops);
      assert ([Reset] + ([toggle] + ops))[1..] == [toggle] + ops;
    } else {
      assert Construction(c) + ops == [toggle] + ops;
    }
  }

  /** The last bus asked for; construction asks for the UART. */
  function LastAsked(ops: seq<Operation>): Selection {
    if ops == [] then Select(Uart)
    else if ops[|ops| - 1].Toggle? then ops[|ops| - 1].to
    else LastAsked(ops[..|ops| - 1])
  }

  /** Between operations the bus last asked for is the one enabled, if it has a line of its own; with a
      common line, that line says whether any is. */
  lemma {:induction false} LastAskedEnabled(c: Config, before: Levels, ops: seq<Operation>)
    requires Matches(c, before)
    ensures var l := After(before, Up(c, before, ops)).buses;
            && (!c.bus ==> forall b :: Enabled(l, b) <==> Switched(c, b) && LastAsked(ops) == Select(b))
            && (c.bus ==> (l.bus <==> LastAsked(ops).Select?))
    decreases |ops|
  {
    if ops == [] {
      AfterConstruction(c, before);
    } else {
      var shorter, op := ops[..|ops| - 1], ops[|ops| - 1];
      var l := After(before, Up(c, before, shorter));
      assert ops == shorter + [op];
      UpOneMore(c, before, shorter, op);
      UpSafe(c, before, shorter);
      hide Up, Enabled, Switched;
      AfterAppend(before, Up(c, before, shorter), Perform(c, l, op));
      PerformBuses(c, before, l, op);
      if op.Reset? {
        LastAskedEnabled(c, before, shorter);
      }
    }
  }

  lemma PerformBuses(c: Config, before: Levels, l: Levels, op: Operation)
    requires Settled(c, before, l)
    ensures op.Reset? ==> After(l, Perform(c, l, op)).buses == l.buses
    ensures op.Toggle? ==>
              var end := After(l, Perform(c, l, op)).buses;
              && (!c.bus ==> forall b :: Enabled(end, b) <==> Switched(c, b) && op.to == Select(b))
              && (c.bus ==> (end.bus <==> op.to.Select?))
  {
    if op.Toggle? {
      ToggleSettles(c, before, l, op.to);
      SettleIsAfter(l, TogglePath(c, l.buses, op.to), Toggling(l.buses, op.to));
      hide TogglePath, Settle, After, Moments;
    }
  }

  lemma AfterConstruction(c: Config, before: Levels)
    requires Matches(c, before)
    ensures var l := After(before, Up(c, before, [])).buses;
            && (!c.bus ==> forall b :: Enabled(l, b) <==> Switched(c, b) && b == Uart)
            && (c.bus ==> l.bus)
  {
    var i := Initial(c, before);
    var reset, toggle := if c.resetOnInit then [Reset] else [], Toggle(Select(Uart));
    StartsEnd(c, before);
    InitialSettled(c, before);
    RunSafe(c, before, i, reset);
    var l := After(i, PerformAll(c, i, reset));
    ConstructionIs(c);
    UpBegins(c, before);
    hide Up, Starts, Initial, Construction, PerformAll, Enabled, Switched, Settled, Safe, Perform;
    PerformOneMore(c, i, reset, toggle);
    AfterAppend(before, Starts(c, before), PerformAll(c, i, Construction(c)));
    AfterAppend(i, PerformAll(c, i, reset), Perform(c, l, toggle));
    PerformBuses(c, before, l, toggle);
  }

  /** No bus line changes before power is as configured, and when power is to be disabled on shutdown none
      changes in destruction while it is still on. */
  lemma BusesFollowPower(c: Config, before: Levels, l: Levels)
    ensures forall m :: m in Starts(c, before) && m.levels.buses != before.buses && c.power ==>
              m.levels.power
    ensures c.power && c.disableOnShutdown ==> forall m :: m in Destruction(c, l) ==> !m.levels.power
  {
    hide TogglePath;
    if c.power && c.disableOnShutdown {
      var l1 := l.(power := false);
      var second := Moments(l1, TogglePath(c, l1.buses, Nothing), Stopping);
      assert !After(l1, second).power;
    }
  }

  // ------------------------------------------------------------ lines found high

  /** After destruction every bus line is low iff there is no common line or the lines of the single
      buses were found low. */
  lemma BusesLowIff(c: Config, before: Levels, ops: seq<Operation>)
    requires Matches(c, before)
    ensures After(before, Life(c, before, ops)).buses == LOW <==> !c.bus || High(before.buses) == 0
  {
    LifeSafe(c, before, ops);
    hide Life;
  }

  /** Between operations at most one bus is enabled iff there is no common line or at most one was found
      enabled. */
  lemma AtMostOneIff(c: Config, before: Levels, ops: seq<Operation>)
    requires Matches(c, before)
    ensures High(After(before, Up(c, before, ops)).buses) <= 1 <==> !c.bus || High(before.buses) <= 1
  {
    UpSafe(c, before, ops);
    hide Up;
  }

  /** After initialisation two buses are only ever enabled while moving to an earlier one, and never
      three, under the same condition. */
  lemma OneBusIff(c: Config, before: Levels, ops: seq<Operation>)
    requires Matches(c, before)
    ensures (forall m :: m in Life(c, before, ops) && !m.during.Starting? ==> OneBus(c, m))
       <==> !c.bus || High(before.buses) <= 1
  {
    LifeSafe(c, before, ops);
    if c.bus && High(before.buses) > 1 {
      var m := LastMoment(c, before, ops);
      assert Safe(c, before, m);
    }
    hide Life, MovesEarlier;
  }

  lemma LastMoment(c: Config, before: Levels, ops: seq<Operation>) returns (m: Moment)
    requires c.bus
    ensures m in Life(c, before, ops) && m.during == Stopping
  {
    var l := After(before, Up(c, before, ops));
    hide Up, After;
    m := Destruction(c, l)[|Destruction(c, l)| - 1];
    assert m in Up(c, before, ops) + Destruction(c, l);
  }

  /** Lines of single buses found high under a common line: an I2C line left high for good, and three
      buses enabled at once. */
  lemma FoundHigh(ops: seq<Operation>)
    ensures var c, before := Config(false, false, true, true, false, false, false, false),
                             Levels(false, false, LOW.(i2c := true));
            Matches(c, before) && After(before, Life(c, before, ops)).buses == LOW.(i2c := true)
    ensures var c, before := Config(false, false, true, true, true, true, false, false),
                             Levels(false, false, BusLevels(false, true, true, true));
            Matches(c, before) && High(After(before, Up(c, before, ops)).buses) == 3
  {
    var c, before := Config(false, false, true, true, false, false, false, false),
                     Levels(false, false, LOW.(i2c := true));
    LifeSafe(c, before, ops);
    var d, found := Config(false, false, true, true, true, true, false, false),
                    Levels(false, false, BusLevels(false, true, true, true));
    UpSafe(d, found, ops);
    hide Life, Up;
  }

  // ------------------------------------------------------------ construction that fails

  /** When opening the port fails after initGpio, only the switcher is destroyed. */
  function Abandoned(c: Config, before: Levels): seq<Moment> {
    var l := After(before, Up(c, before, []));
    Up(c, before, []) + Moments(l, TogglePath(c, l.buses, Nothing), Stopping)
  }

  lemma AbandonedIs(c: Config, before: Levels, l: Levels, ms: seq<Moment>)
    requires l == After(before, Up(c, before, []))
    requires ms == Moments(l, ToggleWrites(c, l.buses, false, false, false), Stopping)
    ensures Abandoned(c, before) == Up(c, before, []) + ms
  {
  }

  /** Then every moment is safe and the written bus lines end low, but a configured power line stays
      high, whatever is asked for shutdown. */
  lemma AbandonedSafe(c: Config, before: Levels)
    requires Matches(c, before)
    ensures forall m :: m in Abandoned(c, before) ==> Safe(c, before, m)
    ensures After(before, Abandoned(c, before)) == Initial(c, before)
  {
    UpSafe(c, before, []);
    var l := After(before, Up(c, before, []));
    hide Up, TogglePath, Off, OneBus, Safe, After, Moments;
    OffSafe(c, before, l);
    SameOff(c, before, l);
    var ms := Moments(l, TogglePath(c, l.buses, Nothing), Stopping);
    AfterAppend(before, Up(c, before, []), ms);
    SafeAppend(c, before, Up(c, before, []), ms);
  }
}
