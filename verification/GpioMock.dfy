/** The mock GPIO line, which gives every line write of the connectors its meaning. */
module GpioMock {
  import opened Wrappers

  datatype Direction = Input | Output

  datatype LineError = Uninitialized | NotOutput

  class GpioMock {
    var direction: Direction
    var initialized: bool
    var value: bool
    /** Whether a value callback is registered, and the (old, new) pairs it has been called with. */
    var valueCallback: bool
    var valueCalls: seq<(bool, bool)>

    constructor ()
      ensures direction == Input && !initialized && !value
      ensures !valueCallback && valueCalls == []
    {
      direction, initialized, value := Input, false, false;
      valueCallback, valueCalls := false, [];
    }

    /** A line that accepts writes. */
    ghost predicate Driven()
      reads this
    {
      initialized && direction == Output
    }

    method InitOutput(initial: bool)
      modifies this`direction, this`initialized, this`value
      ensures Driven() && value == initial
    {
      direction := Output;
      value := initial;
      initialized := true;
    }

    /** Succeeds exactly on a driven line; a failing write changes nothing. */
    method SetValue(v: bool) returns (thrown: Option<LineError>)
      modifies this`value, this`valueCalls
      ensures thrown == if !initialized then Some(Uninitialized)
                        else if direction != Output then Some(NotOutput)
                        else None
      ensures value == if Driven() then v else old(value)
      ensures valueCalls
           == old(valueCalls) + if Driven() && valueCallback && old(value) != v then [(old(value), v)] else []
    {
      if !initialized {
        return Some(Uninitialized);
      }
      if direction != Output {
        return Some(NotOutput);
      }
      if value != v && valueCallback {
        valueCalls := valueCalls + [(value, v)];
      }
      value := v;
      return None;
    }
  }
}
