/** HdlcFrame: octet-stuffed framing with a CRC-8, decoded one byte at a time. */
module Hdlc {
  import opened Wrappers
  import opened Crc8

  const FLAG: byte := 0x7E
  const ESCAPE: byte := 0x7D
  const ESCAPE_BIT: byte := 0x20

  /** The cached checksum: -1 in the source is Unset here. */
  datatype CrcCache = Unset | Cached(value: byte)

  /** The std::logic_error a member of the class throws. */
  datatype FrameError =
    | EmptyFrame
    | ShortFrame
    | CrcMismatch
    | Abort
    | InvalidEscape
    | NotDecoded
    | NoData

  /** The four fields of the class. */
  datatype State = State(data: seq<byte>, decoding: bool, escape: bool, crc: CrcCache)

  const FRESH: State := State([], false, false, Unset)

  /** What a call did: the fields it left behind, thrown or not, and the exception if any. */
  datatype Step = Step(after: State, thrown: Option<FrameError>)

  predicate Reserved(b: byte) {
    b == FLAG || b == ESCAPE
  }

  function FlipEscapeBit(b: byte): byte {
    b ^ ESCAPE_BIT
  }

  // ------------------------------------------------------------ specification

  /** A flag while decoding and not escaped: the frame ends, valid or not. */
  function CloseFrame(s: State): Step {
    var idle := s.(decoding := false, escape := false);
    if |s.data| == 0 then Step(idle, Some(EmptyFrame))
    else if |s.data| < 2 then Step(idle, Some(ShortFrame))
    else
      var body, last := s.data[..|s.data| - 1], s.data[|s.data| - 1];
      Step(idle.(data := body, crc := Cached(last)), if last == Crc(body) then None else Some(CrcMismatch))
  }

  function Take(s: State, b: byte): Step {
    if !s.decoding then
      Step(if b == FLAG then State([], true, s.escape, Unset) else s, None)
    else if s.escape then
      var plain := s.(escape := false);
      if b == FLAG then Step(plain.(decoding := false), Some(Abort))
      else if Reserved(FlipEscapeBit(b)) then Step(plain.(data := s.data + [FlipEscapeBit(b)]), None)
      else Step(plain, Some(InvalidEscape))
    else if b == FLAG then CloseFrame(s)
    else if b == ESCAPE then Step(s.(escape := true), None)
    else Step(s.(data := s.data + [b]), None)
  }

  /** The fields after a byte string, every exception caught and ignored. */
  function Feed(s: State, bytes: seq<byte>): State
    decreases bytes
  {
    if bytes == [] then s else Feed(Take(s, bytes[0]).after, bytes[1..])
  }

  /** The first exception a byte string raises, if any. */
  function FirstError(s: State, bytes: seq<byte>): Option<FrameError>
    decreases bytes
  {
    if bytes == [] then None
    else
      var step := Take(s, bytes[0]);
      if step.thrown.Some? then step.thrown else FirstError(step.after, bytes[1..])
  }

  /** Octet stuffing: exactly the two reserved octets are escaped. */
  function Stuff(d: seq<byte>): seq<byte> {
    if d == [] then []
    else (if Reserved(d[0]) then [ESCAPE, FlipEscapeBit(d[0])] else [d[0]]) + Stuff(d[1..])
  }

  function EncodeByte(b: byte): byte {
    if Reserved(b) then FlipEscapeBit(b) else b
  }

  /** The bytes the encoder emits for data `d` and checksum byte `c`. */
  function Encoding(d: seq<byte>, c: byte): seq<byte> {
    [FLAG] + Stuff(d) + [EncodeByte(c), FLAG]
  }

  function CrcToSend(s: State): byte {
    match s.crc
    case Unset => Crc(s.data)
    case Cached(c) => c
  }

  function Emit(s: State): Result<seq<byte>, FrameError> {
    if s.decoding then Err(NotDecoded)
    else if s.data == [] then Err(NoData)
    else Ok(Encoding(s.data, CrcToSend(s)))
  }

  /** Encoding fills the checksum cache and changes nothing else. */
  function AfterEmit(s: State): State {
    if Emit(s).Ok? then s.(crc := Cached(CrcToSend(s))) else s
  }

  // ------------------------------------------------------------ the class

  class HdlcFrame {
    var data: seq<byte>
    var decoding: bool
    var escape: bool
    var crc: CrcCache

    ghost function Fields(): State
      reads this
    {
      State(data, decoding, escape, crc)
    }

    constructor ()
      ensures Fields() == FRESH
    {
      data, decoding, escape, crc := [], false, false, Unset;
    }

    /** The constructor from data, whose exception leaves no object. */
    static method FromData(d: seq<byte>) returns (frame: HdlcFrame?)
      ensures frame == null <==> d == []
      ensures frame != null ==> fresh(frame) && frame.Fields() == State(d, false, false, Cached(Crc(d)))
    {
      if d == [] {
        return null;
      }
      var c := CalculateCrc(d);
      frame := new HdlcFrame();
      frame.data, frame.crc := d, Cached(c);
    }

    method DecodeByte(b: byte) returns (thrown: Option<FrameError>)
      modifies this
      ensures Step(Fields(), thrown) == Take(old(Fields()), b)
    {
      var octet := b;
      if !decoding && octet == FLAG {
        if |data| != 0 {
          data := [];
        }
        crc := Unset;
        decoding := true;
        return None;
      }
      if !decoding {
        return None;
      }
      if !escape && octet == FLAG {
        decoding := false;
        escape := false;
        if |data| == 0 {
          return Some(EmptyFrame);
        }
        if |data| < 2 {
          return Some(ShortFrame);
        }
        var last := data[|data| - 1];
        crc := Cached(last);
        data := data[..|data| - 1];
        var expected := CalculateCrc(data);
        if last != expected {
          return Some(CrcMismatch);
        }
        return None;
      }
      if !escape && octet == ESCAPE {
        escape := true;
        return None;
      }
      if escape {
        if octet == FLAG {
          decoding := false;
          escape := false;
          return Some(Abort);
        }
        octet := octet ^ ESCAPE_BIT;
        if octet != ESCAPE && octet != FLAG {
          escape := false;
          return Some(InvalidEscape);
        }
        escape := false;
      }
      data := data + [octet];
      return None;
    }

    /** The static decoder: the first exception propagates and the frame is lost. */
    static method Decode(bytes: seq<byte>) returns (frame: HdlcFrame, thrown: Option<FrameError>)
      ensures fresh(frame)
      ensures thrown == FirstError(FRESH, bytes)
      ensures thrown == None ==> frame.Fields() == Feed(FRESH, bytes)
    {
      frame := new HdlcFrame();
      for i := 0 to |bytes|
        invariant fresh(frame)
        invariant FirstError(FRESH, bytes) == FirstError(frame.Fields(), bytes[i..])
        invariant Feed(FRESH, bytes) == Feed(frame.Fields(), bytes[i..])
      {
        assert bytes[i..][1..] == bytes[i + 1..];
        thrown := frame.DecodeByte(bytes[i]);
        if thrown.Some? {
          return;
        }
      }
      thrown := None;
    }

    method Encode() returns (r: Result<seq<byte>, FrameError>)
      modifies this`crc
      ensures r == Emit(old(Fields()))
      ensures Fields() == AfterEmit(old(Fields()))
    {
      if decoding {
        return Err(NotDecoded);
      }
      if |data| == 0 {
        return Err(NoData);
      }
      var encoded := [FLAG];
      for i := 0 to |data|
        invariant encoded + Stuff(data[i..]) == [FLAG] + Stuff(data)
      {
        var octet := data[i];
        assert data[i..][1..] == data[i + 1..];
        if octet == FLAG || octet == ESCAPE {
          assert encoded + Stuff(data[i..]) == encoded + [ESCAPE] + [EncodeByte(octet)] + Stuff(data[i + 1..]);
          encoded := encoded + [ESCAPE];
          encoded := encoded + [EncodeByte(octet)];
        } else {
          assert encoded + Stuff(data[i..]) == encoded + [octet] + Stuff(data[i + 1..]);
          encoded := encoded + [octet];
        }
      }
      assert encoded == [FLAG] + Stuff(data) by {
        assert data[|data|..] == [];
      }
      if crc == Unset {
        var c := CalculateCrc(data);
        crc := Cached(c);
      }
      encoded := encoded + [EncodeByte(crc.value)];
      encoded := encoded + [FLAG];
      assert encoded == Encoding(data, crc.value);
      return Ok(encoded);
    }

    method GetData() returns (r: Result<seq<byte>, FrameError>)
      ensures r == if decoding then Err(NotDecoded) else Ok(data)
    {
      if decoding {
        return Err(NotDecoded);
      }
      return Ok(data);
    }
  }
}
