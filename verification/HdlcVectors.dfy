/** Encodings as literal bytes: the repository's stuffing vector, and both reserved checksums. */
module HdlcVectors {
  import opened Crc8
  import opened Hdlc
  import opened HdlcLanguage
  import opened HdlcRoundTrip
  import opened HdlcCorruption

  lemma PlainHead(p: seq<byte>, q: seq<byte>)
    requires forall i :: 0 <= i < |p| ==> !Reserved(p[i])
    ensures Stuff(p + q) == p + Stuff(q)
  {
    StuffAppend(p, q);
    StuffPlain(p);
  }

  lemma ReservedTail()
    ensures Stuff([0x7E, 0x7D, 0x7E]) == [0x7D, 0x5E, 0x7D, 0x5D, 0x7D, 0x5E]
  {
    var a: byte, b: byte := 0x7E, 0x7D;
    StuffOne(a);
    StuffOne(b);
    assert FlipEscapeBit(a) == 0x5E && FlipEscapeBit(b) == 0x5D;
    hide Stuff, FlipEscapeBit;
    StuffCons(a, [b, a]);
    StuffCons(b, [a]);
    assert [a] + [b, a] == [a, b, a] && [b] + [a] == [b, a];
  }

  /** The repository's own vector with flags and escapes in the data. */
  lemma StuffingVector()
    ensures var d := [0x00, 0x00, 0x03, 0x00, 0xFF, 0xFF, 0x00, 0x7E, 0x7D, 0x7E];
            Encoding(d, Crc(d)) == [0x7E, 0x00, 0x00, 0x03, 0x00, 0xFF, 0xFF, 0x00, 0x7D, 0x5E,
                                    0x7D, 0x5D, 0x7D, 0x5E, 0x48, 0x7E]
  {
    var p: seq<byte>, q: seq<byte> := [0x00, 0x00, 0x03, 0x00, 0xFF, 0xFF, 0x00], [0x7E, 0x7D, 0x7E];
    HeadPlain(p);
    assert EncodeByte(0x48) == 0x48;
    hide *;
    TestVector();
    ReservedTail();
    EncodingOf(p, q, 0x48);
    Spelled<byte>(0x7E, 0x00, 0x03, 0xFF, 0x7D, 0x5E, 0x5D, 0x48);
    Joined<byte>(0x00, 0x03, 0xFF, 0x7E, 0x7D);
  }

  lemma HeadPlain(p: seq<byte>)
    requires p == [0x00, 0x00, 0x03, 0x00, 0xFF, 0xFF, 0x00]
    ensures forall i :: 0 <= i < |p| ==> !Reserved(p[i])
  {
  }

  lemma Joined<T>(a: T, b: T, g: T, f: T, e: T)
    ensures [a, a, b, a, g, g, a] + [f, e, f] == [a, a, b, a, g, g, a, f, e, f]
  {
  }

  lemma Spelled<T>(f: T, a: T, b: T, g: T, e: T, x: T, y: T, c: T)
    ensures [f] + [a, a, b, a, g, g, a] + [e, x, e, y, e, x] + [c, f]
         == [f, a, a, b, a, g, g, a, e, x, e, y, e, x, c, f]
  {
  }

  lemma EncodingOf(p: seq<byte>, q: seq<byte>, c: byte)
    requires forall i :: 0 <= i < |p| ==> !Reserved(p[i])
    ensures Encoding(p + q, c) == [0x7E] + p + Stuff(q) + [EncodeByte(c), 0x7E]
  {
    PlainHead(p, q);
    hide Stuff, Reserved, EncodeByte;
  }

  /** Data of one octet whose checksum is a flag, and one whose checksum is an escape. */
  lemma ReservedChecksums()
    ensures Crc([0xF5]) == 0x7E && Encoding([0xF5], 0x7E) == [0x7E, 0xF5, 0x5E, 0x7E]
    ensures Crc([0xDE]) == 0x7D && Encoding([0xDE], 0x7D) == [0x7E, 0xDE, 0x5D, 0x7E]
  {
    StuffPlain([0xF5]);
    StuffPlain([0xDE]);
    assert EncodeByte(0x7E) == 0x5E && EncodeByte(0x7D) == 0x5D;
    OneByte(0xF5, 0x0A, 0xAF, 0x7E);
    OneByte(0xDE, 0x21, 0x9F, 0x7D);
    hide Crc, Stuff, EncodeByte;
  }

  lemma OneByte(b: byte, x: byte, m: byte, t: byte)
    requires 0xFF ^ b == x && ShiftN(x, 4) == m && ShiftN(m, 4) == t
    ensures Crc([b]) == t
  {
    ByteStepIs(0xFF, b, x, m, t);
    hide ByteStep, ShiftN;
    CrcOne(0xFF, b, []);
    CrcNothing(t);
    assert [b] + [] == [b];
  }
}
