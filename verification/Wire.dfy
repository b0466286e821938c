/** The PostgreSQL and MySQL message framings, as functions on byte strings and as
    the buffer-filling writers and stream readers of the source. */
module Wire {

  type byte = b: int | 0 <= b < 256

  datatype Option<+T> = None | Some(value: T)

  /** A PostgreSQL message: type byte and payload. */
  datatype Msg = Msg(kind: byte, payload: seq<byte>)

  /** A MySQL packet: payload and sequence number. */
  datatype Packet = Packet(payload: seq<byte>, number: byte)

  /** Outcome of reading from a stream: the bytes ran out, the length was refused,
      or a value was read and `rest` is left. */
  datatype Parsed<+T> = Short | Refused | Parsed(value: T, rest: seq<byte>)

  const MaxPayload := 0x100_0000

  // ---- Streams of frames ----

  function EncodeAll<T>(encode: T -> seq<byte>, xs: seq<T>): seq<byte> {
    if xs == [] then [] else encode(xs[0]) + EncodeAll(encode, xs[1..])
  }

  /** The first `n` values of a stream, and what is left of it. */
  function DecodeMany<T>(decode: seq<byte> -> Parsed<T>, s: seq<byte>, n: nat): Parsed<seq<T>>
    decreases n
  {
    if n == 0 then Parsed([], s)
    else
      match decode(s)
      case Short => Short
      case Refused => Refused
      case Parsed(x, rest) =>
        match DecodeMany(decode, rest, n - 1)
        case Short => Short
        case Refused => Refused
        case Parsed(xs, left) => Parsed([x] + xs, left)
  }

  /** If each frame is read back whatever follows it, so is any stream of frames. */
  lemma {:induction false} StreamFraming<T>(encode: T -> seq<byte>, decode: seq<byte> -> Parsed<T>, xs: seq<T>,
                                            suffix: seq<byte>)
    requires forall x, rest: seq<byte> | x in xs :: decode(encode(x) + rest) == Parsed(x, rest)
    ensures DecodeMany(decode, EncodeAll(encode, xs) + suffix, |xs|) == Parsed(xs, suffix)
    decreases |xs|
  {
    if xs == [] {
      assert EncodeAll(encode, xs) + suffix == suffix;
    } else {
      var tail := EncodeAll(encode, xs[1..]) + suffix;
      assert EncodeAll(encode, xs) + suffix == encode(xs[0]) + tail;
      assert xs[0] in xs;
      StreamFraming(encode, decode, xs[1..], suffix);
      assert [xs[0]] + xs[1..] == xs;
    }
  }

  // ---- Fixed-width integers ----

  function BE32(n: nat): seq<byte> {
    [n / 256 / 256 / 256 % 256, n / 256 / 256 % 256, n / 256 % 256, n % 256]
  }

  function FromBE32(b: seq<byte>): nat
    requires |b| == 4
  {
    (b[0] as nat) * 0x100_0000 + (b[1] as nat) * 0x1_0000 + (b[2] as nat) * 0x100 + b[3] as nat
  }

  lemma Remainder32(n: nat, q: nat, x: nat)
    requires n == 0x1_0000_0000 * q + x && x < 0x1_0000_0000
    ensures n % 0x1_0000_0000 == x
  {
  }

  lemma BE32RoundTrip(n: nat)
    ensures FromBE32(BE32(n)) == n % 0x1_0000_0000
  {
    var q1 := n / 256;
    var q2 := q1 / 256;
    var q3 := q2 / 256;
    var q4 := q3 / 256;
    assert n == 256 * q1 + n % 256 && q1 == 256 * q2 + q1 % 256 && q2 == 256 * q3 + q2 % 256 && q3 == 256 * q4 + q3 % 256;
    assert n == 0x1_0000_0000 * q4 + FromBE32(BE32(n));
    Remainder32(n, q4, FromBE32(BE32(n)));
  }

  function LE24(n: nat): seq<byte> {
    [n % 256, n / 256 % 256, n / 256 / 256 % 256]
  }

  function FromLE24(b: seq<byte>): nat
    requires |b| == 3
  {
    b[0] as nat + (b[1] as nat) * 0x100 + (b[2] as nat) * 0x1_0000
  }

  lemma Remainder24(n: nat, q: nat, x: nat)
    requires n == 0x100_0000 * q + x && x < 0x100_0000
    ensures n % 0x100_0000 == x
  {
  }

  lemma LE24RoundTrip(n: nat)
    ensures FromLE24(LE24(n)) == n % 0x100_0000
  {
    var q1 := n / 256;
    var q2 := q1 / 256;
    var q3 := q2 / 256;
    assert n == 256 * q1 + n % 256 && q1 == 256 * q2 + q1 % 256 && q2 == 256 * q3 + q2 % 256;
    assert n == 0x100_0000 * q3 + FromLE24(LE24(n));
    Remainder24(n, q3, FromLE24(LE24(n)));
  }

  // ---- PostgreSQL ----

  function EncodePG(m: Msg): seq<byte> {
    [m.kind] + BE32(|m.payload| + 4) + m.payload
  }

  function DecodePG(s: seq<byte>): Parsed<Msg> {
    if |s| < 5 then Short
    else
      var n := FromBE32(s[1..5]) - 4;
      if n < 0 || n > MaxPayload then Refused
      else if |s| - 5 < n then Short
      else Parsed(Msg(s[0], s[5..5 + n]), s[5 + n..])
  }

  lemma HeaderPG(m: Msg, rest: seq<byte>)
    ensures var s := EncodePG(m) + rest;
            && |s| == 5 + |m.payload| + |rest| && s[0] == m.kind && s[5..] == m.payload + rest
            && FromBE32(s[1..5]) == (|m.payload| + 4) % 0x1_0000_0000
  {
    BE32RoundTrip(|m.payload| + 4);
    assert (EncodePG(m) + rest)[1..5] == BE32(|m.payload| + 4);
  }

  lemma LengthPG(f: seq<byte>)
    requires |f| >= 5
    ensures FromBE32(f[1..5]) == (f[1] as int) * 0x100_0000 + (f[2] as int) * 0x1_0000 + (f[3] as int) * 0x100 + f[4] as int
  {
    var b := f[1..5];
    assert b[0] == f[1] && b[1] == f[2] && b[2] == f[3] && b[3] == f[4];
  }

  /** The frame on the wire: kind, the length of the rest with the length field itself, most
      significant byte first, and the payload. */
  lemma FrameLayoutPG(m: Msg)
    requires |m.payload| + 4 < 0x1_0000_0000
    ensures var f := EncodePG(m);
            && |f| == 5 + |m.payload| && f[0] == m.kind && f[5..] == m.payload
            && |m.payload| + 4 == (f[1] as int) * 0x100_0000 + (f[2] as int) * 0x1_0000 + (f[3] as int) * 0x100 + f[4] as int
  {
    HeaderPG(m, []);
    assert EncodePG(m) + [] == EncodePG(m) && m.payload + [] == m.payload;
    LengthPG(EncodePG(m));
  }

  /** Reading back one written frame gives the message and leaves the rest, exactly when the
      payload is within the reader's limit. */
  lemma FrameRoundTripPG(m: Msg, rest: seq<byte>)
    ensures DecodePG(EncodePG(m) + rest) == Parsed(m, rest) <==> |m.payload| <= MaxPayload
  {
    HeaderPG(m, rest);
    var s := EncodePG(m) + rest;
    if |m.payload| <= MaxPayload {
      assert s[5..5 + |m.payload|] == s[5..][..|m.payload|] == m.payload;
      assert s[5 + |m.payload|..] == s[5..][|m.payload|..] == rest;
    }
  }

  /** A stream of written frames followed by anything is read back frame by frame. */
  lemma StreamFramingPG(ms: seq<Msg>, suffix: seq<byte>)
    requires forall m | m in ms :: |m.payload| <= MaxPayload
    ensures DecodeMany(DecodePG, EncodeAll(EncodePG, ms) + suffix, |ms|) == Parsed(ms, suffix)
  {
    forall m, rest: seq<byte> | m in ms
      ensures DecodePG(EncodePG(m) + rest) == Parsed(m, rest)
    {
      FrameRoundTripPG(m, rest);
    }
    StreamFraming(EncodePG, DecodePG, ms, suffix);
  }

  // ---- MySQL ----

  function EncodeMySQL(p: Packet): seq<byte> {
    LE24(|p.payload|) + [p.number] + p.payload
  }

  function DecodeMySQL(s: seq<byte>): Parsed<Packet> {
    if |s| < 4 then Short
    else
      var n := FromLE24(s[..3]);
      if n > MaxPayload then Refused
      else if |s| - 4 < n then Short
      else Parsed(Packet(s[4..4 + n], s[3]), s[4 + n..])
  }

  lemma HeaderMySQL(p: Packet, rest: seq<byte>)
    ensures var s := EncodeMySQL(p) + rest;
            && |s| == 4 + |p.payload| + |rest| && s[3] == p.number && s[4..] == p.payload + rest
            && FromLE24(s[..3]) == |p.payload| % 0x100_0000
  {
    LE24RoundTrip(|p.payload|);
    assert (EncodeMySQL(p) + rest)[..3] == LE24(|p.payload|);
  }

  /** The packet on the wire: three length bytes, least significant first, the sequence number and
      the payload. */
  lemma FrameLayoutMySQL(p: Packet)
    requires |p.payload| < 0x100_0000
    ensures var f := EncodeMySQL(p);
            && |f| == 4 + |p.payload| && f[3] == p.number && f[4..] == p.payload
            && |p.payload| == f[0] as int + (f[1] as int) * 0x100 + (f[2] as int) * 0x1_0000
  {
    HeaderMySQL(p, []);
    assert EncodeMySQL(p) + [] == EncodeMySQL(p) && p.payload + [] == p.payload;
    assert EncodeMySQL(p)[..3][0] == EncodeMySQL(p)[0];
  }

  /** The three length bytes carry the length exactly when it is below 2^24. */
  lemma FrameRoundTripMySQL(p: Packet, rest: seq<byte>)
    ensures DecodeMySQL(EncodeMySQL(p) + rest) == Parsed(p, rest) <==> |p.payload| < MaxPayload
  {
    HeaderMySQL(p, rest);
    var s := EncodeMySQL(p) + rest;
    if |p.payload| < MaxPayload {
      assert s[4..4 + |p.payload|] == s[4..][..|p.payload|] == p.payload;
      assert s[4 + |p.payload|..] == s[4..][|p.payload|..] == rest;
    }
  }

  /** A stream of written packets followed by anything is read back packet by packet. */
  lemma StreamFramingMySQL(ps: seq<Packet>, suffix: seq<byte>)
    requires forall p | p in ps :: |p.payload| < MaxPayload
    ensures DecodeMany(DecodeMySQL, EncodeAll(EncodeMySQL, ps) + suffix, |ps|) == Parsed(ps, suffix)
  {
    forall p, rest: seq<byte> | p in ps
      ensures DecodeMySQL(EncodeMySQL(p) + rest) == Parsed(p, rest)
    {
      FrameRoundTripMySQL(p, rest);
    }
    StreamFraming(EncodeMySQL, DecodeMySQL, ps, suffix);
  }

  // ---- Readers and writers as the source has them ----

  /** A connection seen from its reader: the bytes still to come before it ends. */
  class Stream {
    var rest: seq<byte>

    constructor (data: seq<byte>)
      ensures rest == data
    {
      rest := data;
    }

    // io.ReadFull: `n` bytes, or failure with the stream used up.
    method ReadFull(n: nat) returns (r: Option<seq<byte>>)
      modifies this
      ensures n <= |old(rest)| ==> r == Some(old(rest)[..n]) && rest == old(rest)[n..]
      ensures n > |old(rest)| ==> r == None && rest == []
    {
      if n <= |rest| {
        r := Some(rest[..n]);
        rest := rest[n..];
      } else {
        r := None;
        rest := [];
      }
    }
  }

  method ReadPGMessage(conn: Stream) returns (r: Option<Msg>)
    modifies conn
    ensures match DecodePG(old(conn.rest))
            case Parsed(m, left) => r == Some(m) && conn.rest == left
            case _ => r == None
  {
    ghost var s := conn.rest;
    var typeBuf := conn.ReadFull(1);
    if typeBuf.None? {
      return None;
    }
    var lenBuf := conn.ReadFull(4);
    if lenBuf.None? {
      return None;
    }
    assert lenBuf.value == s[1..5] && conn.rest == s[5..];
    var n := FromBE32(lenBuf.value) - 4;
    if n < 0 || n > MaxPayload {
      return None;
    }
    var payload := [];
    if n > 0 {
      var body := conn.ReadFull(n);
      if body.None? {
        return None;
      }
      payload := body.value;
    }
    assert payload == s[5..5 + n] && conn.rest == s[5 + n..];
    return Some(Msg(typeBuf.value[0], payload));
  }

  method Copy(buf: array<byte>, at: nat, data: seq<byte>)
    requires at + |data| == buf.Length
    modifies buf
    ensures buf[..] == old(buf[..at]) + data
  {
    for i := 0 to |data|
      invariant buf[..at] == old(buf[..at])
      invariant buf[at..at + i] == data[..i]
    {
      buf[at + i] := data[i];
    }
    assert buf[..] == buf[..at] + buf[at..];
  }

  method WritePGMessage(kind: byte, payload: seq<byte>) returns (buf: array<byte>)
    ensures fresh(buf) && buf[..] == EncodePG(Msg(kind, payload))
  {
    var n := |payload| + 4;
    buf := new byte[5 + |payload|](_ => 0);
    buf[0] := kind;
    buf[1], buf[2], buf[3], buf[4] := n / 256 / 256 / 256 % 256, n / 256 / 256 % 256, n / 256 % 256, n % 256;
    assert buf[..5] == [kind] + BE32(n);
    Copy(buf, 5, payload);
  }

  method ReadMySQLPacket(conn: Stream) returns (r: Option<Packet>)
    modifies conn
    ensures match DecodeMySQL(old(conn.rest))
            case Parsed(p, left) => r == Some(p) && conn.rest == left
            case _ => r == None
  {
    ghost var s := conn.rest;
    var header := conn.ReadFull(4);
    if header.None? {
      return None;
    }
    assert header.value[..3] == s[..3];
    var n := FromLE24(header.value[..3]);
    if n > MaxPayload {
      return None;
    }
    var payload := [];
    if n > 0 {
      var body := conn.ReadFull(n);
      if body.None? {
        return None;
      }
      payload := body.value;
    }
    assert payload == s[4..4 + n] && conn.rest == s[4 + n..];
    return Some(Packet(payload, header.value[3]));
  }

  method WriteMySQLPacket(payload: seq<byte>, number: byte) returns (buf: array<byte>)
    ensures fresh(buf) && buf[..] == EncodeMySQL(Packet(payload, number))
  {
    var n := |payload|;
    buf := new byte[4 + n](_ => 0);
    buf[0], buf[1], buf[2] := n % 256, n / 256 % 256, n / 256 / 256 % 256;
    buf[3] := number;
    assert buf[..4] == LE24(n) + [number];
    Copy(buf, 4, payload);
  }
}
