/** Status flags of MySQL OK and EOF packets ("OK_Packet" and "Protocol::LengthEncodedInteger"
    in the MySQL client/server protocol documentation). */
module MySqlStatus {
  import opened Wire

  /** Little-endian bytes of `v`, `n` of them. */
  function LE(v: nat, n: nat): (b: seq<byte>)
    ensures |b| == n
  {
    if n == 0 then [] else [v % 256] + LE(v / 256, n - 1)
  }

  function FromLE16(b: seq<byte>): nat
    requires |b| == 2
  {
    b[0] as nat + (b[1] as nat) * 256
  }

  const InTransaction := 1
  const MoreResults := 8

  /** Whether the flag with value `bit` (a power of two) is set. */
  predicate Flag(status: nat, bit: nat)
    requires bit > 0
  {
    status / bit % 2 == 1
  }

  // ---- What a server sends ----

  /** The encodings of `v` in the four size classes of a length-encoded integer; a server may
      use any class that is wide enough. */
  predicate Encodes(b: seq<byte>, v: nat) {
    || (v < 251 && b == [v])
    || (v < 0x1_0000 && b == [0xfc] + LE(v, 2))
    || (v < 0x100_0000 && b == [0xfd] + LE(v, 3))
    || (v < 0x1_0000_0000_0000_0000 && b == [0xfe] + LE(v, 8))
  }

  /** The encoder of the repository's own tests. */
  function LenEnc(v: nat): seq<byte> {
    if v < 251 then [v]
    else if v < 0xffff then [0xfc] + LE(v, 2)
    else if v < 0xff_ffff then [0xfd] + LE(v, 3)
    else [0xfe] + LE(v, 8)
  }

  lemma LenEncEncodes(v: nat)
    requires v < 0x1_0000_0000_0000_0000
    ensures Encodes(LenEnc(v), v)
  {
  }

  /** An OK packet from the encodings of its two counts and its status. */
  function OkPacket(affectedRows: seq<byte>, lastInsertId: seq<byte>, status: nat): seq<byte> {
    [0] + affectedRows + lastInsertId + LE(status, 2) + [0, 0]
  }

  function EofPacket(warnings: nat, status: nat): seq<byte> {
    [0xfe] + LE(warnings, 2) + LE(status, 2)
  }

  // ---- What the relay reads ----

  function SkipLenEnc(pkt: seq<byte>, pos: nat): nat {
    if pos >= |pkt| then pos
    else
      var b := pkt[pos];
      if b < 0xfb then pos + 1
      else if b == 0xfc then pos + 3
      else if b == 0xfd then pos + 4
      else if b == 0xfe then pos + 9
      else pos + 1
  }

  /** mysqlPacketStatusFlags; that this is well-defined on every packet is its bounds safety. */
  function StatusFlags(pkt: seq<byte>, first: byte): nat {
    var pos := SkipLenEnc(pkt, SkipLenEnc(pkt, 1));
    if first == 0 && |pkt| >= 5 && pos + 2 <= |pkt| then FromLE16(pkt[pos..pos + 2])
    else if first == 0xfe && |pkt| >= 5 then FromLE16(pkt[3..5])
    else 0
  }

  /** Skipping ends right behind the integer, whichever size class it is encoded in. */
  lemma SkipsOne(before: seq<byte>, b: seq<byte>, v: nat, after: seq<byte>)
    requires Encodes(b, v)
    ensures SkipLenEnc(before + b + after, |before|) == |before| + |b|
  {
    assert (before + b + after)[|before|] == b[0];
  }

  lemma LE16RoundTrip(v: nat)
    requires v < 0x1_0000
    ensures FromLE16(LE(v, 2)) == v
  {
    assert LE(v, 2) == [v % 256] + LE(v / 256, 1);
    assert LE(v / 256, 1) == [v / 256 % 256] + LE(v / 256 / 256, 0);
  }

  /** Whatever the two counts and the size classes they are encoded in, the status read back from
      an OK packet is the status sent. */
  lemma OkStatus(a: seq<byte>, affectedRows: nat, b: seq<byte>, lastInsertId: nat, status: nat)
    requires Encodes(a, affectedRows) && Encodes(b, lastInsertId) && status < 0x1_0000
    ensures StatusFlags(OkPacket(a, b, status), 0) == status
  {
    var c := LE(status, 2);
    var pkt := OkPacket(a, b, status);
    assert pkt == [0] + a + (b + c + [0, 0]);
    SkipsOne([0], a, affectedRows, b + c + [0, 0]);
    assert pkt == ([0] + a) + b + (c + [0, 0]);
    SkipsOne([0] + a, b, lastInsertId, c + [0, 0]);
    var pos := 1 + |a| + |b|;
    assert pkt[pos..pos + 2] == c;
    LE16RoundTrip(status);
  }

  lemma EofStatus(warnings: nat, status: nat)
    requires status < 0x1_0000
    ensures StatusFlags(EofPacket(warnings, status), 0xfe) == status
  {
    assert EofPacket(warnings, status)[3..5] == LE(status, 2);
    LE16RoundTrip(status);
  }

  /** A status travels least significant byte first. */
  lemma StatusLayout(status: nat)
    requires status < 0x1_0000
    ensures LE(status, 2) == [status % 256, status / 256]
  {
    assert LE(status, 2) == [status % 256] + LE(status / 256, 1);
    assert LE(status / 256, 1) == [status / 256 % 256] + LE(status / 256 / 256, 0);
  }

  /** A packet too short to hold a status, or of another kind, counts as status zero. */
  lemma NoStatus(pkt: seq<byte>, first: byte)
    requires |pkt| < 5 || (first != 0 && first != 0xfe)
    ensures StatusFlags(pkt, first) == 0
  {
  }
}
