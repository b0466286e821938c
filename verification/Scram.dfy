/** SCRAM-SHA-256 as the pool's client performs it (sections 3 and 5.1 of RFC 5802, and
    RFC 7677), over hash, HMAC, PBKDF2 and base64 as parameters. */
module Scram {
  import opened Wire
  import Text

  type Bytes = seq<bv8>

  // ---- User names ----

  /** strings.ReplaceAll for a one-character pattern. */
  function ReplaceAll(s: string, c: char, repl: string): string {
    if s == [] then [] else (if s[0] == c then repl else [s[0]]) + ReplaceAll(s[1..], c, repl)
  }

  /** saslEscapeUsername: two passes, '=' first. */
  function Escape(user: string): string {
    ReplaceAll(ReplaceAll(user, '=', "=3D"), ',', "=2C")
  }

  /** The one-pass escape of section 5.1 of RFC 5802. */
  function EscapeOnce(user: string): string {
    if user == [] then []
    else (if user[0] == '=' then "=3D" else if user[0] == ',' then "=2C" else [user[0]]) + EscapeOnce(user[1..])
  }

  function Unescape(s: string): string {
    if |s| >= 3 && s[..3] == "=3D" then "=" + Unescape(s[3..])
    else if |s| >= 3 && s[..3] == "=2C" then "," + Unescape(s[3..])
    else if s == [] then []
    else [s[0]] + Unescape(s[1..])
  }

  lemma {:induction false} ReplaceAllAppend(a: string, b: string, c: char, repl: string)
    ensures ReplaceAll(a + b, c, repl) == ReplaceAll(a, c, repl) + ReplaceAll(b, c, repl)
    decreases |a|
  {
    if a == [] {
      assert a + b == b;
    } else {
      assert (a + b)[1..] == a[1..] + b;
      ReplaceAllAppend(a[1..], b, c, repl);
    }
  }

  lemma {:induction false} ReplaceAllAbsent(s: string, c: char, repl: string)
    requires c !in s
    ensures ReplaceAll(s, c, repl) == s
    decreases |s|
  {
    if s != [] {
      ReplaceAllAbsent(s[1..], c, repl);
    }
  }

  /** The two passes do not interfere. */
  lemma {:induction false} EscapeIsOnePass(user: string)
    ensures Escape(user) == EscapeOnce(user)
    decreases |user|
  {
    if user != [] {
      var head := if user[0] == '=' then "=3D" else [user[0]];
      ReplaceAllAppend(head, ReplaceAll(user[1..], '=', "=3D"), ',', "=2C");
      if user[0] == ',' {
        assert head[1..] == [];
        assert ReplaceAll(head, ',', "=2C") == "=2C" + ReplaceAll([], ',', "=2C");
      } else {
        ReplaceAllAbsent(head, ',', "=2C");
      }
      EscapeIsOnePass(user[1..]);
    }
  }

  /** An escaped name contains no comma, and the original can be recovered from it. */
  lemma {:induction false} EscapeInverts(user: string)
    ensures ',' !in Escape(user) && Unescape(Escape(user)) == user
    decreases |user|
  {
    EscapeIsOnePass(user);
    if user != [] {
      EscapeInverts(user[1..]);
      EscapeIsOnePass(user[1..]);
      var e, rest := EscapeOnce(user), EscapeOnce(user[1..]);
      if user[0] == '=' {
        assert e == "=3D" + rest && e[..3] == "=3D" && e[3..] == rest;
      } else if user[0] == ',' {
        assert e == "=2C" + rest && e[..3] == "=2C" && e[3..] == rest;
      } else {
        assert e == [user[0]] + rest && e[0] == user[0] && e[1..] == rest;
        assert |e| >= 3 ==> e[..3][0] == user[0];
      }
      assert [user[0]] + user[1..] == user;
    }
  }

  // ---- Comma-separated attributes ----

  function Split(s: string): (parts: seq<string>)
    ensures |parts| >= 1
  {
    if s == [] then [[]]
    else if s[0] == ',' then [[]] + Split(s[1..])
    else
      var rest := Split(s[1..]);
      [[s[0]] + rest[0]] + rest[1..]
  }

  lemma {:induction false} SplitOne(a: string)
    requires ',' !in a
    ensures Split(a) == [a]
    decreases |a|
  {
    if a != [] {
      SplitOne(a[1..]);
      assert [a[0]] + a[1..] == a;
    }
  }

  lemma {:induction false} SplitComma(a: string, b: string)
    requires ',' !in a
    ensures Split(a + "," + b) == [a] + Split(b)
    decreases |a|
  {
    if a == [] {
      assert (a + "," + b)[1..] == b;
    } else {
      assert (a + "," + b)[1..] == a[1..] + "," + b;
      SplitComma(a[1..], b);
      assert [a[0]] + a[1..] == a;
    }
  }

  // ---- Decimal numbers ----

  predicate IsDigit(c: char) {
    '0' <= c <= '9'
  }

  function Digit(d: nat): char
    requires d < 10
  {
    '0' + d as char
  }

  function Decimal(n: nat): string {
    if n < 10 then [Digit(n)] else Decimal(n / 10) + [Digit(n % 10)]
  }

  function ScanDigits(s: string, acc: nat): nat {
    if s != [] && IsDigit(s[0]) then ScanDigits(s[1..], acc * 10 + (s[0] - '0') as nat) else acc
  }

  const MaxInt := 0x7fff_ffff_ffff_ffff

  /** strconv.ParseInt fails outside the range of a 64-bit integer. */
  function InRange(n: int): Option<int> {
    if -MaxInt - 1 <= n <= MaxInt then Some(n) else None
  }

  /** fmt.Sscanf with "%d": white space except newlines, an optional sign, digits; `None` if that
      fails, and then the variable keeps its value. */
  function ScanInt(s: string): Option<int> {
    if s == [] then None
    else if Text.IsSpace(s[0] as nat) && s[0] != '\n' then ScanInt(s[1..])
    else if s[0] == '-' then (if |s| > 1 && IsDigit(s[1]) then InRange(0 - ScanDigits(s[1..], 0)) else None)
    else if s[0] == '+' then (if |s| > 1 && IsDigit(s[1]) then InRange(ScanDigits(s[1..], 0)) else None)
    else if IsDigit(s[0]) then InRange(ScanDigits(s, 0))
    else None
  }

  lemma {:induction false} ScanDecimal(n: nat, rest: string)
    ensures ScanDigits(Decimal(n) + rest, 0) == ScanDigits(rest, n)
    ensures Decimal(n) != [] && IsDigit(Decimal(n)[0]) && forall c | c in Decimal(n) :: IsDigit(c)
    decreases n
  {
    if n < 10 {
      assert (Decimal(n) + rest)[1..] == rest;
    } else {
      var last := [Digit(n % 10)] + rest;
      assert Decimal(n) + rest == Decimal(n / 10) + last;
      ScanDecimal(n / 10, last);
      assert last[1..] == rest;
    }
  }

  // ---- The exchange ----

  datatype Crypto = Crypto(
    hash: Bytes -> Bytes, hmac: (Bytes, string) -> Bytes, hi: (string, Bytes, int) -> Bytes,
    encode: Bytes -> string, decode: string -> Option<Bytes>)

  /** What is used of the primitives: 32-byte results, and base64 being an invertible encoding
      without commas. */
  ghost predicate Sound(c: Crypto) {
    && (forall x :: |c.hash(x)| == 32)
    && (forall k, m :: |c.hmac(k, m)| == 32)
    && (forall x :: c.decode(c.encode(x)) == Some(x) && ',' !in c.encode(x))
  }

  function Xor(a: Bytes, b: Bytes): (r: Bytes)
    requires |a| <= |b|
    ensures |r| == |a| && forall i | 0 <= i < |a| :: r[i] == a[i] ^ b[i]
  {
    if a == [] then [] else [a[0] ^ b[0]] + Xor(a[1..], b[1..])
  }

  method XorBytes(a: Bytes, b: Bytes) returns (r: Bytes)
    requires |a| <= |b|
    ensures r == Xor(a, b)
  {
    r := [];
    for i := 0 to |a|
      invariant |r| == i && forall j | 0 <= j < i :: r[j] == a[j] ^ b[j]
    {
      r := r + [a[i] ^ b[i]];
    }
  }

  lemma BitXorTwice(x: bv8, y: bv8)
    ensures (x ^ y) ^ y == x
  {
  }

  lemma XorTwice(a: Bytes, b: Bytes)
    requires |a| == |b|
    ensures Xor(Xor(a, b), b) == a
  {
    forall i | 0 <= i < |a|
      ensures Xor(Xor(a, b), b)[i] == a[i]
    {
      BitXorTwice(a[i], b[i]);
    }
  }

  const Gs2Header: Bytes := [110, 44, 44]

  function FirstBare(user: string, nonce: string): string {
    "n=" + Escape(user) + ",r=" + nonce
  }

  /** The client-first-message: GS2 header without channel binding, then the bare part. */
  function ClientFirst(user: string, nonce: string): string {
    "n,," + FirstBare(user, nonce)
  }

  function FinalBare(c: Crypto, serverNonce: string): string {
    "c=" + c.encode(Gs2Header) + ",r=" + serverNonce
  }

  function AuthMessage(bare: string, serverFirst: string, finalBare: string): string {
    bare + "," + serverFirst + "," + finalBare
  }

  datatype Challenge = Challenge(nonce: string, salt: Option<Bytes>, iterations: int)

  predicate StartsWith(s: string, p: string) {
    p <= s
  }

  /** One attribute of the server-first-message; `None` if its salt does not decode. */
  function ReadAttribute(c: Crypto, part: string, x: Challenge): Option<Challenge> {
    if StartsWith(part, "r=") then Some(x.(nonce := part[2..]))
    else if StartsWith(part, "s=") then
      (match c.decode(part[2..]) case None => None case Some(salt) => Some(x.(salt := Some(salt))))
    else if StartsWith(part, "i=") then
      (match ScanInt(part[2..]) case None => Some(x) case Some(n) => Some(x.(iterations := n)))
    else Some(x)
  }

  function ReadAttributes(c: Crypto, parts: seq<string>, x: Challenge): Option<Challenge> {
    if parts == [] then
      if x.nonce == [] || x.salt.None? || x.iterations == 0 then None else Some(x)
    else
      match ReadAttribute(c, parts[0], x)
      case None => None
      case Some(y) => ReadAttributes(c, parts[1..], y)
  }

  const NoChallenge := Challenge([], None, 0)

  function ParseServerFirst(c: Crypto, msg: string): Option<Challenge> {
    ReadAttributes(c, Split(msg), NoChallenge)
  }

  // parseServerFirst
  method ParseServerFirstLoop(c: Crypto, msg: string) returns (r: Option<Challenge>)
    ensures r == ParseServerFirst(c, msg)
  {
    var nonce: string, salt: Option<Bytes>, iterations := [], None, 0;
    var parts := Split(msg);
    for i := 0 to |parts|
      invariant ReadAttributes(c, parts[i..], Challenge(nonce, salt, iterations)) == ParseServerFirst(c, msg)
    {
      var part := parts[i];
      assert parts[i..][1..] == parts[i + 1..];
      if StartsWith(part, "r=") {
        nonce := part[2..];
      } else if StartsWith(part, "s=") {
        salt := c.decode(part[2..]);
        if salt.None? {
          return None;
        }
      } else if StartsWith(part, "i=") {
        var n := ScanInt(part[2..]);
        if n.Some? {
          iterations := n.value;
        }
      }
    }
    if nonce == [] || salt.None? || iterations == 0 {
      return None;
    }
    return Some(Challenge(nonce, salt, iterations));
  }

  /** What the client computes from an accepted challenge: its final message, and the server
      signature it will insist on. */
  datatype Response = Response(final: string, expected: string)

  function ClientRespond(c: Crypto, user: string, password: string, nonce: string, serverFirst: string): Option<Response>
    requires forall k, m :: |c.hmac(k, m)| == 32
  {
    match ParseServerFirst(c, serverFirst)
    case None => None
    case Some(x) =>
      if !StartsWith(x.nonce, nonce) || x.salt.None? then None
      else
        var salted := c.hi(password, x.salt.value, x.iterations);
        var clientKey := c.hmac(salted, "Client Key");
        var storedKey := c.hash(clientKey);
        var finalBare := FinalBare(c, x.nonce);
        var auth := AuthMessage(FirstBare(user, nonce), serverFirst, finalBare);
        var proof := Xor(clientKey, c.hmac(storedKey, auth));
        var serverKey := c.hmac(salted, "Server Key");
        Some(Response(finalBare + ",p=" + c.encode(proof), "v=" + c.encode(c.hmac(serverKey, auth))))
  }

  /** What is signed, letter by letter (section 3 of RFC 5802). */
  lemma AuthMessageLayout(c: Crypto, user: string, nonce: string, serverFirst: string, serverNonce: string)
    ensures AuthMessage(FirstBare(user, nonce), serverFirst, FinalBare(c, serverNonce)) ==
            "n=" + EscapeOnce(user) + ",r=" + nonce + "," + serverFirst + "," + "c=" + c.encode([110, 44, 44]) + ",r=" + serverNonce
  {
    EscapeIsOnePass(user);
    var bare, final := FirstBare(user, nonce), FinalBare(c, serverNonce);
    assert bare == "n=" + EscapeOnce(user) + ",r=" + nonce;
    assert final == "c=" + c.encode([110, 44, 44]) + ",r=" + serverNonce;
    assert bare + "," + serverFirst + "," + final ==
           bare + "," + serverFirst + "," + "c=" + c.encode([110, 44, 44]) + ",r=" + serverNonce;
  }

  // ---- An honest server ----

  // It sees only what travels: the client-first-message and the client-final-message, as text.

  datatype Credentials = Credentials(salt: Bytes, iterations: nat, storedKey: Bytes, serverKey: Bytes)

  function Enrol(c: Crypto, password: string, salt: Bytes, iterations: nat): Credentials {
    var salted := c.hi(password, salt, iterations);
    Credentials(salt, iterations, c.hash(c.hmac(salted, "Client Key")), c.hmac(salted, "Server Key"))
  }

  /** The bare part, the user name and the nonce of a client-first-message. */
  datatype Hello = Hello(bare: string, user: string, nonce: string)

  /** The server strips the GS2 header and splits the attributes. */
  function ReadHello(clientFirst: string): Option<Hello> {
    if |clientFirst| < 3 || clientFirst[..3] != "n,," then None
    else
      var bare := clientFirst[3..];
      var parts := Split(bare);
      if |parts| != 2 || !StartsWith(parts[0], "n=") || !StartsWith(parts[1], "r=") then None
      else Some(Hello(bare, Unescape(parts[0][2..]), parts[1][2..]))
  }

  function ServerFirst(c: Crypto, cred: Credentials, nonce: string): string {
    "r=" + nonce + ",s=" + c.encode(cred.salt) + ",i=" + Decimal(cred.iterations)
  }

  /** The challenge to a user it knows, with its own part of the nonce. */
  function Challenges(c: Crypto, account: string, cred: Credentials, clientFirst: string, serverPart: string): Option<string> {
    match ReadHello(clientFirst)
    case None => None
    case Some(hello) => if hello.user != account then None else Some(ServerFirst(c, cred, hello.nonce + serverPart))
  }

  /** The server splits the client-final-message, checks channel binding and nonce, puts the
      AuthMessage together from what it received and sent, recovers the client key from the proof
      and compares its hash with the stored key; it answers with its own signature. */
  function Verifies(c: Crypto, cred: Credentials, clientFirst: string, serverPart: string, final: string): Option<string>
    requires forall k, m :: |c.hmac(k, m)| == 32
  {
    var hello := ReadHello(clientFirst);
    var parts := Split(final);
    if hello.None? || |parts| != 3 then None
    else if !StartsWith(parts[0], "c=") || !StartsWith(parts[1], "r=") || !StartsWith(parts[2], "p=") then None
    else
      var nonce := hello.value.nonce + serverPart;
      var proof := c.decode(parts[2][2..]);
      if c.decode(parts[0][2..]) != Some([110, 44, 44]) || parts[1][2..] != nonce then None
      else if proof.None? || |proof.value| != 32 then None
      else
        var auth := hello.value.bare + "," + ServerFirst(c, cred, nonce) + "," + parts[0] + "," + parts[1];
        var clientKey := Xor(proof.value, c.hmac(cred.storedKey, auth));
        if c.hash(clientKey) != cred.storedKey then None
        else Some("v=" + c.encode(c.hmac(cred.serverKey, auth)))
  }

  lemma HelloRead(user: string, nonce: string)
    requires ',' !in nonce
    ensures ReadHello(ClientFirst(user, nonce)) == Some(Hello(FirstBare(user, nonce), user, nonce))
  {
    var n, r := "n=" + Escape(user), "r=" + nonce;
    var first := ClientFirst(user, nonce);
    assert first[..3] == "n,," && first[3..] == FirstBare(user, nonce);
    assert ",r=" == "," + "r=";
    assert FirstBare(user, nonce) == n + "," + r;
    EscapeInverts(user);
    SplitComma(n, r);
    SplitOne(r);
    assert n[2..] == Escape(user) && r[2..] == nonce;
  }

  // ---- Completeness ----

  /** The server-first-message is read back exactly if its iteration count fits an integer and is
      not zero, and refused otherwise. */
  lemma AttributesOf(c: Crypto, cred: Credentials, nonce: string)
    requires Sound(c) && nonce != [] && ',' !in nonce
    ensures ParseServerFirst(c, ServerFirst(c, cred, nonce)) ==
            if 1 <= cred.iterations <= MaxInt then Some(Challenge(nonce, Some(cred.salt), cred.iterations)) else None
  {
    var r, s, i := "r=" + nonce, "s=" + c.encode(cred.salt), "i=" + Decimal(cred.iterations);
    PartsOf(c, cred, nonce);
    ScanDecimal(cred.iterations, []);
    assert Decimal(cred.iterations) + [] == Decimal(cred.iterations);
    assert r[2..] == nonce && s[2..] == c.encode(cred.salt) && i[2..] == Decimal(cred.iterations);
    ReadThree(c, r, s, i);
  }

  lemma PartsOf(c: Crypto, cred: Credentials, nonce: string)
    requires Sound(c) && ',' !in nonce
    ensures Split(ServerFirst(c, cred, nonce)) ==
            ["r=" + nonce, "s=" + c.encode(cred.salt), "i=" + Decimal(cred.iterations)]
  {
    var r, s, i := "r=" + nonce, "s=" + c.encode(cred.salt), "i=" + Decimal(cred.iterations);
    assert ServerFirst(c, cred, nonce) == r + "," + (s + "," + i);
    SplitComma(r, s + "," + i);
    SplitComma(s, i);
    ScanDecimal(cred.iterations, []);
    SplitOne(i);
  }

  function Scanned(s: string): int {
    match ScanInt(s) case None => 0 case Some(n) => n
  }

  lemma ReadThree(c: Crypto, r: string, s: string, i: string)
    requires StartsWith(r, "r=") && StartsWith(s, "s=") && StartsWith(i, "i=") && c.decode(s[2..]).Some?
    ensures ReadAttributes(c, [r, s, i], NoChallenge) ==
            var x := Challenge(r[2..], c.decode(s[2..]), Scanned(i[2..]));
            if x.nonce == [] || x.iterations == 0 then None else Some(x)
  {
    assert [r, s, i][1..] == [s, i] && [s, i][1..] == [i] && [i][1..] == [];
    assert s[0] == "s="[0] == 's' && i[0] == "i="[0] == 'i';
    var x1 := Challenge(r[2..], None, 0);
    assert ReadAttributes(c, [r, s, i], NoChallenge) == ReadAttributes(c, [s, i], x1);
    var x2 := x1.(salt := c.decode(s[2..]));
    assert ReadAttributes(c, [s, i], x1) == ReadAttributes(c, [i], x2);
    var x3 := x2.(iterations := Scanned(i[2..]));
    assert ReadAttribute(c, i, x2) == Some(x3);
    assert ReadAttributes(c, [i], x2) == ReadAttributes(c, [], x3);
  }

  lemma FinalParts(c: Crypto, nonce: string, proof: Bytes)
    requires Sound(c) && ',' !in nonce
    ensures Split(FinalBare(c, nonce) + ",p=" + c.encode(proof)) ==
            ["c=" + c.encode(Gs2Header), "r=" + nonce, "p=" + c.encode(proof)]
  {
    var a, b, p := "c=" + c.encode(Gs2Header), "r=" + nonce, "p=" + c.encode(proof);
    assert ",r=" == "," + "r=" && ",p=" == "," + "p=";
    assert FinalBare(c, nonce) == a + "," + b;
    assert FinalBare(c, nonce) + ",p=" + c.encode(proof) == a + "," + (b + "," + p);
    SplitComma(a, b + "," + p);
    SplitComma(b, p);
    SplitOne(p);
  }

  /** The client answers an honest challenge if and only if its iteration count fits an integer and
      is not zero and its nonce begins with the client's own. */
  lemma AnswersIff(c: Crypto, user: string, password: string, clientNonce: string, cred: Credentials, nonce: string)
    requires Sound(c) && nonce != [] && ',' !in nonce
    ensures ClientRespond(c, user, password, clientNonce, ServerFirst(c, cred, nonce)).Some? <==>
            1 <= cred.iterations <= MaxInt && clientNonce <= nonce
  {
    AttributesOf(c, cred, nonce);
  }

  /** Completeness: for the same password, and any user name, nonces, salt and iteration count
      that fits an integer, the honest server challenges the client, accepts its proof (so it
      recovers the client key), both sides sign the same AuthMessage, and the client accepts the
      server's signature. With any other count the client refuses the challenge. */
  lemma ScramCompletes(c: Crypto, user: string, password: string, clientNonce: string, serverPart: string,
                       salt: Bytes, iterations: nat)
    requires Sound(c) && clientNonce != [] && ',' !in clientNonce && ',' !in serverPart
    ensures var cred := Enrol(c, password, salt, iterations);
            var first := ClientFirst(user, clientNonce);
            var challenge := Challenges(c, user, cred, first, serverPart);
            && challenge.Some?
            && var r := ClientRespond(c, user, password, clientNonce, challenge.value);
               && (r.Some? <==> 1 <= iterations <= MaxInt)
               && (r.Some? ==> Verifies(c, cred, first, serverPart, r.value.final) == Some(r.value.expected))
  {
    var cred := Enrol(c, password, salt, iterations);
    HelloRead(user, clientNonce);
    AnswersIff(c, user, password, clientNonce, cred, clientNonce + serverPart);
    if 1 <= iterations <= MaxInt {
      ProofAccepted(c, user, password, clientNonce, serverPart, salt, iterations);
    }
  }

  lemma ProofAccepted(c: Crypto, user: string, password: string, clientNonce: string, serverPart: string,
                      salt: Bytes, iterations: nat)
    requires Sound(c) && clientNonce != [] && ',' !in clientNonce && ',' !in serverPart && 1 <= iterations <= MaxInt
    ensures var cred := Enrol(c, password, salt, iterations);
            var r := ClientRespond(c, user, password, clientNonce, ServerFirst(c, cred, clientNonce + serverPart));
            && r.Some?
            && Verifies(c, cred, ClientFirst(user, clientNonce), serverPart, r.value.final) == Some(r.value.expected)
  {
    var cred := Enrol(c, password, salt, iterations);
    var nonce := clientNonce + serverPart;
    AttributesOf(c, cred, nonce);
    HelloRead(user, clientNonce);
    var clientKey := c.hmac(c.hi(password, salt, iterations), "Client Key");
    var auth := AuthMessage(FirstBare(user, clientNonce), ServerFirst(c, cred, nonce), FinalBare(c, nonce));
    var signature := c.hmac(cred.storedKey, auth);
    var proof := Xor(clientKey, signature);
    XorTwice(clientKey, signature);
    FinalParts(c, nonce, proof);
    SameAuth(c, FirstBare(user, clientNonce), ServerFirst(c, cred, nonce), nonce);
    assert ("c=" + c.encode(Gs2Header))[2..] == c.encode(Gs2Header) && ("r=" + nonce)[2..] == nonce;
    assert ("p=" + c.encode(proof))[2..] == c.encode(proof);
  }

  lemma SameAuth(c: Crypto, bare: string, serverFirst: string, nonce: string)
    ensures AuthMessage(bare, serverFirst, FinalBare(c, nonce)) ==
            bare + "," + serverFirst + "," + ("c=" + c.encode(Gs2Header)) + "," + ("r=" + nonce)
  {
    assert ",r=" == "," + "r=";
    assert FinalBare(c, nonce) == ("c=" + c.encode(Gs2Header)) + "," + ("r=" + nonce);
  }
}
