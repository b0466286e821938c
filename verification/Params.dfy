/** NUL-separated parameters: the client's startup message, the ParameterStatus messages a
    backend sends during authentication, and the synthetic authentication built from them. */
module Params {
  import opened Wire

  type Text = seq<byte>
  type Pairs = seq<(Text, Text)>
  type ParamMap = map<Text, Text>

  predicate NulFree(s: Text) {
    0 !in s
  }

  /** Position of the first NUL, or the length if there is none. */
  function NulIndex(d: Text): (i: nat)
    ensures i <= |d| && NulFree(d[..i]) && (i < |d| ==> d[i] == 0)
  {
    if d == [] || d[0] == 0 then 0
    else
      var i := 1 + NulIndex(d[1..]);
      assert d[..i] == [d[0]] + d[1..][..i - 1];
      i
  }

  lemma NulIndexAt(a: Text, rest: Text)
    requires NulFree(a)
    ensures NulIndex(a + [0] + rest) == |a|
  {
    var d := a + [0] + rest;
    if a != [] {
      assert d[1..] == a[1..] + [0] + rest;
      assert a[0] in a;
      NulIndexAt(a[1..], rest);
    }
  }

  /** Later pairs overwrite earlier ones. */
  function LastWins(ps: Pairs, m: ParamMap): ParamMap {
    if ps == [] then m else LastWins(ps[1..], m[ps[0].0 := ps[0].1])
  }

  /** What "last wins" means: the value of a key is the one of its last pair, or else the old one. */
  lemma {:induction false} LastWinsMeans(ps: Pairs, m: ParamMap, k: Text)
    ensures k in LastWins(ps, m) <==> k in m || exists i :: 0 <= i < |ps| && ps[i].0 == k
    ensures forall i | 0 <= i < |ps| && ps[i].0 == k && (forall j | i < j < |ps| :: ps[j].0 != k) ::
              k in LastWins(ps, m) && LastWins(ps, m)[k] == ps[i].1
    ensures k in m && (forall i | 0 <= i < |ps| :: ps[i].0 != k) ==> LastWins(ps, m)[k] == m[k]
    decreases |ps|
  {
    if ps != [] {
      var rest, m' := ps[1..], m[ps[0].0 := ps[0].1];
      LastWinsMeans(rest, m', k);
      assert forall i | 0 <= i < |rest| :: rest[i] == ps[i + 1];
      assert forall i | 0 < i < |ps| :: ps[i] == rest[i - 1];
    }
  }

  // ---- Startup message ----

  /** The body after the protocol version: key NUL value NUL ..., NUL. */
  function EncodePairs(ps: Pairs): Text {
    if ps == [] then [] else ps[0].0 + [0] + ps[0].1 + [0] + EncodePairs(ps[1..])
  }

  /** The first key, its value, and what follows; `None` where the parser gives up. */
  function TakePair(d: Text): (r: Option<(Text, Text, Text)>)
    ensures r.Some? ==> |r.value.2| < |d|
  {
    var k := NulIndex(d);
    if |d| <= 1 || k >= |d| then None
    else
      var rest := d[k + 1..];
      var v := NulIndex(rest);
      if v >= |rest| then None else Some((d[..k], rest[..v], rest[v + 1..]))
  }

  function ParsePairs(d: Text, m: ParamMap): ParamMap
    decreases |d|
  {
    match TakePair(d)
    case None => m
    case Some((k, v, rest)) => ParsePairs(rest, m[k := v])
  }

  lemma ParseOne(k: Text, v: Text, rest: Text, m: ParamMap)
    requires NulFree(k) && NulFree(v)
    ensures ParsePairs(k + [0] + v + [0] + rest, m) == ParsePairs(rest, m[k := v])
  {
    var d := k + [0] + v + [0] + rest;
    assert d == k + [0] + (v + [0] + rest);
    NulIndexAt(k, v + [0] + rest);
    assert d[..|k|] == k && d[|k| + 1..] == v + [0] + rest;
    NulIndexAt(v, rest);
    assert (v + [0] + rest)[..|v|] == v && (v + [0] + rest)[|v| + 1..] == rest;
  }

  /** Parsing the encoding of any list of NUL-free pairs gives its last-wins map. */
  lemma {:induction false} StartupRoundTrip(ps: Pairs, m: ParamMap)
    requires forall p | p in ps :: NulFree(p.0) && NulFree(p.1)
    ensures ParsePairs(EncodePairs(ps) + [0], m) == LastWins(ps, m)
    decreases |ps|
  {
    if ps != [] {
      var k, v, rest := ps[0].0, ps[0].1, EncodePairs(ps[1..]) + [0];
      assert ps[0] in ps;
      assert EncodePairs(ps) + [0] == k + [0] + v + [0] + rest;
      ParseOne(k, v, rest, m);
      StartupRoundTrip(ps[1..], m[k := v]);
    }
  }

  // The parsing loop of readStartupMessage.
  method ParseStartup(body: Text) returns (params: ParamMap)
    ensures params == ParsePairs(body, map[])
  {
    ghost var goal := ParsePairs(body, map[]);
    params := map[];
    var data := body;
    while |data| > 1
      invariant ParsePairs(data, params) == goal
      decreases |data|
    {
      var keyEnd := FindNul(data);
      if keyEnd >= |data| {
        return;
      }
      var key := data[..keyEnd];
      var rest := data[keyEnd + 1..];
      var valEnd := FindNul(rest);
      if valEnd >= |rest| {
        return;
      }
      assert TakePair(data) == Some((key, rest[..valEnd], rest[valEnd + 1..]));
      params := params[key := rest[..valEnd]];
      data := rest[valEnd + 1..];
    }
  }

  method FindNul(data: Text) returns (i: nat)
    ensures i == NulIndex(data)
  {
    i := 0;
    while i < |data| && data[i] != 0
      invariant i <= |data| && NulIndex(data) == i + NulIndex(data[i..])
      decreases |data| - i
    {
      assert data[i..][1..] == data[i + 1..];
      i := i + 1;
    }
  }

  // ---- Authentication ----

  // parseNullTerminatedPair
  function ParsePair(data: Text): (r: (Text, Text))
    ensures NulFree(r.0) && NulFree(r.1)
  {
    var i := NulIndex(data);
    if i == |data| then ([], [])
    else
      var rest := data[i + 1..];
      (data[..i], rest[..NulIndex(rest)])
  }

  // parseNullTerminatedPair, as the two nested index loops of the source.
  method ParseNullTerminatedPair(data: Text) returns (key: Text, val: Text)
    ensures (key, val) == ParsePair(data)
  {
    for i := 0 to |data|
      invariant NulFree(data[..i]) && NulIndex(data) == i + NulIndex(data[i..])
    {
      assert data[i..][1..] == data[i + 1..];
      assert data[..i + 1] == data[..i] + [data[i]];
      if data[i] == 0 {
        var rest := data[i + 1..];
        for j := 0 to |rest|
          invariant NulIndex(rest) == j + NulIndex(rest[j..])
        {
          assert rest[j..][1..] == rest[j + 1..];
          if rest[j] == 0 {
            return data[..i], rest[..j];
          }
        }
        assert rest[..|rest|] == rest;
        return data[..i], rest;
      }
    }
    return [], [];
  }

  const KindAuth: byte := 82
  const KindStatus: byte := 83
  const KindKey: byte := 75
  const KindReady: byte := 90
  const KindError: byte := 69
  const Idle: byte := 73

  /** How the pool's authentication loop ends. Reporting a status that is not idle reads the
      first byte of the payload, and a ReadyForQuery without one makes that panic. */
  datatype Auth = Waiting | Failed | Panic | Ready(params: ParamMap, pid: nat, key: nat)

  /** A message from the backend, and whether the answer it may ask for could be sent (for
      SASL, whether the whole exchange succeeded). */
  type Heard = (Msg, bool)

  /** Whether the loop goes on after a message. */
  predicate GoesOn(x: Heard) {
    var p := x.0.payload;
    if x.0.kind == KindAuth then
      && |p| >= 4
      && var n := FromBE32(p[..4]);
         n == 0 || (n == 3 && x.1) || (n == 5 && |p| >= 8 && x.1) || (n == 10 && x.1)
    else x.0.kind != KindReady && x.0.kind != KindError
  }

  function Verdict(x: Heard, a: Auth): Auth
    requires !GoesOn(x) && a.Ready?
  {
    if x.0.kind != KindReady then Failed
    else if x.0.payload == [] then Panic
    else if x.0.payload[0] == Idle then a
    else Failed
  }

  function Absorb(x: Heard, a: Auth): Auth
    requires a.Ready?
  {
    var p := x.0.payload;
    if x.0.kind == KindStatus && ParsePair(p).0 != [] then
      a.(params := a.params[ParsePair(p).0 := ParsePair(p).1])
    else if x.0.kind == KindKey && |p| >= 8 then a.(pid := FromBE32(p[..4]), key := FromBE32(p[4..8]))
    else a
  }

  /** The loop from what has been collected so far. */
  function AuthRun(xs: seq<Heard>, a: Auth): Auth
    requires a.Ready?
  {
    if xs == [] then Waiting
    else if GoesOn(xs[0]) then AuthRun(xs[1..], Absorb(xs[0], a))
    else Verdict(xs[0], a)
  }

  const Nothing := Ready(map[], 0, 0)

  // The message loop of authenticatePG.
  method AuthenticateLoop(xs: seq<Heard>) returns (r: Auth)
    ensures r == AuthRun(xs, Nothing)
  {
    var params: ParamMap, pid: nat, key: nat := map[], 0, 0;
    var i := 0;
    while i < |xs|
      invariant i <= |xs| && AuthRun(xs[i..], Ready(params, pid, key)) == AuthRun(xs, Nothing)
    {
      var x, ok := xs[i].0, xs[i].1;
      assert xs[i..][1..] == xs[i + 1..];
      if x.kind == KindAuth {
        if |x.payload| < 4 {
          return Failed;
        }
        var authType := FromBE32(x.payload[..4]);
        if authType == 5 && |x.payload| < 8 {
          return Failed;
        }
        if authType != 0 && (authType !in {3, 5, 10} || !ok) {
          return Failed;
        }
      } else if x.kind == KindStatus {
        var pair := ParsePair(x.payload);
        if pair.0 != [] {
          params := params[pair.0 := pair.1];
        }
      } else if x.kind == KindKey {
        if |x.payload| >= 8 {
          pid, key := FromBE32(x.payload[..4]), FromBE32(x.payload[4..8]);
        }
      } else if x.kind == KindReady {
        if |x.payload| >= 1 && x.payload[0] == Idle {
          return Ready(params, pid, key);
        }
        return if x.payload == [] then Panic else Failed;
      } else if x.kind == KindError {
        return Failed;
      }
      i := i + 1;
    }
    return Waiting;
  }

  /** The loop panics exactly when the first message that ends it is a ReadyForQuery without payload. */
  lemma {:induction false} PanicIff(xs: seq<Heard>, a: Auth)
    requires a.Ready?
    ensures AuthRun(xs, a) == Panic <==>
            exists n :: 0 <= n < |xs| && (forall i | 0 <= i < n :: GoesOn(xs[i]))
                        && xs[n].0.kind == KindReady && xs[n].0.payload == []
    decreases |xs|
  {
    if xs != [] && GoesOn(xs[0]) {
      PanicIff(xs[1..], Absorb(xs[0], a));
      assert forall i | 0 <= i < |xs[1..]| :: xs[1..][i] == xs[i + 1];
      if AuthRun(xs, a) == Panic {
        var n :| 0 <= n < |xs[1..]| && (forall i | 0 <= i < n :: GoesOn(xs[1..][i]))
                 && xs[1..][n].0.kind == KindReady && xs[1..][n].0.payload == [];
        assert forall i | 0 < i < n + 1 :: xs[i] == xs[1..][i - 1];
        assert xs[n + 1].0.kind == KindReady && xs[n + 1].0.payload == [];
      }
      if n :| 0 <= n < |xs| && (forall i | 0 <= i < n :: GoesOn(xs[i])) && xs[n].0.kind == KindReady && xs[n].0.payload == [] {
        assert xs[1..][n - 1] == xs[n];
      }
    }
  }

  // ---- SASL mechanism list ----

  /** The first name of the list, unless it is empty, and what follows its NUL. */
  function FirstName(d: Text): seq<Text> {
    if NulIndex(d) > 0 then [d[..NulIndex(d)]] else []
  }

  function AfterName(d: Text): (rest: Text)
    ensures d != [] ==> |rest| < |d|
  {
    if NulIndex(d) >= |d| then [] else d[NulIndex(d) + 1..]
  }

  function Mechanisms(d: Text): seq<Text>
    decreases |d|
  {
    if d == [] then [] else FirstName(d) + Mechanisms(AfterName(d))
  }

  lemma Regroup(a: seq<Text>, b: seq<Text>, c: seq<Text>)
    ensures (a + b) + c == a + (b + c)
  {
  }

  // parseSASLMechanisms
  method ParseSASLMechanisms(list: Text) returns (mechs: seq<Text>)
    ensures mechs == Mechanisms(list)
  {
    mechs := [];
    var data := list;
    while |data| > 0
      invariant mechs + Mechanisms(data) == Mechanisms(list)
      decreases |data|
    {
      var idx := FindNul(data);
      Regroup(mechs, FirstName(data), Mechanisms(AfterName(data)));
      if idx > 0 {
        mechs := mechs + [data[..idx]];
      } else {
        assert mechs + FirstName(data) == mechs;
      }
      if idx >= |data| {
        return;
      }
      data := data[idx + 1..];
    }
  }

  function EncodeMechanisms(names: seq<Text>): Text {
    if names == [] then [] else names[0] + [0] + EncodeMechanisms(names[1..])
  }

  /** The offered mechanisms are read back exactly, in order. */
  lemma {:induction false} MechanismsRoundTrip(names: seq<Text>)
    requires forall n | n in names :: n != [] && NulFree(n)
    ensures Mechanisms(EncodeMechanisms(names) + [0]) == names
    decreases |names|
  {
    if names == [] {
      assert [0][1..] == [] && EncodeMechanisms(names) + [0] == [0];
    } else {
      var rest := EncodeMechanisms(names[1..]) + [0];
      var d := EncodeMechanisms(names) + [0];
      assert names[0] in names;
      assert d == names[0] + [0] + rest;
      NulIndexAt(names[0], rest);
      assert d[..|names[0]|] == names[0] && d[|names[0]| + 1..] == rest;
      assert forall n | n in names[1..] :: n in names;
      MechanismsRoundTrip(names[1..]);
    }
  }

  // ---- Synthetic authentication ----

  function StatusMsg(p: (Text, Text)): Msg {
    Msg(KindStatus, p.0 + [0] + p.1 + [0])
  }

  function Statuses(ps: Pairs): seq<Msg> {
    if ps == [] then [] else [StatusMsg(ps[0])] + Statuses(ps[1..])
  }

  function Hear(ms: seq<Msg>): seq<Heard> {
    seq(|ms|, i requires 0 <= i < |ms| => (ms[i], true))
  }

  /** The pairs of a parameter map in some iteration order. */
  function InOrder(m: ParamMap, order: seq<Text>): Pairs
    requires forall k | k in order :: k in m
  {
    if order == [] then [] else [(order[0], m[order[0]])] + InOrder(m, order[1..])
  }

  function Synthetic(ps: Pairs, pid: nat, key: nat): seq<Msg> {
    [Msg(KindAuth, BE32(0))] + Statuses(ps) + [Msg(KindKey, BE32(pid) + BE32(key)), Msg(KindReady, [Idle])]
  }

  // sendSyntheticAuthOK, for whatever order the map is iterated in.
  method SendSyntheticAuthOK(m: ParamMap, pid: nat, key: nat) returns (out: seq<Msg>, order: seq<Text>)
    ensures (set k | k in order) == m.Keys
    ensures out == Synthetic(InOrder(m, order), pid, key)
  {
    out := [Msg(KindAuth, BE32(0))];
    order := [];
    var left := m.Keys;
    while left != {}
      invariant left <= m.Keys && (set k | k in order) == m.Keys - left
      invariant forall k | k in order :: k in m
      invariant out == [Msg(KindAuth, BE32(0))] + Statuses(InOrder(m, order))
      decreases left
    {
      var k :| k in left;
      out := out + [Msg(KindStatus, k + [0] + m[k] + [0])];
      var more := order + [k];
      assert forall x | x in more :: x in m;
      InOrderOne(m, order, k);
      assert (set x | x in more) == (set x | x in order) + {k};
      order, left := more, left - {k};
    }
    out := out + [Msg(KindKey, BE32(pid) + BE32(key))] + [Msg(KindReady, [Idle])];
  }

  lemma {:induction false} InOrderOne(m: ParamMap, order: seq<Text>, k: Text)
    requires k in m && (forall x | x in order :: x in m) && (forall x | x in order + [k] :: x in m)
    ensures Statuses(InOrder(m, order + [k])) == Statuses(InOrder(m, order)) + [StatusMsg((k, m[k]))]
    decreases |order|
  {
    if order == [] {
      assert order + [k] == [k] && [k][1..] == [];
    } else {
      assert (order + [k])[1..] == order[1..] + [k] && (order + [k])[0] == order[0];
      InOrderOne(m, order[1..], k);
      var rest := InOrder(m, order[1..]);
      assert ([(order[0], m[order[0]])] + rest)[1..] == rest;
      var rest' := InOrder(m, order[1..] + [k]);
      assert ([(order[0], m[order[0]])] + rest')[1..] == rest';
    }
  }

  predicate Hygienic(ps: Pairs) {
    forall p | p in ps :: p.0 != [] && NulFree(p.0) && NulFree(p.1)
  }

  lemma ParsePairOf(k: Text, v: Text)
    requires NulFree(k) && NulFree(v)
    ensures ParsePair(k + [0] + v + [0]) == (k, v)
  {
    var d := k + [0] + v + [0];
    assert d == k + [0] + (v + [0]);
    NulIndexAt(k, v + [0]);
    assert d[..|k|] == k && d[|k| + 1..] == v + [0];
    assert v + [0] == v + [0] + [];
    NulIndexAt(v, []);
    assert (v + [0])[..|v|] == v;
  }

  lemma HearOne(m: Msg, ms: seq<Msg>, a: Auth)
    requires a.Ready? && GoesOn((m, true))
    ensures AuthRun(Hear([m] + ms), a) == AuthRun(Hear(ms), Absorb((m, true), a))
  {
    assert Hear([m] + ms)[0] == (m, true);
    assert Hear([m] + ms)[1..] == Hear(ms);
  }

  lemma AbsorbStatus(p: (Text, Text), a: Auth)
    requires a.Ready? && p.0 != [] && NulFree(p.0) && NulFree(p.1)
    ensures Absorb((StatusMsg(p), true), a) == a.(params := a.params[p.0 := p.1])
  {
    ParsePairOf(p.0, p.1);
  }

  /** ParameterStatus messages, whoever sends them, leave their last-wins map. */
  lemma {:induction false} StatusesLastWins(ps: Pairs, tail: seq<Msg>, a: Auth)
    requires Hygienic(ps) && a.Ready?
    ensures AuthRun(Hear(Statuses(ps) + tail), a) == AuthRun(Hear(tail), a.(params := LastWins(ps, a.params)))
    decreases |ps|
  {
    if ps == [] {
      assert Statuses(ps) + tail == tail;
    } else {
      assert ps[0] in ps;
      AbsorbStatus(ps[0], a);
      assert Statuses(ps) + tail == [StatusMsg(ps[0])] + (Statuses(ps[1..]) + tail);
      HearOne(StatusMsg(ps[0]), Statuses(ps[1..]) + tail, a);
      StatusesLastWins(ps[1..], tail, a.(params := a.params[ps[0].0 := ps[0].1]));
    }
  }

  lemma SyntheticRead(ps: Pairs, pid: nat, key: nat)
    requires Hygienic(ps) && pid < 0x1_0000_0000 && key < 0x1_0000_0000
    ensures AuthRun(Hear(Synthetic(ps, pid, key)), Nothing) == Ready(LastWins(ps, map[]), pid, key)
  {
    var ok, keyMsg, ready := Msg(KindAuth, BE32(0)), Msg(KindKey, BE32(pid) + BE32(key)), Msg(KindReady, [Idle]);
    assert Synthetic(ps, pid, key) == [ok] + (Statuses(ps) + [keyMsg, ready]);
    assert BE32(0)[..4] == BE32(0);
    BE32RoundTrip(0);
    HearOne(ok, Statuses(ps) + [keyMsg, ready], Nothing);
    StatusesLastWins(ps, [keyMsg, ready], Nothing);
    KeyRead(LastWins(ps, map[]), pid, key);
  }

  lemma KeyRead(m: ParamMap, pid: nat, key: nat)
    requires pid < 0x1_0000_0000 && key < 0x1_0000_0000
    ensures AuthRun(Hear([Msg(KindKey, BE32(pid) + BE32(key)), Msg(KindReady, [Idle])]), Ready(m, 0, 0)) == Ready(m, pid, key)
  {
    var p := BE32(pid) + BE32(key);
    BE32RoundTrip(pid);
    BE32RoundTrip(key);
    assert p[..4] == BE32(pid) && p[4..8] == BE32(key);
    var xs := Hear([Msg(KindKey, p), Msg(KindReady, [Idle])]);
    assert xs[1..] == Hear([Msg(KindReady, [Idle])]);
    assert Hear([Msg(KindReady, [Idle])])[0] == (Msg(KindReady, [Idle]), true);
  }

  /** Every map the pool caches has clean keys and values, and 32-bit identifiers. */
  ghost predicate Cached(a: Auth) {
    a.Ready? ==>
      && (forall k | k in a.params :: k != [] && NulFree(k) && NulFree(a.params[k]))
      && a.pid < 0x1_0000_0000 && a.key < 0x1_0000_0000
  }

  lemma {:induction false} AuthCaches(xs: seq<Heard>, a: Auth)
    requires a.Ready? && Cached(a)
    ensures Cached(AuthRun(xs, a))
    decreases |xs|
  {
    if xs != [] && GoesOn(xs[0]) {
      AuthCaches(xs[1..], Absorb(xs[0], a));
    }
  }

  lemma {:induction false} InOrderRestores(m: ParamMap, order: seq<Text>, acc: ParamMap)
    requires forall k | k in order :: k in m
    ensures var r := LastWins(InOrder(m, order), acc);
            && r.Keys == acc.Keys + (set k | k in order)
            && forall k | k in r :: r[k] == if k in order then m[k] else acc[k]
    decreases |order|
  {
    if order != [] {
      var ps := InOrder(m, order);
      assert ps[0] == (order[0], m[order[0]]) && ps[1..] == InOrder(m, order[1..]);
      InOrderRestores(m, order[1..], acc[order[0] := m[order[0]]]);
      assert order == [order[0]] + order[1..];
    }
  }

  lemma {:induction false} InOrderHygienic(m: ParamMap, order: seq<Text>)
    requires forall k | k in order :: k in m
    requires forall k | k in m :: k != [] && NulFree(k) && NulFree(m[k])
    ensures Hygienic(InOrder(m, order))
    decreases |order|
  {
    if order != [] {
      InOrderHygienic(m, order[1..]);
    }
  }

  /** Whatever a backend sent while the pool authenticated: a client that reads the synthetic
      authentication, in any iteration order, ends up with the same parameters, PID and key. */
  lemma SyntheticIsFaithful(xs: seq<Heard>, order: seq<Text>)
    requires var a := AuthRun(xs, Nothing); a.Ready? && (set k | k in order) == a.params.Keys
    ensures var a := AuthRun(xs, Nothing);
            && (forall k | k in order :: k in a.params)
            && AuthRun(Hear(Synthetic(InOrder(a.params, order), a.pid, a.key)), Nothing) == a
  {
    var a := AuthRun(xs, Nothing);
    AuthCaches(xs, Nothing);
    assert forall k | k in order :: k in (set x | x in order);
    InOrderHygienic(a.params, order);
    SyntheticRead(InOrder(a.params, order), a.pid, a.key);
    InOrderRestores(a.params, order, map[]);
    assert LastWins(InOrder(a.params, order), map[]) == a.params;
  }
}
