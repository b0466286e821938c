/** What the parsers and the authentication loop make of arbitrary bytes, without reference to how
    they work. */
module ParamsMeaning {
  import opened Wire
  import opened Params

  // ---- The authentication loop ----

  /** The request code of an Authentication message. */
  function RequestCode(p: Text): int {
    if |p| < 4 then -1
    else (p[0] as int) * 0x100_0000 + (p[1] as int) * 0x1_0000 + (p[2] as int) * 0x100 + p[3] as int
  }

  /** 'R' (82) that is too short, of an unsupported kind, or whose answer could not be given: all
      but 0 (done), and answered 3 (clear text), 5 (MD5, with its salt) and 10 (SASL). */
  predicate Unacceptable(x: Heard) {
    var code := RequestCode(x.0.payload);
    x.0.kind == 82 && code != 0 && !(x.1 && (code == 3 || code == 10 || (code == 5 && |x.0.payload| >= 8)))
  }

  /** The messages that end the loop: 'Z' (90), 'E' (69), and such an 'R'. */
  predicate Ends(x: Heard) {
    x.0.kind == 90 || x.0.kind == 69 || Unacceptable(x)
  }

  ghost predicate FirstEnd(xs: seq<Heard>, n: nat) {
    n < |xs| && Ends(xs[n]) && forall i | 0 <= i < n :: !Ends(xs[i])
  }

  predicate SaysReady(m: Msg) {
    m.kind == 90 && m.payload != [] && m.payload[0] == 73
  }

  predicate SaysNothing(m: Msg) {
    m.kind == 90 && m.payload == []
  }

  lemma EndsMeans(x: Heard)
    ensures Ends(x) <==> !GoesOn(x)
  {
    if |x.0.payload| >= 4 {
      assert RequestCode(x.0.payload) == FromBE32(x.0.payload[..4]);
    }
  }

  lemma {:induction false} RunAt(xs: seq<Heard>, a: Auth, n: nat)
    requires a.Ready? && FirstEnd(xs, n)
    ensures var r := AuthRun(xs, a);
            && (r.Ready? <==> SaysReady(xs[n].0)) && (r.Panic? <==> SaysNothing(xs[n].0)) && !r.Waiting?
    decreases n
  {
    EndsMeans(xs[0]);
    if n > 0 {
      assert forall i | 0 <= i < |xs| - 1 :: xs[1..][i] == xs[i + 1];
      RunAt(xs[1..], Absorb(xs[0], a), n - 1);
    }
  }

  lemma {:induction false} RunOn(xs: seq<Heard>, a: Auth)
    requires a.Ready? && forall i | 0 <= i < |xs| :: !Ends(xs[i])
    ensures AuthRun(xs, a) == Waiting
    decreases |xs|
  {
    if xs != [] {
      EndsMeans(xs[0]);
      assert forall i | 0 <= i < |xs| - 1 :: xs[1..][i] == xs[i + 1];
      RunOn(xs[1..], Absorb(xs[0], a));
    }
  }

  lemma {:induction false} FindEnd(xs: seq<Heard>) returns (n: nat)
    ensures FirstEnd(xs, n) || (n == |xs| && forall i | 0 <= i < |xs| :: !Ends(xs[i]))
    decreases |xs|
  {
    if xs == [] || Ends(xs[0]) {
      n := 0;
    } else {
      var k := FindEnd(xs[1..]);
      n := k + 1;
      assert forall i | 0 < i < |xs| :: xs[i] == xs[1..][i - 1];
    }
  }

  lemma EndUnique(xs: seq<Heard>, k: nat, n: nat)
    requires FirstEnd(xs, k) && FirstEnd(xs, n)
    ensures k == n
  {
  }

  ghost predicate EndsReady(xs: seq<Heard>) {
    exists n: nat :: FirstEnd(xs, n) && SaysReady(xs[n].0)
  }

  ghost predicate EndsEmpty(xs: seq<Heard>) {
    exists n: nat :: FirstEnd(xs, n) && SaysNothing(xs[n].0)
  }

  ghost predicate EndsOtherwise(xs: seq<Heard>) {
    exists n: nat :: FirstEnd(xs, n) && !SaysReady(xs[n].0) && !SaysNothing(xs[n].0)
  }

  lemma EndDecides(xs: seq<Heard>, n: nat)
    requires FirstEnd(xs, n)
    ensures EndsReady(xs) <==> SaysReady(xs[n].0)
    ensures EndsEmpty(xs) <==> SaysNothing(xs[n].0)
    ensures EndsOtherwise(xs) <==> !SaysReady(xs[n].0) && !SaysNothing(xs[n].0)
  {
    forall k: nat | FirstEnd(xs, k)
      ensures k == n
    {
      EndUnique(xs, k, n);
    }
  }

  /** Only the first ending message decides. The connection becomes ready if and only if that is a
      ReadyForQuery with status idle; the loop panics if and only if it is one without payload; it
      fails on every other one; and without any it waits. */
  lemma AuthVerdict(xs: seq<Heard>)
    ensures var r := AuthRun(xs, Nothing);
            && (r.Ready? <==> EndsReady(xs)) && (r.Panic? <==> EndsEmpty(xs)) && (r.Failed? <==> EndsOtherwise(xs))
            && (r.Waiting? <==> forall i | 0 <= i < |xs| :: !Ends(xs[i]))
  {
    var n := FindEnd(xs);
    if FirstEnd(xs, n) {
      RunAt(xs, Nothing, n);
      EndDecides(xs, n);
    } else {
      RunOn(xs, Nothing);
    }
  }

  // ---- NUL-terminated pairs ----

  /** With no NUL there is no pair; with one, the rest is the value; with more, the value ends at the
      second and what follows is ignored. */
  lemma ParsePairMeans(k: Text, v: Text, rest: Text)
    requires NulFree(k) && NulFree(v)
    ensures ParsePair(k) == ([], [])
    ensures ParsePair(k + [0] + v) == (k, v)
    ensures ParsePair(k + [0] + v + [0] + rest) == (k, v)
  {
    NoNul(k);
    NoNul(v);
    NulIndexAt(k, v);
    var d := k + [0] + v;
    assert d[..|k|] == k && d[|k| + 1..] == v && v[..|v|] == v;
    var e := k + [0] + v + [0] + rest;
    assert e == k + [0] + (v + [0] + rest);
    NulIndexAt(k, v + [0] + rest);
    NulIndexAt(v, rest);
    assert e[..|k|] == k && e[|k| + 1..] == v + [0] + rest && (v + [0] + rest)[..|v|] == v;
  }

  lemma {:induction false} NoNul(d: Text)
    requires NulFree(d)
    ensures NulIndex(d) == |d|
    decreases |d|
  {
    if d != [] {
      assert d[0] in d;
      NoNul(d[1..]);
    }
  }

  // ---- Startup parameters ----

  /** No complete pair is left: at most one byte, or fewer than two NULs. */
  ghost predicate Incomplete(tail: Text) {
    || |tail| <= 1
    || NulFree(tail)
    || exists k, v: Text :: NulFree(k) && NulFree(v) && tail == k + [0] + v
  }

  lemma StuckMeans(d: Text)
    requires TakePair(d).None?
    ensures Incomplete(d)
  {
    var k := NulIndex(d);
    if |d| > 1 {
      if k >= |d| {
        assert d[..k] == d;
      } else {
        var rest := d[k + 1..];
        assert rest[..NulIndex(rest)] == rest;
        assert d == d[..k] + [0] + rest;
      }
    }
  }

  /** Every byte string is a list of complete pairs and an incomplete rest, and parsing it gives the
      last-wins map of that list. */
  lemma {:induction false} ParsePairsMeans(d: Text, m: ParamMap) returns (ps: Pairs, tail: Text)
    ensures d == EncodePairs(ps) + tail && Incomplete(tail)
    ensures forall p | p in ps :: NulFree(p.0) && NulFree(p.1)
    ensures ParsePairs(d, m) == LastWins(ps, m)
    decreases |d|
  {
    match TakePair(d)
    case None =>
      StuckMeans(d);
      ps, tail := [], d;
      assert [] + d == d;
    case Some((k, v, rest)) =>
      var qs: Pairs;
      qs, tail := ParsePairsMeans(rest, m[k := v]);
      ps := [(k, v)] + qs;
      PairTaken(d, k, v, rest);
      EncodeOne(k, v, qs, tail);
      assert ps[1..] == qs;
  }

  lemma CutAt(d: Text, i: nat)
    requires i < |d| && d[i] == 0
    ensures d == d[..i] + [0] + d[i + 1..]
  {
  }

  lemma Regroup(k: Text, v: Text, rest: Text)
    ensures k + [0] + (v + [0] + rest) == k + [0] + v + [0] + rest
  {
  }

  lemma PairTaken(d: Text, k: Text, v: Text, rest: Text)
    requires TakePair(d) == Some((k, v, rest))
    ensures d == k + [0] + v + [0] + rest && NulFree(k) && NulFree(v)
  {
    var i := NulIndex(d);
    CutAt(d, i);
    CutAt(d[i + 1..], NulIndex(d[i + 1..]));
    Regroup(k, v, rest);
  }

  lemma EncodeOne(k: Text, v: Text, qs: Pairs, tail: Text)
    ensures EncodePairs([(k, v)] + qs) + tail == k + [0] + v + [0] + (EncodePairs(qs) + tail)
  {
    var ps := [(k, v)] + qs;
    assert ps[1..] == qs;
    var head := k + [0] + v + [0];
    assert EncodePairs(ps) == head + EncodePairs(qs);
    assert (head + EncodePairs(qs)) + tail == head + (EncodePairs(qs) + tail);
  }

  // ---- SASL mechanism list ----

  /** Names separated by NUL. Every byte string is such a list. */
  function Joined(names: seq<Text>): Text
    requires names != []
  {
    if |names| == 1 then names[0] else names[0] + [0] + Joined(names[1..])
  }

  function NonEmpty(names: seq<Text>): seq<Text> {
    if names == [] then [] else (if names[0] != [] then [names[0]] else []) + NonEmpty(names[1..])
  }

  /** Whatever the list, with or without a final NUL: the names in it that are not empty, in order. */
  lemma {:induction false} MechanismsMeans(names: seq<Text>)
    requires names != [] && forall n | n in names :: NulFree(n)
    ensures Mechanisms(Joined(names)) == NonEmpty(names)
    decreases |names|
  {
    var d := Joined(names);
    assert names[0] in names;
    if |names| == 1 {
      NoNul(d);
      assert names[1..] == [] && d[..|d|] == d;
      assert d != [] ==> FirstName(d) == [d] && AfterName(d) == [];
    } else {
      var rest := Joined(names[1..]);
      assert forall n | n in names[1..] :: n in names;
      MechanismsMeans(names[1..]);
      NulIndexAt(names[0], rest);
      assert d[..|names[0]|] == names[0] && d[|names[0]| + 1..] == rest;
    }
  }
}
