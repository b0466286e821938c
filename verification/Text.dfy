/** The parts of Go's `strings` and `unicode/utf8` packages that decide what pins a session. Text is
    decoded to runes; only comparisons with ASCII words are made of the result. */
module Text {
  import opened Wire

  type Rune = nat

  const Invalid: Rune := 0xfffd

  predicate Between(s: seq<byte>, i: nat, lo: byte, hi: byte) {
    i < |s| && lo <= s[i] <= hi
  }

  predicate Tail(s: seq<byte>, i: nat) {
    Between(s, i, 0x80, 0xbf)
  }

  /** The range of the second byte after a lead byte of a sequence of three or four. */
  function SecondLow(b: byte): byte {
    if b == 0xe0 then 0xa0 else if b == 0xf0 then 0x90 else 0x80
  }

  function SecondHigh(b: byte): byte {
    if b == 0xed then 0x9f else if b == 0xf4 then 0x8f else 0xbf
  }

  /** The bits a byte carries above the marker `base`. */
  function Bits(b: byte, base: byte): nat
    requires base <= b
  {
    (b as int) - (base as int)
  }

  /** utf8.DecodeRune: the first rune and the bytes it takes; a byte that begins none counts as an
      invalid rune of its own. */
  function FirstRune(s: seq<byte>): (r: (Rune, nat))
    requires s != []
    ensures 1 <= r.1 <= |s|
  {
    var b := s[0];
    if b < 0x80 then (b, 1)
    else if 0xc2 <= b <= 0xdf && Tail(s, 1) then (Bits(b, 0xc0) * 0x40 + Bits(s[1], 0x80), 2)
    else if 0xe0 <= b <= 0xef && Between(s, 1, SecondLow(b), SecondHigh(b)) && Tail(s, 2) then
      (Bits(b, 0xe0) * 0x1000 + Bits(s[1], 0x80) * 0x40 + Bits(s[2], 0x80), 3)
    else if 0xf0 <= b <= 0xf4 && Between(s, 1, SecondLow(b), SecondHigh(b)) && Tail(s, 2) && Tail(s, 3) then
      (Bits(b, 0xf0) * 0x4_0000 + Bits(s[1], 0x80) * 0x1000 + Bits(s[2], 0x80) * 0x40 + Bits(s[3], 0x80), 4)
    else (Invalid, 1)
  }

  function Decode(s: seq<byte>): seq<Rune>
    decreases |s|
  {
    if s == [] then [] else [FirstRune(s).0] + Decode(s[FirstRune(s).1..])
  }

  /** ASCII text decodes to itself. */
  lemma {:induction false} DecodeAscii(s: seq<byte>)
    requires forall i | 0 <= i < |s| :: s[i] < 0x80
    ensures Decode(s) == s
    decreases |s|
  {
    if s != [] {
      DecodeAscii(s[1..]);
      assert [s[0]] + s[1..] == s;
    }
  }

  // unicode.IsSpace
  predicate IsSpace(r: Rune) {
    || 9 <= r <= 13 || r == 0x20 || r == 0x85 || r == 0xa0
    || r == 0x1680 || 0x2000 <= r <= 0x200a || r == 0x2028 || r == 0x2029 || r == 0x202f || r == 0x205f || r == 0x3000
  }

  /** unicode.ToUpper as far as the result is ASCII: besides the small letters, dotless i and long
      s have ASCII capitals. Other runes, mapped or not, are not ASCII afterwards. */
  function Upper(r: Rune): Rune {
    if 97 <= r <= 122 then r - 32 else if r == 0x131 then 73 else if r == 0x17f then 83 else r
  }

  function UpperAll(s: seq<Rune>): (u: seq<Rune>)
    ensures |u| == |s| && forall i | 0 <= i < |s| :: u[i] == Upper(s[i])
  {
    if s == [] then [] else [Upper(s[0])] + UpperAll(s[1..])
  }

  function TrimLeft(s: seq<Rune>): seq<Rune> {
    if s != [] && IsSpace(s[0]) then TrimLeft(s[1..]) else s
  }

  function TrimRight(s: seq<Rune>): seq<Rune> {
    if s != [] && IsSpace(s[|s| - 1]) then TrimRight(s[..|s| - 1]) else s
  }

  /** strings.ToUpper(strings.TrimSpace(text)) */
  function Normal(text: seq<byte>): seq<Rune> {
    UpperAll(TrimRight(TrimLeft(Decode(text))))
  }

  // ---- The first word ----

  predicate BlankTo(s: seq<Rune>, n: int) {
    forall i | 0 <= i < n && i < |s| :: IsSpace(s[i])
  }

  /** The keyword `word` stands at position `i`, in any mixture of cases. */
  predicate WordAt(s: seq<Rune>, i: int, word: seq<Rune>) {
    0 <= i <= i + |word| <= |s| && forall j | 0 <= j < |word| :: Upper(s[i + j]) == word[j]
  }

  /** The first word of the text begins with `word`. */
  ghost predicate Leads(text: seq<Rune>, word: seq<Rune>) {
    exists i :: WordAt(text, i, word) && BlankTo(text, i)
  }

  predicate Letters(word: seq<Rune>) {
    word != [] && forall j | 0 <= j < |word| :: 65 <= word[j] <= 90
  }

  lemma {:induction false} TrimLeftMeans(s: seq<Rune>) returns (i: nat)
    ensures i <= |s| && TrimLeft(s) == s[i..] && BlankTo(s, i) && (i < |s| ==> !IsSpace(s[i]))
    decreases |s|
  {
    if s != [] && IsSpace(s[0]) {
      var k := TrimLeftMeans(s[1..]);
      i := k + 1;
      assert s[1..][k..] == s[i..];
      assert forall j | 0 < j < |s| :: s[j] == s[1..][j - 1];
    } else {
      i := 0;
      assert s[0..] == s;
    }
  }

  predicate BlankFrom(s: seq<Rune>, n: nat) {
    forall i | n <= i < |s| :: IsSpace(s[i])
  }

  lemma {:induction false} TrimRightMeans(s: seq<Rune>) returns (n: nat)
    ensures n <= |s| && TrimRight(s) == s[..n] && BlankFrom(s, n) && (n > 0 ==> !IsSpace(s[n - 1]))
    decreases |s|
  {
    if s != [] && IsSpace(s[|s| - 1]) {
      n := TrimRightMeans(s[..|s| - 1]);
      assert s[..|s| - 1][..n] == s[..n];
    } else {
      n := |s|;
      assert s[..|s|] == s;
    }
  }

  /** Trimming cuts out the stretch from the first to the last rune that is not white space. */
  lemma TrimMeans(s: seq<Rune>) returns (a: nat, b: nat)
    ensures a <= b <= |s| && TrimRight(TrimLeft(s)) == s[a..b] && BlankTo(s, a) && BlankFrom(s, b)
    ensures a < b ==> !IsSpace(s[a]) && !IsSpace(s[b - 1])
  {
    a := TrimLeftMeans(s);
    var n := TrimRightMeans(s[a..]);
    b := a + n;
    assert s[a..][..n] == s[a..b];
    assert forall j | b <= j < |s| :: s[j] == s[a..][j - a];
    assert n > 0 ==> s[a..][n - 1] == s[b - 1];
  }

  /** Case does not change what is white space. */
  lemma UpperSpace(r: Rune)
    ensures IsSpace(Upper(r)) <==> IsSpace(r)
  {
  }

  /** After white space the text begins with `word`, and it does not end within the word's trailing
      white space. */
  ghost predicate Begins(text: seq<Rune>, word: seq<Rune>) {
    exists i :: WordAt(text, i, word) && BlankTo(text, i) && Reaches(text, i + |word| - 1)
  }

  ghost predicate Reaches(text: seq<Rune>, n: int) {
    exists j :: n <= j < |text| && 0 <= j && !IsSpace(text[j])
  }

  lemma PrefixShows(text: seq<Rune>, word: seq<Rune>)
    requires word != [] && word <= UpperAll(TrimRight(TrimLeft(text)))
    ensures Begins(text, word)
  {
    var a, b := TrimMeans(text);
    var q := UpperAll(text[a..b]);
    assert forall j | 0 <= j < |word| :: word[j] == q[j] == Upper(text[a + j]);
    assert WordAt(text, a, word);
    assert Reaches(text, a + |word| - 1) by {
      assert a + |word| - 1 <= b - 1 < |text| && !IsSpace(text[b - 1]);
    }
  }

  lemma PrefixKept(text: seq<Rune>, word: seq<Rune>, i: nat)
    requires word != [] && !IsSpace(word[0]) && WordAt(text, i, word) && BlankTo(text, i)
    requires Reaches(text, i + |word| - 1)
    ensures word <= UpperAll(TrimRight(TrimLeft(text)))
  {
    var a, b := TrimMeans(text);
    assert Upper(text[i + 0]) == word[0];
    UpperSpace(text[i]);
    assert i == a;
    var j :| i + |word| - 1 <= j < |text| && 0 <= j && !IsSpace(text[j]);
    assert j < b;
    var q := UpperAll(text[a..b]);
    assert forall k | 0 <= k < |word| :: q[k] == Upper(text[a..b][k]) == Upper(text[i + k]);
  }

  lemma NormalBegins(text: seq<byte>, word: seq<Rune>)
    requires word != [] && !IsSpace(word[0])
    ensures word <= Normal(text) <==> Begins(Decode(text), word)
  {
    if word <= Normal(text) {
      PrefixShows(Decode(text), word);
    }
    if i :| WordAt(Decode(text), i, word) && BlankTo(Decode(text), i) && Reaches(Decode(text), i + |word| - 1) {
      PrefixKept(Decode(text), word, i);
    }
  }

  lemma NormalMeans(text: seq<byte>, word: seq<Rune>)
    requires Letters(word)
    ensures word <= Normal(text) <==> Leads(Decode(text), word)
  {
    NormalBegins(text, word);
    var d := Decode(text);
    if i :| WordAt(d, i, word) && BlankTo(d, i) {
      var n := |word| - 1;
      assert Upper(d[i + n]) == word[n];
      UpperSpace(d[i + n]);
      assert i + n <= i + n < |d| && 0 <= i + n && !IsSpace(d[i + n]);
      assert Reaches(d, i + |word| - 1);
    }
  }

  // ---- Words anywhere ----

  predicate StandsAt(s: seq<Rune>, i: int, part: seq<Rune>) {
    0 <= i <= i + |part| <= |s| && forall j | 0 <= j < |part| :: s[i + j] == part[j]
  }

  // strings.Contains
  predicate Contains(s: seq<Rune>, part: seq<Rune>) {
    exists i :: 0 <= i <= |s| && StandsAt(s, i, part)
  }

  ghost predicate Mentions(text: seq<Rune>, word: seq<Rune>) {
    exists i :: WordAt(text, i, word)
  }

  predicate Solid(word: seq<Rune>) {
    word != [] && forall j | 0 <= j < |word| :: !IsSpace(word[j])
  }

  /** A word stands in the cut-out, upper-cased, exactly if it stands in the text there. */
  lemma CutOut(d: seq<Rune>, a: nat, b: nat, word: seq<Rune>, i: int)
    requires a <= b <= |d|
    ensures StandsAt(UpperAll(d[a..b]), i, word) <==> 0 <= i && WordAt(d, a + i, word) && a + i + |word| <= b
  {
    var q := UpperAll(d[a..b]);
    assert forall j | 0 <= j < |q| :: q[j] == Upper(d[a + j]);
    if 0 <= i && WordAt(d, a + i, word) && a + i + |word| <= b {
      forall j | 0 <= j < |word|
        ensures q[i + j] == word[j]
      {
        assert q[i + j] == Upper(d[a + (i + j)]) == Upper(d[(a + i) + j]) == word[j];
      }
    }
    if StandsAt(q, i, word) {
      forall j | 0 <= j < |word|
        ensures Upper(d[(a + i) + j]) == word[j]
      {
        assert q[i + j] == word[j];
      }
    }
  }

  /** A word without white space lies within the cut-out. */
  lemma SolidInside(d: seq<Rune>, a: nat, b: nat, word: seq<Rune>, i: nat)
    requires Solid(word) && WordAt(d, i, word) && a <= b <= |d| && BlankTo(d, a) && BlankFrom(d, b)
    ensures a <= i && i + |word| <= b
  {
    var n := |word| - 1;
    assert Upper(d[i + 0]) == word[0] && Upper(d[i + n]) == word[n];
    UpperSpace(d[i]);
    UpperSpace(d[i + n]);
  }

  /** Trimming never removes part of a word without white space. */
  lemma NormalContains(text: seq<byte>, word: seq<Rune>)
    requires Solid(word)
    ensures Contains(Normal(text), word) <==> Mentions(Decode(text), word)
  {
    var d := Decode(text);
    var a, b := TrimMeans(d);
    if i :| 0 <= i <= |Normal(text)| && StandsAt(Normal(text), i, word) {
      CutOut(d, a, b, word, i);
    }
    if i :| WordAt(d, i, word) {
      SolidInside(d, a, b, word, i);
      CutOut(d, a, b, word, i - a);
      assert StandsAt(Normal(text), i - a, word);
    }
  }

  // ---- On ASCII text ----

  /** ASCII letters only: `w` is a capital, and `b` is it or its small letter. */
  predicate SameLetter(b: byte, w: Rune) {
    b == w || b == w + 32
  }

  predicate AsciiSpace(b: byte) {
    b == 32 || 9 <= b <= 13
  }

  predicate AsciiWordAt(text: seq<byte>, i: int, word: seq<Rune>) {
    0 <= i <= i + |word| <= |text| && forall j | 0 <= j < |word| :: SameLetter(text[i + j], word[j])
  }

  predicate AsciiBlankTo(text: seq<byte>, n: int) {
    forall i | 0 <= i < n && i < |text| :: AsciiSpace(text[i])
  }

  /** After blanks, tabs and line ends, `word` in any mixture of cases. */
  ghost predicate AsciiLeads(text: seq<byte>, word: seq<Rune>) {
    exists i :: AsciiWordAt(text, i, word) && AsciiBlankTo(text, i)
  }

  lemma AsciiAt(text: seq<byte>, word: seq<Rune>, i: int)
    requires Letters(word) && forall j | 0 <= j < |text| :: text[j] < 0x80
    ensures WordAt(text, i, word) <==> AsciiWordAt(text, i, word)
    ensures BlankTo(text, i) <==> AsciiBlankTo(text, i)
  {
  }

  lemma AsciiMeans(text: seq<byte>, word: seq<Rune>)
    requires Letters(word) && forall i | 0 <= i < |text| :: text[i] < 0x80
    ensures Leads(Decode(text), word) <==> AsciiLeads(text, word)
  {
    DecodeAscii(text);
    forall i: int
      ensures WordAt(text, i, word) && BlankTo(text, i) <==> AsciiWordAt(text, i, word) && AsciiBlankTo(text, i)
    {
      AsciiAt(text, word, i);
    }
  }
}
