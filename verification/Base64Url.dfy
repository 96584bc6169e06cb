/**
 * The URL-safe base64 of RECORD files: encoding, stripping of the padding, and the lenient decoder that reads a value
 * after its padding is put back (RFC 4648, sections 3.2, 4 and 5).
 */
module Base64Url {
  import opened Outcomes
  import opened ByteStrings

  function Letter(v: nat): (c: char)
    requires v < 64
    ensures c != '='
  {
    if v < 26 then 'A' + v as char
    else if v < 52 then 'a' + (v - 26) as char
    else if v < 62 then '0' + (v - 52) as char
    else if v == 62 then '-' else '_'
  }

  /** The value of a letter in either alphabet; other characters have none and are skipped. */
  function Sextet(c: char): (v: Option<nat>)
    ensures v.Some? ==> v.value < 64
  {
    if 'A' <= c <= 'Z' then Some((c - 'A') as nat)
    else if 'a' <= c <= 'z' then Some(26 + (c - 'a') as nat)
    else if '0' <= c <= '9' then Some(52 + (c - '0') as nat)
    else if c == '+' || c == '-' then Some(62)
    else if c == '/' || c == '_' then Some(63)
    else None
  }

  lemma SextetOfLetter(v: nat)
    requires v < 64
    ensures Sextet(Letter(v)) == Some(v) && Letter(v) < 128 as char
  {
  }

  /** The letters of a byte string, without padding. */
  function Bare(x: Bytes): string {
    if x == [] then []
    else if |x| == 1 then [Letter(x[0] as nat / 4), Letter((x[0] as nat % 4) * 16)]
    else if |x| == 2 then
      [Letter(x[0] as nat / 4), Letter((x[0] as nat % 4) * 16 + x[1] as nat / 16), Letter((x[1] as nat % 16) * 4)]
    else
      Group(x[0] as nat, x[1] as nat, x[2] as nat) + Bare(x[3..])
  }

  function Group(a: nat, b: nat, c: nat): (s: string)
    requires a < 256 && b < 256 && c < 256
    ensures |s| == 4
  {
    [Letter(a / 4), Letter((a % 4) * 16 + b / 16), Letter((b % 16) * 4 + c / 64), Letter(c % 64)]
  }

  function Pads(k: nat): (s: string)
    ensures |s| == k && forall c :: c in s ==> c == '='
  {
    seq(k, _ => '=')
  }

  /** The padded encoding. */
  function Encode(x: Bytes): string {
    if x == [] then []
    else if |x| <= 2 then Bare(x) + Pads(3 - |x|)
    else Group(x[0] as nat, x[1] as nat, x[2] as nat) + Encode(x[3..])
  }

  /** Without its trailing pads. */
  function Strip(s: string): string {
    if s != [] && s[|s| - 1] == '=' then Strip(s[..|s| - 1]) else s
  }

  /** With as many pads as make the length a multiple of four. */
  function Repad(s: string): string {
    s + Pads((-|s|) % 4)
  }

  /** Where the decoder stands: letters of the current quad, bits left over, pads seen since the last letter. */
  datatype State = State(quad: nat, left: nat, pads: nat)

  const START := State(0, 0, 0)

  function Prepend(b: nat, rest: Option<Bytes>): Option<Bytes> {
    if rest.Some? then Some([(b % 256) as byte] + rest.value) else None
  }

  /** The lenient decoder: it skips what is no letter, ignores early pads, and stops once a quad is padded full. */
  function Run(s: string, st: State): Option<Bytes> {
    if s == [] then if st.quad == 0 then Some([]) else None
    else if s[0] == '=' then
      if st.quad < 2 then Run(s[1..], st)
      else if st.quad + st.pads + 1 >= 4 then Some([])
      else Run(s[1..], st.(pads := st.pads + 1))
    else
      var v := Sextet(s[0]);
      if v.None? then Run(s[1..], st)
      else if st.quad == 0 then Run(s[1..], State(1, v.value, 0))
      else if st.quad == 1 then Prepend(st.left * 4 + v.value / 16, Run(s[1..], State(2, v.value % 16, 0)))
      else if st.quad == 2 then Prepend(st.left * 16 + v.value / 4, Run(s[1..], State(3, v.value % 4, 0)))
      else Prepend(st.left * 64 + v.value, Run(s[1..], START))
  }

  /** Decoding of a text; one with a character outside ASCII is refused. */
  function Decode(s: string): Option<Bytes> {
    if exists i :: 0 <= i < |s| && s[i] >= 128 as char then None else Run(s, START)
  }

  lemma RunLetter(v: nat, rest: string, st: State)
    requires v < 64
    ensures Run([Letter(v)] + rest, st) ==
      if st.quad == 0 then Run(rest, State(1, v, 0))
      else if st.quad == 1 then Prepend(st.left * 4 + v / 16, Run(rest, State(2, v % 16, 0)))
      else if st.quad == 2 then Prepend(st.left * 16 + v / 4, Run(rest, State(3, v % 4, 0)))
      else Prepend(st.left * 64 + v, Run(rest, START))
  {
    SextetOfLetter(v);
    RunChar(Letter(v), v, rest, st);
  }

  lemma RunChar(c: char, v: nat, rest: string, st: State)
    requires Sextet(c) == Some(v) && c != '='
    ensures Run([c] + rest, st) ==
      if st.quad == 0 then Run(rest, State(1, v, 0))
      else if st.quad == 1 then Prepend(st.left * 4 + v / 16, Run(rest, State(2, v % 16, 0)))
      else if st.quad == 2 then Prepend(st.left * 16 + v / 4, Run(rest, State(3, v % 4, 0)))
      else Prepend(st.left * 64 + v, Run(rest, START))
  {
    var s := [c] + rest;
    assert s[1..] == rest;
  }

  lemma RunTwo(u: nat, v: nat, rest: string)
    requires u < 64 && v < 64
    ensures Run([Letter(u), Letter(v)] + rest, START) == Prepend(u * 4 + v / 16, Run(rest, State(2, v % 16, 0)))
  {
    var tail := [Letter(v)] + rest;
    RunLetter(u, tail, START);
    RunLetter(v, rest, State(1, u, 0));
    assert [Letter(u), Letter(v)] + rest == [Letter(u)] + tail;
  }

  lemma FourLetters(t: nat, u: nat, v: nat, w: nat, rest: string)
    requires t < 64 && u < 64 && v < 64 && w < 64
    ensures [Letter(t), Letter(u), Letter(v), Letter(w)] + rest ==
      [Letter(t), Letter(u)] + ([Letter(v)] + ([Letter(w)] + rest))
  {
  }

  /** A whole quad decodes to the three bytes it encodes, whatever follows. */
  lemma RunGroup(a: nat, b: nat, c: nat, rest: string)
    requires a < 256 && b < 256 && c < 256
    ensures Run(Group(a, b, c) + rest, START) == Prepend(a, Prepend(b, Prepend(c, Run(rest, START))))
  {
    var t, u, v, w := a / 4, (a % 4) * 16 + b / 16, (b % 16) * 4 + c / 64, c % 64;
    var tail := [Letter(w)] + rest;
    FourLetters(t, u, v, w, rest);
    RunTwo(t, u, [Letter(v)] + tail);
    RunLetter(v, tail, State(2, u % 16, 0));
    RunLetter(w, rest, State(3, v % 4, 0));
    GroupBits(a, b, c, t, u, v, w);
  }

  lemma GroupBits(a: nat, b: nat, c: nat, t: nat, u: nat, v: nat, w: nat)
    requires a < 256 && b < 256 && c < 256
    requires t == a / 4 && u == (a % 4) * 16 + b / 16 && v == (b % 16) * 4 + c / 64 && w == c % 64
    ensures t * 4 + u / 16 == a && (u % 16) * 16 + v / 4 == b && (v % 4) * 64 + w == c
  {
  }

  lemma RunPads(left: nat)
    ensures Run(Pads(2), State(2, left, 0)) == Some([])
    ensures Run(Pads(1), State(3, left, 0)) == Some([])
  {
    assert Pads(2)[1..] == Pads(1);
  }

  lemma PrependLast(a: nat, b: nat)
    requires a < 256 && b < 256
    ensures Prepend(a, Some([])) == Some([a as byte])
    ensures Prepend(a, Prepend(b, Some([]))) == Some([a as byte, b as byte])
  {
    assert [a as byte] + [] == [a as byte] && [b as byte] + [] == [b as byte];
    assert [a as byte] + [b as byte] == [a as byte, b as byte];
  }

  lemma RunOne(a: nat)
    requires a < 256
    ensures Run([Letter(a / 4), Letter((a % 4) * 16)] + Pads(2), START) == Some([a as byte])
  {
    var v := (a % 4) * 16;
    RunTwo(a / 4, v, Pads(2));
    RunPads(v % 16);
    GroupBits(a, 0, 0, a / 4, v, 0, 0);
    PrependLast(a, 0);
  }

  lemma RunTail(a: nat, b: nat)
    requires a < 256 && b < 256
    ensures Run([Letter(a / 4), Letter((a % 4) * 16 + b / 16), Letter((b % 16) * 4)] + Pads(1), START) ==
      Some([a as byte, b as byte])
  {
    var t, u, v := a / 4, (a % 4) * 16 + b / 16, (b % 16) * 4;
    assert [Letter(t), Letter(u), Letter(v)] + Pads(1) == [Letter(t), Letter(u)] + ([Letter(v)] + Pads(1));
    RunTwo(t, u, [Letter(v)] + Pads(1));
    RunLetter(v, Pads(1), State(2, u % 16, 0));
    RunPads(v % 4);
    GroupBits(a, b, 0, t, u, v, 0);
    PrependLast(a, b);
  }

  lemma BareGroup(x: Bytes, rest: string)
    requires |x| >= 3 && rest == Bare(x[3..])
    ensures Bare(x) == Group(x[0] as nat, x[1] as nat, x[2] as nat) + rest && |Bare(x)| == 4 + |rest|
    ensures Bare(x)[|Bare(x)| - 1] == if rest == [] then Letter(x[2] as nat % 64) else rest[|rest| - 1]
  {
  }

  function LettersLeft(n: nat): nat {
    if n % 3 == 0 then 0 else n % 3 + 1
  }

  lemma ThreeMore(n: nat, letters: nat)
    requires n >= 3 && letters % 4 == LettersLeft(n - 3)
    ensures (4 + letters) % 4 == LettersLeft(n) && PadCount(n - 3) == PadCount(n)
  {
  }

  /** Bare letters have the length that padding completes. */
  lemma {:induction false} BareLength(x: Bytes)
    ensures |Bare(x)| % 4 == LettersLeft(|x|)
    ensures Bare(x) == [] || Bare(x)[|Bare(x)| - 1] != '='
    decreases |x|
  {
    if |x| >= 3 {
      var rest := Bare(x[3..]);
      BareLength(x[3..]);
      BareGroup(x, rest);
      ThreeMore(|x|, |rest|);
    }
  }

  lemma {:induction false} EncodeIsBarePadded(x: Bytes)
    ensures Encode(x) == Bare(x) + Pads(PadCount(|x|))
  {
    if |x| >= 3 {
      EncodeIsBarePadded(x[3..]);
      BareLength(x[3..]);
      ThreeMore(|x|, |Bare(x[3..])|);
      BareGroup(x, Bare(x[3..]));
      var group, rest, pads := Group(x[0] as nat, x[1] as nat, x[2] as nat), Bare(x[3..]), Pads(PadCount(|x|));
      assert group + (rest + pads) == (group + rest) + pads;
    }
  }

  lemma {:induction false} StripPads(s: string, k: nat)
    requires s == [] || s[|s| - 1] != '='
    ensures Strip(s + Pads(k)) == s
  {
    if k == 0 {
      assert s + Pads(0) == s;
    } else {
      var padded := s + Pads(k);
      assert padded[|padded| - 1] == '=';
      assert padded[..|padded| - 1] == s + Pads(k - 1);
      StripPads(s, k - 1);
    }
  }

  function PadCount(n: nat): (k: nat)
    ensures k <= 2
  {
    if n % 3 == 0 then 0 else 3 - n % 3
  }

  lemma PadsComplete(n: nat, letters: int)
    requires letters % 4 == LettersLeft(n)
    ensures (-letters) % 4 == PadCount(n)
  {
  }

  /** Stripping the padding leaves the letters, and putting it back restores the encoding. */
  lemma RepadUndoesStrip(x: Bytes)
    ensures Strip(Encode(x)) == Bare(x) && Repad(Strip(Encode(x))) == Encode(x)
  {
    BareLength(x);
    EncodeIsBarePadded(x);
    StripPads(Bare(x), PadCount(|x|));
    PadsComplete(|x|, |Bare(x)|);
  }

  lemma PrependThree(x: Bytes)
    requires |x| >= 3
    ensures Prepend(x[0] as nat, Prepend(x[1] as nat, Prepend(x[2] as nat, Some(x[3..])))) == Some(x)
  {
    assert [x[2]] + x[3..] == x[2..];
    assert [x[1]] + x[2..] == x[1..];
    assert [x[0]] + x[1..] == x;
  }

  lemma {:induction false} RunEncode(x: Bytes)
    ensures Run(Encode(x), START) == Some(x)
    decreases |x|
  {
    if |x| >= 3 {
      RunGroup(x[0] as nat, x[1] as nat, x[2] as nat, Encode(x[3..]));
      RunEncode(x[3..]);
      PrependThree(x);
    } else if x != [] {
      RunShort(x);
    }
  }

  lemma EncodeTwo(a: byte, b: byte)
    ensures Encode([a, b]) ==
      [Letter(a as nat / 4), Letter((a as nat % 4) * 16 + b as nat / 16), Letter((b as nat % 16) * 4)] + Pads(1)
  {
  }

  lemma EncodeOne(a: byte)
    ensures Encode([a]) == [Letter(a as nat / 4), Letter((a as nat % 4) * 16)] + Pads(2)
  {
  }

  lemma RunShort(x: Bytes)
    requires 1 <= |x| <= 2
    ensures Run(Encode(x), START) == Some(x)
  {
    if |x| == 1 {
      RunEncodeOne(x[0]);
      assert x == [x[0]];
    } else {
      RunEncodeTwo(x[0], x[1]);
      assert x == [x[0], x[1]];
    }
  }

  lemma RunEncodeOne(a: byte)
    ensures Run(Encode([a]), START) == Some([a])
  {
    EncodeOne(a);
    RunOne(a as nat);
  }

  lemma RunEncodeTwo(a: byte, b: byte)
    ensures Run(Encode([a, b]), START) == Some([a, b])
  {
    EncodeTwo(a, b);
    RunTail(a as nat, b as nat);
  }

  predicate Ascii(s: string) {
    forall i :: 0 <= i < |s| ==> s[i] < 128 as char
  }

  lemma {:induction false} BareIsAscii(x: Bytes)
    ensures Ascii(Bare(x))
  {
    if x != [] {
      SextetOfLetter(x[0] as nat / 4);
      SextetOfLetter((x[0] as nat % 4) * 16);
      if |x| >= 2 {
        SextetOfLetter((x[0] as nat % 4) * 16 + x[1] as nat / 16);
        SextetOfLetter((x[1] as nat % 16) * 4);
      }
      if |x| >= 3 {
        SextetOfLetter((x[1] as nat % 16) * 4 + x[2] as nat / 64);
        SextetOfLetter(x[2] as nat % 64);
        BareIsAscii(x[3..]);
      }
    }
  }

  /** Stripping, re-padding and decoding undo the encoding of any byte string. */
  lemma DecodeUndoesEncode(x: Bytes)
    ensures Decode(Repad(Strip(Encode(x)))) == Some(x)
  {
    RepadUndoesStrip(x);
    RunEncode(x);
    BareIsAscii(x);
    EncodeIsBarePadded(x);
  }

  /** Hence no two byte strings have the same stripped encoding. */
  lemma StrippedIsInjective(x: Bytes, y: Bytes)
    requires Strip(Encode(x)) == Strip(Encode(y))
    ensures x == y
  {
    DecodeUndoesEncode(x);
    DecodeUndoesEncode(y);
  }

  /** The decoder is lenient: other texts than the encoding decode to the same bytes. */
  lemma DecodeIsLenient()
    ensures Decode(Repad("YQ")) == Some([97]) && Decode(Repad("YR")) == Some([97]) && Strip(Encode([97])) == "YQ"
  {
    DecodeUndoesEncode([97]);
    assert Letter(24) == 'Y' && Letter(16) == 'Q' && Letter(17) == 'R';
    RepadUndoesStrip([97]);
    assert Repad("YR") == [Letter(24), Letter(17)] + Pads(2);
    RunTwo(24, 17, Pads(2));
    RunPads(1);
    assert Ascii(Repad("YR"));
  }
}
