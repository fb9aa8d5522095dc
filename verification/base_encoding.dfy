/** The base64 and base32 encodings of sections 4 and 6 of RFC 4648, as Go's
    `base64.StdEncoding` and `base32.StdEncoding` implement them: padded, and with
    trailing bits of the last character ignored on decoding. */
module BaseEncoding {
  import opened Wrappers
  import opened Bits

  datatype Base = Base64 | Base32

  const PAD := '='

  /** Bits a character carries. */
  function Width(b: Base): nat {
    if b.Base64? then 6 else 5
  }

  /** Characters of a full quantum. */
  function Block(b: Base): nat {
    if b.Base64? then 4 else 8
  }

  /** The alphabet: table 1 of RFC 4648 for base64, table 3 for base32. */
  function CharOf(b: Base, d: nat): char
    requires d < Pow2(Width(b))
  {
    Powers();
    if d < 26 then (65 + d) as char
    else if b.Base32? then (24 + d) as char
    else if d < 52 then (71 + d) as char
    else if d < 62 then (d - 4) as char
    else if d == 62 then '+'
    else '/'
  }

  function DigitOf(b: Base, c: char): (d: Option<nat>)
    ensures d.Some? ==> d.value < Pow2(Width(b))
  {
    Powers();
    var i := c as int;
    if 'A' <= c <= 'Z' then Some(i - 65)
    else if b.Base32? then if '2' <= c <= '7' then Some(i - 24) else None
    else if 'a' <= c <= 'z' then Some(i - 71)
    else if '0' <= c <= '9' then Some(i + 4)
    else if c == '+' then Some(62)
    else if c == '/' then Some(63)
    else None
  }

  lemma Powers()
    ensures Pow2(5) == 32 && Pow2(6) == 64 && Pow2(8) == 256
  {
    assert Pow2(2) == 4 && Pow2(3) == 8 && Pow2(4) == 16;
    assert Pow2(7) == 128;
  }

  /** The table of section 4 of RFC 4648. */
  lemma Alphabet64(d: nat)
    requires d < 64
    ensures d < Pow2(Width(Base64))
    ensures CharOf(Base64, d) == if d < 26 then "ABCDEFGHIJKLMNOPQRSTUVWXYZ"[d]
                                 else if d < 52 then "abcdefghijklmnopqrstuvwxyz"[d - 26]
                                 else "0123456789+/"[d - 52]
  {
    Powers();
  }

  /** The table of section 6 of RFC 4648. */
  lemma Alphabet32(d: nat)
    requires d < 32
    ensures d < Pow2(Width(Base32)) && CharOf(Base32, d) == "ABCDEFGHIJKLMNOPQRSTUVWXYZ234567"[d]
  {
    Powers();
  }

  lemma DigitOfCharOf(b: Base, d: nat)
    requires d < Pow2(Width(b))
    ensures DigitOf(b, CharOf(b, d)) == Some(d) && CharOf(b, d) != PAD
  {
    Powers();
  }

  function CharsOf(b: Base, ds: seq<nat>): (s: string)
    requires Digits(Width(b), ds)
    ensures |s| == |ds|
  {
    if ds == [] then "" else [CharOf(b, ds[0])] + CharsOf(b, ds[1..])
  }

  function DigitsOf(b: Base, s: string): (ds: Option<seq<nat>>)
    ensures ds.Some? ==> |ds.value| == |s| && Digits(Width(b), ds.value)
  {
    if s == "" then Some([])
    else
      var first := DigitOf(b, s[0]);
      var rest := DigitsOf(b, s[1..]);
      if first.Some? && rest.Some? then Some([first.value] + rest.value) else None
  }

  lemma {:induction false} DigitsOfCharsOf(b: Base, ds: seq<nat>)
    requires Digits(Width(b), ds)
    ensures DigitsOf(b, CharsOf(b, ds)) == Some(ds)
    ensures PAD !in CharsOf(b, ds)
  {
    if ds != [] {
      DigitOfCharOf(b, ds[0]);
      DigitsOfCharsOf(b, ds[1..]);
      var s := CharsOf(b, ds);
      assert s[0] == CharOf(b, ds[0]) && s[1..] == CharsOf(b, ds[1..]);
      assert ds == [ds[0]] + ds[1..];
    }
  }

  function Octets(data: bytes): (ds: seq<nat>)
    ensures |ds| == |data| && Digits(8, ds)
    ensures forall i | 0 <= i < |ds| :: ds[i] == data[i]
  {
    Powers();
    seq(|data|, i requires 0 <= i < |data| => data[i] as nat)
  }

  function OctetsToBytes(ds: seq<nat>): (data: bytes)
    requires Digits(8, ds)
    ensures |data| == |ds| && forall i | 0 <= i < |ds| :: ds[i] == data[i]
  {
    Powers();
    seq(|ds|, i requires 0 <= i < |ds| => ds[i])
  }

  function Zeros(n: nat): (b: seq<bool>)
    ensures |b| == n
  {
    seq(n, _ => false)
  }

  function Pads(n: nat): (s: string)
    ensures |s| == n && forall i | 0 <= i < n :: s[i] == PAD
  {
    seq(n, _ => PAD)
  }

  /** Distance from `n` up to the next multiple of `m`. */
  function Missing(n: nat, m: nat): nat
    requires m > 0
  {
    (m - n % m) % m
  }

  lemma MissingCompletes(n: nat, m: nat)
    requires m > 0
    ensures Missing(n, m) < m && (n + Missing(n, m)) % m == 0
  {
    if n % m == 0 {
      assert Missing(n, m) == 0 by { assert m * 1 == m; ModOfMultiple(m, 1); }
    } else {
      assert Missing(n, m) == m - n % m;
      assert n + (m - n % m) == m * (n / m + 1);
      ModOfMultiple(m, n / m + 1);
    }
  }

  /** The bits of the data, with zero bits added on the right up to a whole character. */
  function PaddedBits(b: Base, data: bytes): (bits: seq<bool>)
    ensures |bits| % Width(b) == 0 && 8 * |data| <= |bits| < 8 * |data| + Width(b)
  {
    MissingCompletes(8 * |data|, Width(b));
    Spread(8, Octets(data)) + Zeros(Missing(8 * |data|, Width(b)))
  }

  /** EncodeToString */
  function Encode(b: Base, data: bytes): string {
    var ds := Gather(Width(b), PaddedBits(b, data));
    CharsOf(b, ds) + Pads(Missing(|ds|, Block(b)))
  }

  function TrailingPads(s: string): (n: nat)
    ensures n <= |s|
  {
    if s != "" && s[|s| - 1] == PAD then 1 + TrailingPads(s[..|s| - 1]) else 0
  }

  /** The whole octets in the bits of the digits. */
  function OctetsOf(b: Base, ds: seq<nat>): bytes
    requires Digits(Width(b), ds)
  {
    var bits := Spread(Width(b), ds);
    WholeOctets(|bits|);
    OctetsToBytes(Gather(8, bits[..|bits| / 8 * 8]))
  }

  /** `n` characters of which `p` are padding make whole quanta, and the others whole octets with
      fewer spare bits than one of them carries. */
  predicate WholeQuanta(b: Base, n: nat, p: nat)
    requires p <= n
  {
    n % Block(b) == 0 && p < Block(b) && (Width(b) * (n - p)) % 8 < Width(b)
  }

  /** DecodeString, on text without line breaks. The text is whole quanta; only the last
      may be padded, and then only as far as whole octets remain. */
  function Decode(b: Base, s: string): (data: Option<bytes>) {
    var p := TrailingPads(s);
    var body := s[..|s| - p];
    var ds := DigitsOf(b, body);
    if ds.None? || !WholeQuanta(b, |s|, p) then None
    else Some(OctetsOf(b, ds.value))
  }

  lemma WholeOctets(n: nat)
    ensures n / 8 * 8 <= n && (n / 8 * 8) % 8 == 0
  {}

  lemma {:induction false} TrailingPadsOf(s: string, n: nat)
    requires PAD !in s
    ensures TrailingPads(s + Pads(n)) == n
  {
    var t := s + Pads(n);
    if n > 0 {
      assert t[..|t| - 1] == s + Pads(n - 1);
      TrailingPadsOf(s, n - 1);
    } else {
      assert t == s;
      if s != "" { assert s[|s| - 1] in s; }
    }
  }

  /** Of `m` characters carrying `n` octets and fewer spare bits than one more character. */
  lemma Quanta(b: Base, n: nat, m: nat)
    requires 8 * n <= Width(b) * m < 8 * n + Width(b)
    ensures (Width(b) * m) % 8 < Width(b) && (Width(b) * m) / 8 == n
    ensures Missing(m, Block(b)) < Block(b) && (m + Missing(m, Block(b))) % Block(b) == 0
  {
    var x := Width(b) * m;
    QuotientIs(x, 8, n, x - 8 * n);
    MissingCompletes(m, Block(b));
  }

  /** The text Encode builds, taken apart again. */
  lemma EncodedParts(b: Base, data: bytes)
    ensures var ds := Gather(Width(b), PaddedBits(b, data));
            var s := Encode(b, data);
            && |s| % Block(b) == 0
            && TrailingPads(s) == Missing(|ds|, Block(b)) < Block(b)
            && s[..|s| - TrailingPads(s)] == CharsOf(b, ds)
  {
    hide Gather, PaddedBits, CharsOf, TrailingPads, Missing;
    var ds := Gather(Width(b), PaddedBits(b, data));
    Quanta(b, |data|, |ds|);
    DigitsOfCharsOf(b, ds);
    PadsComeOff(CharsOf(b, ds), Missing(|ds|, Block(b)));
  }

  lemma PadsComeOff(body: string, p: nat)
    requires PAD !in body
    ensures var s := body + Pads(p); TrailingPads(s) == p && s[..|s| - p] == body
  {
    TrailingPadsOf(body, p);
  }

  /** Fewer than eight bits after whole octets do not count. */
  lemma SpareBits(data: bytes, spare: seq<bool>)
    requires |spare| < 8
    ensures var bits := Spread(8, Octets(data)) + spare;
            |bits| / 8 * 8 == 8 * |data| && bits[..8 * |data|] == Spread(8, Octets(data))
  {}

  /** Reading the digits of the data back into octets. */
  lemma OctetsOfPaddedBits(b: Base, data: bytes)
    ensures OctetsOf(b, Gather(Width(b), PaddedBits(b, data))) == data
  {
    SpreadGather(Width(b), PaddedBits(b, data));
    MissingCompletes(8 * |data|, Width(b));
    SpareBits(data, Zeros(Missing(8 * |data|, Width(b))));
    GatherSpread(8, Octets(data));
  }

  /** Decoding undoes encoding, in both alphabets and for every length. */
  lemma DecodeEncode(b: Base, data: bytes)
    ensures Decode(b, Encode(b, data)) == Some(data)
  {
    var ds := Gather(Width(b), PaddedBits(b, data));
    EncodedParts(b, data);
    DigitsOfCharsOf(b, ds);
    Quanta(b, |data|, |ds|);
    OctetsOfPaddedBits(b, data);
  }

  /** Encoded text has only alphabet characters and padding, and comes in whole quanta. */
  lemma EncodedText(b: Base, data: bytes)
    ensures var s := Encode(b, data);
            |s| % Block(b) == 0 && (data != [] ==> s != "")
            && forall i | 0 <= i < |s| :: s[i] == PAD || DigitOf(b, s[i]).Some?
  {
    var ds := Gather(Width(b), PaddedBits(b, data));
    CharsInAlphabet(b, ds);
    EncodedParts(b, data);
    var s := Encode(b, data);
    assert forall i | 0 <= i < |ds| :: s[i] == CharsOf(b, ds)[i];
  }

  /** Three octets take four characters in base64, five take eight in base32, and a begun group
      takes as many as a whole one. */
  lemma EncodedLength(data: bytes)
    ensures |Encode(Base64, data)| == 4 * ((|data| + 2) / 3)
    ensures |Encode(Base32, data)| == 8 * ((|data| + 4) / 5)
  {
    GroupsOf(Base64, data);
    GroupsOf(Base32, data);
  }

  lemma GroupsOf(b: Base, data: bytes)
    ensures var n := |Encode(b, data)|;
            n == if b.Base64? then 4 * ((|data| + 2) / 3) else 8 * ((|data| + 4) / 5)
  {
    hide Gather, PaddedBits, Missing;
    var ds := Gather(Width(b), PaddedBits(b, data));
    MissingCompletes(|ds|, Block(b));
    if b.Base64? {
      Groups64(|data|, |ds|, |ds| + Missing(|ds|, 4));
    } else {
      Groups32(|data|, |ds|, |ds| + Missing(|ds|, 8));
    }
  }

  lemma Groups64(d: nat, m: nat, n: nat)
    requires 8 * d <= 6 * m < 8 * d + 6 && m <= n < m + 4 && n % 4 == 0
    ensures n == 4 * ((d + 2) / 3)
  {
    var q := n / 4;
    assert n == 4 * q && d <= 3 * q <= d + 2;
  }

  lemma Groups32(d: nat, m: nat, n: nat)
    requires 8 * d <= 5 * m < 8 * d + 5 && m <= n < m + 8 && n % 8 == 0
    ensures n == 8 * ((d + 4) / 5)
  {
    var q := n / 8;
    assert n == 8 * q && d <= 5 * q <= d + 4;
  }

  /** A character of the base64 or base32 alphabet. */
  predicate InAlphabet(b: Base, c: char) {
    || 'A' <= c <= 'Z'
    || (b.Base64? && ('a' <= c <= 'z' || '0' <= c <= '9' || c == '+' || c == '/'))
    || (b.Base32? && '2' <= c <= '7')
  }

  lemma {:induction false} DigitsWhenInAlphabet(b: Base, s: string)
    ensures DigitsOf(b, s).Some? <==> forall i | 0 <= i < |s| :: InAlphabet(b, s[i])
  {
    if s != "" {
      DigitsWhenInAlphabet(b, s[1..]);
      assert s == [s[0]] + s[1..];
      assert DigitOf(b, s[0]).Some? <==> InAlphabet(b, s[0]);
    }
  }

  /** `body` padded with `p` signs is a text to decode: characters of the alphabet in whole quanta,
      of which the last may hold one or two octets in base64, and one to four in base32. */
  ghost predicate IsPadded(b: Base, s: string, body: string, p: nat) {
    && s == body + seq(p, _ => '=')
    && (forall i | 0 <= i < |body| :: InAlphabet(b, body[i]))
    && if b.Base64? then |s| % 4 == 0 && p <= 2 else |s| % 8 == 0 && p in {0, 1, 3, 4, 6}
  }

  lemma {:induction false} PadsAreTrailing(s: string)
    ensures var p := TrailingPads(s);
            s == s[..|s| - p] + seq(p, _ => '=') && (|s| > p ==> s[|s| - p - 1] != '=')
  {
    if s != "" && s[|s| - 1] == PAD {
      var t := s[..|s| - 1];
      PadsAreTrailing(t);
      var p := TrailingPads(t);
      assert t[..|t| - p] == s[..|s| - (p + 1)];
    }
  }

  /** What decodes. */
  lemma DecodesExactlyWhen(b: Base, s: string)
    ensures Decode(b, s).Some? <==> exists body, p :: IsPadded(b, s, body, p)
  {
    hide Decode, IsPadded;
    if Decode(b, s).Some? {
      DecodesOnlyPadded(b, s);
    }
    if body, p: nat :| IsPadded(b, s, body, p) {
      PaddedDecodes(b, s, body, p);
    }
  }

  lemma DecodesOnlyPadded(b: Base, s: string)
    requires Decode(b, s).Some?
    ensures IsPadded(b, s, s[..|s| - TrailingPads(s)], TrailingPads(s))
  {
    hide DigitsOf, OctetsOf, TrailingPads, WholeQuanta, InAlphabet;
    var n := TrailingPads(s);
    var body := s[..|s| - n];
    PadsAreTrailing(s);
    DigitsWhenInAlphabet(b, body);
    PadCounts(b, |s|, n);
  }

  lemma PaddedDecodes(b: Base, s: string, body: string, p: nat)
    requires IsPadded(b, s, body, p)
    ensures Decode(b, s).Some?
  {
    assert seq(p, _ => '=') == Pads(p);
    hide DigitsOf, OctetsOf, TrailingPads, WholeQuanta;
    assert !InAlphabet(b, PAD);
    assert PAD !in body;
    PadsComeOff(body, p);
    DigitsWhenInAlphabet(b, body);
    PadCounts(b, |s|, p);
  }

  lemma PadCounts(b: Base, n: nat, p: nat)
    requires p <= n
    ensures WholeQuanta(b, n, p) <==> if b.Base64? then n % 4 == 0 && p <= 2 else n % 8 == 0 && p in {0, 1, 3, 4, 6}
  {
    if b.Base64? && n % 4 == 0 {
      PadCounts64(n / 4, p);
    } else if b.Base32? && n % 8 == 0 {
      PadCounts32(n / 8, p);
    }
  }

  lemma PadCounts64(q: nat, p: nat)
    requires p <= 4 * q
    ensures p < 4 && (6 * (4 * q - p)) % 8 < 6 <==> p <= 2
  {
    assert 6 * (4 * q - p) == 8 * (3 * q - p) + 2 * p;
  }

  lemma PadCounts32(q: nat, p: nat)
    requires p <= 8 * q
    ensures p < 8 && (5 * (8 * q - p)) % 8 < 5 <==> p in {0, 1, 3, 4, 6}
  {
    assert 5 * (8 * q - p) == 8 * (5 * q - p) + 3 * p;
  }

  lemma {:induction false} CharsInAlphabet(b: Base, ds: seq<nat>)
    requires Digits(Width(b), ds)
    ensures forall i | 0 <= i < |ds| :: DigitOf(b, CharsOf(b, ds)[i]).Some?
  {
    if ds != [] {
      DigitOfCharOf(b, ds[0]);
      CharsInAlphabet(b, ds[1..]);
    }
  }

  /** Whatever decodes and is not empty holds at least one octet. */
  lemma DecodedNotEmpty(b: Base, s: string)
    requires s != "" && Decode(b, s).Some?
    ensures Decode(b, s).value != []
  {
    var p := TrailingPads(s);
    assert |s| >= Block(b) > p;
    assert Width(b) * (|s| - p) >= 8;
  }

  /** What decoding yields: the digits denote the number of the octets, followed by fewer spare bits
      than a character has. */
  lemma DecodedNumber(b: Base, s: string) returns (ds: seq<nat>, spare: nat, rest: nat)
    requires Decode(b, s).Some?
    ensures Digits(Width(b), ds) && s[..|s| - TrailingPads(s)] == CharsOf(b, ds)
    ensures var data := Decode(b, s).value;
            && Width(b) * |ds| == 8 * |data| + spare && spare < Width(b)
            && rest < Pow2(spare) && Value(Width(b), ds) == Number(data) * Pow2(spare) + rest
  {
    var body := s[..|s| - TrailingPads(s)];
    ds := DigitsOf(b, body).value;
    CharsOfDigitsOf(b, body);
    spare, rest := OctetsNumber(b, ds);
  }

  lemma {:induction false} CharsOfDigitsOf(b: Base, s: string)
    requires DigitsOf(b, s).Some?
    ensures CharsOf(b, DigitsOf(b, s).value) == s
  {
    if s != "" {
      CharsOfDigitsOf(b, s[1..]);
      var ds := DigitsOf(b, s).value;
      assert ds[1..] == DigitsOf(b, s[1..]).value;
      assert CharOf(b, ds[0]) == s[0];
    }
  }

  lemma OctetsNumber(b: Base, ds: seq<nat>) returns (spare: nat, rest: nat)
    requires Digits(Width(b), ds) && (Width(b) * |ds|) % 8 < Width(b)
    ensures var data := OctetsOf(b, ds);
            && Width(b) * |ds| == 8 * |data| + spare && spare < Width(b)
            && rest < Pow2(spare) && Value(Width(b), ds) == Number(data) * Pow2(spare) + rest
  {
    hide Value, NatOf, Spread, Gather, Pow2;
    var bits := Spread(Width(b), ds);
    WholeOctets(|bits|);
    var whole := |bits| / 8 * 8;
    var head, tail := bits[..whole], bits[whole..];
    assert bits == head + tail;
    spare, rest := |tail|, NatOf(tail);
    SpreadKeepsValue(Width(b), ds);
    NatOfConcat(head, tail);
    SpreadGather(8, head);
    SpreadKeepsValue(8, Gather(8, head));
    assert OctetsOf(b, ds) == Gather(8, head);
  }

  lemma {:induction false} ZerosAreZero(n: nat)
    ensures NatOf(Zeros(n)) == 0
  {
    if n > 0 {
      ZerosAreZero(n - 1);
      assert Zeros(n)[..n - 1] == Zeros(n - 1);
    }
  }

  /** What the characters say: read as digits they are the number the octets are in base 256,
      moved left by the spare bits. */
  lemma EncodedNumber(b: Base, data: bytes)
    ensures var ds := Gather(Width(b), PaddedBits(b, data));
            && Encode(b, data) == CharsOf(b, ds) + Pads(Missing(|ds|, Block(b)))
            && Value(Width(b), ds) == Number(data) * Pow2(Missing(8 * |data|, Width(b)))
  {
    assert Octets(data) == data;
    hide Value, NatOf, Spread, Gather, Pow2;
    var bits := PaddedBits(b, data);
    var z := Missing(8 * |data|, Width(b));
    SpreadGather(Width(b), bits);
    SpreadKeepsValue(Width(b), Gather(Width(b), bits));
    SpreadKeepsValue(8, Octets(data));
    NatOfConcat(Spread(8, Octets(data)), Zeros(z));
    ZerosAreZero(z);
  }
}
