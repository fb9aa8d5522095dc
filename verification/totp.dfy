/** Time-based one-time passwords (RFC 6238 over RFC 4226), from the base32 secret to the
    six digits, and the choice of the secret at enrolment. HMAC-SHA1 is a parameter of
    which only the length of its result is known. */
module Totp {
  import opened Wrappers
  import opened Text
  import opened Bits
  import opened BaseEncoding

  type Mac = f: (bytes, bytes) -> bytes | forall k, m :: |f(k, m)| == 20
    witness (k: bytes, m: bytes) => seq(20, _ => 0)

  const STEP := 30

  const UINT64 := 0x1_0000_0000_0000_0000

  datatype TotpError = EmptySecret | InvalidBase32 | ZeroBytes

  // Normalisation.

  /** unicode.ToUpper, as far as base32 can tell: the letters it maps into ASCII. */
  function ToUpper(c: char): char {
    if c as int == 0x131 then 'I' else if c as int == 0x17F then 'S' else AsciiUpper(c)
  }

  predicate IsBlank(c: char) {
    c == ' ' || c == '\t' || c == '\n' || c == '\r'
  }

  /** The characters that are not blank, in upper case. */
  function Core(s: string): string {
    if s == "" then "" else Kept(s[0]) + Core(s[1..])
  }

  function Kept(c: char): string {
    if IsBlank(c) then "" else [ToUpper(c)]
  }

  function PadToBlock(s: string): string {
    s + Pads(Missing(|s|, 8))
  }

  /** The normal form of a secret. Where a character outside ASCII is left, Go counts its octets
      and may pad differently; such text decodes in neither count. */
  function Normal(s: string): string
  {
    PadToBlock(Core(s))
  }

  function UpperAll(s: string): string {
    seq(|s|, i requires 0 <= i < |s| => ToUpper(s[i]))
  }

  lemma OneMoreChar(b: string, read: string, c: char)
    requires UpperAll(b) == Core(read)
    ensures Core(read + [c]) == if IsBlank(c) then UpperAll(b) else UpperAll(b + [c])
  {
    CoreConcat(read, [c]);
    assert [c][1..] == "" && Core([c]) == (if IsBlank(c) then "" else [ToUpper(c)]) + Core("");
    assert UpperAll(b + [c]) == UpperAll(b) + [ToUpper(c)];
  }

  /** normalizeBase32Secret */
  method NormalizeBase32Secret(secret: string) returns (r: string)
    ensures r == Normal(secret)
  {
    hide Core, UpperAll, ToUpper, PadToBlock;
    var b := "";
    NothingRead();
    for i := 0 to |secret|
      invariant UpperAll(b) == Core(secret[..i])
    {
      OneMoreChar(b, secret[..i], secret[i]);
      assert secret[..i + 1] == secret[..i] + [secret[i]];
      if !IsBlank(secret[i]) {
        b := b + [secret[i]];
      }
    }
    assert secret[..|secret|] == secret;
    var s := UpperAll(b);
    PadsOf(s);
    if s == "" {
      return "";
    }
    if |s| % 8 != 0 {
      s := s + Pads(8 - |s| % 8);
    }
    return s;
  }

  lemma PadsOf(s: string)
    ensures PadToBlock(s) == if |s| % 8 != 0 then s + Pads(8 - |s| % 8) else s
  {
    if |s| % 8 == 0 { assert Pads(0) == ""; }
  }

  lemma NothingRead()
    ensures UpperAll("") == Core("") == ""
  {}

  lemma {:induction false} CoreConcat(a: string, b: string)
    ensures Core(a + b) == Core(a) + Core(b)
  {
    hide Kept;
    if a == "" {
      assert a + b == b;
    } else {
      CoreConcat(a[1..], b);
      assert (a + b)[0] == a[0] && (a + b)[1..] == a[1..] + b;
      ConcatIsAssociative(Kept(a[0]), Core(a[1..]), Core(b));
    }
  }

  lemma ConcatIsAssociative(a: string, b: string, c: string)
    ensures a + (b + c) == (a + b) + c
  {}

  /** Nothing more to normalise. */
  ghost predicate Settled(s: string) {
    forall i | 0 <= i < |s| :: !IsBlank(s[i]) && ToUpper(s[i]) == s[i]
  }

  lemma {:induction false} CoreSettles(s: string)
    ensures Settled(Core(s))
    ensures Settled(s) ==> Core(s) == s
  {
    if s != "" {
      CoreSettles(s[1..]);
      assert s == [s[0]] + s[1..];
      if Settled(s) { assert Settled(s[1..]); }
    }
  }

  lemma PadLength(s: string)
    ensures |PadToBlock(s)| % 8 == 0
    ensures |s| % 8 == 0 ==> PadToBlock(s) == s
  {
    if |s| % 8 == 0 { assert Pads(0) == ""; }
  }

  /** `u` is `c` in upper case: another character only if `c` is a small ASCII letter or one of
      the dotless i and the long s. */
  predicate IsUpperOf(c: char, u: char) {
    if 'a' <= c <= 'z' then u as int + 32 == c as int
    else if c as int == 0x131 then u == 'I'
    else if c as int == 0x17F then u == 'S'
    else u == c
  }

  /** `at` are the places of `s` that hold no blank, in order. */
  ghost predicate AreKept(s: string, at: seq<nat>) {
    && (forall i, j | 0 <= i < j < |at| :: at[i] < at[j])
    && (forall i | 0 <= i < |at| :: at[i] < |s|)
    && (forall p: nat | p < |s| :: p in at <==> s[p] !in {' ', '\t', '\n', '\r'})
  }

  lemma OneMoreKept(s: string, at: seq<nat>, c: char)
    requires AreKept(s, at)
    ensures AreKept(s + [c], if IsBlank(c) then at else at + [|s|])
  {
    var t := s + [c];
    assert forall p: nat | p < |s| :: t[p] == s[p];
    if !IsBlank(c) {
      assert forall p: nat :: p in at + [|s|] <==> p in at || p == |s|;
    }
    assert forall p :: p in at ==> p < |s|;
  }

  lemma KeptIsUpper(c: char)
    ensures if IsBlank(c) then Kept(c) == "" else |Kept(c)| == 1 && IsUpperOf(c, Kept(c)[0])
  {}

  lemma OneMoreUpper(p: string, at: seq<nat>, core: string, c: char, u: char)
    requires |at| == |core| && forall i | 0 <= i < |at| :: at[i] < |p| && IsUpperOf(p[at[i]], core[i])
    requires IsUpperOf(c, u)
    ensures var s, later, full := p + [c], at + [|p|], core + [u];
            forall i | 0 <= i < |later| :: later[i] < |s| && IsUpperOf(s[later[i]], full[i])
  {
    hide IsUpperOf;
  }

  lemma {:induction false} CoreIsKept(s: string) returns (at: seq<nat>)
    ensures AreKept(s, at) && |at| == |Core(s)|
    ensures forall i | 0 <= i < |at| :: at[i] < |s| && IsUpperOf(s[at[i]], Core(s)[i])
  {
    if s == "" {
      at := [];
    } else {
      hide Core, Kept, IsUpperOf, AreKept, IsBlank;
      var p, c := s[..|s| - 1], s[|s| - 1];
      var before := CoreIsKept(p);
      assert s == p + [c];
      CoreConcat(p, [c]);
      CoreOfOne(c);
      KeptIsUpper(c);
      OneMoreKept(p, before, c);
      if IsBlank(c) {
        at := before;
        assert Core(s) == Core(p) + "";
      } else {
        at := before + [|p|];
        OneMoreUpper(p, before, Core(p), c, Kept(c)[0]);
        assert Core(s) == Core(p) + [Kept(c)[0]];
      }
    }
  }

  /** The normal form: what is not blank, in upper case and in order, with fewer than eight
      padding signs that make its length a multiple of eight. */
  lemma NormalMeans(s: string) returns (at: seq<nat>)
    ensures AreKept(s, at) && |at| <= |Normal(s)| < |at| + 8 && |Normal(s)| % 8 == 0
    ensures forall i | 0 <= i < |at| :: IsUpperOf(s[at[i]], Normal(s)[i])
    ensures forall i | |at| <= i < |Normal(s)| :: Normal(s)[i] == '='
  {
    at := CoreIsKept(s);
    MissingCompletes(|Core(s)|, 8);
    hide Core, AreKept, IsUpperOf;
  }

  /** The normal form is its own normal form, and comes in whole base32 quanta. */
  lemma NormalIsNormal(s: string)
    ensures Normal(Normal(s)) == Normal(s)
    ensures |Normal(s)| % 8 == 0
  {
    var c := Core(s);
    CoreSettles(s);
    assert Settled(PadToBlock(c));
    CoreSettles(PadToBlock(c));
    PadLength(c);
    PadLength(PadToBlock(c));
  }

  /** Replacing a part of a secret by one with the same core changes neither its normal form nor
      any code. */
  lemma CoreDecides(a: string, part: string, part': string, b: string)
    requires Core(part) == Core(part')
    ensures Normal(a + part + b) == Normal(a + part' + b)
    ensures forall mac, unix :: CodeAt(mac, a + part + b, unix) == CodeAt(mac, a + part' + b, unix)
  {
    CoreConcat(a + part, b);
    CoreConcat(a, part);
    CoreConcat(a + part', b);
    CoreConcat(a, part');
    hide Core, PadToBlock, Code;
  }

  lemma CoreOfOne(c: char)
    ensures Core([c]) == Kept(c) && Core("") == ""
  {
    assert [c][1..] == "" && Core([c]) == Kept(c) + Core("");
  }

  /** Blanks inserted anywhere do not change the normal form, and so no code. */
  lemma BlankIsIgnored(s: string, i: nat, blank: char)
    requires i <= |s| && blank in {' ', '\t', '\n', '\r'}
    ensures Normal(s[..i] + [blank] + s[i..]) == Normal(s)
    ensures forall mac, unix :: CodeAt(mac, s[..i] + [blank] + s[i..], unix) == CodeAt(mac, s, unix)
  {
    CoreOfOne(blank);
    hide Core, Normal, CodeAt;
    CoreDecides(s[..i], [blank], "", s[i..]);
    assert s == s[..i] + "" + s[i..];
  }

  /** Neither does the case of a letter. */
  lemma CaseIsIgnored(s: string, i: nat, c: char)
    requires i < |s| && (OtherCase(c, s[i]) || ToUpper(c) == ToUpper(s[i]))
    ensures Normal(s[i := c]) == Normal(s)
    ensures forall mac, unix :: CodeAt(mac, s[i := c], unix) == CodeAt(mac, s, unix)
  {
    CoreOfOne(c);
    CoreOfOne(s[i]);
    assert Kept(c) == Kept(s[i]);
    hide Core, Kept, ToUpper, Normal, CodeAt;
    CoreDecides(s[..i], [s[i]], [c], s[i + 1..]);
    assert s == s[..i] + [s[i]] + s[i + 1..] && s[i := c] == s[..i] + [c] + s[i + 1..];
  }

  // The code.

  /** uint64(at.Unix()) / totpStep; a negative time wraps around. */
  function Counter(unix: int): (c: nat)
    ensures c < UINT64
  {
    (unix % UINT64) / STEP
  }

  /** Section 4.2 of RFC 6238: the number of whole steps since 1970. */
  lemma CounterIsSteps(unix: int)
    ensures var t := unix % 0x1_0000_0000_0000_0000; 30 * Counter(unix) <= t < 30 * Counter(unix) + 30
    ensures 0 <= unix < 0x1_0000_0000_0000_0000 ==> 30 * Counter(unix) <= unix < 30 * Counter(unix) + 30
  {}

  /** Eight octets, most significant first. */
  function Message(counter: nat): (m: bytes)
    ensures |m| == 8
  {
    seq(8, i requires 0 <= i < 8 => (counter / Pow256(7 - i)) % 256)
  }

  function FourOctets(a: nat, b: nat, c: nat, d: nat): nat {
    a * 0x100_0000 + b * 0x1_0000 + c * 0x100 + d
  }

  /** Dynamic truncation, section 5.3 of RFC 4226: the 31 low bits of the four octets at
      the offset the low nibble of the last octet gives. */
  function Truncate(sum: bytes): (n: nat)
    requires |sum| == 20
    ensures n < 0x8000_0000
  {
    var o := sum[19] % 16;
    FourOctets(sum[o] as nat % 128, sum[o + 1], sum[o + 2], sum[o + 3])
  }

  /** The last `k` decimal digits of `n`, with leading zeros. */
  function Decimal(n: nat, k: nat): (s: string)
    ensures |s| == k && forall i | 0 <= i < k :: '0' <= s[i] <= '9'
  {
    if k == 0 then "" else Decimal(n / 10, k - 1) + [(48 + n % 10) as char]
  }

  /** The number a digit string denotes. */
  function DecimalValue(s: string): int {
    if s == "" then 0 else 10 * DecimalValue(s[..|s| - 1]) + (s[|s| - 1] as int - 48)
  }

  function Pow10(k: nat): (r: nat)
    ensures r > 0
  {
    if k == 0 then 1 else 10 * Pow10(k - 1)
  }

  lemma {:induction false} DecimalDenotes(n: nat, k: nat)
    requires n < Pow10(k)
    ensures DecimalValue(Decimal(n, k)) == n
  {
    if k > 0 {
      DecimalDenotes(n / 10, k - 1);
      var s := Decimal(n, k);
      assert s[..k - 1] == Decimal(n / 10, k - 1);
    }
  }

  /** The key behind a secret. */
  function KeyOf(secret: string): Option<bytes>
  {
    if Normal(secret) == "" then None else Decode(Base32, Normal(secret))
  }

  function Code(mac: Mac, key: bytes, unix: int): string {
    Decimal(Truncate(mac(key, Message(Counter(unix)))), 6)
  }

  /** The outcome for a secret at an instant. */
  function CodeAt(mac: Mac, secret: string, unix: int): Result<string, TotpError>
  {
    if Normal(secret) == "" then Err(EmptySecret)
    else if KeyOf(secret).None? then Err(InvalidBase32)
    else Ok(Code(mac, KeyOf(secret).value, unix))
  }

  /** binary.BigEndian.PutUint64 */
  method PutUint64(msg: array<byte>, v: nat)
    requires msg.Length == 8 && v < UINT64
    modifies msg
    ensures msg[..] == Message(v)
  {
    for i := 0 to 8
      invariant forall j | 0 <= j < i :: msg[j] == (v / Pow256(7 - j)) % 256
    {
      msg[i] := (v / Pow256(7 - i)) % 256;
    }
  }

  /** totpAt */
  method TotpAt(mac: Mac, secret: string, unix: int) returns (r: Result<string, TotpError>)
    ensures r == CodeAt(mac, secret, unix)
    ensures r.Ok? ==> exists key :: KeyOf(secret) == Some(key) && IsTotp(mac, key, unix, r.value)
  {
    CodeIsTotp(mac, secret, unix);
    hide Decode, Normal, Message, Truncate, Decimal, FourOctets, Number, Pow10, IsTotp;
    var normalized := NormalizeBase32Secret(secret);
    if normalized == "" {
      return Err(EmptySecret);
    }
    var key := Decode(Base32, normalized);
    if key.None? {
      return Err(InvalidBase32);
    }
    DecodedNotEmpty(Base32, normalized);
    if |key.value| == 0 {
      return Err(ZeroBytes);
    }
    var counter := (unix % UINT64) / STEP;
    var msg := new byte[8];
    PutUint64(msg, counter);
    var sum := mac(key.value, msg[..]);
    var offset := sum[|sum| - 1] % 16;
    var truncated := Number(sum[offset..offset + 4]) % 0x8000_0000;
    Truncation(sum);
    var code := truncated % 1_000_000;
    LowDigits(truncated, 6);
    return Ok(Decimal(code, 6));
  }

  lemma BigEndianOfFour(b: bytes)
    requires |b| == 4
    ensures Number(b) == FourOctets(b[0], b[1], b[2], b[3])
  {
    assert b[..3][..2] == b[..2] && b[..2][..1] == b[..1] && b[..1][..0] == [];
    LastOctet(b);
    LastOctet(b[..3]);
    LastOctet(b[..2]);
    LastOctet(b[..1]);
  }

  /** Masking the number the four octets denote is masking the first of them. */
  lemma Truncation(sum: bytes)
    requires |sum| == 20
    ensures var o := sum[19] % 16;
            Number(sum[o..o + 4]) % 0x8000_0000 == Truncate(sum)
  {
    var o := sum[19] % 16;
    BigEndianOfFour(sum[o..o + 4]);
    MaskTop(sum[o], sum[o + 1], sum[o + 2], sum[o + 3]);
  }

  lemma MaskTop(a: byte, b: byte, c: byte, d: byte)
    ensures FourOctets(a, b, c, d) % 0x8000_0000 == FourOctets(a as nat % 128, b, c, d)
  {
    var n: nat := a;
    assert n == 128 * (n / 128) + n % 128;
    QuotientIs(FourOctets(a, b, c, d), 0x8000_0000, n / 128, FourOctets(n % 128, b, c, d));
  }

  /** Printing with six digits prints the value modulo one million. */
  lemma {:induction false} LowDigits(n: nat, k: nat)
    ensures Decimal(n % Pow10(k), k) == Decimal(n, k)
    ensures Pow10(6) == 1_000_000
  {
    assert Pow10(3) == 1000 && Pow10(6) == 1000 * Pow10(3);
    if k > 0 {
      LowDigits(n / 10, k - 1);
      var p := Pow10(k - 1);
      DivModTen(n, p);
    }
  }

  lemma DivModTen(n: nat, p: nat)
    requires p > 0
    ensures (n % (10 * p)) / 10 == (n / 10) % p && (n % (10 * p)) % 10 == n % 10
  {
    var q := (n / 10) / p;
    var r := (n / 10) % p;
    assert n == 10 * (q * p + r) + n % 10;
    assert n == (10 * p) * q + (10 * r + n % 10);
    QuotientIs(n, 10 * p, q, 10 * r + n % 10);
  }

  /** The message is the counter in eight octets. */
  lemma MessageIsCounter(counter: nat)
    requires counter < UINT64
    ensures Number(Message(counter)) == counter
  {
    var m := Message(counter);
    assert m[..8] == m;
    PrefixValue(counter, 8);
  }

  lemma {:induction false} PrefixValue(v: nat, k: nat)
    requires k <= 8 && v < UINT64
    ensures Number(Message(v)[..k]) == v / Pow256(8 - k)
  {
    var m := Message(v);
    if k == 0 {
      EightOctets(v);
    } else {
      var p := Pow256(8 - k);
      assert Pow256(9 - k) == 256 * p && m[k - 1] == (v / p) % 256;
      hide Pow256, Message, Number;
      PrefixValue(v, k - 1);
      assert m[..k][..k - 1] == m[..k - 1];
      LastOctet(m[..k]);
      DivTwice(v, p);
    }
  }

  lemma EightOctets(v: nat)
    requires v < UINT64
    ensures v / Pow256(8) == 0
  {
    assert Pow256(2) == 0x1_0000 && Pow256(4) == 0x1_0000_0000;
    assert Pow256(6) == 0x1_0000_0000_0000 && Pow256(8) == UINT64;
  }

  lemma DivTwice(v: nat, p: nat)
    requires p > 0
    ensures v / (256 * p) == v / p / 256
  {
    var x := v / p;
    var r := v % p + p * (x % 256);
    assert v == p * x + v % p;
    assert p * x == (256 * p) * (x / 256) + p * (x % 256);
    MulSign(p, 255 - x % 256 + 1);
    assert p * (256 - x % 256) == 256 * p - p * (x % 256);
    assert r < 256 * p;
    QuotientIs(v, 256 * p, x / 256, r);
  }

  /** A code has six digits; they denote the truncated value modulo one million. */
  lemma CodeDigits(mac: Mac, key: bytes, unix: int)
    ensures var c := Code(mac, key, unix);
            && |c| == 6 && (forall i | 0 <= i < 6 :: '0' <= c[i] <= '9')
            && DecimalValue(c) == Truncate(mac(key, Message(Counter(unix)))) % 1_000_000
  {
    var t := Truncate(mac(key, Message(Counter(unix))));
    LowDigits(t, 6);
    DecimalDenotes(t % 1_000_000, 6);
  }

  /** Six decimal digits that denote a number. */
  predicate Denotes(code: string, n: nat) {
    && |code| == 6 && (forall i | 0 <= i < 6 :: '0' <= code[i] <= '9')
    && n == 100000 * (code[0] as int - 48) + 10000 * (code[1] as int - 48) + 1000 * (code[2] as int - 48)
            + 100 * (code[3] as int - 48) + 10 * (code[4] as int - 48) + (code[5] as int - 48)
  }

  /** The password of RFC 6238 for a key at a time: the MAC of the number of the current step in
      eight octets, of which the low 31 bits of the four octets at the offset in the last nibble
      are taken modulo one million. */
  ghost predicate IsTotp(mac: Mac, key: bytes, unix: int, code: string) {
    exists m: bytes ::
      && |m| == 8 && 30 * Number(m) <= unix % 0x1_0000_0000_0000_0000 < 30 * Number(m) + 30
      && var sum := mac(key, m);
         var o := sum[19] % 16;
         Denotes(code, Number(sum[o..o + 4]) % 0x8000_0000 % 1_000_000)
  }

  lemma SixDigits(code: string)
    requires |code| == 6 && (forall i | 0 <= i < 6 :: '0' <= code[i] <= '9')
    ensures DecimalValue(code) >= 0 && Denotes(code, DecimalValue(code))
  {
    assert code[..5][..4] == code[..4] && code[..4][..3] == code[..3] && code[..3][..2] == code[..2];
    assert code[..2][..1] == code[..1] && code[..1][..0] == "";
    LastDigit(code[..1]);
    LastDigit(code[..2]);
    LastDigit(code[..3]);
    LastDigit(code[..4]);
    LastDigit(code[..5]);
    LastDigit(code);
    hide DecimalValue;
  }

  lemma LastDigit(s: string)
    requires s != ""
    ensures DecimalValue(s) == 10 * DecimalValue(s[..|s| - 1]) + (s[|s| - 1] as int - 48) && DecimalValue("") == 0
  {}

  lemma CodeIsTotp(mac: Mac, secret: string, unix: int)
    ensures CodeAt(mac, secret, unix).Ok? ==>
              exists key :: KeyOf(secret) == Some(key) && IsTotp(mac, key, unix, CodeAt(mac, secret, unix).value)
  {
    if CodeAt(mac, secret, unix).Ok? {
      var key := KeyOf(secret).value;
      KeyIsTotp(mac, key, unix);
    }
    hide IsTotp, Code, KeyOf, Normal;
  }

  lemma KeyIsTotp(mac: Mac, key: bytes, unix: int)
    ensures IsTotp(mac, key, unix, Code(mac, key, unix))
  {
    hide Code, Truncate, Message, Counter, Number, Denotes, DecimalValue;
    var m := Message(Counter(unix));
    var sum := mac(key, m);
    CounterIsSteps(unix);
    MessageIsCounter(Counter(unix));
    Truncation(sum);
    CodeDigits(mac, key, unix);
    SixDigits(Code(mac, key, unix));
  }

  // The validity window.

  /** Go's `%`, which truncates toward zero. */
  function GoRemainder(a: int, b: int): int
    requires b > 0
  {
    if a >= 0 then a % b else -((-a) % b)
  }

  /** The seconds TOTPNow reports as remaining. */
  function Remaining(unix: int): int {
    STEP - GoRemainder(unix, STEP)
  }

  /** TOTPNow, on the clock it reads */
  method TotpNow(mac: Mac, secret: string, unix: int) returns (r: Result<(string, int), TotpError>)
    ensures r.Err? ==> CodeAt(mac, secret, unix) == Err(r.error)
    ensures r.Ok? ==> CodeAt(mac, secret, unix) == Ok(r.value.0) && r.value.1 == Remaining(unix)
    ensures r.Ok? ==> exists key :: KeyOf(secret) == Some(key) && IsTotp(mac, key, unix, r.value.0)
    ensures r.Ok? && 0 <= unix < UINT64 - STEP ==>
              && 1 <= r.value.1 <= STEP
              && (forall u | unix <= u < unix + r.value.1 :: CodeAt(mac, secret, u) == Ok(r.value.0))
              && Counter(unix + r.value.1) == Counter(unix) + 1
  {
    hide Code, KeyOf, Normal, Counter, IsTotp;
    if 0 <= unix < UINT64 - STEP {
      Window(mac, secret, unix);
    }
    var code := TotpAt(mac, secret, unix);
    if code.Err? {
      return Err(code.error);
    }
    return Ok((code.value, STEP - GoRemainder(unix, STEP)));
  }

  /** The reported window is the one in which this very code stays valid: the counter is the
      same for its whole length and the next one at its end. */
  lemma Window(mac: Mac, secret: string, unix: int)
    requires 0 <= unix < UINT64 - STEP
    ensures 1 <= Remaining(unix) <= STEP
    ensures forall u | unix <= u < unix + Remaining(unix) ::
              Counter(u) == Counter(unix) && CodeAt(mac, secret, u) == CodeAt(mac, secret, unix)
    ensures Counter(unix + Remaining(unix)) == Counter(unix) + 1
  {
    SameStep(unix);
    hide Counter, Remaining, Normal, KeyOf;
  }

  lemma SameStep(unix: int)
    requires 0 <= unix < UINT64 - STEP
    ensures 1 <= Remaining(unix) <= STEP
    ensures forall u | unix <= u < unix + Remaining(unix) :: Counter(u) == Counter(unix)
    ensures Counter(unix + Remaining(unix)) == Counter(unix) + 1
  {}

  /** The report always leads to the beginning of a step. From 1970 on, and before at multiples
      of the step, that is the next one; else before 1970 it leaves 1..30 and is the one after. */
  lemma WindowBefore1970(unix: int)
    ensures 1 <= Remaining(unix) <= STEP <==> unix >= 0 || unix % STEP == 0
    ensures (unix + Remaining(unix)) % STEP == 0 && 0 < Remaining(unix) < 2 * STEP
    ensures Remaining(-1) == 31
  {
    if unix < 0 {
      var q, r := (-unix) / STEP, (-unix) % STEP;
      assert -unix == STEP * q + r;
      assert unix + Remaining(unix) == STEP * (1 - q);
    } else {
      assert unix == STEP * (unix / STEP) + unix % STEP;
    }
  }

  // Enrolment.

  /** The octets of one character in UTF-8. */
  function Utf8Char(c: char): bytes {
    var i := c as int;
    if i < 0x80 then [i]
    else if i < 0x800 then [0xC0 + i / 0x40, 0x80 + i % 0x40]
    else if i < 0x1_0000 then [0xE0 + i / 0x1000, 0x80 + i / 0x40 % 0x40, 0x80 + i % 0x40]
    else [0xF0 + i / 0x4_0000, 0x80 + i / 0x1000 % 0x40, 0x80 + i / 0x40 % 0x40, 0x80 + i % 0x40]
  }

  /** []byte(s) */
  function Utf8(s: string): bytes {
    if s == "" then [] else Utf8Char(s[0]) + Utf8(s[1..])
  }

  /** An octet that follows a lead octet: six bits. */
  predicate Follows(b: int) {
    0x80 <= b < 0xC0
  }

  /** How a character is written, section 3 of RFC 3629: the lead octet tells how many follow, and
      six bits of it are in each of those. */
  lemma Utf8CharMeans(c: char)
    ensures var u: seq<int>, i := Utf8Char(c), c as int;
            if i < 0x80 then u == [i]
            else if i < 0x800 then
              |u| == 2 && 0xC0 <= u[0] < 0xE0 && Follows(u[1]) && (u[0] - 0xC0) * 0x40 + (u[1] - 0x80) == i
            else if i < 0x1_0000 then
              && |u| == 3 && 0xE0 <= u[0] < 0xF0 && Follows(u[1]) && Follows(u[2])
              && (u[0] - 0xE0) * 0x1000 + (u[1] - 0x80) * 0x40 + (u[2] - 0x80) == i
            else
              && |u| == 4 && 0xF0 <= u[0] < 0xF8 && Follows(u[1]) && Follows(u[2]) && Follows(u[3])
              && (u[0] - 0xF0) * 0x4_0000 + (u[1] - 0x80) * 0x1000 + (u[2] - 0x80) * 0x40 + (u[3] - 0x80) == i
  {
    SixBits(c as int);
  }

  /** The digits of `i` in base 64. */
  lemma SixBits(i: nat)
    ensures i == i / 0x40 * 0x40 + i % 0x40
    ensures i == i / 0x1000 * 0x1000 + i / 0x40 % 0x40 * 0x40 + i % 0x40
    ensures i == i / 0x4_0000 * 0x4_0000 + i / 0x1000 % 0x40 * 0x1000 + i / 0x40 % 0x40 * 0x40 + i % 0x40
  {
    var a, x := i / 0x40, i % 0x40;
    var b, y := a / 0x40, a % 0x40;
    var d, z := b / 0x40, b % 0x40;
    assert i == 0x40 * a + x && a == 0x40 * b + y && b == 0x40 * d + z;
    QuotientIs(i, 0x1000, b, 0x40 * y + x);
    QuotientIs(i, 0x4_0000, d, 0x1000 * z + 0x40 * y + x);
  }

  /** A text is written character by character. */
  lemma {:induction false} Utf8OfConcat(a: string, b: string)
    ensures Utf8(a + b) == Utf8(a) + Utf8(b)
  {
    hide Utf8Char;
    if a == "" {
      assert a + b == b;
    } else {
      Utf8OfConcat(a[1..], b);
      assert (a + b)[0] == a[0] && (a + b)[1..] == a[1..] + b;
      BytesAreAssociative(Utf8Char(a[0]), Utf8(a[1..]), Utf8(b));
    }
  }

  lemma BytesAreAssociative(a: bytes, b: bytes, c: bytes)
    ensures a + (b + c) == (a + b) + c
  {}

  lemma Utf8OfOne(c: char)
    ensures Utf8([c]) == Utf8Char(c)
  {
    assert [c][1..] == "" && Utf8([c]) == Utf8Char(c) + Utf8("");
  }

  /** chooseTOTPSecret: the hidden value holds the raw key and is encoded; the visible span,
      already base32, is the fallback when it decodes. */
  function ChooseTotpSecret(span: string, hidden: string): Option<string>
  {
    var raw := TrimSpace(hidden);
    if raw != "" then Some(Encode(Base32, Utf8(raw)))
    else if Normal(span) != "" && Decode(Base32, Normal(span)).Some? then Some(Normal(span))
    else None
  }

  /** Encoded text is already in normal form, and stands for the octets encoded. */
  lemma EncodedIsNormal(data: bytes)
    ensures var s := Encode(Base32, data); Normal(s) == s
    ensures data != [] ==> KeyOf(Encode(Base32, data)) == Some(data)
  {
    var s := Encode(Base32, data);
    EncodedText(Base32, data);
    DecodeEncode(Base32, data);
    hide Encode, Decode, Core, PadToBlock, Pow2;
    forall i | 0 <= i < |s| ensures !IsBlank(s[i]) && ToUpper(s[i]) == s[i] {
      assert s[i] == PAD || DigitOf(Base32, s[i]).Some?;
    }
    CoreSettles(s);
    PadLength(s);
  }

  /** The secret derived from a hidden value stands for exactly the octets of the trimmed
      value: enrolment and every later login use the same key. */
  lemma EnrolmentKey(mac: Mac, span: string, hidden: string, unix: int)
    requires TrimSpace(hidden) != ""
    ensures var s := ChooseTotpSecret(span, hidden);
            && s.Some?
            && KeyOf(s.value) == Some(Utf8(TrimSpace(hidden)))
            && CodeAt(mac, s.value, unix) == Ok(Code(mac, Utf8(TrimSpace(hidden)), unix))
  {
    var key := Utf8(TrimSpace(hidden));
    assert |key| >= |Utf8Char(TrimSpace(hidden)[0])| > 0;
    EncodedIsNormal(key);
  }

  /** A hidden value that is not all blank decides, whatever the span: the key is what is left of
      it between its blank margins. An all blank one leaves the choice to the span. */
  lemma SecretSource(span: string, hidden: string)
    ensures AllSpace(hidden) ==> ChooseTotpSecret(span, hidden) == ChooseTotpSecret(span, "")
    ensures AllSpace(hidden) ==>
              ChooseTotpSecret(span, hidden) == if KeyOf(span).Some? then Some(Normal(span)) else None
    ensures !AllSpace(hidden) ==>
              exists i, j ::
                && 0 <= i < j <= |hidden| && AllSpace(hidden[..i]) && AllSpace(hidden[j..])
                && !IsSpace(hidden[i]) && !IsSpace(hidden[j - 1])
                && var s := ChooseTotpSecret(span, hidden); s.Some? && KeyOf(s.value) == Some(Utf8(hidden[i..j]))
  {
    hide Normal, Utf8, Decode, Encode, TrimSpace;
    var i, j := TrimSpaceMargins(hidden);
    var _, _ := TrimSpaceMargins("");
    if !AllSpace(hidden) {
      EnrolmentKey((k, m) => seq(20, _ => 0), span, hidden, 0);
    }
  }

  /** A secret, wherever it came from, yields a code at every instant. */
  lemma DerivedSecretWorks(mac: Mac, span: string, hidden: string, unix: int)
    requires ChooseTotpSecret(span, hidden).Some?
    ensures var s := ChooseTotpSecret(span, hidden).value;
            Normal(s) == s && CodeAt(mac, s, unix).Ok?
  {
    if TrimSpace(hidden) != "" {
      EnrolmentKey(mac, span, hidden, unix);
      EncodedIsNormal(Utf8(TrimSpace(hidden)));
    } else {
      NormalIsNormal(span);
    }
  }

  /** A secret is refused exactly when its normal form is empty or does not decode; the
      check for a key of zero octets never fires. */
  lemma RefusedSecrets(mac: Mac, secret: string, unix: int)
    ensures CodeAt(mac, secret, unix).Err? <==> KeyOf(secret).None?
    ensures KeyOf(secret).Some? ==> KeyOf(secret).value != []
    ensures CodeAt(mac, secret, unix) == Err(EmptySecret) <==>
              forall i | 0 <= i < |secret| :: secret[i] in {' ', '\t', '\n', '\r'}
    ensures CodeAt(mac, secret, unix) == Err(InvalidBase32) <==>
              && (exists i | 0 <= i < |secret| :: secret[i] !in {' ', '\t', '\n', '\r'})
              && !(exists body, p :: IsPadded(Base32, Normal(secret), body, p))
  {
    var at := NormalMeans(secret);
    DecodesExactlyWhen(Base32, Normal(secret));
    assert Normal(secret) == "" <==> at == [];
    assert at == [] <==> forall i: nat | i < |secret| :: i !in at by {
      if at != [] { assert at[0] in at; }
    }
    hide Normal, IsUpperOf, IsPadded, Decode;
    if KeyOf(secret).Some? { DecodedNotEmpty(Base32, Normal(secret)); }
  }
}
