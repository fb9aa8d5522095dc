/** Definite-length DER as ITU-T X.690 defines it: the writer Go's `asn1.Marshal` applies
    to a SEQUENCE OF raw elements, and a reader written from the standard. */
module Der {
  import opened Wrappers
  import opened Bits

  /** Go lengths are 64-bit signed. */
  const MAX_LENGTH := 0x8000_0000_0000_0000

  const SEQUENCE: byte := 0x30

  /** `n` in base 256, most significant octet first, without leading zeros. */
  function BigEndian(n: nat): (b: bytes)
    ensures n > 0 ==> b != [] && b[0] != 0
  {
    if n == 0 then [] else BigEndian(n / 256) + [n % 256]
  }

  /** Length octets: section 8.1.3.4 (short form) and 8.1.3.5 (long form), the shortest as
      section 10.1 asks. */
  function LengthOctets(n: nat): bytes
    requires n < MAX_LENGTH
  {
    if n < 128 then [n]
    else
      BigEndianSize(n, 8);
      [0x80 + |BigEndian(n)|] + BigEndian(n)
  }

  /** The octets themselves, in the short form and in the long forms of one, two and three octets. */
  lemma LengthOctetsAre(n: nat)
    requires n < 0x100_0000
    ensures LengthOctets(n) == if n < 128 then [n]
                               else if n < 256 then [0x81, n]
                               else if n < 0x1_0000 then [0x82, n / 256, n % 256]
                               else [0x83, n / 0x1_0000, n / 256 % 256, n % 256]
  {
    var m := n / 256;
    assert BigEndian(n / 0x100_0000) == [];
    assert BigEndian(m / 256) == if m / 256 == 0 then [] else [m / 256];
    assert BigEndian(m) == if m == 0 then [] else BigEndian(m / 256) + [m % 256];
    assert BigEndian(n) == if n == 0 then [] else BigEndian(m) + [n % 256];
  }

  lemma {:induction false} BigEndianSize(n: nat, k: nat)
    requires k <= 8 && n < MAX_LENGTH
    requires k < 8 ==> n < Pow256(k)
    ensures |BigEndian(n)| <= k
  {
    if k == 8 {
      assert MAX_LENGTH <= Pow256(8);
    }
    if n > 0 { BigEndianSize(n / 256, k - 1); }
  }

  function Concat(elements: seq<bytes>): bytes {
    if elements == [] then [] else elements[0] + Concat(elements[1..])
  }

  /** asn1.Marshal of a slice of raw values (section 8.10). A raw value without bytes of
      its own is written as an empty element of tag 0. */
  function SequenceOf(elements: seq<bytes>): bytes
    requires |Concat(Written(elements))| < MAX_LENGTH
  {
    var content := Concat(Written(elements));
    [SEQUENCE] + LengthOctets(|content|) + content
  }

  function Written(elements: seq<bytes>): (w: seq<bytes>)
    ensures |w| == |elements|
    ensures forall i | 0 <= i < |w| :: w[i] == if elements[i] == [] then [0, 0] else elements[i]
  {
    seq(|elements|, i requires 0 <= i < |elements| => if elements[i] == [] then [0, 0] else elements[i])
  }

  // The reader.

  /** How many octets the identifier takes: section 8.1.2, with the long form of 8.1.2.4. */
  function IdentifierSize(b: bytes): (n: Option<nat>)
    ensures n.Some? ==> 0 < n.value <= |b|
  {
    if b == [] then None
    else if b[0] % 32 != 31 then Some(1)
    else
      var k := ContinuationSize(b[1..]);
      if k.None? then None else Some(1 + k.value)
  }

  /** Octets with bit 8 set, and the first one without it. */
  function ContinuationSize(b: bytes): (n: Option<nat>)
    ensures n.Some? ==> 0 < n.value <= |b|
  {
    if b == [] then None
    else if b[0] < 128 then Some(1)
    else
      var k := ContinuationSize(b[1..]);
      if k.None? then None else Some(1 + k.value)
  }

  /** The length at the head of `b` and how many octets it takes. Refused are the
      indefinite form, the reserved octet 255, and a form longer than needed. */
  function ReadLength(b: bytes): (r: Option<(nat, nat)>)
    ensures r.Some? ==> 0 < r.value.1 <= |b|
  {
    if b == [] then None
    else if b[0] < 128 then Some((b[0] as nat, 1))
    else
      var k := b[0] - 128;
      if k == 0 || k == 127 || |b| < 1 + k then None
      else
        var n := Number(b[1..1 + k]);
        if b[1] == 0 || n < 128 then None else Some((n, 1 + k))
  }

  /** What identifier octets are: one octet, or one whose low five bits are all set and others
      after it, of which only the last has bit 8 clear. */
  lemma IdentifierMeans(b: bytes, n: nat)
    ensures IdentifierSize(b) == Some(n) <==>
              || (n == 1 && b != [] && b[0] % 32 != 31)
              || (2 <= n <= |b| && b[0] % 32 == 31 && b[n - 1] < 128 && forall j | 1 <= j < n - 1 :: b[j] >= 128)
  {
    if b != [] && n >= 2 {
      ContinuationMeans(b[1..], n - 1);
      var rest := b[1..];
      assert forall j | 0 <= j < |rest| :: rest[j] == b[j + 1];
      if n <= |b| && forall j | 0 <= j < n - 2 :: rest[j] >= 128 {
        forall j | 1 <= j < n - 1 ensures b[j] >= 128 {
          assert rest[j - 1] >= 128;
        }
      }
    }
  }

  lemma {:induction false} ContinuationMeans(b: bytes, n: nat)
    requires n > 0
    ensures ContinuationSize(b) == Some(n) <==> n <= |b| && b[n - 1] < 128 && forall j | 0 <= j < n - 1 :: b[j] >= 128
  {
    if b != [] && b[0] >= 128 {
      var rest := b[1..];
      if n > 1 {
        ContinuationMeans(rest, n - 1);
      }
      assert forall j | 0 <= j < |rest| :: rest[j] == b[j + 1];
      if n > 1 && n <= |b| && forall j | 0 <= j < n - 2 :: rest[j] >= 128 {
        forall j | 0 <= j < n - 1 ensures b[j] >= 128 {
          if j > 0 { assert rest[j - 1] >= 128; }
        }
      }
    }
  }

  /** The size of the element at the head of `b`. */
  function ElementSize(b: bytes): (n: Option<nat>)
    ensures n.Some? ==> 0 < n.value <= |b|
  {
    var id := IdentifierSize(b);
    if id.None? then None
    else
      var len := ReadLength(b[id.value..]);
      if len.None? then None
      else
        var total := id.value + len.value.1 + len.value.0;
        if total <= |b| then Some(total) else None
  }

  /** One whole element and nothing after it. */
  predicate IsElement(b: bytes) {
    ElementSize(b) == Some(|b|)
  }

  /** Cuts `b` into the elements it consists of. */
  function Split(b: bytes): Option<seq<bytes>> {
    if b == [] then Some([])
    else
      var n := ElementSize(b);
      if n.None? then None
      else
        var rest := Split(b[n.value..]);
        if rest.None? then None else Some([b[..n.value]] + rest.value)
  }

  /** Reads a SEQUENCE OF that takes up all of `b`. */
  function ReadSequenceOf(b: bytes): Option<seq<bytes>> {
    if b == [] || b[0] != SEQUENCE then None
    else
      var len := ReadLength(b[1..]);
      if len.None? || 1 + len.value.1 + len.value.0 != |b| then None
      else Split(b[1 + len.value.1..])
  }

  lemma {:induction false} NumberOfBigEndian(n: nat)
    ensures Number(BigEndian(n)) == n
  {
    if n > 0 {
      NumberOfBigEndian(n / 256);
      var b := BigEndian(n);
      assert b[..|b| - 1] == BigEndian(n / 256);
      LastOctet(b);
    }
  }

  lemma {:induction false} BigEndianOfNumber(b: bytes)
    requires b != [] ==> b[0] != 0
    ensures BigEndian(Number(b)) == b
  {
    if b != [] {
      var p := b[..|b| - 1];
      BigEndianOfNumber(p);
      LastOctet(b);
      if p == [] { assert b == [b[0]]; } else { assert Number(p) > 0; }
      assert Number(b) / 256 == Number(p);
    }
  }

  lemma ReadLengthOctets(n: nat, rest: bytes)
    requires n < MAX_LENGTH
    ensures ReadLength(LengthOctets(n) + rest) == Some((n, |LengthOctets(n)|))
  {
    if n >= 128 {
      BigEndianSize(n, 8);
      NumberOfBigEndian(n);
      var m := BigEndian(n);
      assert 0 < |m| <= 8 && m[0] != 0;
      hide BigEndian, Number;
      var b := LengthOctets(n) + rest;
      assert b == [0x80 + |m|] + m + rest;
      assert b[0] == 0x80 + |m| && b[1] == m[0] && b[1..1 + |m|] == m;
    }
  }

  lemma {:induction false} ContinuationPrefix(b: bytes, rest: bytes)
    requires ContinuationSize(b).Some?
    ensures ContinuationSize(b + rest) == ContinuationSize(b)
  {
    if b[0] >= 128 {
      ContinuationPrefix(b[1..], rest);
      assert (b + rest)[1..] == b[1..] + rest;
    }
  }

  /** What follows an element does not change how it is read. */
  lemma ElementPrefix(b: bytes, rest: bytes)
    requires ElementSize(b).Some?
    ensures ElementSize(b + rest) == ElementSize(b)
  {
    var id := IdentifierSize(b).value;
    if b[0] % 32 == 31 {
      ContinuationPrefix(b[1..], rest);
      assert (b + rest)[1..] == b[1..] + rest;
    }
    assert IdentifierSize(b + rest) == Some(id);
    var tail := b[id..];
    assert (b + rest)[id..] == tail + rest;
    var used := ReadLength(tail).value.1;
    assert (tail + rest)[1..used] == tail[1..used];
    assert ReadLength(tail + rest) == ReadLength(tail);
  }

  /** Cutting undoes concatenation of whole elements. */
  lemma {:induction false} SplitConcat(elements: seq<bytes>)
    requires forall i | 0 <= i < |elements| :: IsElement(elements[i])
    ensures Split(Concat(elements)) == Some(elements)
  {
    if elements != [] {
      var rest := Concat(elements[1..]);
      var b := elements[0] + rest;
      ElementPrefix(elements[0], rest);
      SplitConcat(elements[1..]);
      assert b[..|elements[0]|] == elements[0] && b[|elements[0]|..] == rest;
      assert elements == [elements[0]] + elements[1..];
    }
  }

  /** And concatenation undoes cutting, which yields whole elements only. */
  lemma {:induction false} ConcatSplit(b: bytes)
    requires Split(b).Some?
    ensures Concat(Split(b).value) == b
    ensures forall i | 0 <= i < |Split(b).value| :: IsElement(Split(b).value[i])
    decreases |b|
  {
    hide ElementSize;
    if b != [] {
      var n := ElementSize(b).value;
      ConcatSplit(b[n..]);
      assert Split(b).value[1..] == Split(b[n..]).value;
      assert b == b[..n] + b[n..];
      CutElement(b);
    }
  }

  /** The element at the head of `b`, cut off, is read the same. */
  lemma CutElement(b: bytes)
    requires ElementSize(b).Some?
    ensures IsElement(b[..ElementSize(b).value])
  {
    hide Number;
    var n := ElementSize(b).value;
    var e := b[..n];
    var id := IdentifierSize(b).value;
    if b[0] % 32 == 31 {
      CutContinuation(b[1..], n - 1);
      assert e[1..] == b[1..][..n - 1];
    }
    assert IdentifierSize(e) == Some(id);
    var used := ReadLength(b[id..]).value.1;
    assert e[id..] == b[id..][..n - id];
    assert e[id..][1..used] == b[id..][1..used];
  }

  lemma {:induction false} CutContinuation(b: bytes, n: nat)
    requires ContinuationSize(b).Some? && ContinuationSize(b).value <= n <= |b|
    ensures ContinuationSize(b[..n]) == ContinuationSize(b)
  {
    if b[0] >= 128 {
      CutContinuation(b[1..], n - 1);
      assert b[..n][1..] == b[1..][..n - 1];
    }
  }

  lemma HeaderParts(tag: byte, n: bytes, content: bytes)
    ensures var b := [tag] + n + content;
            b[0] == tag && |b| == 1 + |n| + |content| && b[1..] == n + content && b[1 + |n|..] == content
  {}

  /** The header comes off again. */
  lemma ReadContent(content: bytes)
    requires |content| < MAX_LENGTH
    ensures ReadSequenceOf([SEQUENCE] + LengthOctets(|content|) + content) == Split(content)
  {
    ReadLengthOctets(|content|, content);
    HeaderParts(SEQUENCE, LengthOctets(|content|), content);
    hide LengthOctets, ReadLength, Split;
  }

  lemma WrittenAreElements(elements: seq<bytes>)
    requires forall i | 0 <= i < |elements| :: elements[i] == [] || IsElement(elements[i])
    ensures forall i | 0 <= i < |Written(elements)| :: IsElement(Written(elements)[i])
  {
    var empty: bytes := [0, 0];
    assert empty[1..] == [0] && IsElement(empty);
    hide IsElement;
  }

  /** Every list of whole elements reads back from what the writer makes of it. */
  lemma ReadWritten(elements: seq<bytes>)
    requires |Concat(Written(elements))| < MAX_LENGTH
    requires forall i | 0 <= i < |elements| :: elements[i] == [] || IsElement(elements[i])
    ensures ReadSequenceOf(SequenceOf(elements)) == Some(Written(elements))
  {
    WrittenAreElements(elements);
    hide IsElement, ReadSequenceOf, Split, Written;
    SplitConcat(Written(elements));
    ReadContent(Concat(Written(elements)));
  }

  lemma ShortElement(b: bytes)
    requires |b| >= 2 && b[0] % 32 != 31 && b[1] == |b| - 2 && b[1] < 128
    ensures IsElement(b)
  {
    assert b[1..][0] == b[1];
  }

  /** What an element is: identifier octets, its length in the shortest form, and as many octets of
      content. */
  lemma ElementIs(b: bytes)
    requires |b| < MAX_LENGTH
    ensures IsElement(b) <==>
              exists n, content: bytes ::
                IdentifierSize(b) == Some(n) && |content| < MAX_LENGTH && b[n..] == LengthOctets(|content|) + content
  {
    hide IdentifierSize, ReadLength, LengthOctets;
    if IsElement(b) {
      var n := IdentifierSize(b).value;
      var len := ReadLength(b[n..]).value;
      LengthIsShortest(b[n..]);
      var content := b[n..][len.1..];
      assert b[n..] == LengthOctets(|content|) + content;
    }
    if n, content: bytes :| IdentifierSize(b) == Some(n) && |content| < MAX_LENGTH
                            && b[n..] == LengthOctets(|content|) + content {
      ReadLengthOctets(|content|, content);
    }
  }

  /** Two elements in a short SEQUENCE. */
  lemma ReadPair(a: bytes, b: bytes)
    requires IsElement(a) && IsElement(b) && |a| + |b| < 128
    ensures ReadSequenceOf([SEQUENCE] + [|a| + |b|] + (a + b)) == Some([a, b])
  {
    hide ElementSize, Split, ReadSequenceOf;
    var elements := [a, b];
    assert Written(elements) == elements;
    var last: seq<bytes> := [b];
    assert elements[1..] == last && last[1..] == [];
    assert Concat(last) == b + Concat([]);
    assert Concat(elements) == elements[0] + Concat(last);
    assert Concat(elements) == a + b && LengthOctets(|a| + |b|) == [|a| + |b|];
    ReadWritten(elements);
  }

  /** DER leaves one way to write a SEQUENCE OF: what reads as a list of elements is, octet
      for octet, what the writer makes of that list. */
  lemma WriteRead(b: bytes)
    requires |b| < MAX_LENGTH && ReadSequenceOf(b).Some?
    ensures var es := ReadSequenceOf(b).value;
            Written(es) == es && |Concat(es)| < MAX_LENGTH && SequenceOf(es) == b
  {
    hide Split, ElementSize, Concat, ReadLength, LengthOctets;
    var es := ReadSequenceOf(b).value;
    var len := ReadLength(b[1..]).value;
    var content := b[1 + len.1..];
    ConcatSplit(content);
    forall i | 0 <= i < |es| ensures Written(es)[i] == es[i] { assert IsElement(es[i]); }
    LengthIsShortest(b[1..]);
    assert b == [b[0]] + b[1..][..len.1] + content;
  }

  /** A length is accepted only in its shortest form. */
  lemma LengthIsShortest(b: bytes)
    requires ReadLength(b).Some? && ReadLength(b).value.0 < MAX_LENGTH
    ensures LengthOctets(ReadLength(b).value.0) == b[..ReadLength(b).value.1]
  {
    if b[0] >= 128 {
      var k := b[0] - 128;
      var m := b[1..1 + k];
      assert b[..1 + k] == [b[0]] + m && m[0] == b[1];
      BigEndianOfNumber(m);
      hide BigEndian, Number;
    }
  }
}
