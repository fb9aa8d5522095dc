/** The certificate chain as PJeOffice sends it: a DER SEQUENCE OF Certificate (PKIPath),
    leaf first, in base64. */
module PkiPath {
  import opened Wrappers
  import opened Bits
  import opened BaseEncoding
  import opened Der

  /** The elements handed to the ASN.1 writer. */
  function Chain(leaf: bytes, extras: seq<bytes>): seq<bytes> {
    [leaf] + extras
  }

  ghost predicate Fits(leaf: bytes, extras: seq<bytes>) {
    |Concat(Written(Chain(leaf, extras)))| < MAX_LENGTH
  }

  /** The text for a leaf that is not empty. */
  function PathText(leaf: bytes, extras: seq<bytes>): string
    requires Fits(leaf, extras)
  {
    Encode(Base64, SequenceOf(Chain(leaf, extras)))
  }

  /** PKIPathB64 */
  method PkiPathB64(leaf: bytes, extras: seq<bytes>) returns (r: Result<string, string>)
    requires Fits(leaf, extras)
    ensures r.Ok? <==> leaf != []
    ensures r.Ok? ==> r.value == PathText(leaf, extras)
    ensures r.Ok? ==> Decode(Base64, r.value) == Some(SequenceOf([leaf] + extras))
  {
    hide Encode, Decode, SequenceOf, Concat, Written;
    if |leaf| == 0 {
      return Err("pkipath: leafDER must not be empty");
    }
    var vals: seq<bytes> := [leaf];
    for i := 0 to |extras|
      invariant vals == Chain(leaf, extras[..i])
    {
      vals := vals + [extras[i]];
      assert extras[..i + 1] == extras[..i] + [extras[i]];
    }
    assert extras[..|extras|] == extras;
    DecodeEncode(Base64, SequenceOf(vals));
    return Ok(Encode(Base64, SequenceOf(vals)));
  }

  /** What a receiver does: base64, then the elements of the SEQUENCE OF. */
  function ReadPath(text: string): Option<seq<bytes>> {
    var der := Decode(Base64, text);
    if der.None? then None else ReadSequenceOf(der.value)
  }

  /** What a receiver gets back. */
  lemma ReadBack(leaf: bytes, extras: seq<bytes>)
    requires Fits(leaf, extras) && IsElement(leaf)
    requires forall i | 0 <= i < |extras| :: extras[i] == [] || IsElement(extras[i])
    ensures ReadPath(PathText(leaf, extras)) == Some([leaf] + Written(extras))
  {
    assert leaf != [];
    hide Encode, Decode, SequenceOf, ReadSequenceOf, IsElement, Concat;
    var chain := Chain(leaf, extras);
    DecodeEncode(Base64, SequenceOf(chain));
    ReadWritten(chain);
    assert Written(chain) == [leaf] + Written(extras);
  }

  lemma WrittenAsIs(extras: seq<bytes>)
    ensures Written(extras) == extras <==> [] !in extras
  {
    if i :| 0 <= i < |extras| && extras[i] == [] {
      assert Written(extras)[i] != extras[i];
    }
  }

  /** A receiver gets back exactly the leaf and the extras, octet for octet and in order,
      if and only if no extra is empty: an empty one arrives as the element `00 00`. */
  lemma RoundTrip(leaf: bytes, extras: seq<bytes>)
    requires Fits(leaf, extras) && IsElement(leaf)
    requires forall i | 0 <= i < |extras| :: extras[i] == [] || IsElement(extras[i])
    ensures ReadPath(PathText(leaf, extras)) == Some([leaf] + extras) <==> [] !in extras
    ensures ReadPath(PathText(leaf, extras)) == Some([leaf] + Written(extras))
  {
    hide ReadPath, PathText, IsElement, Fits, Written;
    ReadBack(leaf, extras);
    WrittenAsIs(extras);
    assert ([leaf] + extras)[1..] == extras && ([leaf] + Written(extras))[1..] == Written(extras);
  }

  /** An empty extra that a receiver does not get back. */
  lemma EmptyExtraIsWritten(leaf: bytes)
    requires Fits(leaf, [[]]) && IsElement(leaf)
    ensures ReadPath(PathText(leaf, [[]])) == Some([leaf, [0, 0]])
  {
    ReadBack(leaf, [[]]);
    hide ReadPath, PathText, IsElement, Fits;
    assert Written([[]]) == [[0, 0]];
    assert [leaf] + Written([[]]) == [leaf, [0, 0]];
  }

  /** Two chains never share a text. */
  lemma TextDeterminesChain(leaf: bytes, extras: seq<bytes>, leaf': bytes, extras': seq<bytes>)
    requires Fits(leaf, extras) && Fits(leaf', extras') && IsElement(leaf) && IsElement(leaf')
    requires forall i | 0 <= i < |extras| :: IsElement(extras[i])
    requires forall i | 0 <= i < |extras'| :: IsElement(extras'[i])
    requires PathText(leaf, extras) == PathText(leaf', extras')
    ensures leaf == leaf' && extras == extras'
  {
    RoundTrip(leaf, extras);
    RoundTrip(leaf', extras');
    assert ([leaf] + extras)[0] == ([leaf'] + extras')[0];
    assert ([leaf] + extras)[1..] == extras && ([leaf'] + extras')[1..] == extras';
  }
}
