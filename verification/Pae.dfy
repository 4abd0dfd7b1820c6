/**
 The DSSE pre-authentication encoding: "DSSEv1" SP len(type) SP type SP
 len(payload) SP payload, with decimal ASCII lengths (the "Signature Definition"
 section of the DSSE v1 protocol).
 */
module Pae {
  import opened Seqs

  newtype byte = i: int | 0 <= i < 256

  type Bytes = seq<byte>

  const SPACE: byte := 32

  /** "DSSEv1 " */
  const TAG: Bytes := [68, 83, 83, 69, 118, 49, 32]

  /** `%d` of a length. */
  function Decimal(n: nat): (digits: Bytes)
    ensures digits != []
    ensures IsDecimal(digits)
  {
    if n < 10 then [(48 + n) as byte] else Decimal(n / 10) + [(48 + n % 10) as byte]
  }

  function Encoding(payloadType: Bytes, payload: Bytes): Bytes {
    TAG + (Decimal(|payloadType|) + [SPACE] + (payloadType + ([SPACE] + (Decimal(|payload|) + [SPACE] + payload))))
  }

  method PAE(payloadType: Bytes, payload: Bytes) returns (encoded: Bytes)
    ensures encoded == Encoding(payloadType, payload)
  {
    var header := TAG + Decimal(|payloadType|) + [SPACE];
    var separator := [SPACE] + Decimal(|payload|) + [SPACE];
    encoded := [];
    encoded := encoded + header;
    encoded := encoded + payloadType;
    encoded := encoded + separator;
    encoded := encoded + payload;
  }

  // ---- reading an encoding back ----

  predicate IsDecimal(digits: Bytes) {
    forall i :: 0 <= i < |digits| ==> 48 <= digits[i] <= 57
  }

  /** The number that decimal digits write. */
  function Value(digits: Bytes): nat
    requires IsDecimal(digits)
  {
    if digits == [] then 0
    else 10 * Value(digits[..|digits| - 1]) + (digits[|digits| - 1] as int - 48)
  }

  lemma {:induction false} DecimalValue(n: nat)
    ensures Value(Decimal(n)) == n
  {
    if n >= 10 {
      DecimalValue(n / 10);
      var d := Decimal(n);
      assert d[..|d| - 1] == Decimal(n / 10);
    } else {
      assert Decimal(n)[..0] == [];
    }
  }

  /** Lengths are written without leading zeros. */
  lemma {:induction false} NoLeadingZero(n: nat)
    ensures Decimal(n)[0] == 48 ==> n == 0
    ensures n < 10 ==> |Decimal(n)| == 1
  {
    if n >= 10 {
      NoLeadingZero(n / 10);
    }
  }

  /** Text before and after the first space. */
  function CutSpace(s: Bytes): Option<(Bytes, Bytes)> {
    if s == [] then None
    else if s[0] == SPACE then Some(([], s[1..]))
    else
      match CutSpace(s[1..])
      case None => None
      case Some((before, after)) => Some(([s[0]] + before, after))
  }

  lemma {:induction false} CutSpaceFirst(digits: Bytes, rest: Bytes)
    requires SPACE !in digits
    ensures CutSpace(digits + [SPACE] + rest) == Some((digits, rest))
  {
    var s := digits + [SPACE] + rest;
    if digits == [] {
      assert s[1..] == rest;
    } else {
      assert digits[0] in digits && s[0] == digits[0];
      assert s[1..] == digits[1..] + [SPACE] + rest;
      CutSpaceFirst(digits[1..], rest);
      assert [digits[0]] + digits[1..] == digits;
    }
  }

  /** A decimal length, a space, that many bytes, and what follows. */
  function ReadField(s: Bytes): Option<(Bytes, Bytes)> {
    match CutSpace(s)
    case None => None
    case Some((digits, rest)) =>
      if !IsDecimal(digits) || |rest| < Value(digits) then None
      else Some((rest[..Value(digits)], rest[Value(digits)..]))
  }

  lemma ReadWritten(field: Bytes, rest: Bytes)
    ensures ReadField(Decimal(|field|) + [SPACE] + (field + rest)) == Some((field, rest))
  {
    CutSpaceFirst(Decimal(|field|), field + rest);
    DecimalValue(|field|);
    assert (field + rest)[..|field|] == field && (field + rest)[|field|..] == rest;
  }

  function DecodePae(encoded: Bytes): Option<(Bytes, Bytes)> {
    if |encoded| < |TAG| || encoded[..|TAG|] != TAG then None
    else
      match ReadField(encoded[|TAG|..])
      case None => None
      case Some((payloadType, rest)) =>
        if rest == [] || rest[0] != SPACE then None
        else
          match ReadField(rest[1..])
          case None => None
          case Some((payload, tail)) => if tail == [] then Some((payloadType, payload)) else None
  }

  /** Every encoding reads back as the type and payload it was made from. */
  lemma RoundTrip(payloadType: Bytes, payload: Bytes)
    ensures DecodePae(Encoding(payloadType, payload)) == Some((payloadType, payload))
  {
    var second := Decimal(|payload|) + [SPACE] + payload;
    var first := Decimal(|payloadType|) + [SPACE] + (payloadType + ([SPACE] + second));
    assert (TAG + first)[..|TAG|] == TAG && (TAG + first)[|TAG|..] == first;
    ReadWritten(payloadType, [SPACE] + second);
    assert ([SPACE] + second)[1..] == second;
    assert payload + [] == payload;
    ReadWritten(payload, []);
  }

  /** No two (type, payload) pairs are signed as the same bytes. */
  lemma Injective(payloadType: Bytes, payload: Bytes, payloadType': Bytes, payload': Bytes)
    requires Encoding(payloadType, payload) == Encoding(payloadType', payload')
    ensures payloadType == payloadType' && payload == payload'
  {
    RoundTrip(payloadType, payload);
    RoundTrip(payloadType', payload');
  }

  // ---- the encoding as text ----

  predicate IsAscii(s: string) { forall c :: c in s ==> c < 128 as char }

  function Ascii(s: string): Bytes
    requires IsAscii(s)
  {
    seq(|s|, i requires 0 <= i < |s| => assert s[i] in s; s[i] as int as byte)
  }

  lemma AsciiAppend(a: string, b: string)
    requires IsAscii(a) && IsAscii(b)
    ensures IsAscii(a + b) && Ascii(a + b) == Ascii(a) + Ascii(b)
  {
  }

  lemma TagText()
    ensures IsAscii("DSSEv1 ") && IsAscii(" ") && Ascii("DSSEv1 ") == TAG && Ascii(" ") == [SPACE]
  {
  }

  /** An encoding is the words DSSEv1, length, type, length and payload, with one space between each two. */
  lemma EncodingText(payloadType: string, payload: string, n: string, m: string)
    requires IsAscii(payloadType) && IsAscii(payload) && IsAscii(n) && IsAscii(m)
    requires Ascii(n) == Decimal(|payloadType|) && Ascii(m) == Decimal(|payload|)
    ensures var text := "DSSEv1 " + (n + " " + (payloadType + (" " + (m + " " + payload))));
      IsAscii(text) && Encoding(Ascii(payloadType), Ascii(payload)) == Ascii(text)
  {
    TagText();
    Spaced(m, payload);
    AsciiAppend(" ", m + " " + payload);
    AsciiAppend(payloadType, " " + (m + " " + payload));
    Spaced(n, payloadType + (" " + (m + " " + payload)));
    AsciiAppend("DSSEv1 ", n + " " + (payloadType + (" " + (m + " " + payload))));
  }

  lemma Spaced(a: string, b: string)
    requires IsAscii(a) && IsAscii(b)
    ensures IsAscii(a + " " + b) && Ascii(a + " " + b) == Ascii(a) + [SPACE] + Ascii(b)
  {
    TagText();
    AsciiAppend(a, " ");
    AsciiAppend(a + " ", b);
  }

  /** Nothing is encoded as two empty fields of length zero. */
  lemma EmptyText()
    ensures IsAscii("DSSEv1 0  0 ") && Encoding([], []) == Ascii("DSSEv1 0  0 ")
  {
    assert Ascii("0") == Decimal(0) && Ascii("") == [];
    EncodingText("", "", "0", "0");
    assert "DSSEv1 " + ("0" + " " + ("" + (" " + ("0" + " " + "")))) == "DSSEv1 0  0 ";
  }
}
