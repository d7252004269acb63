/** Integers in JSON documents: `valueToString` and `decodeNumber`. */
module JsonNumber {
  import opened Optional
  import opened Decimal
  import opened JsonValue
  import JsonScan

  // ---------- reading ----------

  /** The text of a number token. */
  predicate NumberText(text: string) {
    && text != ""
    && (IsDigit(text[0]) || text[0] == '-')
    && forall i :: 0 <= i < |text| ==> JsonScan.IsNumberChar(text[i])
  }

  predicate DoubleChar(text: string, i: nat) {
    i < |text| &&
    (text[i] == '.' || text[i] == 'e' || text[i] == 'E' || text[i] == '+' || (text[i] == '-' && i != 0))
  }

  predicate IsDouble(text: string) {
    exists i :: 0 <= i < |text| && DoubleChar(text, i)
  }

  predicate Negative(text: string) {
    text != "" && text[0] == '-'
  }

  function Magnitude(text: string): string {
    if Negative(text) then text[1..] else text
  }

  /** The largest magnitude the integer path accepts. */
  function Limit(negative: bool): nat {
    if negative then 0x8000_0000_0000_0000 else MAX_UINT64
  }

  lemma IntegerText(text: string)
    requires NumberText(text) && !IsDouble(text)
    ensures AllDigits(Magnitude(text))
  {
    forall i | 0 <= i < |Magnitude(text)|
      ensures IsDigit(Magnitude(text)[i])
    {
      var k := if Negative(text) then i + 1 else i;
      assert !DoubleChar(text, k) && JsonScan.IsNumberChar(text[k]);
    }
  }

  /** The body `decodeNumber` stores for an integer of this sign and magnitude. */
  function IntegerBody(negative: bool, magnitude: nat): Body {
    if negative then Int(0 - magnitude)
    else if magnitude <= MAX_INT then Int(magnitude)
    else UInt(magnitude)
  }

  /** `decodeNumber`: the integer path when the text is an integer in range,
      otherwise whatever the C library's `scan` makes of the text. */
  function DecodeNumber(text: string, scan: string -> Option<real>): Option<Body>
    requires NumberText(text)
  {
    if IsDouble(text) then DecodeDouble(text, scan)
    else
      IntegerText(text);
      var magnitude := ValueOf(Magnitude(text));
      if magnitude <= Limit(Negative(text)) then Some(IntegerBody(Negative(text), magnitude))
      else DecodeDouble(text, scan)
  }

  function DecodeDouble(text: string, scan: string -> Option<real>): Option<Body> {
    match scan(text)
    case Some(r) => Some(Real(r))
    case None => None
  }
}
