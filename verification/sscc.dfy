/** The acceptance rule both scripts apply to one SSCC cell: at most one
    leading "(00)" application-identifier tag is removed, and what is left must
    be exactly 18 decimal digits. This is a loose structural check of the GS1
    element string for AI (00) (GS1 General Specifications, section 3.2): the
    SSCC mod-10 check digit (section 7.9) is deliberately not verified, as the
    scripts do not verify it. */
module Sscc {
  import opened Text
  import opened Results

  /** The application-identifier tag of the SSCC, in its human-readable form. */
  const Tag: string := "(00)"

  /** Number of digits of an SSCC payload. */
  const PayloadLength: nat := 18

  /** `code.startswith("(00)")`. */
  predicate HasTag(code: string) {
    |code| >= |Tag| && code[..|Tag|] == Tag
  }

  /** The payload candidate: `code[4:]` when the tag leads, the whole code otherwise. */
  function Candidate(code: string): string {
    if HasTag(code) then code[|Tag|..] else code
  }

  /** `numeric_code.isdigit() and len(numeric_code) == 18`. */
  predicate IsPayload(p: string) {
    IsDigitString(p) && |p| == PayloadLength
  }

  /** The canonical code `f"(00){numeric_code}"` when the rule accepts `code`,
      and `None` when the scripts would report the row. */
  function Accept(code: string): (r: Option<string>)
    ensures r.Some? ==> |r.value| == |Tag| + PayloadLength
    ensures r.Some? ==> HasTag(r.value) && IsPayload(r.value[|Tag|..])
    ensures r.Some? ==> NoSpaces(code)
  {
    var p := Candidate(code);
    if IsPayload(p) then Some(Tag + p) else None
  }

  /** Acceptance, stated without the tag-stripping step: a code passes exactly
      when it is 18 digits, or the tag followed by 18 digits. */
  lemma AcceptIff(code: string)
    ensures Accept(code).Some? <==> IsPayload(code) || (HasTag(code) && IsPayload(code[|Tag|..]))
    ensures IsPayload(code) ==> Accept(code) == Some(Tag + code)
    ensures HasTag(code) && IsPayload(code[|Tag|..]) ==> Accept(code) == Some(code)
  {
    if IsPayload(code) {
      DigitsHaveNoTag(code);
    }
    if HasTag(code) {
      assert code == Tag + code[|Tag|..];
    }
  }

  /** A digit string never starts with the tag, whose first character is '('. */
  lemma DigitsHaveNoTag(d: string)
    requires IsDigitString(d)
    ensures !HasTag(d)
  {
    if |d| >= |Tag| {
      assert d[..|Tag|][0] == d[0];
      assert Tag[0] == '(';
    }
  }

  /** Digit strings are accepted exactly at length 18: 17 and 19 digits fail. */
  lemma DigitsAcceptedIffEighteen(d: string)
    requires IsDigitString(d)
    ensures Accept(d).Some? <==> |d| == PayloadLength
  {
    AcceptIff(d);
    DigitsHaveNoTag(d);
  }

  /** Any 18 digits are accepted, bare or tagged, and both give the tagged form. */
  lemma AcceptRoundTrip(d: string)
    requires IsPayload(d)
    ensures Accept(d) == Some(Tag + d)
    ensures Accept(Tag + d) == Some(Tag + d)
  {
    AcceptIff(d);
    var c := Tag + d;
    assert c[..|Tag|] == Tag && c[|Tag|..] == d;
    AcceptIff(c);
  }

  /** Re-validating an emitted code yields the same code. */
  lemma AcceptIdempotent(code: string)
    requires Accept(code).Some?
    ensures Accept(Accept(code).value) == Accept(code)
  {
    var c := Accept(code).value;
    assert c == Tag + c[|Tag|..] by {
      assert c[..|Tag|] == Tag;
    }
    AcceptRoundTrip(c[|Tag|..]);
  }
}
