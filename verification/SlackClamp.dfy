/** Clamping of a Slack section body (crates/ox-api/src/notifications.rs). */
module SlackClamp {
  import opened Prelude
  import opened Utf8

  const SECTION_TEXT_LIMIT := 2900
  const TRUNCATION_MARKER: Scalar := 0x2026
  const BUDGET := SECTION_TEXT_LIMIT - |EncodeOne(TRUNCATION_MARKER)|

  // How many characters of the text fit in `budget` bytes.
  function Fitting(text: seq<Scalar>, budget: nat): (k: nat)
    ensures k <= |text|
  {
    if text == [] || |EncodeOne(text[0])| > budget then 0
    else 1 + Fitting(text[1..], budget - |EncodeOne(text[0])|)
  }

  function Clamped(text: seq<Scalar>): seq<Scalar> {
    if |Encode(text)| <= SECTION_TEXT_LIMIT then text
    else text[..Fitting(text, BUDGET)] + [TRUNCATION_MARKER]
  }

  // The last boundary at or before `index`.
  method FloorBoundary(s: seq<Byte>, index: nat) returns (end: nat)
    requires s == [] || !IsContinuation(s[0])
    ensures end <= |s| && end <= index && Boundary(s, end)
    ensures forall j: nat :: end < j <= index && j <= |s| ==> !Boundary(s, j)
  {
    end := if index >= |s| then |s| else index;
    while end < |s| && IsContinuation(s[end])
      invariant end <= |s| && end <= index
      invariant forall j: nat :: end < j <= index && j <= |s| ==> !Boundary(s, j)
      decreases end
    {
      end := end - 1;
    }
  }

  /** The truncation done on bytes is the clamping of the text: the bytes returned are the encoding
      of the clamped characters. */
  method Clamp(ghost text: seq<Scalar>, s: seq<Byte>) returns (out: seq<Byte>)
    requires s == Encode(text)
    ensures out == Encode(Clamped(text))
  {
    if |s| <= SECTION_TEXT_LIMIT {
      return s;
    }
    out := s;
    var end := FloorBoundary(out, BUDGET);
    ghost var k := BoundaryIsPrefix(text, end);
    FloorIsFitting(text, BUDGET, k);
    out := out[..end];
    out := out + EncodeOne(TRUNCATION_MARKER);
    EncodeConcat(text[..k], [TRUNCATION_MARKER]);
    assert Encode([TRUNCATION_MARKER]) == EncodeOne(TRUNCATION_MARKER) + Encode([]);
  }

  /** The longest prefix within the budget, byte for byte: it fits, and no longer one does. */
  lemma {:induction false} FittingIsLongest(text: seq<Scalar>, budget: nat, k: nat)
    requires k <= |text|
    ensures |Encode(text[..k])| <= budget <==> k <= Fitting(text, budget)
  {
    if k > 0 {
      var first := |EncodeOne(text[0])|;
      assert text[..k][1..] == text[1..][..k - 1];
      if first <= budget {
        FittingIsLongest(text[1..], budget - first, k - 1);
      }
    }
  }

  lemma FloorIsFitting(text: seq<Scalar>, budget: nat, k: nat)
    requires k <= |text| && |Encode(text[..k])| <= budget
    requires forall j: nat :: |Encode(text[..k])| < j <= budget && j <= |Encode(text)| ==> !Boundary(Encode(text), j)
    ensures k == Fitting(text, budget)
  {
    FittingIsLongest(text, budget, k);
    var best := Fitting(text, budget);
    FittingIsLongest(text, budget, best);
    if k < best {
      PrefixIsBoundary(text, best);
      assert text[..best] == text[..k] + text[k..best];
      EncodeConcat(text[..k], text[k..best]);
    }
  }

  /** The result fits; when the text does not, at most three bytes of the limit go unused. */
  lemma ClampedFits(text: seq<Scalar>)
    ensures |Encode(Clamped(text))| <= SECTION_TEXT_LIMIT
    ensures |Encode(text)| > SECTION_TEXT_LIMIT ==> |Encode(Clamped(text))| >= SECTION_TEXT_LIMIT - 3
  {
    if |Encode(text)| > SECTION_TEXT_LIMIT {
      var k := Fitting(text, BUDGET);
      FittingIsLongest(text, BUDGET, k);
      EncodeConcat(text[..k], [TRUNCATION_MARKER]);
      assert Encode([TRUNCATION_MARKER]) == EncodeOne(TRUNCATION_MARKER) + Encode([]);
      assert text[..|text|] == text;
      FittingIsLongest(text, BUDGET, k + 1);
      assert text[..k + 1] == text[..k] + [text[k]];
      EncodeConcat(text[..k], [text[k]]);
      assert Encode([text[k]]) == EncodeOne(text[k]) + Encode([]);
    }
  }

  /** Clamping twice is clamping once. */
  lemma ClampIdempotent(text: seq<Scalar>)
    ensures Clamped(Clamped(text)) == Clamped(text)
  {
    ClampedFits(text);
  }

  /** Up to 2900 bytes a text goes out as it is. A longer one keeps as many of its first characters as leave
      room for the ellipsis U+2026 at the end, and not one more would. */
  lemma ClampKeepsMost(text: seq<Scalar>) returns (k: nat)
    ensures |Encode(text)| <= 2900 ==> Clamped(text) == text
    ensures |Encode(text)| > 2900 ==>
      k < |text| && Encode(Clamped(text)) == Encode(text[..k]) + [0xE2, 0x80, 0xA6] &&
      |Encode(text[..k])| + 3 <= 2900 < |Encode(text[..k + 1])| + 3
  {
    k := 0;
    if |Encode(text)| > SECTION_TEXT_LIMIT {
      k := Fitting(text, BUDGET);
      FittingIsLongest(text, BUDGET, k);
      EncodeConcat(text[..k], [TRUNCATION_MARKER]);
      assert Encode([TRUNCATION_MARKER]) == EncodeOne(TRUNCATION_MARKER) + Encode([]);
      assert text[..|text|] == text;
      FittingIsLongest(text, BUDGET, |text|);
      FittingIsLongest(text, BUDGET, k + 1);
    }
  }
}
