/** `generateBookingReference` (backend/controllers/bookingController.js):
    `ES-<Date.now() in base 36>-<five base-36 digits of Math.random()>`,
    upper-cased. The clock and the random number are parameters: `now` is
    the millisecond timestamp and `fraction` the base-36 digits after the
    point of the random number in [0, 1). */
module Reference {
  import opened Maybe
  import opened Text
  import Radix

  const Prefix := "ES-"

  predicate IsFraction(fraction: seq<nat>) {
    forall i :: 0 <= i < |fraction| ==> fraction[i] < 36
  }

  /** The digit string of a sequence of base-36 digits. */
  function DigitString(ds: seq<nat>): (s: string)
    requires IsFraction(ds)
    ensures |s| == |ds|
    ensures forall i :: 0 <= i < |s| ==> s[i] == Radix.DigitChar(ds[i])
  {
    if ds == [] then [] else [Radix.DigitChar(ds[0])] + DigitString(ds[1..])
  }

  /** `x.toString(36)` for the number in [0, 1) with these fraction digits. */
  function FractionToString(fraction: seq<nat>): string
    requires IsFraction(fraction)
  {
    if fraction == [] then "0" else "0." + DigitString(fraction)
  }

  /** `String.prototype.substring(start, end)` for `start <= end`: both ends
      are clamped to the length. */
  function Substring(s: string, start: nat, end: nat): string
    requires start <= end
  {
    var e := Min(end, |s|);
    var b := Min(start, e);
    s[b..e]
  }

  /** `Math.random().toString(36).substring(2, 7)`. */
  function RandomPart(fraction: seq<nat>): string
    requires IsFraction(fraction)
  {
    Substring(FractionToString(fraction), 2, 7)
  }

  /** The random part is the first (at most) five fraction digits; it is
      shorter only when the random number has fewer digits. */
  lemma RandomPartIsLeadingDigits(fraction: seq<nat>)
    requires IsFraction(fraction)
    ensures RandomPart(fraction) == DigitString(fraction[..Min(5, |fraction|)])
    ensures |RandomPart(fraction)| <= 5
  {
    if fraction != [] {
      var f := FractionToString(fraction);
      var k := Min(5, |fraction|);
      assert |f| == 2 + |fraction|;
      assert f[2..2 + k] == DigitString(fraction[..k]);
    }
  }

  predicate IsReferenceChar(c: char) {
    '0' <= c <= '9' || 'A' <= c <= 'Z' || c == '-'
  }

  function Generate(now: nat, fraction: seq<nat>): (r: string)
    requires IsFraction(fraction)
    ensures |r| > |Prefix| && r[..|Prefix|] == Prefix
    ensures CountChar(r, '-') == 2
    ensures forall i :: 0 <= i < |r| ==> IsReferenceChar(r[i])
  {
    var ts := Radix.ToRadix(now, 36);
    var rnd := RandomPart(fraction);
    RandomPartIsLeadingDigits(fraction);
    var raw := Prefix + ts + "-" + rnd;
    GenerateShape(ts, rnd);
    ToUpper(raw)
  }

  /** Upper-casing distributes over the parts of the raw reference. */
  lemma UpperParts(ts: string, rnd: string)
    ensures ToUpper(Prefix + ts + "-" + rnd) == Prefix + ToUpper(ts) + "-" + ToUpper(rnd)
  {
    ToUpperAppend(Prefix + ts + "-", rnd);
    ToUpperAppend(Prefix + ts, "-");
    ToUpperAppend(Prefix, ts);
    assert ToUpper(Prefix) == Prefix;
    assert ToUpper("-") == "-";
  }

  predicate NoDash(s: string) {
    forall i :: 0 <= i < |s| ==> s[i] != '-'
  }

  /** Upper-cased lower-case digits are reference characters other than `-`. */
  lemma UpperDigits(s: string)
    requires forall i :: 0 <= i < |s| ==> Radix.IsLowerDigit(s[i])
    ensures forall i :: 0 <= i < |ToUpper(s)| ==> IsReferenceChar(ToUpper(s)[i])
    ensures NoDash(ToUpper(s))
  {
  }

  lemma GenerateShape(ts: string, rnd: string)
    requires ts != []
    requires forall i :: 0 <= i < |ts| ==> Radix.IsLowerDigit(ts[i])
    requires forall i :: 0 <= i < |rnd| ==> Radix.IsLowerDigit(rnd[i])
    ensures var r := ToUpper(Prefix + ts + "-" + rnd);
      && |r| > |Prefix| && r[..|Prefix|] == Prefix
      && CountChar(r, '-') == 2
      && forall i :: 0 <= i < |r| ==> IsReferenceChar(r[i])
  {
    UpperParts(ts, rnd);
    UpperDigits(ts);
    UpperDigits(rnd);
    ShapeOf(ToUpper(ts), ToUpper(rnd));
  }

  lemma ShapeOf(uts: string, urnd: string)
    requires uts != [] && NoDash(uts) && NoDash(urnd)
    requires forall i :: 0 <= i < |uts| ==> IsReferenceChar(uts[i])
    requires forall i :: 0 <= i < |urnd| ==> IsReferenceChar(urnd[i])
    ensures var r := Prefix + uts + "-" + urnd;
      && |r| > |Prefix| && r[..|Prefix|] == Prefix
      && CountChar(r, '-') == 2
      && forall i :: 0 <= i < |r| ==> IsReferenceChar(r[i])
  {
    var r := Prefix + uts + "-" + urnd;
    assert r[..|Prefix|] == Prefix;
    CountCharAppend(Prefix + uts + "-", urnd, '-');
    CountCharAppend(Prefix + uts, "-", '-');
    CountCharAppend(Prefix, uts, '-');
    assert CountChar(Prefix, '-') == 1;
    assert CountChar("-", '-') == 1;
  }

  /** Index of the first `-` in `s`, or |s|. */
  function DashIndex(s: string): (k: nat)
    ensures k <= |s|
    ensures forall i :: 0 <= i < k ==> s[i] != '-'
    ensures k < |s| ==> s[k] == '-'
  {
    if s == [] || s[0] == '-' then 0 else 1 + DashIndex(s[1..])
  }

  /** Reads a reference back into its timestamp and its random part. */
  function Parse(r: string): Option<(nat, string)> {
    if |r| < |Prefix| || r[..|Prefix|] != Prefix then None
    else
      var body := r[|Prefix|..];
      var k := DashIndex(body);
      if k == 0 || k == |body| || !Radix.IsDigits(body[..k], 36) then None
      else Some((Radix.FromRadix(body[..k], 36), body[k + 1..]))
  }

  /** The reference encodes its timestamp and random part recoverably. */
  lemma ParseGenerate(now: nat, fraction: seq<nat>)
    requires IsFraction(fraction)
    ensures Parse(Generate(now, fraction)) == Some((now, ToUpper(RandomPart(fraction))))
  {
    var ts := Radix.ToRadix(now, 36);
    var rnd := RandomPart(fraction);
    UpperParts(ts, rnd);
    UpperDigits(ts);
    Radix.FromRadixToUpper(ts, 36);
    Radix.FromRadixToRadix(now, 36);
    ParseParts(ToUpper(ts), ToUpper(rnd));
  }

  lemma ParseParts(uts: string, urnd: string)
    requires uts != [] && NoDash(uts) && Radix.IsDigits(uts, 36)
    ensures Parse(Prefix + uts + "-" + urnd) == Some((Radix.FromRadix(uts, 36), urnd))
  {
    var r := Prefix + uts + "-" + urnd;
    assert r[..|Prefix|] == Prefix;
    var body := r[|Prefix|..];
    assert body == uts + "-" + urnd;
    assert DashIndex(body) == |uts| by {
      assert forall i :: 0 <= i < |uts| ==> body[i] == uts[i] && body[i] != '-';
      assert body[|uts|] == '-';
    }
    assert body[..|uts|] == uts;
    assert body[|uts| + 1..] == urnd;
  }

  /** References issued at different milliseconds differ, whatever the
      random numbers; a collision needs the same millisecond. */
  lemma DistinctTimesGiveDistinctReferences(now1: nat, f1: seq<nat>, now2: nat, f2: seq<nat>)
    requires IsFraction(f1) && IsFraction(f2)
    requires now1 != now2
    ensures Generate(now1, f1) != Generate(now2, f2)
  {
    ParseGenerate(now1, f1);
    ParseGenerate(now2, f2);
  }
}
