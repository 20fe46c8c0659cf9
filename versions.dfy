/** `compareVersionString` and the choice of the latest version in
    packages/app-store/client.ts: a version string is split on '.', each
    piece is read as a number, and missing trailing pieces count as 0. */
module VersionOrder {
  import opened Text

  /** The strings whose pieces `Number` reads as non-negative integers:
      digits and dots only (an empty piece reads as 0). */
  predicate IsVersionString(s: string) {
    forall i :: 0 <= i < |s| ==> IsDigit(s[i]) || s[i] == '.'
  }

  predicate DigitsOnly(s: string) {
    forall i :: 0 <= i < |s| ==> IsDigit(s[i])
  }

  lemma {:induction false} VersionPiecesAreDigits(s: string)
    requires IsVersionString(s)
    ensures forall p :: p in Split(s, '.') ==> DigitsOnly(p)
    ensures forall i :: 0 <= i < |Split(s, '.')| ==> DigitsOnly(Split(s, '.')[i])
  {
    if |s| > 0 {
      assert forall i :: 1 <= i < |s| ==> s[1..][i - 1] == s[i];
      VersionPiecesAreDigits(s[1..]);
      var rest := Split(s[1..], '.');
      if s[0] != '.' {
        assert rest[0] in rest;
        var head := [s[0]] + rest[0];
        assert forall i :: 1 <= i < |head| ==> head[i] == rest[0][i - 1];
        assert DigitsOnly(head);
        assert forall p :: p in rest[1..] ==> p in rest;
      }
    }
    assert forall i :: 0 <= i < |Split(s, '.')| ==> Split(s, '.')[i] in Split(s, '.');
  }

  /** `s.split(".").map(Number)` */
  function Segments(s: string): (ns: seq<nat>)
    requires IsVersionString(s)
    ensures |ns| == |Split(s, '.')|
  {
    var parts := Split(s, '.');
    VersionPiecesAreDigits(s);
    seq(|parts|, i requires 0 <= i < |parts| => DecimalValue(parts[i]))
  }

  /** `p[i] ?? 0` */
  function At(p: seq<nat>, i: nat): nat {
    if i < |p| then p[i] else 0
  }

  function Rest(p: seq<nat>): seq<nat> {
    if |p| == 0 then [] else p[1..]
  }

  /** The loop of `compareVersionString` over the two segment arrays: the
      first non-zero difference of corresponding segments, or 0. */
  function CompareSegments(pa: seq<nat>, pb: seq<nat>): int
    decreases |pa| + |pb|
  {
    if |pa| == 0 && |pb| == 0 then 0
    else if At(pa, 0) != At(pb, 0) then At(pa, 0) - At(pb, 0)
    else CompareSegments(Rest(pa), Rest(pb))
  }

  function CompareVersionString(a: string, b: string): int
    requires IsVersionString(a) && IsVersionString(b)
  {
    CompareSegments(Segments(a), Segments(b))
  }

  /** `compareVersionString(a, b)`: the loop over the longer segment array,
      returning the first non-zero difference. */
  method CompareVersions(a: string, b: string) returns (diff: int)
    requires IsVersionString(a) && IsVersionString(b)
    ensures diff == CompareVersionString(a, b)
  {
    var pa := Segments(a);
    var pb := Segments(b);
    var len := if |pa| >= |pb| then |pa| else |pb|;
    var i := 0;
    while i < len
      invariant 0 <= i <= len
      invariant forall j: nat :: j < i ==> At(pa, j) == At(pb, j)
    {
      var d := At(pa, i) - At(pb, i);
      if d != 0 {
        FirstDifferenceDecides(pa, pb, i);
        return d;
      }
      i := i + 1;
    }
    CompareZeroIffPaddedEqual(pa, pb);
    return 0;
  }

  /** The comparison is the difference at the first index where the padded
      segment lists differ. */
  lemma {:induction false} FirstDifferenceDecides(pa: seq<nat>, pb: seq<nat>, i: nat)
    requires forall j: nat :: j < i ==> At(pa, j) == At(pb, j)
    requires At(pa, i) != At(pb, i)
    decreases i
    ensures CompareSegments(pa, pb) == At(pa, i) - At(pb, i)
  {
    CompareStep(pa, pb);
    if i > 0 {
      forall j: nat | j < i - 1
        ensures At(Rest(pa), j) == At(Rest(pb), j)
      {
        RestAt(pa, j);
        RestAt(pb, j);
      }
      RestAt(pa, i - 1);
      RestAt(pb, i - 1);
      FirstDifferenceDecides(Rest(pa), Rest(pb), i - 1);
    }
  }

  /** The first step of the loop, also when both arrays are used up. */
  lemma CompareStep(pa: seq<nat>, pb: seq<nat>)
    ensures CompareSegments(pa, pb)
         == if At(pa, 0) != At(pb, 0) then At(pa, 0) - At(pb, 0) else CompareSegments(Rest(pa), Rest(pb))
  {
  }

  lemma RestAt(p: seq<nat>, i: nat)
    ensures At(Rest(p), i) == At(p, i + 1)
  {
  }

  /** The comparison is 0 exactly when the two segment lists agree once the
      shorter is padded with zeros. */
  lemma {:induction false} CompareZeroIffPaddedEqual(pa: seq<nat>, pb: seq<nat>)
    decreases |pa| + |pb|
    ensures CompareSegments(pa, pb) == 0 <==> forall i: nat :: At(pa, i) == At(pb, i)
  {
    if |pa| == 0 && |pb| == 0 {
    } else if At(pa, 0) != At(pb, 0) {
    } else {
      CompareZeroIffPaddedEqual(Rest(pa), Rest(pb));
      forall i: nat
        ensures At(Rest(pa), i) == At(Rest(pb), i) <==> At(pa, i + 1) == At(pb, i + 1)
      {
        RestAt(pa, i);
        RestAt(pb, i);
      }
      if forall i: nat :: At(Rest(pa), i) == At(Rest(pb), i) {
        forall i: nat ensures At(pa, i) == At(pb, i) {
          if i > 0 {
            assert At(Rest(pa), i - 1) == At(Rest(pb), i - 1);
          }
        }
      }
    }
  }

  /** Swapping the arguments negates the result. */
  lemma {:induction false} CompareAntisymmetric(pa: seq<nat>, pb: seq<nat>)
    decreases |pa| + |pb|
    ensures CompareSegments(pa, pb) == -CompareSegments(pb, pa)
  {
    if !(|pa| == 0 && |pb| == 0) && At(pa, 0) == At(pb, 0) {
      CompareAntisymmetric(Rest(pa), Rest(pb));
    }
  }

  /** "At most" is transitive. */
  lemma {:induction false} CompareTransitive(pa: seq<nat>, pb: seq<nat>, pc: seq<nat>)
    requires CompareSegments(pa, pb) <= 0 && CompareSegments(pb, pc) <= 0
    decreases |pa| + |pb| + |pc|
    ensures CompareSegments(pa, pc) <= 0
  {
    CompareStep(pa, pb);
    CompareStep(pb, pc);
    CompareStep(pa, pc);
    if |pa| == 0 && |pb| == 0 && |pc| == 0 {
    } else if At(pa, 0) == At(pb, 0) && At(pb, 0) == At(pc, 0) {
      CompareTransitive(Rest(pa), Rest(pb), Rest(pc));
    }
  }

  lemma {:induction false} CompareReflexive(p: seq<nat>)
    decreases |p|
    ensures CompareSegments(p, p) == 0
  {
    if |p| > 0 {
      CompareReflexive(Rest(p));
    }
  }

  /** The comparator on version strings: 0 on equal strings, antisymmetric
      and transitive, so a total preorder. */
  lemma VersionComparatorIsPreorder(a: string, b: string, c: string)
    requires IsVersionString(a) && IsVersionString(b) && IsVersionString(c)
    ensures CompareVersionString(a, a) == 0
    ensures CompareVersionString(a, b) == -CompareVersionString(b, a)
    ensures CompareVersionString(a, b) <= 0 && CompareVersionString(b, c) <= 0 ==> CompareVersionString(a, c) <= 0
  {
    CompareReflexive(Segments(a));
    CompareAntisymmetric(Segments(a), Segments(b));
    if CompareVersionString(a, b) <= 0 && CompareVersionString(b, c) <= 0 {
      CompareTransitive(Segments(a), Segments(b), Segments(c));
    }
  }

  /** Appending ".0" to a version does not change its rank. */
  lemma TrailingZeroIsIgnored(s: string)
    requires IsVersionString(s)
    ensures IsVersionString(s + ".0")
    ensures CompareVersionString(s, s + ".0") == 0
  {
    var t := s + ".0";
    assert IsVersionString(t);
    assert t == s + ['.'] + "0";
    SplitAppendPiece(s, "0", '.');
    var ps, pt := Segments(s), Segments(t);
    assert |pt| == |ps| + 1;
    forall i: nat ensures At(ps, i) == At(pt, i) {
      if i < |ps| {
        assert Split(t, '.')[i] == Split(s, '.')[i];
      } else if i == |ps| {
        assert Split(t, '.')[i] == "0";
        assert DecimalValue("0") == 10 * DecimalValue("") + DigitValue('0');
      }
    }
    CompareZeroIffPaddedEqual(ps, pt);
  }

  /** Splitting `s + [d] + p`, with `p` free of the separator, adds `p` as a
      last piece. */
  lemma {:induction false} SplitAppendPiece(s: string, p: string, d: char)
    requires d !in p
    ensures Split(s + [d] + p, d) == Split(s, d) + [p]
  {
    if |s| == 0 {
      assert s + [d] + p == [d] + p;
      assert ([d] + p)[1..] == p;
      SplitNoSeparator(p, d);
    } else {
      assert (s + [d] + p)[1..] == s[1..] + [d] + p;
      SplitAppendPiece(s[1..], p, d);
    }
  }

  lemma SmallDecimals()
    ensures DecimalValue("0") == 0 && DecimalValue("1") == 1 && DecimalValue("2") == 2
    ensures DecimalValue("10") == 10
  {
    assert DecimalValue("0") == 10 * DecimalValue("") + DigitValue('0');
    assert DecimalValue("1") == 10 * DecimalValue("") + DigitValue('1');
    assert DecimalValue("2") == 10 * DecimalValue("") + DigitValue('2');
    assert "10"[..1] == "1";
    assert DecimalValue("10") == 10 * DecimalValue("1") + DigitValue('0');
  }

  /** Two version strings joined by a dot make a version string. */
  lemma JoinedByDot(x: string, y: string)
    requires IsVersionString(x) && IsVersionString(y)
    ensures IsVersionString(x + ['.'] + y)
  {
    var s := x + ['.'] + y;
    forall i | 0 <= i < |s| ensures IsDigit(s[i]) || s[i] == '.' {
      if i < |x| {
        assert s[i] == x[i];
      } else if i > |x| {
        assert s[i] == y[i - |x| - 1];
      }
    }
  }

  lemma SegmentsOfThree(a: string, b: string, c: string)
    requires DigitsOnly(a) && DigitsOnly(b) && DigitsOnly(c)
    ensures IsVersionString(a + ['.'] + b + ['.'] + c)
    ensures Segments(a + ['.'] + b + ['.'] + c) == [DecimalValue(a), DecimalValue(b), DecimalValue(c)]
  {
    JoinedByDot(a, b);
    JoinedByDot(a + ['.'] + b, c);
    assert '.' !in a && '.' !in b && '.' !in c;
    SplitThree(a, b, c, '.');
    ThreePieceSegments(a + ['.'] + b + ['.'] + c, a, b, c);
  }

  /** A version string that splits into three pieces has their three values as segments. */
  lemma ThreePieceSegments(s: string, a: string, b: string, c: string)
    requires IsVersionString(s) && Split(s, '.') == [a, b, c]
    requires DigitsOnly(a) && DigitsOnly(b) && DigitsOnly(c)
    ensures Segments(s) == [DecimalValue(a), DecimalValue(b), DecimalValue(c)]
  {
    var parts := Split(s, '.');
    assert |parts| == 3 && parts[0] == a && parts[1] == b && parts[2] == c;
    SegmentAt(s, 0, a);
    SegmentAt(s, 1, b);
    SegmentAt(s, 2, c);
    ThreeElements(Segments(s), DecimalValue(a), DecimalValue(b), DecimalValue(c));
  }

  lemma ThreeElements(ns: seq<nat>, x: nat, y: nat, z: nat)
    requires |ns| == 3 && ns[0] == x && ns[1] == y && ns[2] == z
    ensures ns == [x, y, z]
  {
  }

  lemma SegmentAt(s: string, i: nat, p: string)
    requires IsVersionString(s) && i < |Split(s, '.')| && Split(s, '.')[i] == p
    ensures DigitsOnly(p)
    ensures Segments(s)[i] == DecimalValue(p)
  {
    VersionPiecesAreDigits(s);
  }

  lemma ExampleSegments()
    ensures IsVersionString("1.2.0") && Segments("1.2.0") == [1, 2, 0]
    ensures IsVersionString("1.10.0") && Segments("1.10.0") == [1, 10, 0]
  {
    SmallDecimals();
    SegmentsOfThree("1", "2", "0");
    assert "1" + ['.'] + "2" + ['.'] + "0" == "1.2.0";
    SegmentsOfThree("1", "10", "0");
    assert "1" + ['.'] + "10" + ['.'] + "0" == "1.10.0";
  }

  /** "1.2" ranks with "1.2.0", and "1.2.0" below "1.10.0": pieces compare
      as numbers, not as text. */
  lemma ComparatorExamples()
    ensures IsVersionString("1.2") && IsVersionString("1.2.0") && CompareVersionString("1.2", "1.2.0") == 0
    ensures IsVersionString("1.10.0") && CompareVersionString("1.2.0", "1.10.0") < 0
  {
    ExampleSegments();
    JoinedByDot("1", "2");
    assert "1" + ['.'] + "2" == "1.2";
    TrailingZeroIsIgnored("1.2");
    assert "1.2" + ".0" == "1.2.0";
    var pa, pb := Segments("1.2.0"), Segments("1.10.0");
    assert Rest(pa) == [2, 0] && Rest(pb) == [10, 0];
    CompareStep(pa, pb);
    CompareStep(Rest(pa), Rest(pb));
  }

  /** The version strings of a list of versions, in order. */
  predicate AllVersionStrings(vs: seq<string>) {
    forall i :: 0 <= i < |vs| ==> IsVersionString(vs[i])
  }

  /** The index of the first of the highest versions: what the stable sort of
      a copy in descending order puts first. */
  function LatestIndex(vs: seq<string>): (k: nat)
    requires |vs| > 0 && AllVersionStrings(vs)
    ensures k < |vs|
  {
    if |vs| == 1 then 0
    else
      var k := LatestIndex(vs[1..]);
      if CompareVersionString(vs[0], vs[1..][k]) >= 0 then 0 else k + 1
  }

  /** `k` holds a highest version, and every earlier one is strictly lower. */
  predicate IsFirstMaximum(vs: seq<string>, k: nat)
    requires AllVersionStrings(vs)
  {
    && k < |vs|
    && (forall j :: 0 <= j < |vs| ==> CompareVersionString(vs[k], vs[j]) >= 0)
    && (forall j :: 0 <= j < k ==> CompareVersionString(vs[j], vs[k]) < 0)
  }

  lemma {:induction false} LatestIndexIsFirstMaximum(vs: seq<string>)
    requires |vs| > 0 && AllVersionStrings(vs)
    ensures IsFirstMaximum(vs, LatestIndex(vs))
  {
    if |vs| == 1 {
      VersionComparatorIsPreorder(vs[0], vs[0], vs[0]);
    } else {
      var tail := vs[1..];
      var k := LatestIndex(tail);
      LatestIndexIsFirstMaximum(tail);
      var m := tail[k];
      assert forall j :: 1 <= j < |vs| ==> vs[j] == tail[j - 1];
      if CompareVersionString(vs[0], m) >= 0 {
        forall j | 0 <= j < |vs| ensures CompareVersionString(vs[0], vs[j]) >= 0 {
          if j == 0 {
            VersionComparatorIsPreorder(vs[0], vs[0], vs[0]);
          } else {
            assert CompareVersionString(m, vs[j]) >= 0;
            VersionComparatorIsPreorder(vs[j], m, vs[0]);
            VersionComparatorIsPreorder(m, vs[0], vs[0]);
            VersionComparatorIsPreorder(vs[j], vs[0], vs[0]);
          }
        }
      } else {
        VersionComparatorIsPreorder(vs[0], m, m);
        assert LatestIndex(vs) == k + 1;
      }
    }
  }

  /** The first maximum is exactly the index `LatestIndex` picks: no other
      index has the property. */
  lemma FirstMaximumIsLatestIndex(vs: seq<string>, k: nat)
    requires |vs| > 0 && AllVersionStrings(vs)
    ensures IsFirstMaximum(vs, k) <==> k == LatestIndex(vs)
  {
    LatestIndexIsFirstMaximum(vs);
    var l := LatestIndex(vs);
    if IsFirstMaximum(vs, k) && k < l {
      assert false;
    } else if IsFirstMaximum(vs, k) && l < k {
      assert false;
    }
  }
}
