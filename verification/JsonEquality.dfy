/** Equality of JSON by meaning: key order and the way a number is written do not matter. */
module JsonEquality {

  /** A decoded value. A number keeps its literal: all its digits as one integer, how many
      of them follow the point, and the exponent. */
  datatype Json =
    | Null
    | Boolean(b: bool)
    | String(s: string)
    | Number(digits: int, fraction: nat, exponent: int)
    | Array(items: seq<Json>)
    | Object(fields: map<string, Json>)

  const MAX_SCALE: int := 1_000_000

  function Pow10(n: nat): (p: nat)
    ensures p > 0
  {
    if n == 0 then 1 else 10 * Pow10(n - 1)
  }

  /** The literals the rational parser takes: it refuses enormous scales, except of zero. */
  predicate Readable(digits: int, fraction: nat, exponent: int) {
    && -0x8000_0000_0000_0000 <= exponent < 0x8000_0000_0000_0000
    && (digits == 0 || -MAX_SCALE <= exponent - fraction <= MAX_SCALE)
  }

  /** Whether two scaled integers are the same rational. */
  predicate SameRational(a: int, e: int, b: int, f: int) {
    if e <= f then a == b * Pow10(f - e) else b == a * Pow10(e - f)
  }

  predicate EqualJson(x: Json, y: Json)
    decreases x
  {
    match x
    case Object(xs) =>
      y.Object? && |xs| == |y.fields| && forall k :: k in xs ==> k in y.fields && EqualJson(xs[k], y.fields[k])
    case Array(xs) =>
      y.Array? && |xs| == |y.items| && forall i :: 0 <= i < |xs| ==> EqualJson(xs[i], y.items[i])
    case Number(a, m, e) =>
      && y.Number? && Readable(a, m, e) && Readable(y.digits, y.fraction, y.exponent)
      && SameRational(a, e - m, y.digits, y.exponent - y.fraction)
    case _ => x == y
  }

  // ---------------------------------------------------------------- what a value means

  /** A rational in lowest terms of ten: zero, or an integer no multiple of ten and a scale. */
  datatype Rational = Rational(digits: int, scale: int)

  function Lowest(a: int, e: int): (r: Rational)
    ensures r == Rational(0, 0) || (r.digits != 0 && r.digits % 10 != 0)
    ensures a == 0 <==> r == Rational(0, 0)
    decreases if a < 0 then -a else a
  {
    if a == 0 then Rational(0, 0)
    else if a % 10 == 0 then Lowest(a / 10, e + 1)
    else Rational(a, e)
  }

  /** Structural values: numbers are rationals, arrays sequences and objects maps. */
  datatype Value =
    | None
    | Truth(b: bool)
    | Text(s: string)
    | Quantity(r: Rational)
    | Sequence(items: seq<Value>)
    | Mapping(fields: map<string, Value>)

  function Meaning(x: Json): Value {
    match x
    case Null => None
    case Boolean(b) => Truth(b)
    case String(s) => Text(s)
    case Number(a, m, e) => Quantity(Lowest(a, e - m))
    case Array(xs) => Sequence(seq(|xs|, i requires 0 <= i < |xs| => Meaning(xs[i])))
    case Object(xs) => Mapping(map k | k in xs :: Meaning(xs[k]))
  }

  /** Every number in it can be read. */
  predicate AllReadable(x: Json) {
    match x
    case Number(a, m, e) => Readable(a, m, e)
    case Array(xs) => forall i :: 0 <= i < |xs| ==> AllReadable(xs[i])
    case Object(xs) => forall k :: k in xs ==> AllReadable(xs[k])
    case _ => true
  }

  // ---------------------------------------------------------------- numbers

  lemma SameIsSymmetric(a: int, e: int, b: int, f: int)
    ensures SameRational(a, e, b, f) <==> SameRational(b, f, a, e)
  {
    if e == f {
      assert Pow10(0) == 1;
    }
  }

  /** Dropping a trailing zero does not change the rational. */
  lemma DropZero(a: int, e: int, b: int, f: int)
    requires a % 10 == 0
    ensures SameRational(a, e, b, f) <==> SameRational(a / 10, e + 1, b, f)
  {
    var c := a / 10;
    assert a == 10 * c;
    if e < f {
      var p := Pow10(f - e - 1);
      assert b * (10 * p) == 10 * (b * p);
    } else {
      var p := Pow10(e - f);
      assert (10 * c) * p == c * (10 * p);
      assert e == f ==> p == 1;
      assert Pow10(e + 1 - f) == 10 * p;
    }
  }

  lemma {:induction false} LowestIsSame(a: int, e: int, b: int, f: int)
    ensures a != 0 ==> (SameRational(a, e, b, f) <==> SameRational(Lowest(a, e).digits, Lowest(a, e).scale, b, f))
    ensures a == 0 ==> (SameRational(a, e, b, f) <==> b == 0)
    decreases if a < 0 then -a else a
  {
    if a == 0 {
      if e <= f && b * Pow10(f - e) == 0 {
        ProductZero(b, Pow10(f - e));
      }
    } else if a % 10 == 0 {
      DropZero(a, e, b, f);
      LowestIsSame(a / 10, e + 1, b, f);
    }
  }

  lemma ProductZero(b: int, p: nat)
    requires p > 0 && b * p == 0
    ensures b == 0
  {
    assert b >= 1 ==> b * p >= 1 * p;
    assert b <= -1 ==> b * p <= -1 * p;
  }

  /** In lowest terms a rational has only one form. */
  lemma LowestIsUnique(a: int, e: int, b: int, f: int)
    requires a % 10 != 0 && b % 10 != 0 && SameRational(a, e, b, f)
    ensures a == b && e == f
  {
    if e < f {
      MultipleOfTen(a, b, f - e);
    } else if e > f {
      MultipleOfTen(b, a, e - f);
    } else {
      assert Pow10(0) == 1;
    }
  }

  lemma MultipleOfTen(a: int, b: int, n: nat)
    requires n > 0 && a == b * Pow10(n)
    ensures a % 10 == 0
  {
    var p := Pow10(n - 1);
    assert b * (10 * p) == 10 * (b * p);
  }

  lemma SameIffLowest(a: int, e: int, b: int, f: int)
    ensures SameRational(a, e, b, f) <==> Lowest(a, e) == Lowest(b, f)
  {
    var r, q := Lowest(a, e), Lowest(b, f);
    LowestIsSame(a, e, b, f);
    if a != 0 {
      SameIsSymmetric(r.digits, r.scale, b, f);
      LowestIsSame(b, f, r.digits, r.scale);
      SameIsSymmetric(r.digits, r.scale, q.digits, q.scale);
      if b != 0 {
        if SameRational(r.digits, r.scale, q.digits, q.scale) {
          LowestIsUnique(r.digits, r.scale, q.digits, q.scale);
        }
        assert Pow10(0) == 1;
      }
    }
  }

  // ---------------------------------------------------------------- values

  lemma SameKeys<V>(a: map<string, V>, b: map<string, V>)
    requires |a| == |b| && forall k :: k in a ==> k in b
    ensures forall k :: k in b ==> k in a
  {
    SubsetOfSameSize(a.Keys, b.Keys);
  }

  lemma {:induction false} SubsetOfSameSize(a: set<string>, b: set<string>)
    requires a <= b && |a| == |b|
    ensures a == b
  {
    assert |b - a| == |b| - |a|;
  }

  /** Two values are equal exactly when all their numbers can be read and they mean the same. */
  lemma {:induction false} EqualIffSameMeaning(x: Json, y: Json)
    ensures EqualJson(x, y) <==> AllReadable(x) && AllReadable(y) && Meaning(x) == Meaning(y)
    decreases x, 1
  {
    match x
    case Object(_) =>
      if y.Object? {
        ObjectsAgree(x, y);
      }
    case Array(_) =>
      if y.Array? {
        ArraysAgree(x, y);
      }
    case Number(a, m, e) =>
      if y.Number? {
        SameIffLowest(a, e - m, y.digits, y.exponent - y.fraction);
      }
    case _ =>
  }

  lemma {:induction false} ArraysAgree(x: Json, y: Json)
    requires x.Array? && y.Array?
    ensures EqualJson(x, y) <==> AllReadable(x) && AllReadable(y) && Meaning(x) == Meaning(y)
    decreases x, 0
  {
    var xs, ys := x.items, y.items;
    if |xs| == |ys| {
      forall i | 0 <= i < |xs|
        ensures EqualJson(xs[i], ys[i])
                <==> AllReadable(xs[i]) && AllReadable(ys[i]) && Meaning(xs[i]) == Meaning(ys[i])
      {
        EqualIffSameMeaning(xs[i], ys[i]);
      }
      var ms, ns := Meaning(x).items, Meaning(y).items;
      assert forall i :: 0 <= i < |xs| ==> ms[i] == Meaning(xs[i]) && ns[i] == Meaning(ys[i]);
    } else {
      assert |Meaning(x).items| != |Meaning(y).items|;
    }
  }

  lemma {:induction false} ObjectsAgree(x: Json, y: Json)
    requires x.Object? && y.Object?
    ensures EqualJson(x, y) <==> AllReadable(x) && AllReadable(y) && Meaning(x) == Meaning(y)
    decreases x, 0
  {
    var xs, ys := x.fields, y.fields;
    var ms, ns := Meaning(x).fields, Meaning(y).fields;
    ObjectsUnfold(x, y);
    hide EqualJson, AllReadable, Meaning, IsImage;
    forall k | k in xs && k in ys
      ensures EqualJson(xs[k], ys[k]) <==> AllReadable(xs[k]) && AllReadable(ys[k]) && Meaning(xs[k]) == Meaning(ys[k])
    {
      EqualIffSameMeaning(xs[k], ys[k]);
    }
    ImagesAgree(xs, ys, ms, ns);
  }

  /** Each field is there, with its meaning. */
  ghost predicate IsImage(ms: map<string, Value>, xs: map<string, Json>) {
    ms.Keys == xs.Keys && forall k :: k in ms ==> ms[k] == Meaning(xs[k])
  }

  lemma {:induction false} ImagesAgree(
      xs: map<string, Json>, ys: map<string, Json>, ms: map<string, Value>, ns: map<string, Value>)
    requires IsImage(ms, xs) && IsImage(ns, ys)
    ensures ms == ns <==>
            |xs| == |ys| && forall k :: k in xs ==> k in ys && Meaning(xs[k]) == Meaning(ys[k])
  {
    hide Meaning;
    assert |xs| == |xs.Keys| && |ys| == |ys.Keys|;
    if |xs| == |ys| && forall k :: k in xs ==> k in ys && Meaning(xs[k]) == Meaning(ys[k]) {
      SameKeys(xs, ys);
      assert ms.Keys == ns.Keys;
    } else if ms.Keys == ns.Keys && |xs| == |ys| {
      var k :| k in xs && Meaning(xs[k]) != Meaning(ys[k]);
      assert ms[k] != ns[k];
    }
  }

  lemma {:induction false} ObjectsUnfold(x: Json, y: Json)
    requires x.Object? && y.Object?
    ensures EqualJson(x, y) <==>
            && |x.fields| == |y.fields|
            && forall k :: k in x.fields ==> k in y.fields && EqualJson(x.fields[k], y.fields[k])
    ensures AllReadable(x) <==> forall k :: k in x.fields ==> AllReadable(x.fields[k])
    ensures AllReadable(y) <==> forall k :: k in y.fields ==> AllReadable(y.fields[k])
    ensures Meaning(x).Mapping? && Meaning(y).Mapping?
    ensures IsImage(Meaning(x).fields, x.fields) && IsImage(Meaning(y).fields, y.fields)
  {
  }

  lemma EqualJsonIsEquivalence(x: Json, y: Json, z: Json)
    ensures EqualJson(x, x) <==> AllReadable(x)
    ensures EqualJson(x, y) ==> EqualJson(y, x)
    ensures EqualJson(x, y) && EqualJson(y, z) ==> EqualJson(x, z)
  {
    EqualIffSameMeaning(x, x);
    EqualIffSameMeaning(x, y);
    EqualIffSameMeaning(y, x);
    EqualIffSameMeaning(y, z);
    EqualIffSameMeaning(x, z);
  }

  /** A number is equal to itself unless its scale is over a million, or it is a zero whose
      exponent no machine integer holds. */
  lemma NumbersReadIff(digits: int, fraction: nat, exponent: int)
    ensures EqualJson(Number(digits, fraction, exponent), Number(digits, fraction, exponent)) <==>
            && -9_223_372_036_854_775_808 <= exponent <= 9_223_372_036_854_775_807
            && (digits != 0 ==> -1_000_000 <= exponent - fraction <= 1_000_000)
  {
    assert Pow10(0) == 1;
  }

  /** 1e3 is 1000, and a value holding 1e2000000 is not even equal to itself. */
  lemma ByMeaningNotByText()
    ensures EqualJson(Number(1, 0, 3), Number(1000, 0, 0)) && EqualJson(Number(150, 2, 0), Number(15, 1, 0))
    ensures !EqualJson(Number(1, 0, 2_000_000), Number(1, 0, 2_000_000))
  {
    assert Pow10(1) == 10 && Pow10(2) == 100 && Pow10(3) == 1000;
  }
}
