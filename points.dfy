// A cell of the m,n,k-game board: a pair of coordinates with structural
// equality, an XOR hash and the "{x,y}" rendering.

module Points {

  datatype Option<T> = None | Some(value: T)

  /** The C# class is mutable only on private copies, so a value type is faithful.
      The datatype constructor Point(x, y) is the C# constructor Point(x, y). */
  datatype Point = Point(x: int, y: int)

  /** The constructor stores both coordinates unchanged. */
  lemma ConstructorStores(x: int, y: int)
    ensures Point(x, y).x == x && Point(x, y).y == y
  {
  }

  /** The argument of Equals(object): null, a Point, or an object of another class. */
  datatype Argument = Null | PointArg(point: Point) | OtherObject

  /** The outcome of a call that may throw. */
  datatype Outcome<T> = Returns(value: T) | Throws

  /** Equals(obj) as written: null is unequal, a Point is compared coordinate by
      coordinate, and an object of another class makes the cast yield null, so
      reading its X throws. */
  function EqualsAsWritten(p: Point, obj: Argument): (r: Outcome<bool>)
    ensures r == Throws <==> obj == OtherObject
    ensures r == Returns(true) <==> obj == PointArg(p)
  {
    if obj == Null then Returns(false)
    else if obj.PointArg? then Returns(obj.point.x == p.x && obj.point.y == p.y)
    else Throws
  }

  /** Equals(obj) as an equality test should be: true exactly for an equal Point,
      false for everything else. */
  function Equals(p: Point, obj: Argument): (r: bool)
    ensures r <==> obj == PointArg(p)
  {
    obj.PointArg? && obj.point.x == p.x && obj.point.y == p.y
  }

  /** Comparing with an object of another class throws instead of answering false. */
  lemma EqualsThrowsOnOtherClass(p: Point)
    ensures EqualsAsWritten(p, OtherObject) == Throws
    ensures !Equals(p, OtherObject)
  {
  }

  /** Wherever the code as written answers, it answers as Equals does. */
  lemma EqualsAsWrittenAgrees(p: Point, obj: Argument)
    requires obj != OtherObject
    ensures EqualsAsWritten(p, obj) == Returns(Equals(p, obj))
  {
  }

  lemma EqualsNull(p: Point)
    ensures !Equals(p, Null)
    ensures EqualsAsWritten(p, Null) == Returns(false)
  {
  }

  lemma EqualsIsEquivalence(p: Point, q: Point, r: Point)
    ensures Equals(p, PointArg(p))
    ensures Equals(p, PointArg(q)) <==> Equals(q, PointArg(p))
    ensures Equals(p, PointArg(q)) && Equals(q, PointArg(r)) ==> Equals(p, PointArg(r))
  {
  }

  /** GetHashCode: the XOR of the two coordinates' hashes. The hash of a single
      coordinate is library code and is a parameter here. */
  function HashCode(p: Point, coordinateHash: int -> bv32): (r: bv32)
    ensures p.x == p.y ==> r == 0
    ensures r ^ coordinateHash(p.y) == coordinateHash(p.x)
  {
    coordinateHash(p.x) ^ coordinateHash(p.y)
  }

  lemma HashAgreesWithEquals(p: Point, q: Point, coordinateHash: int -> bv32)
    requires Equals(p, PointArg(q))
    ensures HashCode(p, coordinateHash) == HashCode(q, coordinateHash)
  {
  }

  lemma HashIgnoresOrder(a: int, b: int, coordinateHash: int -> bv32)
    ensures HashCode(Point(a, b), coordinateHash) == HashCode(Point(b, a), coordinateHash)
  {
  }

  lemma HashOfDiagonalIsZero(a: int, coordinateHash: int -> bv32)
    ensures HashCode(Point(a, a), coordinateHash) == 0
  {
  }

  // ---------------------------------------------------------------------
  // ToString: "{" + X + "," + Y + "}" with invariant-culture decimals.

  predicate IsDigit(c: char)
  {
    '0' <= c <= '9'
  }

  predicate AllDigits(s: string)
  {
    forall i :: 0 <= i < |s| ==> IsDigit(s[i])
  }

  /** The decimal numeral of v, without leading zeros. */
  function NatToDecimal(v: nat): (s: string)
    ensures |s| >= 1 && AllDigits(s)
    ensures s[0] == '0' ==> v == 0
  {
    if v < 10 then ['0' + v as char]
    else NatToDecimal(v / 10) + ['0' + (v % 10) as char]
  }

  /** long.ToString(): a minus sign before the magnitude of a negative value. */
  function IntToDecimal(v: int): (s: string)
    ensures |s| >= 1 && (s[0] == '-' <==> v < 0)
    ensures forall i :: 0 <= i < |s| ==> s[i] != ','
  {
    if v < 0 then "-" + NatToDecimal(-v) else NatToDecimal(v)
  }

  function ToString(p: Point): (s: string)
    ensures |s| == |IntToDecimal(p.x)| + |IntToDecimal(p.y)| + 3
    ensures s[0] == '{' && s[|s| - 1] == '}'
    ensures s[1 + |IntToDecimal(p.x)|] == ','
    ensures forall i :: 0 <= i < |s| && s[i] == ',' ==> i == 1 + |IntToDecimal(p.x)|
  {
    "{" + IntToDecimal(p.x) + "," + IntToDecimal(p.y) + "}"
  }

  // The inverse of ToString, used to state that the rendering loses nothing.

  function DecimalValue(s: string): nat
    requires AllDigits(s)
  {
    if s == [] then 0 else DecimalValue(s[..|s| - 1]) * 10 + (s[|s| - 1] - '0') as int
  }

  function ParseInt(s: string): Option<int>
  {
    if |s| >= 2 && s[0] == '-' && AllDigits(s[1..]) then
      var magnitude: int := DecimalValue(s[1..]);
      Some(-magnitude)
    else if |s| >= 1 && AllDigits(s) then Some(DecimalValue(s))
    else None
  }

  /** Index of the first comma of s, or |s| when there is none. */
  function FirstComma(s: string): (i: nat)
    ensures i <= |s|
    ensures i < |s| ==> s[i] == ','
    ensures forall j :: 0 <= j < i ==> s[j] != ','
  {
    if s == [] || s[0] == ',' then 0 else 1 + FirstComma(s[1..])
  }

  function ParsePoint(s: string): Option<Point>
  {
    if |s| >= 2 && s[0] == '{' && s[|s| - 1] == '}' then
      var body := s[1..|s| - 1];
      var c := FirstComma(body);
      if c < |body| then
        match (ParseInt(body[..c]), ParseInt(body[c + 1..]))
        case (Some(x), Some(y)) => Some(Point(x, y))
        case _ => None
      else None
    else None
  }

  lemma {:induction false} DecimalRoundTrip(v: nat)
    ensures DecimalValue(NatToDecimal(v)) == v
  {
    var s := NatToDecimal(v);
    if v >= 10 {
      assert s[..|s| - 1] == NatToDecimal(v / 10);
      DecimalRoundTrip(v / 10);
    } else {
      assert s[..|s| - 1] == [];
    }
  }

  lemma IntRoundTrip(v: int)
    ensures ParseInt(IntToDecimal(v)) == Some(v)
  {
    var s := IntToDecimal(v);
    if v < 0 {
      assert s[1..] == NatToDecimal(-v);
      DecimalRoundTrip(-v);
    } else {
      DecimalRoundTrip(v);
    }
  }

  /** Rendering a point and parsing it back gives the same point, so two
      points print alike only when they are equal. */
  lemma ToStringRoundTrip(p: Point)
    ensures ParsePoint(ToString(p)) == Some(p)
  {
    var sx, sy := IntToDecimal(p.x), IntToDecimal(p.y);
    var s := ToString(p);
    var body := s[1..|s| - 1];
    assert body == sx + "," + sy;
    assert FirstComma(body) == |sx|;
    assert body[..|sx|] == sx;
    assert body[|sx| + 1..] == sy;
    IntRoundTrip(p.x);
    IntRoundTrip(p.y);
  }

  lemma ToStringInjective(p: Point, q: Point)
    requires ToString(p) == ToString(q)
    ensures p == q
  {
    ToStringRoundTrip(p);
    ToStringRoundTrip(q);
  }
}
