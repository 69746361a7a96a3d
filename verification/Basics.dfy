/** Vocabulary shared by the whole model: instants, fixed-width integers, and
    the least or greatest element of a finite set of instants. */
module Basics {

  /** An instant in nanoseconds. The zero value of Go's `time.Time` is `ZERO_TIME`. */
  type Time = int
  const ZERO_TIME: Time := 0

  type uint16 = x: int | 0 <= x < 0x1_0000

  const TWO_52: int := 0x10_0000_0000_0000
  const TWO_53: int := 0x20_0000_0000_0000
  const TWO_63: int := 0x8000_0000_0000_0000
  const TWO_64: int := 0x1_0000_0000_0000_0000

  predicate IsInt64(x: int) {
    -TWO_63 <= x < TWO_63
  }

  /** The value an int64 computation leaves behind when its exact result is x. */
  function Wrap64(x: int): (r: int)
    ensures IsInt64(r)
    ensures IsInt64(x) ==> r == x
  {
    (x + TWO_63) % TWO_64 - TWO_63
  }

  /** Go's integer division, which truncates toward zero. */
  function TruncDiv(a: int, b: int): int
    requires b > 0
  {
    if a >= 0 then a / b else -((-a) / b)
  }

  datatype Option<+T> = None | Some(value: T)

  function Max(a: int, b: int): int {
    if a < b then b else a
  }

  function Min(a: int, b: int): int {
    if a < b then a else b
  }

  /** Some element of a non-empty set. */
  ghost function Pick<T>(s: set<T>): (x: T)
    requires s != {}
    ensures x in s
  {
    var x :| x in s;
    x
  }

  /** The greatest of `floor` and all elements of s. */
  ghost function MaxOf(s: set<int>, floor: int): (r: int)
    ensures floor <= r && (forall x :: x in s ==> x <= r)
    ensures r == floor || r in s
  {
    if s == {} then floor
    else
      var x := Pick(s);
      assert forall y :: y in s ==> y == x || y in s - {x};
      Max(x, MaxOf(s - {x}, floor))
  }

  /** The least of `ceiling` and all elements of s. */
  ghost function MinOf(s: set<int>, ceiling: int): (r: int)
    ensures r <= ceiling && (forall x :: x in s ==> r <= x)
    ensures r == ceiling || r in s
  {
    if s == {} then ceiling
    else
      var x := Pick(s);
      assert forall y :: y in s ==> y == x || y in s - {x};
      Min(x, MinOf(s - {x}, ceiling))
  }

  lemma MaxOfAdd(s: set<int>, x: int, floor: int)
    ensures MaxOf(s + {x}, floor) == Max(x, MaxOf(s, floor))
  {
    assert forall y :: y in s + {x} ==> y == x || y in s;
  }

  lemma MinOfAdd(s: set<int>, x: int, ceiling: int)
    ensures MinOf(s + {x}, ceiling) == Min(x, MinOf(s, ceiling))
  {
    assert forall y :: y in s + {x} ==> y == x || y in s;
  }
}
