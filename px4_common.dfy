/** The definitions of px4_defines.h that hold for every platform: the generic status
    codes, the name of a parameter's default-value constant, and the row-major index
    helpers for 2-D and rotation matrices. */
module Px4Common {
  import opened Wrappers

  /** PX4_OK and PX4_ERROR. */
  const Px4Ok: int := 0
  const Px4Error: int := -1

  const ParamPrefix: string := "PARAM_"
  const DefaultSuffix: string := "_DEFAULT"

  /** PX4_PARAM_DEFAULT_VALUE_NAME(name): the token `PARAM_<name>_DEFAULT`. */
  function DefaultValueName(name: string): (r: string)
    ensures |r| == |ParamPrefix| + |name| + |DefaultSuffix|
    ensures r[..|ParamPrefix|] == ParamPrefix
    ensures r[|r| - |DefaultSuffix|..] == DefaultSuffix
    ensures r[|ParamPrefix|..|r| - |DefaultSuffix|] == name
  {
    ParamPrefix + name + DefaultSuffix
  }

  /** The inverse of DefaultValueName: recovers the parameter name from a default-value
      symbol, or None when the symbol does not have the PARAM_..._DEFAULT shape. */
  function ParamNameOfDefault(symbol: string): Option<string> {
    if |symbol| >= |ParamPrefix| + |DefaultSuffix|
       && symbol[..|ParamPrefix|] == ParamPrefix
       && symbol[|symbol| - |DefaultSuffix|..] == DefaultSuffix
    then Some(symbol[|ParamPrefix|..|symbol| - |DefaultSuffix|])
    else None
  }

  lemma DefaultValueNameRoundTrip(name: string)
    ensures ParamNameOfDefault(DefaultValueName(name)) == Some(name)
  {
  }

  lemma ParamNameOfDefaultRoundTrip(symbol: string, name: string)
    requires ParamNameOfDefault(symbol) == Some(name)
    ensures DefaultValueName(name) == symbol
  {
    var i, j := |ParamPrefix|, |symbol| - |DefaultSuffix|;
    assert symbol == symbol[..i] + symbol[i..j] + symbol[j..];
  }

  lemma DefaultValueNameInjective(a: string, b: string)
    requires DefaultValueName(a) == DefaultValueName(b)
    ensures a == b
  {
    DefaultValueNameRoundTrip(a);
    DefaultValueNameRoundTrip(b);
  }

  /** The offset that PX4_ARRAY2D(array, ncols, x, y) indexes: row x, column y of a
      row-major matrix with ncols columns. */
  function Offset(ncols: int, x: int, y: int): int {
    x * ncols + y
  }

  /** PX4_ARRAY2D(array, ncols, x, y): the element at that offset. Reading outside the
      array is undefined in C, so the offset must be an index of the array. */
  function Array2D<T>(a: seq<T>, ncols: int, x: int, y: int): T
    requires 0 <= Offset(ncols, x, y) < |a|
  {
    a[Offset(ncols, x, y)]
  }

  /** PX4_R(array, x, y): PX4_ARRAY2D with three columns. */
  function Rotation<T>(a: seq<T>, x: int, y: int): T
    requires 0 <= Offset(3, x, y) < |a|
  {
    Array2D(a, 3, x, y)
  }

  lemma OffsetInBounds(nrows: int, ncols: int, x: int, y: int)
    requires 0 <= x < nrows && 0 <= y < ncols
    ensures 0 <= Offset(ncols, x, y) < nrows * ncols
  {
    assert x * ncols <= (nrows - 1) * ncols by {
      MulMonotone(x, nrows - 1, ncols);
    }
  }

  /** Integer division and remainder by ncols recover the row and the column. */
  lemma OffsetInverse(ncols: int, x: int, y: int)
    requires ncols > 0 && x >= 0 && 0 <= y < ncols
    ensures Offset(ncols, x, y) / ncols == x
    ensures Offset(ncols, x, y) % ncols == y
  {
    var o := Offset(ncols, x, y);
    var q, r := o / ncols, o % ncols;
    assert o == q * ncols + r;
    assert (q - x) * ncols == y - r;
    if q > x {
      MulMonotone(1, q - x, ncols);
    } else if q < x {
      MulMonotone(1, x - q, ncols);
    }
  }

  lemma OffsetInjective(ncols: int, x1: int, y1: int, x2: int, y2: int)
    requires ncols > 0 && x1 >= 0 && x2 >= 0
    requires 0 <= y1 < ncols && 0 <= y2 < ncols
    requires (x1, y1) != (x2, y2)
    ensures Offset(ncols, x1, y1) != Offset(ncols, x2, y2)
  {
    OffsetInverse(ncols, x1, y1);
    OffsetInverse(ncols, x2, y2);
  }

  /** Every entry of a 3x3 rotation matrix stored in nine cells is readable, and PX4_R
      reads the same cell as PX4_ARRAY2D with three columns. */
  lemma RotationIsThreeColumnArray2D<T>(a: seq<T>, x: int, y: int)
    requires |a| >= 9 && 0 <= x < 3 && 0 <= y < 3
    ensures 0 <= Offset(3, x, y) < 9
    ensures Rotation(a, x, y) == Array2D(a, 3, x, y) == a[3 * x + y]
  {
    OffsetInBounds(3, 3, x, y);
  }

  lemma MulMonotone(a: int, b: int, c: int)
    requires a <= b && c >= 0
    ensures a * c <= b * c
  {
  }
}
