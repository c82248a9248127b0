/**
 * The instant converter of the calculator: the displayed destination is a
 * pure function of the three typed axes and the direction flag. X and Z are
 * divided by 8 (rounding down) going to the Nether and multiplied by 8 going
 * back to the Overworld; Y is shown as typed.
 */
module Converter {
  import opened Wrappers

  /** Which way the conversion runs (the component's `isNether` flag; false is Overworld to Nether). */
  datatype Direction = OverworldToNether | NetherToOverworld

  /** The fixed ratio between the two coordinate spaces. */
  const Ratio: int := 8

  /**
   * One axis as typed: `Some(n)` when the field reads as the integer n,
   * `None` when it is blank or does not read as a number.
   */
  type Axis = Option<int>

  /** The three fields as the user typed them. */
  datatype Input = Input(x: Axis, y: Axis, z: Axis)

  /** A computed, displayed coordinate triple. */
  datatype Point = Point(x: int, y: int, z: int)

  /** The number an axis stands for; a blank or unparseable field counts as 0. */
  function Value(a: Axis): (n: int)
    ensures a.Some? ==> n == a.value
    ensures a.None? ==> n == 0
  {
    a.GetOr(0)
  }

  /** Overworld to Nether: the floor of n / 8 (Euclidean `/` is floor division for a positive divisor). */
  function ToNether(n: int): (r: int)
    ensures 8 * r <= n < 8 * r + 8
  {
    n / Ratio
  }

  /** Nether to Overworld: n times 8, the multiple of 8 whose eighth is n. */
  function ToOverworld(n: int): (r: int)
    ensures r % 8 == 0 && r / 8 == n
  {
    n * Ratio
  }

  /** The per-axis converter applied to X and Z. */
  function Convert(a: Axis, d: Direction): (r: int)
    ensures d == OverworldToNether ==> 8 * r <= Value(a) < 8 * r + 8
    ensures d == NetherToOverworld ==> r % 8 == 0 && r / 8 == Value(a)
    ensures a.None? ==> r == 0
  {
    var n := Value(a);
    if d == NetherToOverworld then ToOverworld(n) else ToNether(n)
  }

  /** The displayed destination for the typed input and the current direction. */
  function Display(c: Input, d: Direction): (p: Point)
    ensures p.x == Convert(c.x, d) && p.z == Convert(c.z, d)
    ensures c.y.Some? ==> p.y == c.y.value
    ensures c.y.None? ==> p.y == 0
  {
    Point(Convert(c.x, d), Value(c.y), Convert(c.z, d))
  }

  /** Floor division has exactly one answer: any r with 8r <= n < 8r + 8 is the converted value. */
  lemma ToNetherUnique(n: int, r: int)
    requires 8 * r <= n < 8 * r + 8
    ensures ToNether(n) == r
  {
  }

  /**
   * The two directions form a Galois connection: a Nether coordinate r maps
   * to at most n in the Overworld exactly when r is at most n's Nether image.
   */
  lemma Galois(n: int, r: int)
    ensures ToOverworld(r) <= n <==> r <= ToNether(n)
  {
  }

  /** Nether to Overworld and back to the Nether is the identity. */
  lemma NetherRoundTrip(n: int)
    ensures ToNether(ToOverworld(n)) == n
  {
  }

  /**
   * Overworld to Nether and back drops the remainder modulo 8: the result is
   * the largest multiple of 8 not above n (100 comes back as 96).
   */
  lemma OverworldRoundTrip(n: int)
    ensures ToOverworld(ToNether(n)) == n - n % 8
    ensures n - 8 < ToOverworld(ToNether(n)) <= n
  {
  }

  /** A blank or unparseable X or Z converts to 0 in either direction, and Y does not depend on the direction. */
  lemma BlankAndY(c: Input, d: Direction, e: Direction)
    ensures c.x.None? ==> Display(c, d).x == 0
    ensures c.z.None? ==> Display(c, d).z == 0
    ensures Display(c, d).y == Display(c, e).y
  {
  }

  /** The worked examples: (100, 64, 100) goes to (12, 64, 12) and (12, 64, 12) back to (96, 64, 96). */
  lemma Examples()
    ensures Display(Input(Some(100), Some(64), Some(100)), OverworldToNether) == Point(12, 64, 12)
    ensures Display(Input(Some(12), Some(64), Some(12)), NetherToOverworld) == Point(96, 64, 96)
    ensures Display(Input(None, None, None), NetherToOverworld) == Point(0, 0, 0)
  {
  }
}
