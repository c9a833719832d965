/**
 * The bars generateArray produces: 20 values, each floor(random * 100) + 1.
 *
 * Math.random is not part of the model: its 20 results are a parameter, each a
 * real number in [0, 1), and the arithmetic is exact (no floating-point rounding).
 */
module Generation {

  /** The number of bars generateArray produces. */
  const Length: nat := 20

  /** Every draw is a possible result of Math.random: a real number in [0, 1). */
  predicate Draws(rs: seq<real>)
  {
    forall p :: 0 <= p < |rs| ==> 0.0 <= rs[p] < 1.0
  }

  /** The bar for one draw r: floor(r * 100) + 1, a value from 1 to 100. */
  function BarValue(r: real): (v: int)
    requires 0.0 <= r < 1.0
    ensures 1 <= v <= 100
  {
    (r * 100.0).Floor + 1
  }

  /** The new array for the draws rs: one bar per draw, in order. */
  function Generated(rs: seq<real>): (a: seq<int>)
    requires |rs| == Length && Draws(rs)
    ensures |a| == Length
    ensures forall p :: 0 <= p < |a| ==> 1 <= a[p] <= 100
  {
    seq(Length, p requires 0 <= p < Length => BarValue(rs[p]))
  }

  /** A draw that gives the bar v. */
  function DrawFor(v: int): (r: real)
    requires 1 <= v <= 100
    ensures 0.0 <= r < 1.0
  {
    (v - 1) as real / 100.0
  }

  /** The draws that give the bars of a. */
  function DrawsFor(a: seq<int>): (rs: seq<real>)
    requires forall p :: 0 <= p < |a| ==> 1 <= a[p] <= 100
    ensures |rs| == |a| && Draws(rs)
  {
    seq(|a|, p requires 0 <= p < |a| => DrawFor(a[p]))
  }

  /** The bar for r is v exactly when r lies in [(v - 1) / 100, v / 100). */
  lemma BarValueExactly(r: real, v: int)
    requires 0.0 <= r < 1.0
    ensures BarValue(r) == v <==> (v - 1) as real / 100.0 <= r < v as real / 100.0
  {
    var f := (r * 100.0).Floor;
    assert f as real <= r * 100.0 < f as real + 1.0;
    if BarValue(r) == v {
      assert f == v - 1;
    }
    if (v - 1) as real / 100.0 <= r < v as real / 100.0 {
      assert (v - 1) as real <= r * 100.0 < v as real;
      assert f == v - 1;
    }
  }

  /** Each value from 1 to 100 is the bar of some draw. */
  lemma BarValueReaches(v: int)
    requires 1 <= v <= 100
    ensures BarValue(DrawFor(v)) == v
  {
    BarValueExactly(DrawFor(v), v);
  }

  /** Every array of 20 values from 1 to 100 is one generateArray can produce. */
  lemma GeneratedReaches(a: seq<int>)
    requires |a| == Length
    requires forall p :: 0 <= p < |a| ==> 1 <= a[p] <= 100
    ensures Generated(DrawsFor(a)) == a
  {
    var g := Generated(DrawsFor(a));
    forall p | 0 <= p < Length
      ensures g[p] == a[p]
    {
      BarValueReaches(a[p]);
    }
  }
}
