/**
 * The rows both unit compilers write: a line of the ETS bid file and a row of
 * the DAM auction file. A DAM row always carries four price/quantity points;
 * its side and the position of the quantities encode one signed quantity.
 */
module Bids {
  import opened Numeric

  /** A cell of an ETS file: a number, or left empty. */
  datatype Entry = Num(value: real) | Empty

  /** One ETS line: the clock label, the period number and the quantity under each of the four prices. */
  datatype EtsRow = EtsRow(clock: string, period: nat, quantities: seq<Entry>)

  datatype Side = Buy | Sell

  datatype Point = Point(price: real, qty: real)

  /** One DAM row: the period, its start time, the side and the four curve points. */
  datatype DamRow = DamRow(period: nat, time: int, side: Side, curve: seq<Point>)

  /** The largest quantity on a curve (0 for no points). */
  function PeakQty(curve: seq<Point>): (m: real)
    ensures forall i :: 0 <= i < |curve| ==> curve[i].qty <= m
    ensures curve != [] ==> exists i :: 0 <= i < |curve| && curve[i].qty == m
    ensures curve == [] ==> m == 0.0
  {
    if curve == [] then 0.0
    else
      var rest := PeakQty(curve[1..]);
      assert forall i :: 1 <= i < |curve| ==> curve[i] == curve[1..][i - 1];
      if curve[0].qty >= rest || |curve| == 1 then curve[0].qty else rest
  }

  /** The quantity a DAM row offers, negative on the sell side. */
  function SignedQty(d: DamRow): real
  {
    if d.side == Sell then -PeakQty(d.curve) else PeakQty(d.curve)
  }

  /** The curve prices of a row, in order. */
  function Prices(curve: seq<Point>): (ps: seq<real>)
    ensures |ps| == |curve| && forall i :: 0 <= i < |curve| ==> ps[i] == curve[i].price
  {
    seq(|curve|, i requires 0 <= i < |curve| => curve[i].price)
  }

  /** The curve quantities of a row, in order. */
  function Quantities(curve: seq<Point>): (qs: seq<real>)
    ensures |qs| == |curve| && forall i :: 0 <= i < |curve| ==> qs[i] == curve[i].qty
  {
    seq(|curve|, i requires 0 <= i < |curve| => curve[i].qty)
  }

  /** A curve built from a price ladder and a quantity per price. */
  function Curve(prices: seq<real>, qtys: seq<real>): (c: seq<Point>)
    requires |prices| == |qtys|
    ensures Prices(c) == prices && Quantities(c) == qtys
  {
    seq(|prices|, i requires 0 <= i < |prices| => Point(prices[i], qtys[i]))
  }
}
