/**
 The storage core of a limit-order book: price quantisation into a fixed-point
 key, price levels (limits) that collect orders in arrival order, and an order
 book holding one price-to-limit map per side.
 */
module MatchingEngine {

  /* ---------------------------------------------------------------------- */
  /* Fixed-width integers                                                   */
  /* ---------------------------------------------------------------------- */

  const U64_MAX: int := 0xFFFF_FFFF_FFFF_FFFF

  newtype u64 = x: int | 0 <= x <= 0xFFFF_FFFF_FFFF_FFFF

  /** Rust's `x as u64` on a (non-NaN) float: truncate toward zero, then saturate to [0, u64::MAX]. */
  function CastToU64(x: real): u64
  {
    if x < 0.0 then 0
    else if x.Floor > U64_MAX then U64_MAX as u64
    else x.Floor as u64
  }

  /** Truncation toward zero of a real. */
  function Trunc(x: real): int
  {
    if x >= 0.0 then x.Floor else -((-x).Floor)
  }

  /** The float remainder `x % 1.0`: the result has the sign of `x`. */
  function RemOne(x: real): real
  {
    x - Trunc(x) as real
  }

  /* ---------------------------------------------------------------------- */
  /* BidOrAsk and Order                                                     */
  /* ---------------------------------------------------------------------- */

  datatype BidOrAsk = Bid | Ask

  /** One resting order; its size is carried but never inspected. */
  datatype Order = Order(size: real, bidOrAsk: BidOrAsk)

  function NewOrder(bidOrAsk: BidOrAsk, size: real): Order
  {
    Order(size, bidOrAsk)
  }

  /** Building an order loses nothing: two orders are equal exactly when built from the same side and size. */
  lemma NewOrderInjective(s1: BidOrAsk, z1: real, s2: BidOrAsk, z2: real)
    ensures NewOrder(s1, z1) == NewOrder(s2, z2) <==> s1 == s2 && z1 == z2
    ensures NewOrder(s1, z1).bidOrAsk == s1 && NewOrder(s1, z1).size == z1
  {
  }

  /* ---------------------------------------------------------------------- */
  /* Price                                                                  */
  /* ---------------------------------------------------------------------- */

  /** Number of fractional steps per unit: five decimal digits. */
  const SCALAR: u64 := 100000

  /** A fixed-point price key; equality is structural over all three fields. */
  datatype Price = Price(integral: u64, fractional: u64, scalar: u64)

  /** The shape every price built by `NewPrice` has. */
  predicate WellFormed(p: Price)
  {
    p.scalar == SCALAR && p.fractional < p.scalar
  }

  /** The real number a price key stands for. */
  function ValueOf(p: Price): real
    requires WellFormed(p)
  {
    p.integral as real + p.fractional as real / p.scalar as real
  }

  /** The price quantised onto the grid of 1/SCALAR steps: the reference definition of a key. */
  function Ticks(p: real): int
  {
    (p * SCALAR as real).Floor
  }

  /** Quantise a price: the truncated whole part and the truncated first five decimals. */
  function NewPrice(price: real): (r: Price)
    ensures WellFormed(r)
    ensures price >= 0.0 ==> r.integral as int == if price.Floor > U64_MAX then U64_MAX else price.Floor
    ensures price >= 0.0 ==>
              r.fractional as real <= (price - price.Floor as real) * SCALAR as real < r.fractional as real + 1.0
    ensures price < 0.0 ==> r.integral == 0 && r.fractional == 0
  {
    var integral := CastToU64(price);
    var fractional := CastToU64(RemOne(price) * SCALAR as real);
    Price(integral, fractional, SCALAR)
  }

  /** Splitting a non-negative real into whole part and fraction commutes with quantisation. */
  lemma TicksSplit(x: real)
    requires x >= 0.0
    ensures Ticks(x) == x.Floor * SCALAR as int + ((x - x.Floor as real) * SCALAR as real).Floor
  {
  }

  /** Every non-negative price is rounded down onto its key: the key lies within one step below it. */
  lemma NewPriceBounds(price: real)
    requires 0.0 <= price <= U64_MAX as real
    ensures ValueOf(NewPrice(price)) <= price < ValueOf(NewPrice(price)) + 1.0 / SCALAR as real
  {
  }

  /** Two unsaturated non-negative prices give the same key exactly when they fall into the same grid step. */
  lemma NewPriceEqualIff(p: real, q: real)
    requires 0.0 <= p <= U64_MAX as real && 0.0 <= q <= U64_MAX as real
    ensures NewPrice(p) == NewPrice(q) <==> Ticks(p) == Ticks(q)
  {
    var rp, rq := NewPrice(p), NewPrice(q);
    TicksSplit(p);
    TicksSplit(q);
    assert Ticks(p) == rp.integral as int * 100000 + rp.fractional as int;
    assert Ticks(q) == rq.integral as int * 100000 + rq.fractional as int;
  }

  /** Every negative price collapses onto the zero key: `as u64` saturates negatives to 0. */
  lemma NegativePricesCollapse(p: real, q: real)
    requires p < 0.0 && q < 0.0
    ensures NewPrice(p) == NewPrice(q) == NewPrice(0.0) == Price(0, 0, SCALAR)
  {
  }

  /** Digits beyond the fifth decimal are discarded. */
  lemma PrecisionCeiling()
    ensures NewPrice(10.000001) == NewPrice(10.000009) == Price(10, 0, SCALAR)
  {
  }

  /* ---------------------------------------------------------------------- */
  /* Limit                                                                  */
  /* ---------------------------------------------------------------------- */

  /** All orders resting at one price, in arrival order. A side map owns its limits by value,
      so updating the limit under a key is replacing the map entry with the updated limit. */
  datatype Limit = Limit(price: Price, orders: seq<Order>)
  {
    /** Push an order onto the back of the limit's queue. */
    function AddOrder(order: Order): Limit
    {
      Limit(price, orders + [order])
    }
  }

  /** A limit at `price` with no orders yet. */
  function NewLimit(price: Price): Limit
  {
    Limit(price, [])
  }

  /** Add the orders one at a time, in sequence order. */
  function AddAll(l: Limit, os: seq<Order>): Limit
    decreases |os|
  {
    if os == [] then l else AddAll(l, os[..|os| - 1]).AddOrder(os[|os| - 1])
  }

  /** Adding orders to a limit keeps each earlier order where it was: the queue is first in, first out. */
  lemma {:induction false} AddOrderKeepsQueue(l: Limit, os: seq<Order>)
    ensures AddAll(l, os).price == l.price
    ensures AddAll(l, os).orders == l.orders + os
    decreases |os|
  {
    if os != [] {
      AddOrderKeepsQueue(l, os[..|os| - 1]);
      assert l.orders + os[..|os| - 1] + [os[|os| - 1]] == l.orders + os;
    }
  }

  /* ---------------------------------------------------------------------- */
  /* One side of the book                                                   */
  /* ---------------------------------------------------------------------- */

  /** One side of the book: a limit per price key. */
  type Side = map<Price, Limit>

  /** Every limit is stored under its own price. */
  ghost predicate Keyed(m: Side)
  {
    forall k :: k in m ==> m[k].price == k
  }

  /** Every order on this side carries the side's tag. */
  ghost predicate AllOnSide(m: Side, side: BidOrAsk)
  {
    forall k, i :: k in m && 0 <= i < |m[k].orders| ==> m[k].orders[i].bidOrAsk == side
  }

  /** One arm of `add_order`: append to the limit stored at `key`, or create, fill and insert
      a limit there when there is none. */
  function Place(m: Side, key: Price, order: Order): (r: Side)
    ensures r.Keys == m.Keys + {key}
    ensures key in m ==> |r| == |m| && r[key].price == m[key].price && r[key].orders == m[key].orders + [order]
    ensures key !in m ==> |r| == |m| + 1 && r[key].price == key && r[key].orders == [order]
    ensures forall k :: k in m && k != key ==> r[k] == m[k]
  {
    if key in m then m[key := m[key].AddOrder(order)]
    else
      var limit := NewLimit(key).AddOrder(order);
      m[key := limit]
  }

  /** The number of orders resting on one side, summed over its limits. */
  ghost function Total(m: Side): nat
  {
    TotalOver(m, m.Keys)
  }

  ghost function TotalOver(m: Side, keys: set<Price>): nat
    requires keys <= m.Keys
    decreases keys
  {
    if keys == {} then 0
    else
      var k :| k in keys;
      |m[k].orders| + TotalOver(m, keys - {k})
  }

  /** The sum does not depend on which key is taken first. */
  lemma {:induction false} TotalOverPick(m: Side, keys: set<Price>, k: Price)
    requires keys <= m.Keys && k in keys
    ensures TotalOver(m, keys) == |m[k].orders| + TotalOver(m, keys - {k})
    decreases keys
  {
    var j :| j in keys && TotalOver(m, keys) == |m[j].orders| + TotalOver(m, keys - {j});
    if j != k {
      TotalOverPick(m, keys - {j}, k);
      TotalOverPick(m, keys - {k}, j);
      assert keys - {j} - {k} == keys - {k} - {j};
    }
  }

  /** The sum over some keys only reads the limits under those keys. */
  lemma {:induction false} TotalOverFrame(m1: Side, m2: Side, keys: set<Price>)
    requires keys <= m1.Keys && keys <= m2.Keys
    requires forall k :: k in keys ==> m1[k].orders == m2[k].orders
    ensures TotalOver(m1, keys) == TotalOver(m2, keys)
    decreases keys
  {
    if keys != {} {
      var k :| k in keys && TotalOver(m1, keys) == |m1[k].orders| + TotalOver(m1, keys - {k});
      TotalOverPick(m2, keys, k);
      TotalOverFrame(m1, m2, keys - {k});
    }
  }

  /** Adding an order raises the side's order count by exactly one. */
  lemma PlaceTotal(m: Side, key: Price, order: Order)
    ensures Total(Place(m, key, order)) == Total(m) + 1
  {
    var r := Place(m, key, order);
    var rest := m.Keys - {key};
    assert r.Keys - {key} == rest;
    TotalOverPick(r, r.Keys, key);
    TotalOverFrame(r, m, rest);
    if key in m {
      TotalOverPick(m, m.Keys, key);
    } else {
      assert rest == m.Keys;
    }
  }

  /** Adding an order keeps every limit stored under its own price. */
  lemma PlaceKeyed(m: Side, key: Price, order: Order)
    requires Keyed(m)
    ensures Keyed(Place(m, key, order))
  {
  }

  /** Adding an order of the side's own tag keeps every order on that side correctly tagged. */
  lemma PlaceKeepsSide(m: Side, key: Price, order: Order, side: BidOrAsk)
    requires AllOnSide(m, side) && order.bidOrAsk == side
    ensures AllOnSide(Place(m, key, order), side)
  {
  }

  /** Adding orders one by one at the same fresh key groups them into one limit, in arrival order. */
  lemma PlaceAggregates(m: Side, key: Price, o1: Order, o2: Order, o3: Order)
    requires key !in m
    ensures var r := Place(Place(Place(m, key, o1), key, o2), key, o3);
            r.Keys == m.Keys + {key} && r[key] == Limit(key, [o1, o2, o3])
  {
  }

  /* ---------------------------------------------------------------------- */
  /* Orderbook                                                              */
  /* ---------------------------------------------------------------------- */

  class Orderbook {
    var asks: Side
    var bids: Side

    /** The book invariant: every limit sits under its own price, and each side holds only
        orders of that side. Every book the constructor and `AddOrder` build satisfies it. */
    ghost predicate Valid()
      reads this
    {
      && Keyed(bids) && Keyed(asks)
      && AllOnSide(bids, Bid) && AllOnSide(asks, Ask)
    }

    /** The number of orders resting in the book, both sides together. */
    ghost function OrderCount(): nat
      reads this
    {
      Total(bids) + Total(asks)
    }

    constructor ()
      ensures Valid()
      ensures bids == map[] && asks == map[] && OrderCount() == 0
    {
      asks := map[];
      bids := map[];
    }

    /** Quantise the price, then add the order to the map of its own side; the other map is untouched. */
    method AddOrder(price: real, order: Order)
      requires Valid()
      modifies this
      ensures Valid()
      ensures order.bidOrAsk == Bid ==> bids == Place(old(bids), NewPrice(price), order) && asks == old(asks)
      ensures order.bidOrAsk == Ask ==> asks == Place(old(asks), NewPrice(price), order) && bids == old(bids)
      ensures OrderCount() == old(OrderCount()) + 1
    {
      var key := NewPrice(price);
      match order.bidOrAsk {
        case Bid =>
          PlaceKeyed(bids, key, order);
          PlaceKeepsSide(bids, key, order, Bid);
          PlaceTotal(bids, key, order);
          if key in bids {
            bids := bids[key := bids[key].AddOrder(order)];
          } else {
            var limit := NewLimit(key);
            limit := limit.AddOrder(order);
            bids := bids[key := limit];
          }
        case Ask =>
          PlaceKeyed(asks, key, order);
          PlaceKeepsSide(asks, key, order, Ask);
          PlaceTotal(asks, key, order);
          if key in asks {
            asks := asks[key := asks[key].AddOrder(order)];
          } else {
            var limit := NewLimit(key);
            limit := limit.AddOrder(order);
            asks := asks[key := limit];
          }
      }
    }
  }

  /** Two bids and an ask at 98.25 give one bid limit holding both bids in arrival order and a
      separate ask limit under the same key. */
  method Scenario() returns (bids: Side, asks: Side)
    ensures bids == map[Price(98, 25000, SCALAR) := Limit(Price(98, 25000, SCALAR), [Order(5.0, Bid), Order(2.5, Bid)])]
    ensures asks == map[Price(98, 25000, SCALAR) := Limit(Price(98, 25000, SCALAR), [Order(1.0, Ask)])]
  {
    assert 98.25.Floor == 98;
    var key := NewPrice(98.25);
    assert key == Price(98, 25000, SCALAR);
    var book := new Orderbook();
    book.AddOrder(98.25, NewOrder(Bid, 5.0));
    assert book.bids == map[key := Limit(key, [Order(5.0, Bid)])];
    book.AddOrder(98.25, NewOrder(Bid, 2.5));
    assert [Order(5.0, Bid)] + [Order(2.5, Bid)] == [Order(5.0, Bid), Order(2.5, Bid)];
    assert book.bids == map[key := Limit(key, [Order(5.0, Bid), Order(2.5, Bid)])];
    book.AddOrder(98.25, NewOrder(Ask, 1.0));
    assert book.asks == map[key := Limit(key, [Order(1.0, Ask)])];
    bids, asks := book.bids, book.asks;
  }
}
