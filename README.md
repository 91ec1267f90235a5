# Limit-order book storage core, modelled in Dafny

This project models the storage core of a small limit-order book written in Rust. The core has three parts:

- **`Price`.** A fixed-point key `(integral, fractional, scalar)` built from a floating-point price. It keeps five decimal digits (`scalar` is 100000), and equality is structural over all three fields.
- **`Limit`.** A price level: the orders resting at one price, in arrival order. Adding an order appends it.
- **`Orderbook`.** Two independent maps from `Price` to `Limit`, one for bids and one for asks. Adding an order quantises its price and picks the map of the order's side. It appends the order to the limit stored under that key, or creates the limit first if there is none. The other map is left alone.

Everything lives in one module, `MatchingEngine`, in `orderbook.dfy`:

- **Integers.** `u64` is a newtype over `0 .. 2^64-1`. `CastToU64` is Rust's `as u64` for a float: it truncates toward zero and saturates at both ends. `RemOne` is the float remainder `x % 1.0`, which takes the sign of `x`.
- **`NewPrice`** is `Price::new` over an idealised real input. `Ticks` is an independent reference definition of the key: the price measured in whole steps of 1/100000.
- **`Limit`** is a datatype with an `AddOrder` member, and `NewLimit` is `Limit::new`.
- **`Side`** is `map<Price, Limit>`, the type of each of the book's two maps. `Place` states what one arm of `add_order` does to a side: look the key up, then append to that limit, or create, fill and insert one. `Total` counts the orders on a side.
- **`Orderbook`** is a class with the two maps as fields. Its constructor is `Orderbook::new`. `AddOrder` is `Orderbook::add_order`: it updates the field of the order's side in place and keeps the invariant `Valid()`. `OrderCount()` is the number of orders held on both sides together.

`Orderbook.AddOrder` is specified against `Place`. The first four properties of `add_order` below are `Place`'s own postconditions; the last three are lemmas about `Place` (`PlaceKeyed`, `PlaceKeepsSide`, `PlaceTotal`), each used in the proof of `AddOrder`:

- the key set grows by at most the one key;
- an existing limit gets the order appended;
- a new limit gets the key as its price and the order as its only order;
- every other limit stays as it was;
- every limit is stored under its own price;
- every order sits on its own side;
- the order count rises by exactly one.

`NewPrice` is a Dafny function, so it is deterministic by construction. For inputs in `[0, u64::MAX]`, `NewPriceEqualIff` describes exactly which inputs share a key; `NegativePricesCollapse` covers every negative input. Inputs above `u64::MAX`, where the integral part saturates, have no such characterisation in the model.

Rust's float-to-unsigned `as` cast saturates, so a negative price keeps neither its sign nor its magnitude: every negative price becomes the key `(0, 0, 100000)`. `NegativePricesCollapse` states this.

## Model

| member | source | states |
|---|---|---|
| MatchingEngine.NewPrice | src/matching_engine/orderbook.rs:55-64 | scalar is always 100000 and fractional < scalar; for a non-negative input, integral is its whole part (saturated at u64::MAX) and fractional is its first five decimals truncated; every negative input gives integral 0 and fractional 0 |
| MatchingEngine.NewPriceBounds | src/matching_engine/orderbook.rs:55-64 | for a non-negative price up to u64::MAX, the key's value lies at most the price and less than one 1/100000 step below it: quantisation rounds down |
| MatchingEngine.NewPriceEqualIff | src/matching_engine/orderbook.rs:47-64 | two non-negative prices up to u64::MAX give structurally equal keys exactly when they fall into the same 1/100000 step (both directions) |
| MatchingEngine.NegativePricesCollapse | src/matching_engine/orderbook.rs:57-58 | every negative price gives the same key as 0.0, namely (0, 0, 100000) |
| MatchingEngine.PrecisionCeiling | src/matching_engine/orderbook.rs:56-58 | digits past the fifth decimal are discarded: 10.000001 and 10.000009 both give (10, 0, 100000) |
| MatchingEngine.NewOrder | src/matching_engine/orderbook.rs:92-96 | carries no contract of its own; `NewOrderInjective` states its meaning, and `Scenario` shows `NewOrder(Bid, 5.0)` stored as `Order(5.0, Bid)` |
| MatchingEngine.NewOrderInjective | src/matching_engine/orderbook.rs:92-96 | an order built from a side tag and a size holds that tag and that size, and two built orders are equal exactly when both arguments are (both directions) |
| MatchingEngine.NewLimit | src/matching_engine/orderbook.rs:74-79 | carries no contract of its own; `Place`'s missing-key clause states its meaning: the limit created at a fresh key has that key as its price and, after one append, exactly [order] as its orders |
| MatchingEngine.Limit.AddOrder | src/matching_engine/orderbook.rs:81-83 | carries no contract of its own; `AddOrderKeepsQueue` states its meaning (repeated appends keep the price and extend the queue in arrival order), and `Place`'s existing-key clause shows one append giving the old orders + [order] |
| MatchingEngine.AddOrderKeepsQueue | src/matching_engine/orderbook.rs:81-83 | adding a run of orders to a limit one at a time leaves its price unchanged and appends them to its queue in arrival order |
| MatchingEngine.Place | src/matching_engine/orderbook.rs:27-33 | the key set becomes the old keys plus the order's key; an existing limit gets the order appended and keeps its price, with the same number of keys; a missing key gains exactly one limit whose price is the key and whose orders are exactly [order]; every other limit is unchanged |
| MatchingEngine.PlaceTotal | src/matching_engine/orderbook.rs:28-32 | adding an order to a side raises the number of orders on that side by exactly one |
| MatchingEngine.PlaceKeyed | src/matching_engine/orderbook.rs:30-32 | adding an order keeps every limit stored under a key equal to its own price |
| MatchingEngine.PlaceKeepsSide | src/matching_engine/orderbook.rs:26-42 | adding an order of a side's own tag keeps every order on that side tagged with it |
| MatchingEngine.PlaceAggregates | src/matching_engine/orderbook.rs:27-33 | three orders added one by one at a fresh key end up in one limit at that key, in arrival order |
| MatchingEngine.Orderbook.constructor | src/matching_engine/orderbook.rs:16-21 | a new book has empty bid and ask maps, holds no orders and satisfies the invariant |
| MatchingEngine.Orderbook.AddOrder | src/matching_engine/orderbook.rs:23-44 | a bid changes the bid map as Place at the quantised price describes and leaves the ask map unchanged, and an ask does the mirror image; the invariant (keys equal limit prices, orders on their own side) is kept; the book's order count rises by exactly one |
| MatchingEngine.Scenario | src/matching_engine/orderbook.rs:23-44 | two bids and an ask at 98.25 on a new book give one bid limit at key (98, 25000, 100000) holding both bids in arrival order and one ask limit under the same key holding the ask |

## Left out

- f64 semantics in `Price::new`: the model computes over exact reals, so the rounding of `price % 1.0` and of its product with 100000 is not modelled. For example, the f64 nearest to 1.15 lies just below it, so its fractional part truncates to 14999, where the real model gives 15000.
- NaN and infinite prices: the real type has neither.
- Limit: an `Orderbook` side map owns its limits by value. `Limit::add_order` through `get_mut` is modelled as replacing the map entry with the updated `Limit` value. The in-place push into the `Vec` is not represented. Rust's borrow rules rule out aliasing here, so no other observer can tell the difference.
- `Order.size` arithmetic: the size is carried as a real and never inspected, as in the code.
- `HashMap` hashing and bucket layout: the maps are Dafny `map`s, so only keys and values matter, not iteration order or capacity.
- `#[derive(Debug)]` formatting: there is no I/O in the model.
