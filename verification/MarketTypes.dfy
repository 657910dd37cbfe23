/** Constants and records shared by the books, the bots and the accounting
    (game-master/rendezvous.hpp, game-master/persistent_lob.hpp). */
module MarketTypes {

  const INT64_MAX: int := 0x7FFF_FFFF_FFFF_FFFF
  const INT64_MIN: int := -0x8000_0000_0000_0000
  const TWO_TO_64: int := 0x1_0000_0000_0000_0000

  // Participant ids.
  const CONTESTANT: int := 0
  const BOT_MM: int := 1
  const BOT_MOM: int := 2
  const BOT_MR: int := 3
  const BOT_NOISE: int := 4
  const BOT_SNIPER: int := 5

  // Fixed-point amounts (scaled by 1e6).
  const ONE_CENT: int := 10_000
  const STARTING_CASH: int := 100_000_000_000

  /** One execution against a resting order. */
  datatype MatchedFill = MatchedFill(
    price: int,
    volume: int,
    taker: int,
    maker: int,
    makerId: nat,
    takerIsBuy: bool,
    contestantIsTaker: bool,
    contestantIsMaker: bool)

  function Min(a: int, b: int): int {
    if a < b then a else b
  }

  function Abs(a: int): int {
    if a < 0 then -a else a
  }

  predicate Fits64(x: int) {
    INT64_MIN <= x <= INT64_MAX
  }

  /** The 64-bit two's-complement value of a result that may not fit. */
  function Wrap64(x: int): (r: int)
    ensures Fits64(r) && (x - r) % TWO_TO_64 == 0
    ensures Fits64(x) ==> r == x
  {
    (x - INT64_MIN) % TWO_TO_64 + INT64_MIN
  }

  /** Wrapping once at the end is the same as wrapping at every step. */
  lemma WrapSum(x: int, y: int)
    ensures Wrap64(Wrap64(x) + y) == Wrap64(x + y)
  {
  }

  /** The 64-bit absolute value; the least 64-bit number is its own. */
  function Abs64(x: int): int {
    Wrap64(Abs(x))
  }

  datatype Option<+T> = None | Some(value: T)

  lemma HasMember(keys: set<int>)
    requires keys != {}
    ensures exists k :: k in keys
  {
    var low, high := set k | k in keys && k < 0, set k | k in keys && k >= 0;
    assert keys == low + high;
  }

  lemma NoMember(keys: set<int>)
    requires forall k :: k !in keys
    ensures keys == {}
  {
    if keys != {} { HasMember(keys); }
  }
}
