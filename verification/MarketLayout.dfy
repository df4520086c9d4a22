/**
 How the markets of a group are laid out in one array, series by series, and how a
 market is found by its key.
 */
module MarketLayout {
  import opened MachineInts
  import opened Outcomes

  const NUM_STRIKES: nat := 11
  const NUM_PRODUCTS_PER_SERIES: nat := NUM_STRIKES * 2 + 1
  const ACTIVE_EXPIRIES: nat := 2
  const ACTIVE_MARKETS: nat := ACTIVE_EXPIRIES * NUM_PRODUCTS_PER_SERIES

  /** A key's 32 bytes read as a number, which orders keys as their bytes do. */
  type Pubkey = nat

  /** `get_products_slice_market_index`, where usize is 64 bits. */
  function MarketIndex(expiryIndex: u64, productIndex: u64): Option<u64> {
    if expiryIndex * NUM_PRODUCTS_PER_SERIES < U64 && expiryIndex * NUM_PRODUCTS_PER_SERIES + productIndex < U64
    then Some(expiryIndex * NUM_PRODUCTS_PER_SERIES + productIndex)
    else None
  }

  /** `get_expiry_index_by_product_index`; `None` for a failed assertion. */
  function ExpiryIndex(index: u64): Option<u64> {
    if index < ACTIVE_MARKETS && index / NUM_PRODUCTS_PER_SERIES < ACTIVE_EXPIRIES
    then Some(index / NUM_PRODUCTS_PER_SERIES) else None
  }

  /** Pairs of a series and a product in it correspond one to one to the indices of the array. */
  lemma LayoutIsBijective(index: u64)
    ensures index < ACTIVE_MARKETS <==>
              exists e: u64, p: u64 ::
                e < ACTIVE_EXPIRIES && p < NUM_PRODUCTS_PER_SERIES && MarketIndex(e, p) == Some(index)
    ensures forall e: u64, p: u64 ::
              p < NUM_PRODUCTS_PER_SERIES && e < ACTIVE_EXPIRIES && MarketIndex(e, p) == Some(index) ==>
              ExpiryIndex(index) == Some(e) && p == index % NUM_PRODUCTS_PER_SERIES
  {
    if index < ACTIVE_MARKETS {
      assert MarketIndex(index / NUM_PRODUCTS_PER_SERIES, index % NUM_PRODUCTS_PER_SERIES) == Some(index);
    }
  }

  /** The layout in numbers: 23 products in each of two series, and the products of a series next to each other. */
  lemma LayoutNumbers(e: u64, p: u64)
    requires e < 2 && p < 23
    ensures ACTIVE_MARKETS == 46
    ensures MarketIndex(e, p) == Some(23 * e + p) && ExpiryIndex(23 * e + p) == Some(e)
  {
  }

  /** `get_products_slice` and its likes. */
  function SeriesSlice<T>(xs: seq<T>, expiryIndex: nat): seq<T>
    requires |xs| == ACTIVE_MARKETS && expiryIndex < ACTIVE_EXPIRIES
  {
    xs[expiryIndex * NUM_PRODUCTS_PER_SERIES..expiryIndex * NUM_PRODUCTS_PER_SERIES + NUM_PRODUCTS_PER_SERIES]
  }

  /** The slices cut the array up without gap or overlap, and agree with the index formula. */
  lemma SlicesPartition<T>(xs: seq<T>, e: u64, p: u64)
    requires |xs| == ACTIVE_MARKETS && e < ACTIVE_EXPIRIES && p < NUM_PRODUCTS_PER_SERIES
    ensures SeriesSlice(xs, 0) + SeriesSlice(xs, 1) == xs
    ensures MarketIndex(e, p).Some? && MarketIndex(e, p).value < ACTIVE_MARKETS
    ensures SeriesSlice(xs, e)[p] == xs[MarketIndex(e, p).value]
  {
  }

  predicate SortedKeys(keys: seq<Pubkey>) {
    forall i, j :: 0 <= i < j < |keys| ==> keys[i] < keys[j]
  }

  /** `binary_search_by_key` of the standard library, from the half-open range that is left. */
  function Search(keys: seq<Pubkey>, key: Pubkey, left: nat, right: nat): (r: Option<nat>)
    requires left <= right <= |keys|
    ensures r.Some? ==> left <= r.value < right && keys[r.value] == key
    decreases right - left
  {
    if left == right then None
    else
      var mid := left + (right - left) / 2;
      if keys[mid] < key then Search(keys, key, mid + 1, right)
      else if key < keys[mid] then Search(keys, key, left, mid)
      else Some(mid)
  }

  function ProductIndexByKey(keys: seq<Pubkey>, key: Pubkey): Option<nat> {
    Search(keys, key, 0, |keys|)
  }

  function ProductAndExpiryIndexByKey(keys: seq<Pubkey>, key: Pubkey): Option<(nat, u64)>
    requires |keys| == ACTIVE_MARKETS
  {
    match Search(keys, key, 0, |keys|)
    case None => None
    case Some(i) => Some((i, ExpiryIndex(i).value))
  }

  function ExpirySeriesByKey<T>(keys: seq<Pubkey>, series: seq<T>, key: Pubkey): Option<T>
    requires |keys| == ACTIVE_MARKETS && |series| == ACTIVE_EXPIRIES
  {
    match Search(keys, key, 0, |keys|)
    case None => None
    case Some(i) => Some(series[ExpiryIndex(i).value])
  }

  lemma {:induction false} SearchFinds(keys: seq<Pubkey>, i: nat, left: nat, right: nat)
    requires SortedKeys(keys) && left <= i < right <= |keys|
    ensures Search(keys, keys[i], left, right) == Some(i)
    decreases right - left
  {
    var mid := left + (right - left) / 2;
    if mid < i {
      SearchFinds(keys, i, mid + 1, right);
    } else if i < mid {
      SearchFinds(keys, i, left, mid);
    }
  }

  /** On sorted keys all three lookups find every product at its place and agree, and find nothing else. */
  lemma LookupsAgree<T>(keys: seq<Pubkey>, series: seq<T>, key: Pubkey)
    requires SortedKeys(keys) && |keys| == ACTIVE_MARKETS && |series| == ACTIVE_EXPIRIES
    ensures key !in keys ==>
              && ProductIndexByKey(keys, key).None? && ProductAndExpiryIndexByKey(keys, key).None?
              && ExpirySeriesByKey(keys, series, key).None?
    ensures forall e: u64, p: u64 :: e < ACTIVE_EXPIRIES && p < NUM_PRODUCTS_PER_SERIES ==>
              var i := MarketIndex(e, p).value;
              && ProductIndexByKey(keys, keys[i]) == Some(i)
              && ProductAndExpiryIndexByKey(keys, keys[i]) == Some((i, e))
              && ExpirySeriesByKey(keys, series, keys[i]) == Some(series[e])
  {
    forall e: u64, p: u64 | e < ACTIVE_EXPIRIES && p < NUM_PRODUCTS_PER_SERIES
      ensures var i := MarketIndex(e, p).value;
              && ProductIndexByKey(keys, keys[i]) == Some(i)
              && ProductAndExpiryIndexByKey(keys, keys[i]) == Some((i, e))
              && ExpirySeriesByKey(keys, series, keys[i]) == Some(series[e])
    {
      SearchFinds(keys, MarketIndex(e, p).value, 0, |keys|);
    }
  }
}
