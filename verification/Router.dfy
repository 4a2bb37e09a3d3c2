/**
 Exact-output routing over constant-product pools: the quote of one pool, and the search over every ordering of
 every subset of the hub tokens.
 */
module Router {

  import opened Basics

  type Token = string

  // ----- Pool keys -----

  /** The key of the pool of two tokens, and the index of the first one in its pair. */
  function GenPoolKey(a: Token, b: Token): (string, nat) {
    if StringLess(a, b) then (a + b, 0) else (b + a, 1)
  }

  /** The key is the two tokens in ascending order, and the index says where the first argument stands in it. */
  lemma PoolKeyOrdered(a: Token, b: Token) returns (pair: seq<Token>)
    ensures |pair| == 2 && GenPoolKey(a, b).0 == pair[0] + pair[1] && !StringLess(pair[1], pair[0])
    ensures GenPoolKey(a, b).1 < 2 && pair[GenPoolKey(a, b).1] == a && pair[1 - GenPoolKey(a, b).1] == b
  {
    pair := if StringLess(a, b) then [a, b] else [b, a];
    StringOrder(a, b, a);
  }

  /** Both orders of two tokens give one key, with opposite indexes unless the tokens are the same. */
  lemma PoolKeySymmetric(a: Token, b: Token)
    ensures GenPoolKey(a, b).0 == GenPoolKey(b, a).0
    ensures a != b ==> GenPoolKey(a, b).1 + GenPoolKey(b, a).1 == 1
    ensures a == b ==> GenPoolKey(a, b).1 == 1
  {
    StringOrder(a, b, a);
  }

  /** Tokens of one length, as addresses are, share a key only with the pair itself. */
  lemma PoolKeyInjective(a: Token, b: Token, c: Token, d: Token)
    requires |a| == |b| == |c| == |d| && GenPoolKey(a, b).0 == GenPoolKey(c, d).0
    ensures (a, b) == (c, d) || (a, b) == (d, c)
  {
    var key := GenPoolKey(a, b).0;
    var n := |a|;
    assert forall s: string, t: string :: |s| == n && s + t == key ==> s == key[..n] && t == key[n..];
  }

  // ----- The quote of a constant-product pool -----

  /** A pool with its tokens in key order and their reserves. */
  datatype Pool = Pool(token0: Token, token1: Token, addr: string, reserve0: int, reserve1: int, fee: int)

  function Reserve(pool: Pool, index: nat): int {
    if index == 0 then pool.reserve0 else pool.reserve1
  }

  /** The quote for reserves x (of the token bought) and y; None where it divides by zero. */
  function Quote(x: int, y: int, fee: int, amountOut: int): Option<int> {
    if x < amountOut * 20 then Some(-1)
    else
      var divisor := (x - amountOut) * (10000 - fee);
      if divisor == 0 then None else Some(FloorDiv(y * amountOut * 10000, divisor) + 1)
  }

  /** `swap_simulation`. */
  function SwapSimulation(pool: Pool, amountOut: int, outIndex: nat): Option<int>
    requires outIndex < 2
  {
    Quote(Reserve(pool, outIndex), Reserve(pool, 1 - outIndex), pool.fee, amountOut)
  }

  /** Paying `amountIn`, less the fee, for `amountOut` makes the product of the reserves x (out) and y (in) grow. */
  predicate ProductGrows(x: int, y: int, fee: int, amountIn: int, amountOut: int) {
    (y * 10000 + amountIn * (10000 - fee)) * (x - amountOut) > x * y * 10000
  }

  /** Reserves deep enough for the quote, and a fee below one. */
  predicate Feasible(x: int, amountOut: int, fee: int) {
    x > 0 && amountOut >= 0 && x >= amountOut * 20 && fee < 10000
  }

  lemma GrowsIff(x: int, y: int, fee: int, amountIn: int, amountOut: int)
    ensures ProductGrows(x, y, fee, amountIn, amountOut) <==>
            amountIn * ((x - amountOut) * (10000 - fee)) > y * amountOut * 10000
  {
    var g, d := 10000 - fee, x - amountOut;
    assert (y * 10000 + amountIn * g) * d == y * 10000 * d + amountIn * (d * g);
    assert y * 10000 * d == x * y * 10000 - y * amountOut * 10000;
  }

  lemma ProductPositive(a: int, b: int)
    requires a > 0 && b > 0
    ensures a * b > 0
  {
  }

  /** A feasible quote is exactly the least input for which the fee-adjusted product of the reserves grows. */
  lemma QuoteIsLeastInput(x: int, y: int, fee: int, amountOut: int, amountIn: int)
    requires Feasible(x, amountOut, fee)
    ensures Quote(x, y, fee, amountOut).Some?
    ensures amountIn >= Quote(x, y, fee, amountOut).value <==> ProductGrows(x, y, fee, amountIn, amountOut)
  {
    ProductPositive(x - amountOut, 10000 - fee);
    GrowsIff(x, y, fee, amountIn, amountOut);
    FloorAtLeastIff(y * amountOut * 10000, (x - amountOut) * (10000 - fee), amountIn);
  }

  /** An input that pays for n over d pays for less over more. */
  lemma EnoughForLess(v: int, n: int, d: int, n': int, d': int)
    requires 0 <= n' <= n && 0 < d <= d' && v * d > n
    ensures v * d' > n' && v >= 1
  {
    assert v <= 0 ==> v * d <= 0;
    assert v * d' >= v * d;
  }

  /** More output never costs less input, and any output costs something. */
  lemma QuoteMonotone(x: int, y: int, fee: int, less: int, more: int)
    requires y >= 0 && Feasible(x, more, fee) && 0 <= less <= more
    ensures Quote(x, y, fee, less).Some? && Quote(x, y, fee, more).Some?
    ensures 1 <= Quote(x, y, fee, less).value <= Quote(x, y, fee, more).value
  {
    var n, d := y * more * 10000, (x - more) * (10000 - fee);
    var n', d' := y * less * 10000, (x - less) * (10000 - fee);
    ScaleMonotone(less, more, y);
    ScaleMonotone(0, less, y);
    ScaleMonotone(x - more, x - less, 10000 - fee);
    ProductPositive(x - more, 10000 - fee);
    FloorAtLeastIff(n, d, FloorDiv(n, d) + 1);
    EnoughForLess(FloorDiv(n, d) + 1, n, d, n', d');
    FloorAtLeastIff(n', d', FloorDiv(n, d) + 1);
    FloorAtLeastIff(n', d', 0);
  }

  /** For a pool with reserves and a fee below one, no quote is given exactly when a twentieth does not cover it. */
  lemma QuoteRefusesIff(x: int, y: int, fee: int, amountOut: int)
    requires x > 0 && y >= 0 && amountOut >= 0 && fee < 10000
    ensures Quote(x, y, fee, amountOut) == Some(-1) <==> x < amountOut * 20
  {
    if x >= amountOut * 20 {
      QuoteMonotone(x, y, fee, amountOut, amountOut);
    }
  }

  // ----- One route -----

  /** A quoting function: None where it raises, -1 where the pool is too shallow. */
  type Swap = (Pool, int, nat) -> Option<int>

  type Pools = map<string, Pool>

  datatype Path = Path(poolAddr: string, fee: int, outIndex: nat, token0: Token, token1: Token, amountOut: int)

  /** `single_rout_simulation`. */
  function SingleRout(swap: Swap, pools: Pools, tokenIn: Token, tokenOut: Token, amountOut: int): (int, Option<Path>) {
    var (key, inIndex) := GenPoolKey(tokenIn, tokenOut);
    var outIndex := 1 - inIndex;
    if key !in pools then (-1, None)
    else
      var pool := pools[key];
      match swap(pool, amountOut, outIndex)
      case None => (-1, None)
      case Some(amountIn) => (amountIn, Some(Path(pool.addr, pool.fee, outIndex, pool.token0, pool.token1, amountOut)))
  }

  datatype Route = Route(amountIn: int, hops: seq<Path>)

  /** Quoting along a list of tokens, from the one wanted to the one paid with; None where a hop fails. */
  function Follow(swap: Swap, pools: Pools, tokens: seq<Token>, amountOut: int): Option<Route>
    requires tokens != []
  {
    if |tokens| == 1 then Some(Route(amountOut, []))
    else
      var (amountIn, hop) := SingleRout(swap, pools, tokens[1], tokens[0], amountOut);
      if amountIn == -1 || hop.None? then None
      else
        match Follow(swap, pools, tokens[1..], amountIn)
        case None => None
        case Some(rest) => Some(Route(rest.amountIn, [hop.value] + rest.hops))
  }

  /** `hop` goes over the pool of the two tokens, which quotes `amountIn` for `amountOut`. */
  ghost predicate IsHop(
    swap: Swap, pools: Pools, tokenIn: Token, tokenOut: Token, amountIn: int, amountOut: int, hop: Path)
  {
    var (key, inIndex) := GenPoolKey(tokenIn, tokenOut);
    && key in pools && amountIn != -1
    && var pool := pools[key];
       && hop == Path(pool.addr, pool.fee, 1 - inIndex, pool.token0, pool.token1, amountOut)
       && swap(pool, amountOut, 1 - inIndex) == Some(amountIn)
  }

  /**
   The hops of a route form a chain: the first delivers the amount wanted, each later one exactly the input of the one
   before, each over the pool of its two tokens.
   */
  ghost predicate Chain(swap: Swap, pools: Pools, tokens: seq<Token>, amounts: seq<int>, hops: seq<Path>) {
    && |tokens| == |amounts| == |hops| + 1
    && forall j {:trigger hops[j]} :: 0 <= j < |hops| ==>
         IsHop(swap, pools, tokens[j + 1], tokens[j], amounts[j + 1], amounts[j], hops[j])
  }

  lemma ChainCons(
      swap: Swap, pools: Pools, tokens: seq<Token>, amounts: seq<int>, hops: seq<Path>, tokenOut: Token,
      amountOut: int, hop: Path)
    requires Chain(swap, pools, tokens, amounts, hops)
    requires IsHop(swap, pools, tokens[0], tokenOut, amounts[0], amountOut, hop)
    ensures Chain(swap, pools, [tokenOut] + tokens, [amountOut] + amounts, [hop] + hops)
  {
    var ts, as', hs := [tokenOut] + tokens, [amountOut] + amounts, [hop] + hops;
    forall j | 0 <= j < |hs| ensures IsHop(swap, pools, ts[j + 1], ts[j], as'[j + 1], as'[j], hs[j]) {
      if j > 0 {
        assert hs[j] == hops[j - 1];
      }
    }
  }

  lemma {:induction false} FollowIsChain(swap: Swap, pools: Pools, tokens: seq<Token>, amountOut: int)
      returns (amounts: seq<int>)
    requires tokens != [] && Follow(swap, pools, tokens, amountOut).Some?
    ensures var r := Follow(swap, pools, tokens, amountOut).value;
            Chain(swap, pools, tokens, amounts, r.hops) && amounts[0] == amountOut && amounts[|r.hops|] == r.amountIn
    decreases |tokens|
  {
    if |tokens| == 1 {
      amounts := [amountOut];
    } else {
      var (amountIn, hop) := SingleRout(swap, pools, tokens[1], tokens[0], amountOut);
      var rest := Follow(swap, pools, tokens[1..], amountIn).value;
      amounts := FollowIsChain(swap, pools, tokens[1..], amountIn);
      ChainCons(swap, pools, tokens[1..], amounts, rest.hops, tokens[0], amountOut, hop.value);
      assert [tokens[0]] + tokens[1..] == tokens;
      amounts := [amountOut] + amounts;
    }
  }

  /** A chain from the amount wanted is what quoting along its tokens finds. */
  lemma {:induction false} ChainIsFollowed(swap: Swap, pools: Pools, tokens: seq<Token>, amounts: seq<int>,
                                           hops: seq<Path>)
    requires Chain(swap, pools, tokens, amounts, hops)
    ensures Follow(swap, pools, tokens, amounts[0]) == Some(Route(amounts[|hops|], hops))
    decreases |hops|
  {
    if hops != [] {
      assert IsHop(swap, pools, tokens[1], tokens[0], amounts[1], amounts[0], hops[0]);
      var ts, as', hs := tokens[1..], amounts[1..], hops[1..];
      forall j | 0 <= j < |hs| ensures IsHop(swap, pools, ts[j + 1], ts[j], as'[j + 1], as'[j], hs[j]) {
        assert hs[j] == hops[j + 1];
      }
      ChainIsFollowed(swap, pools, ts, as', hs);
      assert [hops[0]] + hs == hops;
    }
  }

  // ----- Orderings of subsets -----

  function Without<T>(s: seq<T>, i: nat): (r: seq<T>)
    requires i < |s|
    ensures |r| == |s| - 1 && multiset(r) == multiset(s) - multiset{s[i]}
  {
    assert s == s[..i] + [s[i]] + s[i + 1..];
    s[..i] + s[i + 1..]
  }

  function Prefixed<T>(x: T, ps: seq<seq<T>>): (r: seq<seq<T>>)
    ensures |r| == |ps| && forall i :: 0 <= i < |ps| ==> r[i] == [x] + ps[i]
  {
    seq(|ps|, i requires 0 <= i < |ps| => [x] + ps[i])
  }

  /** `permutations(s, r)`, in its order: by the position of the first element, then of the second, and so on. */
  function Permutations<T>(s: seq<T>, r: nat): seq<seq<T>>
    decreases r, 1, 0
  {
    if r == 0 then [[]] else StartingFrom(s, r, 0)
  }

  /** The permutations whose first element stands at position i or behind it. */
  function StartingFrom<T>(s: seq<T>, r: nat, i: nat): seq<seq<T>>
    requires r > 0 && i <= |s|
    decreases r, 0, |s| - i
  {
    if i == |s| then []
    else Prefixed(s[i], Permutations(Without(s, i), r - 1)) + StartingFrom(s, r, i + 1)
  }

  lemma WithoutPrefix<T>(x: T, ps: seq<seq<T>>, p: seq<T>) returns (q: seq<T>)
    requires p in Prefixed(x, ps)
    ensures q in ps && p == [x] + q && multiset(p) == multiset{x} + multiset(q)
  {
    var k :| 0 <= k < |Prefixed(x, ps)| && Prefixed(x, ps)[k] == p;
    q := ps[k];
  }

  lemma {:induction false} PermutationsSound<T>(s: seq<T>, r: nat, p: seq<T>)
    requires p in Permutations(s, r)
    ensures |p| == r && multiset(p) <= multiset(s)
    decreases r, 1, 0
  {
    if r > 0 {
      StartingFromSound(s, r, 0, p);
    }
  }

  lemma PrefixSound<T>(s: seq<T>, i: nat, q: seq<T>, p: seq<T>)
    requires i < |s| && p == [s[i]] + q && multiset(q) <= multiset(Without(s, i))
    ensures |p| == |q| + 1 && multiset(p) <= multiset(s)
  {
    assert multiset(p) == multiset{s[i]} + multiset(q);
  }

  lemma StartingFromSplit<T>(s: seq<T>, r: nat, i: nat, rest: seq<seq<T>>, p: seq<T>)
    requires r > 0 && i < |s| && p in StartingFrom(s, r, i) && rest == Permutations(Without(s, i), r - 1)
    ensures p in Prefixed(s[i], rest) || p in StartingFrom(s, r, i + 1)
  {
  }

  lemma {:induction false} StartingAtSound<T>(s: seq<T>, r: nat, i: nat, q: seq<T>, p: seq<T>)
    requires r > 0 && i < |s| && q in Permutations(Without(s, i), r - 1) && p == [s[i]] + q
    ensures |p| == r && multiset(p) <= multiset(s)
    decreases r, 0, 0
  {
    PermutationsSound(Without(s, i), r - 1, q);
    PrefixSound(s, i, q, p);
  }

  lemma {:induction false} StartingFromSound<T>(s: seq<T>, r: nat, i: nat, p: seq<T>)
    requires r > 0 && i <= |s| && p in StartingFrom(s, r, i)
    ensures |p| == r && multiset(p) <= multiset(s)
    decreases r, 0, |s| - i + 1
  {
    if i < |s| {
      var rest := Permutations(Without(s, i), r - 1);
      StartingFromSplit(s, r, i, rest, p);
      if p in Prefixed(s[i], rest) {
        var q := WithoutPrefix(s[i], rest, p);
        StartingAtSound(s, r, i, q, p);
      } else {
        StartingFromSound(s, r, i + 1, p);
      }
    }
  }

  /** Every ordering of a subset of the positions is enumerated. */
  lemma {:induction false} PermutationsComplete<T>(s: seq<T>, p: seq<T>)
    requires multiset(p) <= multiset(s)
    ensures p in Permutations(s, |p|)
    decreases |p|, 1, 0
  {
    if p != [] {
      assert p == [p[0]] + p[1..];
      assert p[0] in multiset(p);
      assert p[0] in s;
      var i :| 0 <= i < |s| && s[i] == p[0];
      assert multiset(p[1..]) == multiset(p) - multiset{p[0]};
      PermutationsComplete(Without(s, i), p[1..]);
      StartingFromHas(s, |p|, 0, i, p[1..]);
    }
  }

  lemma {:induction false} StartingFromHas<T>(s: seq<T>, r: nat, i: nat, k: nat, q: seq<T>)
    requires r > 0 && i <= k < |s| && q in Permutations(Without(s, k), r - 1)
    ensures [s[k]] + q in StartingFrom(s, r, i)
    decreases k - i
  {
    if i == k {
      var ps := Permutations(Without(s, i), r - 1);
      var m :| 0 <= m < |ps| && ps[m] == q;
      assert Prefixed(s[i], ps)[m] == [s[i]] + q;
    } else {
      StartingFromHas(s, r, i + 1, k, q);
    }
  }

  /** Where `p` and `q` first differ, the element of `p` stands further in front in `s`. */
  ghost predicate LexBefore<T>(s: seq<T>, p: seq<T>, q: seq<T>) {
    exists d: nat, u: nat, v: nat :: DifferAt(s, p, q, d, u, v)
  }

  ghost predicate DifferAt<T>(s: seq<T>, p: seq<T>, q: seq<T>, d: nat, u: nat, v: nat) {
    d < |p| && d < |q| && p[..d] == q[..d] && u < v < |s| && s[u] == p[d] && s[v] == q[d]
  }

  ghost predicate AllInOrder<T>(s: seq<T>, ps: seq<seq<T>>) {
    forall i, j :: 0 <= i < j < |ps| ==> LexBefore(s, ps[i], ps[j])
  }

  lemma LexBeforePrefixed<T>(s: seq<T>, k: nat, p: seq<T>, q: seq<T>)
    requires k < |s| && LexBefore(Without(s, k), p, q)
    ensures LexBefore(s, [s[k]] + p, [s[k]] + q)
  {
    var d: nat, u: nat, v: nat :| DifferAt(Without(s, k), p, q, d, u, v);
    assert ([s[k]] + p)[..d + 1] == [s[k]] + p[..d] && ([s[k]] + q)[..d + 1] == [s[k]] + q[..d];
    assert DifferAt(s, [s[k]] + p, [s[k]] + q, d + 1, if u < k then u else u + 1, if v < k then v else v + 1);
  }

  lemma PrefixedInOrder<T>(s: seq<T>, k: nat, ps: seq<seq<T>>)
    requires k < |s| && AllInOrder(Without(s, k), ps)
    ensures AllInOrder(s, Prefixed(s[k], ps))
  {
    forall i, j | 0 <= i < j < |ps| ensures LexBefore(s, Prefixed(s[k], ps)[i], Prefixed(s[k], ps)[j]) {
      LexBeforePrefixed(s, k, ps[i], ps[j]);
    }
  }

  /** The permutation starts with an element at position k or behind it. */
  ghost predicate StartsAtOrBehind<T>(s: seq<T>, k: nat, p: seq<T>) {
    p != [] && exists v :: k <= v < |s| && s[v] == p[0]
  }

  lemma ConcatInOrder<T>(s: seq<T>, k: nat, a: seq<seq<T>>, b: seq<seq<T>>)
    requires k < |s| && AllInOrder(s, a) && AllInOrder(s, b)
    requires forall i :: 0 <= i < |a| ==> a[i] != [] && a[i][0] == s[k]
    requires forall j :: 0 <= j < |b| ==> StartsAtOrBehind(s, k + 1, b[j])
    ensures AllInOrder(s, a + b)
  {
    forall i, j | 0 <= i < j < |a + b| ensures LexBefore(s, (a + b)[i], (a + b)[j]) {
      if i < |a| <= j {
        var q := b[j - |a|];
        var v :| k < v < |s| && s[v] == q[0];
        assert DifferAt(s, a[i], q, 0, k, v);
      }
    }
  }

  lemma {:induction false} AllStartBehind<T>(s: seq<T>, r: nat, k: nat, p: seq<T>)
    requires r > 0 && k <= |s| && p in StartingFrom(s, r, k)
    ensures StartsAtOrBehind(s, k, p)
    decreases |s| - k
  {
    var ps := Permutations(Without(s, k), r - 1);
    StartingFromSplit(s, r, k, ps, p);
    if p in Prefixed(s[k], ps) {
      var q := WithoutPrefix(s[k], ps, p);
    } else {
      AllStartBehind(s, r, k + 1, p);
    }
  }

  lemma NoneInOrder<T>(s: seq<T>, r: nat)
    requires r > 0
    ensures AllInOrder(s, StartingFrom(s, r, |s|))
  {
  }

  lemma GroupsInOrder<T>(s: seq<T>, r: nat, k: nat)
    requires r > 0 && k < |s|
    requires AllInOrder(Without(s, k), Permutations(Without(s, k), r - 1))
    requires AllInOrder(s, StartingFrom(s, r, k + 1))
    ensures AllInOrder(s, StartingFrom(s, r, k))
  {
    var ps, rest := Permutations(Without(s, k), r - 1), StartingFrom(s, r, k + 1);
    PrefixedInOrder(s, k, ps);
    forall j | 0 <= j < |rest| ensures StartsAtOrBehind(s, k + 1, rest[j]) {
      AllStartBehind(s, r, k + 1, rest[j]);
    }
    ConcatInOrder(s, k, Prefixed(s[k], ps), rest);
  }

  /** Permutations come in lexicographic order of the positions of their elements. */
  lemma {:induction false} PermutationsInOrder<T>(s: seq<T>, r: nat)
    ensures AllInOrder(s, Permutations(s, r))
    decreases r, 1, 0
  {
    if r > 0 {
      StartingInOrder(s, r, 0);
    }
  }

  lemma {:induction false} StartingInOrder<T>(s: seq<T>, r: nat, k: nat)
    requires r > 0 && k <= |s|
    ensures AllInOrder(s, StartingFrom(s, r, k))
    decreases r, 0, |s| - k
  {
    if k < |s| {
      PermutationsInOrder(Without(s, k), r - 1);
      StartingInOrder(s, r, k + 1);
      GroupsInOrder(s, r, k);
    } else {
      NoneInOrder(s, r);
    }
  }

  // ----- The search -----

  datatype Found = Found(finalIn: int, hops: seq<Path>)

  const NOTHING_FOUND := Found(-1, [])

  function TokensOf(tokenIn: Token, tokenOut: Token, via: seq<Token>): (tokens: seq<Token>)
    ensures |tokens| == |via| + 2
  {
    [tokenOut] + via + [tokenIn]
  }

  function RouteVia(swap: Swap, pools: Pools, tokenIn: Token, tokenOut: Token, finalOut: int,
      via: seq<Token>): Option<Route> {
    Follow(swap, pools, TokensOf(tokenIn, tokenOut, via), finalOut)
  }

  /** The comparison at the end of the loop body. */
  function Better(found: Found, route: Option<Route>): Found {
    if route.Some? && (route.value.amountIn < found.finalIn || found.finalIn == -1)
    then Found(route.value.amountIn, route.value.hops)
    else found
  }

  function SearchAll(swap: Swap, pools: Pools, tokenIn: Token, tokenOut: Token, finalOut: int,
                     vias: seq<seq<Token>>, found: Found): Found
    decreases |vias|
  {
    if vias == [] then found
    else SearchAll(swap, pools, tokenIn, tokenOut, finalOut, vias[1..],
                   Better(found, RouteVia(swap, pools, tokenIn, tokenOut, finalOut, vias[0])))
  }

  /** The intermediate tokens in the order tried: fewer first. */
  function ViasUpTo(hubs: seq<Token>, n: nat): seq<seq<Token>> {
    if n == 0 then [] else ViasUpTo(hubs, n - 1) + Permutations(hubs, n - 1)
  }

  /** `find_routs` with the hub tokens held at the call. */
  function Search(swap: Swap, pools: Pools, hubs: seq<Token>, tokenIn: Token, tokenOut: Token, finalOut: int): Found {
    SearchAll(swap, pools, tokenIn, tokenOut, finalOut, ViasUpTo(hubs, |hubs| + 1), NOTHING_FOUND)
  }

  lemma {:induction false} ViasAreArrangements(hubs: seq<Token>, n: nat, via: seq<Token>)
    ensures via in ViasUpTo(hubs, n) <==> |via| < n && multiset(via) <= multiset(hubs)
  {
    if n > 0 {
      ViasAreArrangements(hubs, n - 1, via);
      if via in Permutations(hubs, n - 1) {
        PermutationsSound(hubs, n - 1, via);
      }
      if |via| == n - 1 && multiset(via) <= multiset(hubs) {
        PermutationsComplete(hubs, via);
      }
    }
  }

  /** A problem: everything a route depends on but the tokens it goes through. */
  datatype Problem = Problem(swap: Swap, pools: Pools, tokenIn: Token, tokenOut: Token, finalOut: int)

  function RouteOf(p: Problem, via: seq<Token>): Option<Route> {
    RouteVia(p.swap, p.pools, p.tokenIn, p.tokenOut, p.finalOut, via)
  }

  /** The k-th route tried is the first of the cheapest. */
  ghost predicate FirstCheapest(p: Problem, tried: seq<seq<Token>>, found: Found, k: nat) {
    && k < |tried| && RouteOf(p, tried[k]) == Some(Route(found.finalIn, found.hops)) && found.finalIn != -1
    && forall j {:trigger tried[j]} :: 0 <= j < |tried| && RouteOf(p, tried[j]).Some? ==>
         var amountIn := RouteOf(p, tried[j]).value.amountIn;
         found.finalIn <= amountIn && (j < k ==> found.finalIn < amountIn)
  }

  /** What a search over some routes has established: nothing is feasible, or the first of the cheapest is found. */
  ghost predicate Established(p: Problem, tried: seq<seq<Token>>, found: Found) {
    if found.finalIn == -1
    then found == NOTHING_FOUND && forall j {:trigger tried[j]} :: 0 <= j < |tried| ==> RouteOf(p, tried[j]).None?
    else exists k :: FirstCheapest(p, tried, found, k)
  }

  lemma FeasibleIsNotMinusOne(p: Problem, via: seq<Token>)
    requires RouteOf(p, via).Some?
    ensures RouteOf(p, via).value.amountIn != -1 && |RouteOf(p, via).value.hops| == |via| + 1
  {
    var tokens := TokensOf(p.tokenIn, p.tokenOut, via);
    var r := RouteOf(p, via).value;
    var amounts := FollowIsChain(p.swap, p.pools, tokens, p.finalOut);
    var j := |r.hops| - 1;
    assert IsHop(p.swap, p.pools, tokens[j + 1], tokens[j], amounts[j + 1], amounts[j], r.hops[j]);
  }

  lemma BetterEstablished(p: Problem, tried: seq<seq<Token>>, via: seq<Token>, found: Found)
    requires Established(p, tried, found)
    ensures Established(p, tried + [via], Better(found, RouteOf(p, via)))
  {
    var route := RouteOf(p, via);
    var all := tried + [via];
    var next := Better(found, route);
    if route.Some? {
      FeasibleIsNotMinusOne(p, via);
    }
    if next != found {
      assert all[|tried|] == via;
      forall j | 0 <= j < |tried| && RouteOf(p, tried[j]).Some?
        ensures next.finalIn < RouteOf(p, tried[j]).value.amountIn
      {
      }
      assert FirstCheapest(p, all, next, |tried|);
    } else if found.finalIn != -1 {
      var k: nat :| FirstCheapest(p, tried, found, k);
      assert FirstCheapest(p, all, next, k);
    }
  }

  lemma {:induction false} SearchEstablished(p: Problem, tried: seq<seq<Token>>, vias: seq<seq<Token>>, found: Found)
    requires Established(p, tried, found)
    ensures Established(p, tried + vias, SearchAll(p.swap, p.pools, p.tokenIn, p.tokenOut, p.finalOut, vias, found))
    decreases |vias|
  {
    if vias == [] {
      assert tried + vias == tried;
    } else {
      BetterEstablished(p, tried, vias[0], found);
      SearchEstablished(p, tried + [vias[0]], vias[1..], Better(found, RouteOf(p, vias[0])));
      assert tried + [vias[0]] + vias[1..] == tried + vias;
    }
  }

  lemma {:induction false} ViasByLength(hubs: seq<Token>, n: nat, i: nat, j: nat)
    requires i < j < |ViasUpTo(hubs, n)|
    ensures |ViasUpTo(hubs, n)[i]| <= |ViasUpTo(hubs, n)[j]|
  {
    if n > 0 {
      var before, last := ViasUpTo(hubs, n - 1), Permutations(hubs, n - 1);
      var all := ViasUpTo(hubs, n);
      if j < |before| {
        ViasByLength(hubs, n - 1, i, j);
      } else {
        assert all[j] == last[j - |before|];
        PermutationsSound(hubs, n - 1, all[j]);
        if i < |before| {
          assert all[i] in before;
          ViasAreArrangements(hubs, n - 1, all[i]);
        } else {
          assert all[i] == last[i - |before|];
          PermutationsSound(hubs, n - 1, all[i]);
        }
      }
    }
  }

  lemma {:induction false} ViasInOrder(hubs: seq<Token>, n: nat, i: nat, j: nat)
    requires i < j < |ViasUpTo(hubs, n)| && |ViasUpTo(hubs, n)[i]| == |ViasUpTo(hubs, n)[j]|
    ensures LexBefore(hubs, ViasUpTo(hubs, n)[i], ViasUpTo(hubs, n)[j])
  {
    if n > 0 {
      var before, last := ViasUpTo(hubs, n - 1), Permutations(hubs, n - 1);
      var all := ViasUpTo(hubs, n);
      if j < |before| {
        ViasInOrder(hubs, n - 1, i, j);
      } else if i < |before| {
        assert all[i] in before && all[j] == last[j - |before|];
        ViasAreArrangements(hubs, n - 1, all[i]);
        PermutationsSound(hubs, n - 1, all[j]);
      } else {
        PermutationsInOrder(hubs, n - 1);
        assert LexBefore(hubs, last[i - |before|], last[j - |before|]);
      }
    }
  }

  function Solve(p: Problem, hubs: seq<Token>): Found {
    Search(p.swap, p.pools, hubs, p.tokenIn, p.tokenOut, p.finalOut)
  }

  lemma SubsetSize<T>(p: seq<T>, s: seq<T>)
    requires multiset(p) <= multiset(s)
    ensures |p| <= |s|
  {
    assert |multiset(p)| == |p| && |multiset(s)| == |s|;
    assert multiset(s) == multiset(p) + (multiset(s) - multiset(p));
  }

  function Vias(hubs: seq<Token>): seq<seq<Token>> {
    ViasUpTo(hubs, |hubs| + 1)
  }

  lemma TriedAt(hubs: seq<Token>, via: seq<Token>) returns (j: nat)
    requires multiset(via) <= multiset(hubs)
    ensures j < |Vias(hubs)| && Vias(hubs)[j] == via
  {
    SubsetSize(via, hubs);
    ViasAreArrangements(hubs, |hubs| + 1, via);
    j :| 0 <= j < |Vias(hubs)| && Vias(hubs)[j] == via;
  }

  lemma SolveEstablished(p: Problem, hubs: seq<Token>)
    ensures Established(p, Vias(hubs), Solve(p, hubs))
  {
    SearchEstablished(p, [], Vias(hubs), NOTHING_FOUND);
    assert [] + Vias(hubs) == Vias(hubs);
  }

  /** The search returns -1 exactly when no ordering of any subset of the hub tokens gives a feasible route. */
  lemma NothingFoundIff(p: Problem, hubs: seq<Token>)
    ensures Solve(p, hubs).finalIn == -1 <==>
            forall via :: multiset(via) <= multiset(hubs) ==> RouteOf(p, via).None?
    ensures Solve(p, hubs).finalIn == -1 ==> Solve(p, hubs).hops == []
  {
    var found := Solve(p, hubs);
    SolveEstablished(p, hubs);
    if found.finalIn == -1 {
      forall via | multiset(via) <= multiset(hubs) ensures RouteOf(p, via).None? {
        var j := TriedAt(hubs, via);
        assert RouteOf(p, Vias(hubs)[j]).None?;
      }
    } else {
      var k: nat :| FirstCheapest(p, Vias(hubs), found, k);
      assert Vias(hubs)[k] in Vias(hubs);
      ViasAreArrangements(hubs, |hubs| + 1, Vias(hubs)[k]);
    }
  }

  /** A route tried is no cheaper than the first of the cheapest, no shorter if as cheap, and behind it if as short. */
  lemma NoBetterRoute(p: Problem, hubs: seq<Token>, found: Found, k: nat, via: seq<Token>)
    requires FirstCheapest(p, Vias(hubs), found, k) && multiset(via) <= multiset(hubs) && RouteOf(p, via).Some?
    ensures var route := RouteOf(p, via).value;
            && found.finalIn <= route.amountIn
            && (found.finalIn == route.amountIn ==> |found.hops| <= |route.hops|)
            && (found.finalIn == route.amountIn && |found.hops| == |route.hops| && via != Vias(hubs)[k] ==>
                  LexBefore(hubs, Vias(hubs)[k], via))
  {
    var j := TriedAt(hubs, via);
    assert RouteOf(p, Vias(hubs)[j]).Some?;
    FeasibleIsNotMinusOne(p, via);
    FeasibleIsNotMinusOne(p, Vias(hubs)[k]);
    if k < j {
      ViasByLength(hubs, |hubs| + 1, k, j);
      if |Vias(hubs)[k]| == |via| {
        ViasInOrder(hubs, |hubs| + 1, k, j);
      }
    }
  }

  /**
   The route found costs no more than any ordering of any subset of the hub tokens, among equally cheap ones it has
   the fewest hops, and among those it goes first through the tokens that stand in front; `best` says which these are.
   */
  lemma FoundIsCheapest(p: Problem, hubs: seq<Token>) returns (best: seq<Token>)
    requires Solve(p, hubs).finalIn != -1
    ensures multiset(best) <= multiset(hubs)
    ensures var found := Solve(p, hubs); RouteOf(p, best) == Some(Route(found.finalIn, found.hops))
    ensures forall via :: multiset(via) <= multiset(hubs) && RouteOf(p, via).Some? ==>
              var route := RouteOf(p, via).value;
              && Solve(p, hubs).finalIn <= route.amountIn
              && (Solve(p, hubs).finalIn == route.amountIn ==> |Solve(p, hubs).hops| <= |route.hops|)
              && (Solve(p, hubs).finalIn == route.amountIn && |Solve(p, hubs).hops| == |route.hops| && via != best ==>
                    LexBefore(hubs, best, via))
  {
    var found := Solve(p, hubs);
    SolveEstablished(p, hubs);
    var k: nat :| FirstCheapest(p, Vias(hubs), found, k);
    best := Vias(hubs)[k];
    assert best in Vias(hubs);
    ViasAreArrangements(hubs, |hubs| + 1, best);
    forall via | multiset(via) <= multiset(hubs) && RouteOf(p, via).Some?
      ensures var route := RouteOf(p, via).value;
              && found.finalIn <= route.amountIn
              && (found.finalIn == route.amountIn ==> |found.hops| <= |route.hops|)
              && (found.finalIn == route.amountIn && |found.hops| == |route.hops| && via != best ==>
                    LexBefore(hubs, best, via))
    {
      NoBetterRoute(p, hubs, found, k, via);
    }
  }

  /** No chain of hops through some of the hub tokens, in any order, is missed, cheaper, or as cheap and shorter. */
  lemma NoChainBeatsFound(p: Problem, hubs: seq<Token>, via: seq<Token>, amounts: seq<int>, hops: seq<Path>)
    requires multiset(via) <= multiset(hubs)
    requires Chain(p.swap, p.pools, [p.tokenOut] + via + [p.tokenIn], amounts, hops) && amounts[0] == p.finalOut
    ensures var found := Solve(p, hubs);
            && found.finalIn != -1 && found.finalIn <= amounts[|hops|]
            && (found.finalIn == amounts[|hops|] ==> |found.hops| <= |hops|)
  {
    ChainIsFollowed(p.swap, p.pools, TokensOf(p.tokenIn, p.tokenOut, via), amounts, hops);
    assert RouteOf(p, via).Some?;
    NothingFoundIff(p, hubs);
    var best := FoundIsCheapest(p, hubs);
  }

  /** The hops returned form a chain over the pools, from the amount wanted to the amount to pay. */
  lemma FoundIsChain(p: Problem, hubs: seq<Token>) returns (via: seq<Token>, amounts: seq<int>)
    requires Solve(p, hubs).finalIn != -1
    ensures var found := Solve(p, hubs);
            && Chain(p.swap, p.pools, [p.tokenOut] + via + [p.tokenIn], amounts, found.hops)
            && amounts[0] == p.finalOut && amounts[|found.hops|] == found.finalIn
            && multiset(via) <= multiset(hubs)
  {
    via := FoundIsCheapest(p, hubs);
    amounts := FollowIsChain(p.swap, p.pools, TokensOf(p.tokenIn, p.tokenOut, via), p.finalOut);
  }

  /** Pools deep in both tokens, with a fee below one. */
  ghost predicate Sane(pools: Pools) {
    forall key :: key in pools ==> pools[key].reserve0 > 0 && pools[key].reserve1 > 0 && pools[key].fee < 10000
  }

  const CONSTANT_PRODUCT: Swap := (pool: Pool, amountOut: int, outIndex: nat) =>
    if outIndex < 2 then SwapSimulation(pool, amountOut, outIndex) else None

  /** Over constant-product pools every amount of a chain is the least input for which its pool's product grows. */
  lemma {:induction false} ChainIsExecutable(pools: Pools, tokens: seq<Token>, amounts: seq<int>, hops: seq<Path>,
      j: nat)
    requires Sane(pools) && Chain(CONSTANT_PRODUCT, pools, tokens, amounts, hops) && amounts[0] >= 0 && j < |hops|
    ensures amounts[j] >= 0 && amounts[j + 1] > 0
    ensures var (key, inIndex) := GenPoolKey(tokens[j + 1], tokens[j]);
            && key in pools
            && var (x, y) := if inIndex == 0 then (pools[key].reserve1, pools[key].reserve0)
                             else (pools[key].reserve0, pools[key].reserve1);
               var fee := pools[key].fee;
               && ProductGrows(x, y, fee, amounts[j + 1], amounts[j])
               && !ProductGrows(x, y, fee, amounts[j + 1] - 1, amounts[j])
  {
    if j > 0 {
      ChainIsExecutable(pools, tokens, amounts, hops, j - 1);
    }
    var (key, inIndex) := GenPoolKey(tokens[j + 1], tokens[j]);
    assert IsHop(CONSTANT_PRODUCT, pools, tokens[j + 1], tokens[j], amounts[j + 1], amounts[j], hops[j]);
    var x, y, fee := Reserve(pools[key], 1 - inIndex), Reserve(pools[key], inIndex), pools[key].fee;
    QuoteIsLeastInput(x, y, fee, amounts[j], amounts[j + 1]);
    QuoteIsLeastInput(x, y, fee, amounts[j], amounts[j + 1] - 1);
    QuoteMonotone(x, y, fee, amounts[j], amounts[j]);
  }

  // ----- The loops -----

  /** The innermost loop of `find_routs`. */
  method QuoteAlong(swap: Swap, pools: Pools, tokens: seq<Token>, finalOut: int) returns (route: Option<Route>)
    requires |tokens| >= 2
    ensures route == Follow(swap, pools, tokens, finalOut)
  {
    var amountOut, hops := finalOut, [];
    assert tokens[0..] == tokens;
    assert forall rest: seq<Path> :: [] + rest == rest;
    for j := 0 to |tokens| - 1
      invariant match Follow(swap, pools, tokens[j..], amountOut)
                case None => Follow(swap, pools, tokens, finalOut).None?
                case Some(rest) => Follow(swap, pools, tokens, finalOut) == Some(Route(rest.amountIn, hops + rest.hops))
    {
      assert tokens[j..][1..] == tokens[j + 1..];
      var (amountIn, hop) := SingleRout(swap, pools, tokens[j + 1], tokens[j], amountOut);
      if amountIn == -1 || hop.None? {
        return None;
      }
      ghost var rest := Follow(swap, pools, tokens[j + 1..], amountIn);
      if rest.Some? {
        assert hops + ([hop.value] + rest.value.hops) == hops + [hop.value] + rest.value.hops;
      }
      hops, amountOut := hops + [hop.value], amountIn;
    }
    assert hops + [] == hops;
    route := Some(Route(amountOut, hops));
  }

  method FindRouts(p: Problem, hubs: seq<Token>) returns (finalIn: int, hops: seq<Path>)
    ensures Found(finalIn, hops) == Solve(p, hubs)
  {
    finalIn, hops := -1, [];
    ghost var tried: seq<seq<Token>> := [];
    for insert := 0 to |hubs| + 1
      invariant tried == ViasUpTo(hubs, insert)
      invariant SearchFrom(p, tried, NOTHING_FOUND) == Found(finalIn, hops)
    {
      var perm := Permutations(hubs, insert);
      ghost var before := tried;
      for k := 0 to |perm|
        invariant tried == before + perm[..k]
        invariant SearchFrom(p, tried, NOTHING_FOUND) == Found(finalIn, hops)
      {
        var route := QuoteAlong(p.swap, p.pools, TokensOf(p.tokenIn, p.tokenOut, perm[k]), p.finalOut);
        SearchOneMore(p, tried, perm[k], NOTHING_FOUND);
        assert before + perm[..k] + [perm[k]] == before + perm[..k + 1];
        tried := tried + [perm[k]];
        if route.Some? && (route.value.amountIn < finalIn || finalIn == -1) {
          finalIn, hops := route.value.amountIn, route.value.hops;
        }
      }
    }
  }

  function SearchFrom(p: Problem, vias: seq<seq<Token>>, found: Found): Found {
    SearchAll(p.swap, p.pools, p.tokenIn, p.tokenOut, p.finalOut, vias, found)
  }

  lemma {:induction false} SearchOneMore(p: Problem, vias: seq<seq<Token>>, via: seq<Token>, found: Found)
    ensures SearchFrom(p, vias + [via], found) == Better(SearchFrom(p, vias, found), RouteOf(p, via))
    decreases |vias|
  {
    if vias == [] {
      assert vias + [via] == [via] && [via][1..] == [];
      assert SearchFrom(p, [via], found) == SearchFrom(p, [via][1..], Better(found, RouteOf(p, via)));
    } else {
      assert (vias + [via])[1..] == vias[1..] + [via];
      SearchOneMore(p, vias[1..], via, Better(found, RouteOf(p, vias[0])));
    }
  }
}
