// How assign_params_per_worker of helper/replay.c spreads containers over
// workers: by size, with a coin deciding when a container would overfill the
// current worker.
module Spreading {

  // Where the loop stands: the current worker, the lines it has, how many coins
  // were drawn, and the worker every container so far went to.
  datatype State = State(cur: nat, lines: nat, coins: nat, owners: seq<nat>)

  // The results of successive calls of rand().
  type Coins = nat -> nat

  const START := State(0, 0, 0, [])

  // probability_assign_current.  The difference is one of `unsigned long`
  // values; it never wraps, as Invariant shows.
  function Probability(per: nat, lines: nat, size: nat): int
    requires size > 0
  {
    (per - lines) * 100 / size
  }

  predicate Overfills(st: State, size: nat, threads: nat, per: nat)
  {
    st.cur != threads - 1 && size + st.lines > per
  }

  // Before a container is placed: the coin may move on to the next worker.
  function Toss(st: State, size: nat, threads: nat, per: nat, coin: Coins): State
    requires size > 0
  {
    if !Overfills(st, size, threads, per) then st
    else if coin(st.coins) % 100 < Probability(per, st.lines, size) then State(st.cur + 1, 0, st.coins + 1, st.owners)
    else st.(coins := st.coins + 1)
  }

  // The container goes to the current worker; a full worker is left behind.
  function Place(st: State, size: nat, threads: nat, per: nat): State
  {
    var placed := State(st.cur, st.lines + size, st.coins, st.owners + [st.cur]);
    if placed.cur != threads - 1 && placed.lines >= per then placed.(cur := placed.cur + 1, lines := 0) else placed
  }

  predicate Positive(sizes: seq<nat>)
  {
    forall k :: 0 <= k < |sizes| ==> sizes[k] > 0
  }

  // The loop over all containers.
  function Spread(sizes: seq<nat>, threads: nat, per: nat, coin: Coins): State
    requires Positive(sizes)
  {
    if sizes == [] then START else
      var st := Spread(sizes[..|sizes| - 1], threads, per, coin);
      Place(Toss(st, sizes[|sizes| - 1], threads, per, coin), sizes[|sizes| - 1], threads, per)
  }

  lemma SpreadSnoc(sizes: seq<nat>, size: nat, threads: nat, per: nat, coin: Coins)
    requires Positive(sizes) && size > 0
    ensures Spread(sizes + [size], threads, per, coin)
         == Place(Toss(Spread(sizes, threads, per, coin), size, threads, per, coin), size, threads, per)
  {
    assert (sizes + [size])[..|sizes|] == sizes;
  }

  // The next container, without a division: the coin moves on if the container
  // would overfill the worker and at least (coin % 100 + 1) percent of it still
  // fit.  A worker other than the last one that has its share is done.
  lemma NextOwner(sizes: seq<nat>, size: nat, threads: nat, per: nat, coin: Coins)
    requires Positive(sizes) && size > 0
    ensures var st, st' := Spread(sizes, threads, per, coin), Spread(sizes + [size], threads, per, coin);
      var overfills := st.cur + 1 != threads && st.lines + size > per;
      var moves := overfills && (coin(st.coins) % 100 + 1) * size <= (per - st.lines) * 100;
      var owner, has := if moves then st.cur + 1 else st.cur, if moves then size else st.lines + size;
      var done := owner + 1 != threads && has >= per;
      && st'.owners == st.owners + [owner]
      && st'.coins == st.coins + (if overfills then 1 else 0)
      && st'.cur == owner + (if done then 1 else 0)
      && st'.lines == (if done then 0 else has)
  {
    hide Spread, Toss;
    SpreadSnoc(sizes, size, threads, per, coin);
    TossDecides(Spread(sizes, threads, per, coin), size, threads, per, coin);
  }

  lemma BelowQuotient(c: int, x: int, n: nat)
    requires n > 0
    ensures c < x / n <==> (c + 1) * n <= x
  {
    var q := x / n;
    assert q * n <= x < q * n + n;
    if c < q {
      TimesGrows(q, c + 1, n);
    } else {
      TimesGrows(c, q, n);
    }
  }

  lemma TossDecides(st: State, size: nat, threads: nat, per: nat, coin: Coins)
    requires size > 0
    ensures var overfills := st.cur + 1 != threads && st.lines + size > per;
      var moves := overfills && (coin(st.coins) % 100 + 1) * size <= (per - st.lines) * 100;
      Toss(st, size, threads, per, coin)
      == State(if moves then st.cur + 1 else st.cur, if moves then 0 else st.lines,
               st.coins + (if overfills then 1 else 0), st.owners)
  {
    BelowQuotient(coin(st.coins) % 100, (per - st.lines) * 100, size);
  }

  // The lines that worker w has.
  function Load(sizes: seq<nat>, owners: seq<nat>, w: nat): nat
    requires |owners| == |sizes|
  {
    if sizes == [] then 0 else
      var last := |sizes| - 1;
      Load(sizes[..last], owners[..last], w) + if owners[last] == w then sizes[last] else 0
  }

  // ----- the invariant -----

  ghost predicate Invariant(sizes: seq<nat>, st: State, threads: nat, per: nat)
  {
    && st.cur < threads && |st.owners| == |sizes|
    && (forall k :: 0 <= k < |st.owners| ==> st.owners[k] <= st.cur)
    && st.lines == Load(sizes, st.owners, st.cur)
    && (st.cur != threads - 1 ==> st.lines == 0 || st.lines < per)
  }

  lemma {:induction false} NoLoad(sizes: seq<nat>, owners: seq<nat>, w: nat)
    requires |owners| == |sizes| && forall k :: 0 <= k < |owners| ==> owners[k] != w
    ensures Load(sizes, owners, w) == 0
  {
    if sizes != [] {
      var last := |sizes| - 1;
      NoLoad(sizes[..last], owners[..last], w);
    }
  }

  lemma LoadSnoc(sizes: seq<nat>, owners: seq<nat>, size: nat, owner: nat, w: nat)
    requires |owners| == |sizes|
    ensures Load(sizes + [size], owners + [owner], w) == Load(sizes, owners, w) + if owner == w then size else 0
  {
    assert (sizes + [size])[..|sizes|] == sizes && (owners + [owner])[..|sizes|] == owners;
  }

  lemma TossInvariant(sizes: seq<nat>, st: State, size: nat, threads: nat, per: nat, coin: Coins)
    requires Invariant(sizes, st, threads, per) && size > 0
    ensures Invariant(sizes, Toss(st, size, threads, per, coin), threads, per)
  {
    NoLoad(sizes, st.owners, st.cur + 1);
  }

  lemma PlaceInvariant(sizes: seq<nat>, st: State, size: nat, threads: nat, per: nat)
    requires Invariant(sizes, st, threads, per) && size > 0
    ensures Invariant(sizes + [size], Place(st, size, threads, per), threads, per)
  {
    LoadSnoc(sizes, st.owners, size, st.cur, st.cur);
    NoLoad(sizes, st.owners, st.cur + 1);
    LoadSnoc(sizes, st.owners, size, st.cur, st.cur + 1);
  }

  // For any coins: the current worker stays below the number of workers, and
  // cur_thread_lines is what the current worker has.
  lemma {:induction false} SpreadInvariant(sizes: seq<nat>, threads: nat, per: nat, coin: Coins)
    requires Positive(sizes) && threads > 0
    ensures Invariant(sizes, Spread(sizes, threads, per, coin), threads, per)
  {
    if sizes != [] {
      var last := |sizes| - 1;
      SpreadInvariant(sizes[..last], threads, per, coin);
      var st := Spread(sizes[..last], threads, per, coin);
      TossInvariant(sizes[..last], st, sizes[last], threads, per, coin);
      PlaceInvariant(sizes[..last], Toss(st, sizes[last], threads, per, coin), sizes[last], threads, per);
      assert sizes[..last] + [sizes[last]] == sizes;
    }
  }

  // Whenever the coin is drawn, per_thread_lines - cur_thread_lines does not
  // wrap, and the probability is a percentage below 100.
  lemma CoinIsFair(sizes: seq<nat>, threads: nat, per: nat, coin: Coins, size: nat)
    requires Positive(sizes) && threads > 0 && size > 0
    requires Overfills(Spread(sizes, threads, per, coin), size, threads, per)
    ensures var lines := Spread(sizes, threads, per, coin).lines;
      lines <= per && 0 <= Probability(per, lines, size) <= 99
  {
    SpreadInvariant(sizes, threads, per, coin);
    var room := per - Spread(sizes, threads, per, coin).lines;
    assert room * 100 < size * 100;
    PercentBelow(room, size);
  }

  lemma PercentBelow(room: nat, size: nat)
    requires room < size
    ensures 0 <= room * 100 / size <= 99
  {
    var q := room * 100 / size;
    assert q * size <= room * 100 < 100 * size;
    if q >= 100 {
      TimesGrows(q, 100, size);
    }
  }

  lemma TimesGrows(a: int, b: int, c: nat)
    requires a >= b
    ensures a * c >= b * c
  {
  }

  // ----- balance -----

  ghost predicate Bounded(sizes: seq<nat>, largest: nat)
  {
    forall k :: 0 <= k < |sizes| ==> sizes[k] <= largest
  }

  ghost predicate Balanced(sizes: seq<nat>, st: State, per: nat, largest: nat)
    requires |st.owners| == |sizes|
  {
    forall w :: 0 <= w < st.cur ==> per < Load(sizes, st.owners, w) + largest && Load(sizes, st.owners, w) < per + largest
  }

  lemma TossBalanced(sizes: seq<nat>, st: State, size: nat, threads: nat, per: nat, coin: Coins, largest: nat)
    requires Invariant(sizes, st, threads, per) && Balanced(sizes, st, per, largest) && per > 0
    requires 0 < size <= largest
    ensures Balanced(sizes, Toss(st, size, threads, per, coin), per, largest)
  {
  }

  lemma PlaceBalanced(sizes: seq<nat>, st: State, size: nat, threads: nat, per: nat, largest: nat)
    requires Invariant(sizes, st, threads, per) && Balanced(sizes, st, per, largest) && per > 0
    requires 0 < size <= largest
    ensures Balanced(sizes + [size], Place(st, size, threads, per), per, largest)
  {
    var st' := Place(st, size, threads, per);
    forall w | 0 <= w < st'.cur
      ensures per < Load(sizes + [size], st'.owners, w) + largest && Load(sizes + [size], st'.owners, w) < per + largest
    {
      LoadSnoc(sizes, st.owners, size, st.cur, w);
    }
  }

  lemma StepBalanced(sizes: seq<nat>, st: State, size: nat, threads: nat, per: nat, coin: Coins, largest: nat)
    requires Invariant(sizes, st, threads, per) && Balanced(sizes, st, per, largest) && per > 0
    requires 0 < size <= largest
    ensures var st' := Place(Toss(st, size, threads, per, coin), size, threads, per);
      |st'.owners| == |sizes| + 1 && Balanced(sizes + [size], st', per, largest)
  {
    hide Balanced, Load;
    TossInvariant(sizes, st, size, threads, per, coin);
    TossBalanced(sizes, st, size, threads, per, coin, largest);
    PlaceBalanced(sizes, Toss(st, size, threads, per, coin), size, threads, per, largest);
  }

  // With at least one line per worker, every worker that was moved past has
  // strictly between per - S and per + S lines, where S bounds the containers.
  lemma {:induction false} SpreadBalanced(sizes: seq<nat>, threads: nat, per: nat, coin: Coins, largest: nat)
    requires Positive(sizes) && threads > 0 && per > 0 && Bounded(sizes, largest)
    ensures |Spread(sizes, threads, per, coin).owners| == |sizes|
    ensures Balanced(sizes, Spread(sizes, threads, per, coin), per, largest)
  {
    hide Toss, Place, Load, Invariant;
    if sizes != [] {
      var last := |sizes| - 1;
      SpreadInvariant(sizes[..last], threads, per, coin);
      SpreadBalanced(sizes[..last], threads, per, coin, largest);
      StepBalanced(sizes[..last], Spread(sizes[..last], threads, per, coin), sizes[last], threads, per, coin, largest);
      assert sizes[..last] + [sizes[last]] == sizes;
    }
  }

  // ----- all lines are placed -----

  function Total(sizes: seq<nat>): nat
  {
    if sizes == [] then 0 else Total(sizes[..|sizes| - 1]) + sizes[|sizes| - 1]
  }

  // The lines of the first n workers.
  function SumLoads(sizes: seq<nat>, owners: seq<nat>, n: nat): nat
    requires |owners| == |sizes|
  {
    if n == 0 then 0 else SumLoads(sizes, owners, n - 1) + Load(sizes, owners, n - 1)
  }

  lemma {:induction false} SumLoadsSnoc(sizes: seq<nat>, owners: seq<nat>, size: nat, owner: nat, n: nat)
    requires |owners| == |sizes|
    ensures SumLoads(sizes + [size], owners + [owner], n) == SumLoads(sizes, owners, n) + if owner < n then size else 0
  {
    if n > 0 {
      SumLoadsSnoc(sizes, owners, size, owner, n - 1);
      LoadSnoc(sizes, owners, size, owner, n - 1);
    }
  }

  lemma {:induction false} NothingPlaced(n: nat)
    ensures SumLoads([], [], n) == 0
  {
    if n > 0 {
      NothingPlaced(n - 1);
    }
  }

  // The workers' loads add up to all lines.
  lemma {:induction false} LoadsAddUp(sizes: seq<nat>, owners: seq<nat>, n: nat)
    requires |owners| == |sizes| && forall k :: 0 <= k < |owners| ==> owners[k] < n
    ensures SumLoads(sizes, owners, n) == Total(sizes)
  {
    if sizes == [] {
      NothingPlaced(n);
    } else {
      var last := |sizes| - 1;
      LoadsAddUp(sizes[..last], owners[..last], n);
      SumLoadsSnoc(sizes[..last], owners[..last], sizes[last], owners[last], n);
      assert sizes[..last] + [sizes[last]] == sizes && owners[..last] + [owners[last]] == owners;
    }
  }
}
