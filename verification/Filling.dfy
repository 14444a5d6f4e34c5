// Which containers make sure that assign_params_per_worker of helper/replay.c
// leaves no worker without lines, whatever the coins.
module Filling {
  import opened Spreading

  // ----- which coins leave a worker without lines -----

  // Every worker gets lines with these coins.
  ghost predicate Fills(sizes: seq<nat>, threads: nat, per: nat, coin: Coins)
    requires Positive(sizes)
  {
    var st := Spread(sizes, threads, per, coin);
    |st.owners| == |sizes| && forall w :: 0 <= w < threads ==> Load(sizes, st.owners, w) > 0
  }

  // The last worker gets lines with these coins.
  ghost predicate FillsLast(sizes: seq<nat>, threads: nat, per: nat, coin: Coins)
    requires Positive(sizes) && threads > 0
  {
    var st := Spread(sizes, threads, per, coin);
    |st.owners| == |sizes| && Load(sizes, st.owners, threads - 1) > 0
  }

  // All workers before the current one have lines.
  ghost predicate NoneSkipped(sizes: seq<nat>, st: State)
    requires |st.owners| == |sizes|
  {
    forall w :: 0 <= w < st.cur ==> Load(sizes, st.owners, w) > 0
  }

  lemma FillsAtEnd(sizes: seq<nat>, threads: nat, per: nat, coin: Coins)
    requires Positive(sizes) && threads > 0
    ensures var st := Spread(sizes, threads, per, coin);
      && |st.owners| == |sizes|
      && (Fills(sizes, threads, per, coin) <==> NoneSkipped(sizes, st) && st.cur == threads - 1 && st.lines > 0)
      && (FillsLast(sizes, threads, per, coin) <==> st.cur == threads - 1 && st.lines > 0)
  {
    hide Spread, Load;
    var st := Spread(sizes, threads, per, coin);
    SpreadInvariant(sizes, threads, per, coin);
    if st.cur < threads - 1 {
      NoLoad(sizes, st.owners, threads - 1);
    }
  }

  // ----- the slowest coins -----

  // The containers cut, in order, into stretches that just reach `per` lines:
  // the number of stretches, and the lines left over.
  function Cut(sizes: seq<nat>, per: nat): (r: (nat, nat))
  {
    if sizes == [] then (0, 0) else
      var (n, rest) := Cut(sizes[..|sizes| - 1], per);
      CutNext(n, rest, sizes[|sizes| - 1], per)
  }

  function CutNext(n: nat, rest: nat, size: nat, per: nat): (nat, nat)
  {
    if rest + size >= per then (n + 1, 0) else (n, rest + size)
  }

  // All workers but the last can be given a stretch each, and something is left
  // over.
  predicate Cuts(sizes: seq<nat>, threads: nat, per: nat)
  {
    var (n, rest) := Cut(sizes, per);
    n >= threads || (n + 1 == threads && rest > 0)
  }

  // Cutting is not ahead of these coins.
  ghost predicate Behind(n: nat, rest: nat, st: State, threads: nat)
  {
    || n < st.cur || (n == st.cur && rest <= st.lines)
    || (st.cur == threads - 1 && n >= threads && st.lines > 0)
  }

  lemma BehindStep(n: nat, rest: nat, st: State, size: nat, threads: nat, per: nat, coin: Coins)
    requires Behind(n, rest, st, threads) && st.cur < threads && size > 0
    ensures var (n', rest') := CutNext(n, rest, size, per);
      Behind(n', rest', Place(Toss(st, size, threads, per, coin), size, threads, per), threads)
  {
  }

  lemma {:induction false} CutIsSlowest(sizes: seq<nat>, threads: nat, per: nat, coin: Coins)
    requires Positive(sizes) && threads > 0
    ensures var (n, rest) := Cut(sizes, per);
      Behind(n, rest, Spread(sizes, threads, per, coin), threads)
  {
    hide Toss, Place, Behind, CutNext, Load;
    if sizes == [] {
      BehindStarts(threads);
    } else {
      var front := sizes[..|sizes| - 1];
      CutIsSlowest(front, threads, per, coin);
      CurrentIsWorker(front, threads, per, coin);
      var (n, rest) := Cut(front, per);
      BehindStep(n, rest, Spread(front, threads, per, coin), sizes[|sizes| - 1], threads, per, coin);
    }
  }

  lemma BehindStarts(threads: nat)
    ensures Behind(0, 0, START, threads)
  {
  }

  lemma CurrentIsWorker(sizes: seq<nat>, threads: nat, per: nat, coin: Coins)
    requires Positive(sizes) && threads > 0
    ensures Spread(sizes, threads, per, coin).cur < threads
  {
    hide Spread;
    SpreadInvariant(sizes, threads, per, coin);
  }

  // Coins that never move on follow the cut, as far as there are workers.
  const STAY: Coins := _ => 99

  ghost predicate Follows(n: nat, rest: nat, st: State, threads: nat)
  {
    if n < threads then st.cur == n && st.lines == rest else st.cur == threads - 1
  }

  lemma FollowsStep(n: nat, rest: nat, st: State, size: nat, threads: nat, per: nat)
    requires Follows(n, rest, st, threads) && st.cur < threads && size > 0
    requires Overfills(st, size, threads, per) ==> Probability(per, st.lines, size) <= 99
    ensures var (n', rest') := CutNext(n, rest, size, per);
      Follows(n', rest', Place(Toss(st, size, threads, per, STAY), size, threads, per), threads)
  {
  }

  lemma {:induction false} StayFollowsCut(sizes: seq<nat>, threads: nat, per: nat)
    requires Positive(sizes) && threads > 0
    ensures var (n, rest) := Cut(sizes, per);
      Follows(n, rest, Spread(sizes, threads, per, STAY), threads)
  {
    hide Toss, Place, CutNext, Load, Overfills, Probability;
    if sizes != [] {
      var front, last := sizes[..|sizes| - 1], sizes[|sizes| - 1];
      StayFollowsCut(front, threads, per);
      CurrentIsWorker(front, threads, per, STAY);
      if Overfills(Spread(front, threads, per, STAY), last, threads, per) {
        CoinIsFair(front, threads, per, STAY, last);
      }
      var (n, rest) := Cut(front, per);
      FollowsStep(n, rest, Spread(front, threads, per, STAY), last, threads, per);
    }
  }

  // For any containers: the last worker gets lines with all coins exactly when
  // the containers can be cut into enough stretches.
  lemma LastWorkerFilled(sizes: seq<nat>, threads: nat, per: nat)
    requires Positive(sizes) && threads > 0
    ensures (forall coin: Coins :: FillsLast(sizes, threads, per, coin)) <==> Cuts(sizes, threads, per)
  {
    hide Spread, Load, Cut, FillsLast;
    forall coin: Coins | Cuts(sizes, threads, per)
      ensures FillsLast(sizes, threads, per, coin)
    {
      CutIsSlowest(sizes, threads, per, coin);
      CurrentIsWorker(sizes, threads, per, coin);
      FillsAtEnd(sizes, threads, per, coin);
    }
    StayFollowsCut(sizes, threads, per);
    FillsAtEnd(sizes, threads, per, STAY);
    assert !Cuts(sizes, threads, per) ==> !FillsLast(sizes, threads, per, STAY);
  }

  // ----- containers that a coin may move away from an empty worker -----

  // Larger than a worker's share, but not so large that the probability of
  // moving on, cut down to whole percents, is 0.
  predicate Tempting(size: nat, per: nat)
  {
    per < size <= 100 * per
  }

  lemma WholePercent(room: nat, size: nat)
    requires size > 0
    ensures room * 100 / size >= 1 <==> size <= room * 100
  {
    var q := room * 100 / size;
    assert q * size <= room * 100 < q * size + size;
    if q >= 1 {
      TimesGrows(q, 1, size);
    }
  }

  lemma SkipsNone(sizes: seq<nat>, st: State, size: nat, threads: nat, per: nat, coin: Coins)
    requires Invariant(sizes, st, threads, per) && NoneSkipped(sizes, st) && size > 0
    requires st.lines > 0 || !Tempting(size, per)
    ensures var st' := Place(Toss(st, size, threads, per, coin), size, threads, per);
      |st'.owners| == |sizes| + 1 && NoneSkipped(sizes + [size], st')
  {
    hide Load, Probability;
    var tossed := Toss(st, size, threads, per, coin);
    if tossed.cur != st.cur {
      Temptation(st, size, threads, per, coin);
    }
    var st' := Place(tossed, size, threads, per);
    forall w | 0 <= w < st'.cur
      ensures Load(sizes + [size], st'.owners, w) > 0
    {
      LoadSnoc(sizes, st.owners, size, tossed.cur, w);
    }
  }

  // A coin moves on from an empty worker only before a tempting container.
  lemma Temptation(st: State, size: nat, threads: nat, per: nat, coin: Coins)
    requires size > 0 && Toss(st, size, threads, per, coin).cur != st.cur
    ensures st.lines == 0 ==> Tempting(size, per)
  {
    if st.lines == 0 {
      WholePercent(per, size);
    }
  }

  lemma {:induction false} ModestSkipNone(sizes: seq<nat>, threads: nat, per: nat, coin: Coins)
    requires Positive(sizes) && threads > 0
    requires forall k :: 0 <= k < |sizes| ==> !Tempting(sizes[k], per)
    ensures |Spread(sizes, threads, per, coin).owners| == |sizes|
    ensures NoneSkipped(sizes, Spread(sizes, threads, per, coin))
  {
    hide Toss, Place, Load, Invariant, Tempting;
    if sizes != [] {
      var front, last := sizes[..|sizes| - 1], sizes[|sizes| - 1];
      ModestSkipNone(front, threads, per, coin);
      SpreadInvariant(front, threads, per, coin);
      SkipsNone(front, Spread(front, threads, per, coin), last, threads, per, coin);
      assert front + [last] == sizes;
    }
  }

  // Without tempting containers, as when none is larger than a worker's share,
  // no coins leave a worker without lines exactly when the containers can be
  // cut into enough stretches.
  lemma ModestContainersFillAll(sizes: seq<nat>, threads: nat, per: nat)
    requires Positive(sizes) && threads > 0
    requires forall k :: 0 <= k < |sizes| ==> !Tempting(sizes[k], per)
    ensures (forall coin: Coins :: Fills(sizes, threads, per, coin)) <==> Cuts(sizes, threads, per)
  {
    hide Spread, Load, Cuts, Tempting, NoneSkipped, Fills, FillsLast;
    LastWorkerFilled(sizes, threads, per);
    forall coin: Coins
      ensures Fills(sizes, threads, per, coin) <==> FillsLast(sizes, threads, per, coin)
    {
      ModestSkipNone(sizes, threads, per, coin);
      FillsAtEnd(sizes, threads, per, coin);
    }
  }

  // ----- two workers, any containers -----

  lemma {:induction false} CutTotal(sizes: seq<nat>, per: nat)
    requires Positive(sizes)
    ensures var (n, rest) := Cut(sizes, per);
      && (n == 0 ==> rest == Total(sizes) && (sizes == [] || rest < per))
      && (n > 0 ==> Total(sizes) >= per)
  {
    if sizes != [] {
      CutTotal(sizes[..|sizes| - 1], per);
    }
  }

  lemma CutsTwo(sizes: seq<nat>, per: nat)
    requires Positive(sizes)
    ensures Cuts(sizes, 2, per) <==> |sizes| >= 2 && Total(sizes[..|sizes| - 1]) >= per
  {
    hide Total;
    if sizes != [] {
      CutTotal(sizes[..|sizes| - 1], per);
    }
  }

  lemma {:induction false} LoadAtLeast(sizes: seq<nat>, owners: seq<nat>, k: nat)
    requires |owners| == |sizes| && k < |sizes|
    ensures Load(sizes, owners, owners[k]) >= sizes[k]
  {
    var last := |sizes| - 1;
    if k < last {
      LoadAtLeast(sizes[..last], owners[..last], k);
    }
  }

  // The worker that the first container goes to, when there is another one.
  function FirstWorker(size: nat, per: nat, coin: Coins): nat
    requires size > 0
  {
    if Tempting(size, per) && coin(0) % 100 < Probability(per, 0, size) then 1 else 0
  }

  // The first container went to this worker, and no other to an earlier one.
  ghost predicate StartsAt(st: State, first: nat)
  {
    && st.owners != [] && st.owners[0] == first && st.cur >= first
    && forall k :: 0 <= k < |st.owners| ==> st.owners[k] >= first
  }

  lemma FirstPlaced(size: nat, threads: nat, per: nat, coin: Coins)
    requires size > 0 && threads > 1
    ensures StartsAt(Place(Toss(START, size, threads, per, coin), size, threads, per), FirstWorker(size, per, coin))
  {
    WholePercent(per, size);
  }

  lemma LaterPlaced(st: State, size: nat, threads: nat, per: nat, coin: Coins, first: nat)
    requires StartsAt(st, first) && size > 0
    ensures StartsAt(Place(Toss(st, size, threads, per, coin), size, threads, per), first)
  {
    hide Probability;
  }

  lemma {:induction false} FirstOwner(sizes: seq<nat>, threads: nat, per: nat, coin: Coins)
    requires Positive(sizes) && sizes != [] && threads > 1
    ensures StartsAt(Spread(sizes, threads, per, coin), FirstWorker(sizes[0], per, coin))
  {
    hide Toss, Place, StartsAt, FirstWorker;
    var last := |sizes| - 1;
    if last == 0 {
      assert sizes[..0] == [];
      FirstPlaced(sizes[0], threads, per, coin);
    } else {
      FirstOwner(sizes[..last], threads, per, coin);
      LaterPlaced(Spread(sizes[..last], threads, per, coin), sizes[last], threads, per, coin,
                  FirstWorker(sizes[0], per, coin));
    }
  }

  // Coins that move on whenever they can.
  const MOVE: Coins := _ => 0

  // A tempting first container can leave the first worker without lines.
  lemma FirstTempted(sizes: seq<nat>, threads: nat, per: nat)
    requires Positive(sizes) && sizes != [] && threads > 1 && Tempting(sizes[0], per)
    ensures !Fills(sizes, threads, per, MOVE)
  {
    hide Spread, Load, Probability;
    SpreadInvariant(sizes, threads, per, MOVE);
    FirstOwner(sizes, threads, per, MOVE);
    WholePercent(per, sizes[0]);
    AtLeastOne(per, sizes[0]);
    NoLoad(sizes, Spread(sizes, threads, per, MOVE).owners, 0);
  }

  lemma AtLeastOne(per: nat, size: nat)
    requires size > 0 && per * 100 / size >= 1
    ensures Probability(per, 0, size) > MOVE(0) % 100
  {
  }

  lemma FirstKept(sizes: seq<nat>, per: nat, coin: Coins)
    requires Positive(sizes) && sizes != [] && !Tempting(sizes[0], per)
    ensures |Spread(sizes, 2, per, coin).owners| == |sizes|
    ensures NoneSkipped(sizes, Spread(sizes, 2, per, coin))
  {
    hide Spread, Load, Tempting;
    var st := Spread(sizes, 2, per, coin);
    SpreadInvariant(sizes, 2, per, coin);
    FirstOwner(sizes, 2, per, coin);
    CurrentIsWorker(sizes, 2, per, coin);
    LoadAtLeast(sizes, st.owners, 0);
  }

  // With two workers, no coins leave one of them without lines exactly when the
  // first container is not tempting and the last one is not needed to fill the
  // first worker.
  lemma TwoWorkersFilled(sizes: seq<nat>, per: nat)
    requires Positive(sizes)
    ensures (forall coin: Coins :: Fills(sizes, 2, per, coin))
       <==> |sizes| >= 2 && !Tempting(sizes[0], per) && Total(sizes[..|sizes| - 1]) >= per
  {
    hide Spread, Load, Cuts, Tempting, Fills, FillsLast, Total, NoneSkipped;
    CutsTwo(sizes, per);
    LastWorkerFilled(sizes, 2, per);
    forall coin: Coins
      ensures Fills(sizes, 2, per, coin) ==> FillsLast(sizes, 2, per, coin)
      ensures sizes != [] && !Tempting(sizes[0], per) && FillsLast(sizes, 2, per, coin) ==> Fills(sizes, 2, per, coin)
    {
      FillsAtEnd(sizes, 2, per, coin);
      if sizes != [] && !Tempting(sizes[0], per) {
        FirstKept(sizes, per, coin);
      }
    }
    if sizes != [] && Tempting(sizes[0], per) {
      FirstTempted(sizes, 2, per);
    }
  }

  // ----- any containers, any workers -----

  // What matters about a state: where the loop stands, and whether a worker was
  // left without lines.
  datatype Spot = Spot(cur: nat, lines: nat, skipped: bool)

  predicate MayMove(p: Spot, size: nat, threads: nat, per: nat)
    requires size > 0
  {
    p.cur != threads - 1 && size + p.lines > per && Probability(per, p.lines, size) > 0
  }

  function Moved(p: Spot): Spot
  {
    Spot(p.cur + 1, 0, p.skipped || p.lines == 0)
  }

  function Placed(p: Spot, size: nat, threads: nat, per: nat): Spot
  {
    if p.cur != threads - 1 && p.lines + size >= per then p.(cur := p.cur + 1, lines := 0)
    else p.(lines := p.lines + size)
  }

  // Where the loop can stand after these containers, with any coins.
  function Spots(sizes: seq<nat>, threads: nat, per: nat): set<Spot>
    requires Positive(sizes)
  {
    if sizes == [] then {Spot(0, 0, false)} else
      var before, size := Spots(sizes[..|sizes| - 1], threads, per), sizes[|sizes| - 1];
      (set p | p in before :: Placed(p, size, threads, per))
      + (set p | p in before && MayMove(p, size, threads, per) :: Placed(Moved(p), size, threads, per))
  }

  // No coins can end with a worker left without lines.
  predicate Safe(sizes: seq<nat>, threads: nat, per: nat)
    requires Positive(sizes)
  {
    forall p :: p in Spots(sizes, threads, per) ==> !p.skipped && p.cur + 1 == threads && p.lines > 0
  }

  ghost predicate StandsAt(sizes: seq<nat>, st: State, p: Spot)
  {
    |st.owners| == |sizes| && p == Spot(st.cur, st.lines, !NoneSkipped(sizes, st))
  }

  // Whether the coin that is drawn for this container moves on.
  predicate Moves(st: State, size: nat, threads: nat, per: nat, coin: Coins)
    requires size > 0
  {
    Overfills(st, size, threads, per) && coin(st.coins) % 100 < Probability(per, st.lines, size)
  }

  lemma SkippedStep(sizes: seq<nat>, st: State, size: nat, threads: nat, per: nat, coin: Coins)
    requires Invariant(sizes, st, threads, per) && size > 0
    ensures var st' := Place(Toss(st, size, threads, per, coin), size, threads, per);
      && |st'.owners| == |sizes| + 1
      && (NoneSkipped(sizes + [size], st')
          <==> NoneSkipped(sizes, st) && (Moves(st, size, threads, per, coin) ==> st.lines > 0))
  {
    hide Load, Probability;
    var tossed := Toss(st, size, threads, per, coin);
    var st' := Place(tossed, size, threads, per);
    forall w: nat
      ensures Load(sizes + [size], st'.owners, w) == Load(sizes, st.owners, w) + if tossed.cur == w then size else 0
    {
      LoadSnoc(sizes, st.owners, size, tossed.cur, w);
    }
    if !NoneSkipped(sizes, st) {
      var w :| 0 <= w < st.cur && Load(sizes, st.owners, w) == 0;
      assert Load(sizes + [size], st'.owners, w) == 0;
    }
    if Moves(st, size, threads, per, coin) && st.lines == 0 {
      assert Load(sizes + [size], st'.owners, st.cur) == 0;
    }
  }

  lemma StandStep(sizes: seq<nat>, st: State, p: Spot, size: nat, threads: nat, per: nat, coin: Coins)
    requires Invariant(sizes, st, threads, per) && StandsAt(sizes, st, p) && size > 0
    ensures var moves := Moves(st, size, threads, per, coin);
      && (moves ==> MayMove(p, size, threads, per))
      && StandsAt(sizes + [size], Place(Toss(st, size, threads, per, coin), size, threads, per),
                  Placed(if moves then Moved(p) else p, size, threads, per))
  {
    hide Load, NoneSkipped, Invariant, Probability;
    SkippedStep(sizes, st, size, threads, per, coin);
  }

  // Every run ends at one of the spots.
  lemma {:induction false} RunsEndAtSpots(sizes: seq<nat>, threads: nat, per: nat, coin: Coins) returns (p: Spot)
    requires Positive(sizes) && threads > 0
    ensures StandsAt(sizes, Spread(sizes, threads, per, coin), p) && p in Spots(sizes, threads, per)
  {
    hide Toss, Place, StandsAt, Moves, MayMove, Moved, Placed, Invariant;
    if sizes == [] {
      p := Spot(0, 0, false);
      StandsAtStart();
    } else {
      var front, last := sizes[..|sizes| - 1], sizes[|sizes| - 1];
      var before := RunsEndAtSpots(front, threads, per, coin);
      SpreadInvariant(front, threads, per, coin);
      StandStep(front, Spread(front, threads, per, coin), before, last, threads, per, coin);
      p := Placed(if Moves(Spread(front, threads, per, coin), last, threads, per, coin) then Moved(before) else before,
                  last, threads, per);
      assert front + [last] == sizes;
    }
  }

  lemma StandsAtStart()
    ensures StandsAt([], START, Spot(0, 0, false))
  {
  }

  // The run depends on the coins that were drawn only.
  lemma {:induction false} SameCoins(sizes: seq<nat>, threads: nat, per: nat, c: Coins, d: Coins)
    requires Positive(sizes)
    requires forall i :: 0 <= i < Spread(sizes, threads, per, c).coins ==> c(i) == d(i)
    ensures Spread(sizes, threads, per, d) == Spread(sizes, threads, per, c)
  {
    hide Probability, Place;
    if sizes != [] {
      var front, last := sizes[..|sizes| - 1], sizes[|sizes| - 1];
      PlaceKeepsCoins(Toss(Spread(front, threads, per, c), last, threads, per, c), last, threads, per);
      SameCoins(front, threads, per, c, d);
    }
  }

  lemma PlaceKeepsCoins(st: State, size: nat, threads: nat, per: nat)
    ensures Place(st, size, threads, per).coins == st.coins
  {
  }

  // The next coin comes out as given.
  function WithCoin(coin: Coins, i: nat, r: nat): Coins
  {
    j => if j == i then r else coin(j)
  }

  // Every spot is where some run ends.
  lemma {:induction false} SpotsAreReached(sizes: seq<nat>, threads: nat, per: nat, p: Spot) returns (coin: Coins)
    requires Positive(sizes) && threads > 0 && p in Spots(sizes, threads, per)
    ensures StandsAt(sizes, Spread(sizes, threads, per, coin), p)
  {
    hide Toss, Place, StandsAt, Moves, MayMove, Moved, Placed, Invariant;
    if sizes == [] {
      coin := STAY;
      StandsAtStart();
    } else {
      var front, last := sizes[..|sizes| - 1], sizes[|sizes| - 1];
      var before, moves := SpotBefore(sizes, threads, per, p);
      var c := SpotsAreReached(front, threads, per, before);
      var st := Spread(front, threads, per, c);
      coin := WithCoin(c, st.coins, if moves then 0 else 99);
      SameCoins(front, threads, per, c, coin);
      SpreadInvariant(front, threads, per, coin);
      MovesAsGiven(front, st, before, last, threads, per, coin, moves);
      StandStep(front, st, before, last, threads, per, coin);
      assert front + [last] == sizes;
    }
  }

  lemma SpotBefore(sizes: seq<nat>, threads: nat, per: nat, p: Spot) returns (before: Spot, moves: bool)
    requires Positive(sizes) && sizes != [] && p in Spots(sizes, threads, per)
    ensures before in Spots(sizes[..|sizes| - 1], threads, per)
    ensures moves ==> MayMove(before, sizes[|sizes| - 1], threads, per)
    ensures p == Placed(if moves then Moved(before) else before, sizes[|sizes| - 1], threads, per)
  {
    hide MayMove, Moved, Placed;
    var all, size := Spots(sizes[..|sizes| - 1], threads, per), sizes[|sizes| - 1];
    moves := p !in set q | q in all :: Placed(q, size, threads, per);
    if moves {
      before :| before in all && MayMove(before, size, threads, per) && p == Placed(Moved(before), size, threads, per);
    } else {
      before :| before in all && p == Placed(before, size, threads, per);
    }
  }

  lemma MovesAsGiven(sizes: seq<nat>, st: State, p: Spot, size: nat, threads: nat, per: nat, coin: Coins, moves: bool)
    requires Invariant(sizes, st, threads, per) && StandsAt(sizes, st, p) && size > 0
    requires moves ==> MayMove(p, size, threads, per)
    requires coin(st.coins) == if moves then 0 else 99
    ensures Moves(st, size, threads, per, coin) <==> moves
  {
    hide Load, NoneSkipped;
    if Overfills(st, size, threads, per) {
      PercentBelow(per - st.lines, size);
    }
  }

  // For any containers and any number of workers: no coins leave a worker
  // without lines exactly when the containers are safe.
  lemma SafeContainersFillAll(sizes: seq<nat>, threads: nat, per: nat)
    requires Positive(sizes) && threads > 0
    ensures (forall coin: Coins :: Fills(sizes, threads, per, coin)) <==> Safe(sizes, threads, per)
  {
    hide Spread, Load, Spots, Fills, FillsLast, NoneSkipped;
    if Safe(sizes, threads, per) {
      forall coin: Coins
        ensures Fills(sizes, threads, per, coin)
      {
        var p := RunsEndAtSpots(sizes, threads, per, coin);
        FillsAtEnd(sizes, threads, per, coin);
      }
    } else {
      var p :| p in Spots(sizes, threads, per) && !(!p.skipped && p.cur + 1 == threads && p.lines > 0);
      var coin := SpotsAreReached(sizes, threads, per, p);
      FillsAtEnd(sizes, threads, per, coin);
      assert !Fills(sizes, threads, per, coin);
    }
  }

  // ----- workers without lines -----

  lemma {:induction false} PassedSum(sizes: seq<nat>, st: State, per: nat, largest: nat, n: nat)
    requires |st.owners| == |sizes| && Balanced(sizes, st, per, largest) && n <= st.cur
    ensures SumLoads(sizes, st.owners, n) <= n * (per + largest)
    ensures n > 0 ==> SumLoads(sizes, st.owners, n) < n * (per + largest)
  {
    if n > 0 {
      PassedSum(sizes, st, per, largest, n - 1);
      assert n * (per + largest) == (n - 1) * (per + largest) + (per + largest);
    }
  }

  // Not all lines fit into the workers up to `cur` unless it is the last one.
  lemma LinesRunOut(threads: nat, cur: nat, per: nat, largest: nat, passed: nat, lines: nat)
    requires cur + 2 <= threads && (threads - 1) * largest <= per
    requires passed <= cur * (per + largest) && lines < per
    ensures passed + lines < threads * per
  {
    TimesGrows(threads - 1, cur, largest);
    TimesGrows(threads, cur + 2, per);
    assert cur * (per + largest) == cur * per + cur * largest;
    assert (cur + 2) * per == cur * per + 2 * per;
  }

  // What is left for the last worker.
  lemma LastGetsSome(threads: nat, per: nat, largest: nat, passed: nat, lines: nat)
    requires threads > 0 && per > 0 && (threads - 1) * largest <= per
    requires passed <= (threads - 1) * (per + largest)
    requires threads > 1 ==> passed < (threads - 1) * (per + largest)
    requires threads * per <= passed + lines
    ensures lines > 0
  {
    assert (threads - 1) * (per + largest) == (threads - 1) * per + (threads - 1) * largest;
    assert threads * per == (threads - 1) * per + per;
  }

  // When the containers are small enough, no coins leave a worker without
  // lines.
  lemma SmallContainersFillAll(sizes: seq<nat>, threads: nat, per: nat, coin: Coins, largest: nat, w: nat)
    requires Positive(sizes) && threads > 0 && per > 0 && Bounded(sizes, largest)
    requires threads * per <= Total(sizes)
    requires largest <= per && (threads - 1) * largest <= per
    requires w < threads
    ensures |Spread(sizes, threads, per, coin).owners| == |sizes|
    ensures Load(sizes, Spread(sizes, threads, per, coin).owners, w) > 0
  {
    hide Spread, Load, Total;
    var st := Spread(sizes, threads, per, coin);
    SpreadInvariant(sizes, threads, per, coin);
    SpreadBalanced(sizes, threads, per, coin, largest);
    PassedSum(sizes, st, per, largest, st.cur);
    LoadsAddUp(sizes, st.owners, st.cur + 1);
    if st.cur + 1 < threads {
      LinesRunOut(threads, st.cur, per, largest, SumLoads(sizes, st.owners, st.cur), st.lines);
    } else if w == st.cur {
      LastGetsSome(threads, per, largest, SumLoads(sizes, st.owners, st.cur), st.lines);
    }
  }

  lemma SmallContainersAreSafe(sizes: seq<nat>, threads: nat, per: nat, largest: nat)
    requires Positive(sizes) && threads > 0 && per > 0 && Bounded(sizes, largest)
    requires threads * per <= Total(sizes)
    requires largest <= per && (threads - 1) * largest <= per
    ensures Safe(sizes, threads, per)
  {
    hide Spread, Load, Total, Safe;
    forall coin: Coins
      ensures Fills(sizes, threads, per, coin)
    {
      SpreadInvariant(sizes, threads, per, coin);
      forall w | 0 <= w < threads
        ensures Load(sizes, Spread(sizes, threads, per, coin).owners, w) > 0
      {
        SmallContainersFillAll(sizes, threads, per, coin, largest, w);
      }
    }
    SafeContainersFillAll(sizes, threads, per);
  }

  // With fewer containers than workers some worker stays empty, whatever the
  // coins.
  lemma FewContainersLeaveEmpty(sizes: seq<nat>, owners: seq<nat>, threads: nat) returns (w: nat)
    requires |owners| == |sizes| < threads
    ensures w < threads && Load(sizes, owners, w) == 0
  {
    w := Unowned(owners, threads);
    NoLoad(sizes, owners, w);
  }

  lemma {:induction false} Unowned(owners: seq<nat>, threads: nat) returns (w: nat)
    requires |owners| < threads
    ensures w < threads && forall k :: 0 <= k < |owners| ==> owners[k] != w
    decreases threads
  {
    w := threads - 1;
    if i :| 0 <= i < |owners| && owners[i] == w {
      var rest := owners[..i] + owners[i + 1..];
      var shorter := seq(|rest|, k requires 0 <= k < |rest| => if rest[k] == w then 0 else rest[k]);
      if |owners| == 1 {
        w := 0;
      } else {
        w := Unowned(shorter, threads - 1);
        forall k | 0 <= k < |owners|
          ensures owners[k] != w
        {
          var j := if k < i then k else k - 1;
          if k != i {
            assert rest[j] == owners[k];
            assert shorter[j] != w;
          }
        }
      }
    }
  }

  // Two containers for two workers: an unlucky coin moves on before the first
  // worker has anything.
  lemma UnluckyCoinLeavesEmpty(coin: Coins)
    requires coin(0) == 0
    ensures Spread([3, 1], 2, 2, coin).owners == [1, 1]
    ensures Load([3, 1], [1, 1], 0) == 0
  {
    var sizes: seq<nat> := [3, 1];
    assert sizes[..1] == [3] && [3][..0] == [];
    assert Spread([3], 2, 2, coin) == Place(Toss(START, 3, 2, 2, coin), 3, 2, 2);
    assert Spread(sizes, 2, 2, coin).owners == [1, 1];
    NoLoad(sizes, [1, 1], 0);
  }
}
