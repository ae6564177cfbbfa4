/**
 * The weighted selector: an ordered list of (weight, handler) branches, a
 * running weight total and a run counter. A run maps a probability value onto
 * the cumulative weights and enters the first branch whose cumulative weight
 * exceeds it.
 *
 * Weights and probabilities are exact reals; handlers are opaque values of a
 * type parameter, and "entering" a branch means handing its handler back.
 */
module Branch {
  import opened Twister

  /** The largest weight `Add` accepts (2^53 - 1). */
  const MAX_NUM: real := 9007199254740991.0

  datatype Option<T> = None | Some(value: T)

  datatype Error = NegativeWeight | WeightTooLarge | RunLimitExceeded

  datatype Status = Ok | Fail(error: Error)

  datatype RunOutcome<H> =
    | Failed(error: Error)
    | NotSelected
    | Entered(index: nat, handler: H)

  // ---------------------------------------------------------------------------
  // Cumulative weights

  function Sum(ws: seq<real>): real
  {
    if ws == [] then 0.0 else Sum(ws[..|ws| - 1]) + ws[|ws| - 1]
  }

  /** The cumulative weight of the first `k` branches. */
  function Prefix(ws: seq<real>, k: nat): real
    requires k <= |ws|
  {
    Sum(ws[..k])
  }

  ghost predicate ValidWeights(ws: seq<real>)
  {
    forall i :: 0 <= i < |ws| ==> 0.0 < ws[i] <= MAX_NUM
  }

  lemma PrefixStep(ws: seq<real>, k: nat)
    requires k < |ws|
    ensures Prefix(ws, k + 1) == Prefix(ws, k) + ws[k]
  {
    assert ws[..k + 1][..k] == ws[..k];
  }

  lemma SumAppend(ws: seq<real>, w: real)
    ensures Sum(ws + [w]) == Sum(ws) + w
  {
  }

  lemma {:induction false} SumFront(ws: seq<real>)
    requires |ws| > 0
    ensures Sum(ws) == ws[0] + Sum(ws[1..])
    decreases |ws|
  {
    if |ws| > 1 {
      var init := ws[..|ws| - 1];
      SumFront(init);
      assert init[1..] == ws[1..][..|ws| - 2];
    }
  }

  lemma PrefixFront(ws: seq<real>, k: nat)
    requires 1 <= k <= |ws|
    ensures Prefix(ws, k) == ws[0] + Prefix(ws[1..], k - 1)
  {
    SumFront(ws[..k]);
    assert ws[..k][1..] == ws[1..][..k - 1];
  }

  /** A non-empty list of valid weights has a positive total. */
  lemma {:induction false} SumPositive(ws: seq<real>)
    requires ValidWeights(ws)
    ensures Sum(ws) >= 0.0
    ensures ws != [] ==> Sum(ws) > 0.0
    decreases |ws|
  {
    if ws != [] {
      SumPositive(ws[..|ws| - 1]);
    }
  }

  // ---------------------------------------------------------------------------
  // Selection

  /** `i` is the branch the cumulative walk enters for probability `p`: no
      earlier cumulative weight exceeds `p`, and either the cumulative weight
      up to `i` does, or `i` is the last branch (the fallback). */
  ghost predicate IsSelection(ws: seq<real>, p: real, i: nat)
  {
    && i < |ws|
    && (forall j :: 1 <= j <= i ==> Prefix(ws, j) <= p)
    && (p < Prefix(ws, i + 1) || i == |ws| - 1)
  }

  /** Reference definition of the selected branch: enter the head if `p` falls
      below its weight (or it is the only branch left), otherwise look in the
      rest with `p` reduced by the head's weight. */
  function Pick(ws: seq<real>, p: real): (i: nat)
    requires |ws| > 0
    ensures i < |ws|
    decreases |ws|
  {
    if |ws| == 1 || p < ws[0] then 0 else 1 + Pick(ws[1..], p - ws[0])
  }

  lemma {:induction false} PickIsSelection(ws: seq<real>, p: real)
    requires |ws| > 0
    ensures IsSelection(ws, p, Pick(ws, p))
    decreases |ws|
  {
    PrefixFront(ws, 1);
    assert Prefix(ws[1..], 0) == 0.0;
    if |ws| > 1 && !(p < ws[0]) {
      var rest := ws[1..];
      var k := Pick(rest, p - ws[0]);
      PickIsSelection(rest, p - ws[0]);
      forall j | 1 <= j <= k + 1
        ensures Prefix(ws, j) <= p
      {
        PrefixFront(ws, j);
      }
      PrefixFront(ws, k + 2);
    }
  }

  /** The walk and the reference definition agree: `i` is the selection for
      `p` exactly when it is `Pick(ws, p)`. */
  lemma SelectionIsPick(ws: seq<real>, p: real, i: nat)
    requires |ws| > 0
    ensures IsSelection(ws, p, i) <==> i == Pick(ws, p)
  {
    PickIsSelection(ws, p);

  }

  /** A unit draw scaled to the total weight. */
  function Weighted(x: real, total: real): real
  {
    x * total
  }

  /** A probability drawn as `Weighted(x, Sum(ws))` with `x` in [0, 1) lies in
      [0, Sum(ws)), so the walk finds its branch by comparison and never needs
      the fallback. */
  lemma DrawnProbabilityNeverFallsBack(ws: seq<real>, x: real)
    requires ws != [] && ValidWeights(ws) && 0.0 <= x < 1.0
    ensures 0.0 <= Weighted(x, Sum(ws)) < Sum(ws)
    ensures Weighted(x, Sum(ws)) < Prefix(ws, Pick(ws, Weighted(x, Sum(ws))) + 1)
  {
    var s := Sum(ws);
    var p := Weighted(x, s);
    SumPositive(ws);
    ScaledBelow(x, s, p);
    var i := Pick(ws, p);
    PickIsSelection(ws, p);
    if i == |ws| - 1 {
      assert ws[..i + 1] == ws;
      assert Prefix(ws, i + 1) == s;
    }
  }

  lemma ScaledBelow(x: real, s: real, p: real)
    requires 0.0 <= x < 1.0 && s > 0.0 && p == Weighted(x, s)
    ensures 0.0 <= p < s
  {
  }

  /** The cumulative walk: adds the weights up in order and stops at the
      first branch whose cumulative weight exceeds `p`, falling back to the
      last branch when none does. */
  method Select(ws: seq<real>, p: real) returns (selected: nat)
    requires |ws| > 0
    ensures selected == Pick(ws, p)
  {
    var cumulative := 0.0;
    var len := |ws|;
    selected := len - 1;
    var i := 0;
    while i < len
      invariant 0 <= i <= len
      invariant cumulative == Prefix(ws, i)
      invariant forall j :: 1 <= j <= i ==> Prefix(ws, j) <= p
    {
      PrefixStep(ws, i);
      cumulative := cumulative + ws[i];
      if p < cumulative {
        selected := i;
        break;
      }
      i := i + 1;
    }
    assert IsSelection(ws, p, selected);
    SelectionIsPick(ws, p, selected);
  }

  /** The probability a run uses: the one given, or the next draw of the
      generator scaled by the total weight. */
  function RunProbability(probability: Option<real>, st: GenState, total: real): real
    requires st.Valid()
  {
    match probability
    case Some(v) => v
    case None => Weighted(Scale(Next(st).word), total)
  }

  /** Takes the given probability, or draws one from `gen` and scales it by
      the total weight; the generator advances only in the second case. */
  method Probability(probability: Option<real>, gen: MersenneTwister, total: real) returns (p: real)
    requires gen.Valid()
    modifies gen, gen.mt
    ensures gen.Valid() && gen.mt == old(gen.mt)
    ensures p == RunProbability(probability, old(gen.Snapshot()), total)
    ensures probability.Some? ==> gen.mt[..] == old(gen.mt[..]) && gen.mti == old(gen.mti)
    ensures probability.None? ==>
              var d := Next(old(gen.Snapshot()));
              gen.mt[..] == d.next.mt && gen.mti == d.next.mti
  {
    ghost var st := gen.Snapshot();
    match probability
    case Some(v) =>
      p := v;
    case None =>
      var x := gen.Random();
      p := Weighted(x, total);
  }

  // ---------------------------------------------------------------------------
  // Run-limit guard

  /** A positive limit that the run count has reached. A limit of 0 never
      is. */
  predicate LimitReached(limit: int, count: nat)
  {
    limit > 0 && count >= limit
  }

  datatype Gate = Refused | Empty | Proceed

  /** How a run goes on once its probability is known: empty when there is
      nothing to select, refused when the limit is reached, and otherwise on
      to the walk. A run proceeds exactly when there is something to select
      and the limit is off (0 or below) or above the count, so the count it
      then increments stays within a positive limit. */
  function RunGate(sum: real, size: nat, limit: int, count: nat): (g: Gate)
    ensures g == Empty <==> sum == 0.0 || size == 0
    ensures g == Proceed <==> sum != 0.0 && size != 0 && (limit <= 0 || count < limit)
    ensures g == Proceed && limit > 0 ==> count + 1 <= limit
  {
    if sum == 0.0 || size == 0 then Empty
    else if LimitReached(limit, count) then Refused
    else Proceed
  }

  /** The same decision with the guard written as at line 103 of
      src/probability-branch.ts, which refuses whenever the limit is at least
      the run count. A run then proceeds only once the count has already
      passed the limit. */
  function RunGateAsWritten(sum: real, size: nat, limit: int, count: nat): (g: Gate)
    ensures g == Empty <==> sum == 0.0 || size == 0
    ensures g == Proceed <==> sum != 0.0 && size != 0 && count > limit
  {
    if sum == 0.0 || size == 0 then Empty
    else if limit >= count then Refused
    else Proceed
  }

  /** As written, the first run of a non-empty selector whose limit is not
      negative (the default 1 and the "unlimited" 0 included) is refused,
      where the intended decision lets it proceed. As the run count only
      grows when a run proceeds, such a selector never enters a branch. */
  lemma AsWrittenRefusesFirstRun(sum: real, size: nat, limit: int)
    requires sum != 0.0 && size != 0 && limit >= 0
    ensures RunGateAsWritten(sum, size, limit, 0) == Refused
    ensures RunGate(sum, size, limit, 0) == Proceed
  {
  }

  /** Where the guard as written and the intended guard agree on a
      non-empty selector: for a negative limit, for limit 0 once a run has
      been counted, and for a positive limit only at the count equal to it. */
  lemma GatesAgreeExactly(sum: real, size: nat, limit: int, count: nat)
    requires sum != 0.0 && size != 0
    ensures RunGateAsWritten(sum, size, limit, count) == RunGate(sum, size, limit, count)
            <==> limit < 0 || (limit == 0 && count > 0) || (limit > 0 && count == limit)
  {
  }

  // ---------------------------------------------------------------------------
  // The selector object

  class ProbabilityBranch<H> {
    var sum: real
    var probabilities: seq<real>
    var handlers: seq<H>
    var count: nat
    var limit: int

    ghost predicate Valid()
      reads this
    {
      && |probabilities| == |handlers|
      && ValidWeights(probabilities)
      && sum == Sum(probabilities)
      && (limit > 0 ==> count <= limit)
    }

    /** A selector with no branches; `limit` is the option (1 by default,
        0 for unlimited runs). */
    constructor (limit: int)
      ensures Valid()
      ensures sum == 0.0 && probabilities == [] && handlers == []
      ensures count == 0 && this.limit == limit
    {
      sum := 0.0;
      probabilities := [];
      handlers := [];
      count := 0;
      this.limit := limit;
    }

    /** How many runs entered a branch. */
    function GetCount(): (c: nat)
      reads this
      requires Valid()
      ensures limit > 0 ==> c <= limit
    {
      count
    }

    /** Adds a branch. A zero weight is ignored, a negative weight or one
        above MAX_NUM is refused; otherwise the branch is appended and its
        weight added to the total. */
    method Add(weight: real, handler: H) returns (r: Status)
      requires Valid()
      modifies this
      ensures Valid()
      ensures count == old(count) && limit == old(limit)
      ensures r == if weight < 0.0 then Fail(NegativeWeight)
                   else if weight > MAX_NUM then Fail(WeightTooLarge)
                   else Ok
      ensures if 0.0 < weight <= MAX_NUM then
                && probabilities == old(probabilities) + [weight]
                && handlers == old(handlers) + [handler]
                && sum == old(sum) + weight
              else
                && probabilities == old(probabilities)
                && handlers == old(handlers)
                && sum == old(sum)
    {
      if weight == 0.0 {
        return Ok;
      }
      if weight < 0.0 {
        return Fail(NegativeWeight);
      }
      if weight > MAX_NUM {
        return Fail(WeightTooLarge);
      }
      SumAppend(probabilities, weight);
      sum := sum + weight;
      probabilities := probabilities + [weight];
      handlers := handlers + [handler];
      return Ok;
    }

    /** After a run: empties the selector once a non-zero limit has been
        reached; a limit of 0 never empties it. */
    method Clear()
      requires Valid()
      modifies this
      ensures Valid()
      ensures count == old(count) && limit == old(limit)
      ensures if limit == 0 || limit > count then
                sum == old(sum) && probabilities == old(probabilities) && handlers == old(handlers)
              else
                sum == 0.0 && probabilities == [] && handlers == []
    {
      if limit == 0 {
        return;
      }
      if limit > count {
        return;
      }
      sum := 0.0;
      probabilities := [];
      handlers := [];
    }

    /** Runs the selector with the given probability, or with one drawn from
        `gen` and scaled by the total weight; the draw happens first, even
        when the selector turns out to be empty. */
    method Run(probability: Option<real>, gen: MersenneTwister) returns (r: RunOutcome<H>)
      requires Valid() && gen.Valid()
      modifies this, gen, gen.mt
      ensures Valid() && gen.Valid() && gen.mt == old(gen.mt)
      ensures limit == old(limit)
      ensures probability.Some? ==> gen.mt[..] == old(gen.mt[..]) && gen.mti == old(gen.mti)
      ensures probability.None? ==>
                var d := Next(old(gen.Snapshot()));
                gen.mt[..] == d.next.mt && gen.mti == d.next.mti
      ensures old(sum) == 0.0 || old(|handlers|) == 0 ==>
                && r == NotSelected
                && count == old(count) && sum == old(sum)
                && probabilities == old(probabilities) && handlers == old(handlers)
      ensures old(sum) != 0.0 && old(|handlers|) != 0 && LimitReached(limit, old(count)) ==>
                && r == Failed(RunLimitExceeded)
                && count == old(count) && sum == old(sum)
                && probabilities == old(probabilities) && handlers == old(handlers)
      ensures old(sum) != 0.0 && old(|handlers|) != 0 && !LimitReached(limit, old(count)) ==>
                var i := Pick(old(probabilities), RunProbability(probability, old(gen.Snapshot()), old(sum)));
                && r == Entered(i, old(handlers)[i])
                && count == old(count) + 1
                && if limit == 0 || limit > count then
                     sum == old(sum) && probabilities == old(probabilities) && handlers == old(handlers)
                   else
                     sum == 0.0 && probabilities == [] && handlers == []
    {
      var p := Probability(probability, gen, sum);
      r := Enter(p);
    }

    /** The part of a run after the probability is known. An empty selector
        selects nothing; a selector whose limit is reached fails; otherwise
        the count goes up by one, the walk enters the branch `Pick` names,
        and the selector is emptied if the limit is now reached. */
    method Enter(p: real) returns (r: RunOutcome<H>)
      requires Valid()
      modifies this
      ensures Valid() && limit == old(limit)
      ensures old(sum) == 0.0 || old(|handlers|) == 0 ==>
                && r == NotSelected
                && count == old(count) && sum == old(sum)
                && probabilities == old(probabilities) && handlers == old(handlers)
      ensures old(sum) != 0.0 && old(|handlers|) != 0 && LimitReached(limit, old(count)) ==>
                && r == Failed(RunLimitExceeded)
                && count == old(count) && sum == old(sum)
                && probabilities == old(probabilities) && handlers == old(handlers)
      ensures old(sum) != 0.0 && old(|handlers|) != 0 && !LimitReached(limit, old(count)) ==>
                var i := Pick(old(probabilities), p);
                && r == Entered(i, old(handlers)[i])
                && count == old(count) + 1
                && if limit == 0 || limit > count then
                     sum == old(sum) && probabilities == old(probabilities) && handlers == old(handlers)
                   else
                     sum == 0.0 && probabilities == [] && handlers == []
    {
      match RunGate(sum, |handlers|, limit, count)
      case Empty =>
        return NotSelected;
      case Refused =>
        return Failed(RunLimitExceeded);
      case Proceed =>
        count := count + 1;
        var selected := Select(probabilities, p);
        var h := handlers[selected];
        Clear();
        return Entered(selected, h);
    }
  }

  // ---------------------------------------------------------------------------
  // Scenarios

  /** Selections for weights 1, 2, 3 with probabilities 0, 1.5, 3.5 and 999. */
  lemma PickExamples()
    ensures Pick([1.0, 2.0, 3.0], 0.0) == 0 && Pick([1.0, 2.0, 3.0], 1.5) == 1
    ensures Pick([1.0, 2.0, 3.0], 3.5) == 2 && Pick([1.0, 2.0, 3.0], 999.0) == 2
  {
  }

  /** Selections at the edges: two equal weights with a probability past the
      total or just below it; a MAX_NUM weight ahead of a weight 1 with
      probability 0. */
  lemma PickEdgeExamples()
    ensures Pick([1.0, 1.0], 999.0) == 1 && Pick([1.0, 1.0], 1.999999999) == 1
    ensures Pick([MAX_NUM, 1.0], 0.0) == 0
  {
  }

  /** An unlimited selector holding weights 1, 2 and 3, in that order. */
  method OneTwoThree<H>(h1: H, h2: H, h3: H) returns (b: ProbabilityBranch<H>)
    ensures fresh(b) && b.Valid() && b.limit == 0
    ensures b.probabilities == [1.0, 2.0, 3.0] && b.handlers == [h1, h2, h3] && b.sum == 6.0
  {
    b := new ProbabilityBranch<H>(0);
    var s1 := b.Add(1.0, h1);
    var s2 := b.Add(2.0, h2);
    var s3 := b.Add(3.0, h3);
  }

  /** Weights 1, 2 and 3 on an unlimited selector: probabilities 0, 1.5 and
      3.5 enter the branches in order, and 999 falls back to the last one. */
  method WeightsOneTwoThree<H>(h1: H, h2: H, h3: H) returns (r1: RunOutcome<H>, r2: RunOutcome<H>, r3: RunOutcome<H>, r4: RunOutcome<H>)
    ensures r1 == Entered(0, h1) && r2 == Entered(1, h2) && r3 == Entered(2, h3)
    ensures r4 == Entered(2, h3)
  {
    var gen := new MersenneTwister(0);
    var b := OneTwoThree(h1, h2, h3);
    var ws := [1.0, 2.0, 3.0];
    PickExamples();
    r1 := b.Run(Some(0.0), gen);
    assert b.probabilities == ws && b.handlers == [h1, h2, h3] && b.sum == 6.0;
    r2 := b.Run(Some(1.5), gen);
    assert b.probabilities == ws && b.handlers == [h1, h2, h3] && b.sum == 6.0;
    r3 := b.Run(Some(3.5), gen);
    assert b.probabilities == ws && b.handlers == [h1, h2, h3] && b.sum == 6.0;
    r4 := b.Run(Some(999.0), gen);
  }

  /** A selector limited to two runs enters its branch twice and is then
      emptied, so a third run selects nothing and the count stays at 2;
      adding a branch again makes the next run fail on the limit. */
  method LimitTwo<H>(h: H) returns (r1: RunOutcome<H>, r2: RunOutcome<H>, r3: RunOutcome<H>, c: nat, r4: RunOutcome<H>)
    ensures r1 == Entered(0, h) && r2 == Entered(0, h)
    ensures r3 == NotSelected && c == 2
    ensures r4 == Failed(RunLimitExceeded)
  {
    var gen := new MersenneTwister(0);
    var b := new ProbabilityBranch<H>(2);
    var s := b.Add(1.0, h);
    r1 := b.Run(None, gen);
    assert b.count == 1 && b.probabilities == [1.0];
    r2 := b.Run(None, gen);
    assert b.count == 2 && b.probabilities == [];
    r3 := b.Run(None, gen);
    c := b.GetCount();
    s := b.Add(1.0, h);
    r4 := b.Run(None, gen);
  }

  /** A fresh selector with the default limit and no branches selects
      nothing when run. */
  method NoBranches<H>() returns (r: RunOutcome<H>, c: nat)
    ensures r == NotSelected && c == 0
  {
    var gen := new MersenneTwister(0);
    var b := new ProbabilityBranch<H>(1);
    r := b.Run(Some(0.0), gen);
    c := b.GetCount();
  }

  /** A selector with limit 0 runs as often as it is asked to. */
  method Unlimited<H>(h: H, n: nat) returns (c: nat)
    ensures c == n
  {
    var gen := new MersenneTwister(0);
    var b := new ProbabilityBranch<H>(0);
    var s := b.Add(1.0, h);
    var k := 0;
    while k < n
      invariant fresh(b) && fresh(gen) && fresh(gen.mt)
      invariant b.Valid() && gen.Valid()
      invariant k <= n && b.limit == 0 && b.probabilities == [1.0] && b.count == k
    {
      var r := b.Run(None, gen);
      k := k + 1;
    }
    c := b.GetCount();
  }
}
