/** The nested retry loops of `--auto`: samplers, windows and ranked candidates.
    The headless command and the serve session carry a copy each; both follow one
    policy, for every oracle of sampler answers and capture outcomes. */
module RegionWalk {
  import opened Common

  datatype Sampler = Ibs | Sw | Ptrace

  datatype Action = Stop | Advance | Exhausted

  const AUTO_WINDOW_TRIES: int := 3

  // ---------------------------------------------------------------- the pure decisions

  /** `asmspy_autoregion_walk`. */
  function Walk(notSeenEntering: bool, attempt: int, ncand: int): Action {
    if !notSeenEntering then Stop else if attempt + 1 < ncand then Advance else Exhausted
  }

  /** `asmspy_autoregion_sampler_next`; `None` is "nothing tried" and "exhausted". */
  function SamplerNext(tried: Option<Sampler>, ibsSubstrate: bool): Option<Sampler> {
    match tried
    case None => Some(if ibsSubstrate then Ibs else Sw)
    case Some(Ibs) => Some(Sw)
    case Some(Sw) => Some(Ptrace)
    case Some(Ptrace) => None
  }

  /** `asmspy_autoregion_chain_advance`. */
  predicate ChainAdvance(ncand: int, chainAuto: bool) { chainAuto && ncand < 0 }

  // ---------------------------------------------------------------- the policy

  /** What a sampler answers at its n-th call of the run: a refusal (< 0), an
      empty window (0), or a number of candidates. */
  type Oracle = (Sampler, nat) -> int

  /** The answers one sampler gave, window by window. */
  datatype Visit = Visit(sampler: Sampler, answers: seq<int>)

  function Windows(oracle: Oracle, smp: Sampler, call: nat, wtry: nat): (answers: seq<int>)
    ensures answers != []
    decreases if wtry < 3 then 3 - wtry else 0
  {
    var a := oracle(smp, call);
    if a != 0 || Walk(true, wtry, AUTO_WINDOW_TRIES) != Advance then [a]
    else [a] + Windows(oracle, smp, call + 1, wtry + 1)
  }

  function Left(smp: Sampler): nat { match smp case Ibs => 2 case Sw => 1 case Ptrace => 0 }

  function Chain(oracle: Oracle, smp: Sampler, call: nat, chainAuto: bool): (visits: seq<Visit>)
    ensures visits != []
    decreases Left(smp)
  {
    var answers := Windows(oracle, smp, call, 0);
    var visit := Visit(smp, answers);
    if !ChainAdvance(answers[|answers| - 1], chainAuto) then [visit]
    else
      match SamplerNext(Some(smp), true)
      case None => [visit]
      case Some(next) => [visit] + Chain(oracle, next, call + |answers|, chainAuto)
  }

  /** The first sampler: the forced one, or the strongest the substrate has. */
  function First(forced: Option<Sampler>, ibsSubstrate: bool): Sampler {
    if forced.Some? then forced.value else SamplerNext(None, ibsSubstrate).value
  }

  function Visits(oracle: Oracle, forced: Option<Sampler>, ibsSubstrate: bool): (visits: seq<Visit>)
    ensures visits != []
  {
    Chain(oracle, First(forced, ibsSubstrate), 0, forced.None?)
  }

  function LastAnswer(visits: seq<Visit>): int {
    if visits == [] || visits[|visits| - 1].answers == [] then 0
    else
      var answers := visits[|visits| - 1].answers;
      answers[|answers| - 1]
  }

  /** The candidates armed, in order, starting from `attempt`; `neverRan` is the
      outcome of arming one. */
  function Armed(neverRan: nat -> bool, attempt: nat, ncand: int): (armed: seq<nat>)
    ensures armed != []
    decreases if attempt < ncand then ncand - attempt else 0
  {
    if Walk(neverRan(attempt), attempt, ncand) == Advance
    then [attempt] + Armed(neverRan, attempt + 1, ncand)
    else [attempt]
  }

  lemma {:induction false} WindowsUnfold(done: seq<int>, oracle: Oracle, smp: Sampler, call: nat, wtry: nat)
    ensures var a := oracle(smp, call);
            done + Windows(oracle, smp, call, wtry) ==
              if a != 0 || Walk(true, wtry, AUTO_WINDOW_TRIES) != Advance then done + [a]
              else (done + [a]) + Windows(oracle, smp, call + 1, wtry + 1)
  {}

  lemma {:induction false} ChainUnfold(done: seq<Visit>, oracle: Oracle, smp: Sampler, call: nat, chainAuto: bool)
    ensures var answers := Windows(oracle, smp, call, 0);
            var next := SamplerNext(Some(smp), true);
            done + Chain(oracle, smp, call, chainAuto) ==
              if !ChainAdvance(answers[|answers| - 1], chainAuto) || next.None? then done + [Visit(smp, answers)]
              else (done + [Visit(smp, answers)]) + Chain(oracle, next.value, call + |answers|, chainAuto)
  {
    hide Windows;
  }

  lemma {:induction false} ArmedUnfold(done: seq<nat>, neverRan: nat -> bool, attempt: nat, ncand: int)
    ensures done + Armed(neverRan, attempt, ncand) ==
              if Walk(neverRan(attempt), attempt, ncand) == Advance
              then (done + [attempt]) + Armed(neverRan, attempt + 1, ncand)
              else done + [attempt]
  {}

  // ---------------------------------------------------------------- the headless loops

  /** The sampler chain of `cmd_dataflow`. */
  method HeadlessChain(oracle: Oracle, forced: Option<Sampler>, ibsSubstrate: bool)
    returns (visits: seq<Visit>, ncand: int)
    ensures visits == Visits(oracle, forced, ibsSubstrate)
    ensures ncand == LastAnswer(visits)
  {
    hide Windows, Chain, Walk;
    var chainAuto := forced.None?;
    var smp := First(forced, ibsSubstrate);
    var call: nat := 0;
    visits := [];
    ghost var all := Visits(oracle, forced, ibsSubstrate);
    assert all == [] + Chain(oracle, smp, 0, chainAuto);
    while true
      invariant all == visits + Chain(oracle, smp, call, chainAuto)
      decreases Left(smp)
    {
      var answers := HeadlessWindows(oracle, smp, call);
      ncand := answers[|answers| - 1];
      ChainUnfold(visits, oracle, smp, call, chainAuto);
      visits := visits + [Visit(smp, answers)];
      call := call + |answers|;
      if !ChainAdvance(ncand, chainAuto) { break; }
      var next := SamplerNext(Some(smp), ibsSubstrate);
      if next.None? { break; }
      smp := next.value;
    }
  }

  /** Its window loop: an idle window is retried, a bounded number of times. */
  method HeadlessWindows(oracle: Oracle, smp: Sampler, call: nat) returns (answers: seq<int>)
    ensures answers == Windows(oracle, smp, call, 0)
  {
    hide Windows, Walk;
    var wtry: nat := 0;
    answers := [];
    assert [] + Windows(oracle, smp, call, 0) == Windows(oracle, smp, call, 0);
    while true
      invariant wtry <= 2 && wtry == |answers|
      invariant Windows(oracle, smp, call, 0) == answers + Windows(oracle, smp, call + wtry, wtry)
      decreases 3 - wtry
    {
      WindowsUnfold(answers, oracle, smp, call + wtry, wtry);
      LastTry(wtry);
      var ncand := oracle(smp, call + wtry);
      answers := answers + [ncand];
      if ncand != 0 || Walk(true, wtry, AUTO_WINDOW_TRIES) != Advance { break; }
      wtry := wtry + 1;
    }
  }

  lemma {:induction false} LastTry(wtry: nat)
    ensures Walk(true, wtry, AUTO_WINDOW_TRIES) == Advance <==> wtry < 2
  {}

  /** The candidate loop of `cmd_dataflow`; ncand is 0 when a region was named. */
  method HeadlessArm(neverRan: nat -> bool, ncand: int) returns (armed: seq<nat>)
    ensures armed == Armed(neverRan, 0, ncand)
  {
    hide Armed;
    var attempt: nat := 0;
    armed := [];
    assert Armed(neverRan, 0, ncand) == [] + Armed(neverRan, 0, ncand);
    while true
      invariant Armed(neverRan, 0, ncand) == armed + Armed(neverRan, attempt, ncand)
      decreases if attempt < ncand then ncand - attempt else 0
    {
      ArmedUnfold(armed, neverRan, attempt, ncand);
      armed := armed + [attempt];
      if Walk(neverRan(attempt), attempt, ncand) == Advance {
        attempt := attempt + 1;
        continue;
      }
      break;
    }
  }

  // ---------------------------------------------------------------- the serve loops

  /** What the session reports on its pick channel. */
  datatype Pick =
    | Idle(sampler: Sampler, window: nat)
    | Region(sampler: Sampler, attempt: nat, of': int)

  /** The idle picks of one visit: one for every window that is retried. */
  function IdlePicks(smp: Sampler, n: nat): (picks: seq<Pick>)
    ensures |picks| == n
    ensures forall i :: 0 <= i < n ==> picks[i] == Idle(smp, i + 1)
  {
    if n == 0 then [] else IdlePicks(smp, n - 1) + [Idle(smp, n)]
  }

  function ChainPicks(visits: seq<Visit>): seq<Pick> {
    if visits == [] then []
    else
      var last := visits[|visits| - 1];
      ChainPicks(visits[..|visits| - 1]) + IdlePicks(last.sampler, if last.answers == [] then 0 else |last.answers| - 1)
  }

  /** The sampler chain of the `auto` session. */
  method ServeChain(oracle: Oracle, forced: Option<Sampler>, ibsSubstrate: bool)
    returns (visits: seq<Visit>, ncand: int, picks: seq<Pick>)
    ensures visits == Visits(oracle, forced, ibsSubstrate)
    ensures ncand == LastAnswer(visits)
    ensures picks == ChainPicks(visits)
  {
    hide Windows, Chain, Walk, ChainPicks, IdlePicks;
    var chainAuto := forced.None?;
    var smp := First(forced, ibsSubstrate);
    var call: nat := 0;
    visits, picks := [], [];
    NoPicks();
    ghost var all := Visits(oracle, forced, ibsSubstrate);
    assert all == [] + Chain(oracle, smp, 0, chainAuto);
    while true
      invariant all == visits + Chain(oracle, smp, call, chainAuto)
      invariant picks == ChainPicks(visits)
      decreases Left(smp)
    {
      var answers, idle := ServeWindows(oracle, smp, call);
      ncand := answers[|answers| - 1];
      picks := picks + idle;
      ChainUnfold(visits, oracle, smp, call, chainAuto);
      PicksOf(visits, Visit(smp, answers));
      visits := visits + [Visit(smp, answers)];
      call := call + |answers|;
      if !ChainAdvance(ncand, chainAuto) { break; }
      var next := SamplerNext(Some(smp), ibsSubstrate);
      if next.None? { break; }
      smp := next.value;
    }
  }

  /** Its window loop, which reports every retried window. */
  method ServeWindows(oracle: Oracle, smp: Sampler, call: nat) returns (answers: seq<int>, picks: seq<Pick>)
    ensures answers == Windows(oracle, smp, call, 0)
    ensures picks == IdlePicks(smp, |answers| - 1)
  {
    hide Windows, Walk;
    var wtry: nat := 0;
    answers, picks := [], [];
    assert [] + Windows(oracle, smp, call, 0) == Windows(oracle, smp, call, 0);
    while true
      invariant wtry <= 2 && wtry == |answers|
      invariant Windows(oracle, smp, call, 0) == answers + Windows(oracle, smp, call + wtry, wtry)
      invariant picks == IdlePicks(smp, wtry)
      decreases 3 - wtry
    {
      WindowsUnfold(answers, oracle, smp, call + wtry, wtry);
      LastTry(wtry);
      var ncand := oracle(smp, call + wtry);
      answers := answers + [ncand];
      if ncand != 0 || Walk(true, wtry, AUTO_WINDOW_TRIES) != Advance { break; }
      wtry := wtry + 1;
      picks := picks + [Idle(smp, wtry)];
    }
  }

  lemma {:induction false} NoPicks()
    ensures ChainPicks([]) == []
  {}

  lemma {:induction false} PicksOf(visits: seq<Visit>, v: Visit)
    requires v.answers != []
    ensures ChainPicks(visits + [v]) == ChainPicks(visits) + IdlePicks(v.sampler, |v.answers| - 1)
  {
    assert (visits + [v])[..|visits|] == visits;
  }

  function RegionPicks(smp: Sampler, armed: seq<nat>, ncand: int): (picks: seq<Pick>)
    ensures |picks| == |armed|
    ensures forall i :: 0 <= i < |armed| ==> picks[i] == Region(smp, armed[i] + 1, ncand)
  {
    seq(|armed|, i requires 0 <= i < |armed| => Region(smp, armed[i] + 1, ncand))
  }

  /** The candidate loop of the `auto` session: it announces each before arming it. */
  method ServeArm(neverRan: nat -> bool, smp: Sampler, ncand: int) returns (armed: seq<nat>, picks: seq<Pick>)
    requires ncand > 0
    ensures armed == Armed(neverRan, 0, ncand)
    ensures picks == RegionPicks(smp, armed, ncand)
  {
    hide Armed;
    var attempt: nat := 0;
    armed := [];
    picks := [Region(smp, 1, ncand)];
    assert Armed(neverRan, 0, ncand) == [] + Armed(neverRan, 0, ncand);
    while true
      invariant Armed(neverRan, 0, ncand) == armed + Armed(neverRan, attempt, ncand)
      invariant picks == RegionPicks(smp, armed + [attempt], ncand)
      decreases if attempt < ncand then ncand - attempt else 0
    {
      ArmedUnfold(armed, neverRan, attempt, ncand);
      armed := armed + [attempt];
      if Walk(neverRan(attempt), attempt, ncand) == Advance {
        attempt := attempt + 1;
        picks := picks + [Region(smp, attempt + 1, ncand)];
        continue;
      }
      break;
    }
  }

  // ---------------------------------------------------------------- what the policy guarantees

  /** One sampler is asked at most three times; every answer but its last is an
      empty window, and an empty last answer means all three were used. */
  lemma {:induction false} WindowsBounded(oracle: Oracle, smp: Sampler, call: nat, wtry: nat)
    requires wtry <= 2
    ensures var answers := Windows(oracle, smp, call, wtry);
            && |answers| <= 3 - wtry
            && (forall i :: 0 <= i < |answers| - 1 ==> answers[i] == 0)
            && (answers[|answers| - 1] == 0 ==> |answers| == 3 - wtry)
            && (forall i :: 0 <= i < |answers| ==> answers[i] == oracle(smp, call + i))
    decreases 2 - wtry
  {
    if oracle(smp, call) == 0 && wtry < 2 {
      WindowsBounded(oracle, smp, call + 1, wtry + 1);
      var rest := Windows(oracle, smp, call + 1, wtry + 1);
      assert Windows(oracle, smp, call, wtry) == [oracle(smp, call)] + rest;
      assert forall i :: 0 < i < |rest| + 1 ==> ([oracle(smp, call)] + rest)[i] == oracle(smp, call + 1 + (i - 1));
    }
  }

  /** The rules of a chain of visits. */
  ghost predicate Disciplined(visits: seq<Visit>, smp: Sampler, chainAuto: bool) {
    && visits != []
    && visits[0].sampler == smp
    && (forall i :: 0 <= i < |visits| ==> 1 <= |visits[i].answers| <= 3)
    && (forall i, j :: 0 <= i < |visits| && 0 <= j < |visits[i].answers| - 1 ==> visits[i].answers[j] == 0)
    // a switch goes to the next sampler, directly after a refusal
    && (forall i :: 0 <= i < |visits| - 1 ==>
          && Left(visits[i].sampler) == Left(visits[i + 1].sampler) + 1
          && visits[i].answers[|visits[i].answers| - 1] < 0)
    // a forced sampler is never left
    && (!chainAuto ==> |visits| == 1)
    // the chain ends with an answer, with idle windows, or out of samplers
    && (chainAuto && LastAnswer(visits) < 0 ==> visits[|visits| - 1].sampler == Ptrace)
    && (LastAnswer(visits) == 0 ==> |visits[|visits| - 1].answers| == 3)
  }

  lemma {:induction false} ChainDisciplined(oracle: Oracle, smp: Sampler, call: nat, chainAuto: bool)
    ensures Disciplined(Chain(oracle, smp, call, chainAuto), smp, chainAuto)
    ensures |Chain(oracle, smp, call, chainAuto)| <= Left(smp) + 1
    decreases Left(smp)
  {
    hide Windows, Walk, Disciplined;
    WindowsBounded(oracle, smp, call, 0);
    var answers := Windows(oracle, smp, call, 0);
    var next := SamplerNext(Some(smp), true);
    if ChainAdvance(answers[|answers| - 1], chainAuto) && next.Some? {
      ChainDisciplined(oracle, next.value, call + |answers|, chainAuto);
      DisciplinedCons(Visit(smp, answers), Chain(oracle, next.value, call + |answers|, chainAuto), next.value);
    } else {
      DisciplinedOne(Visit(smp, answers), chainAuto);
    }
  }

  lemma {:induction false} DisciplinedOne(v: Visit, chainAuto: bool)
    requires 1 <= |v.answers| <= 3 && forall j :: 0 <= j < |v.answers| - 1 ==> v.answers[j] == 0
    requires v.answers[|v.answers| - 1] == 0 ==> |v.answers| == 3
    requires chainAuto && v.answers[|v.answers| - 1] < 0 ==> v.sampler == Ptrace
    ensures Disciplined([v], v.sampler, chainAuto)
  {}

  lemma {:induction false} DisciplinedCons(v: Visit, rest: seq<Visit>, next: Sampler)
    requires 1 <= |v.answers| <= 3 && forall j :: 0 <= j < |v.answers| - 1 ==> v.answers[j] == 0
    requires v.answers[|v.answers| - 1] < 0 && Left(v.sampler) == Left(next) + 1
    requires Disciplined(rest, next, true)
    ensures Disciplined([v] + rest, v.sampler, true)
  {
    var all := [v] + rest;
    forall i | 0 <= i < |all| - 1
      ensures Left(all[i].sampler) == Left(all[i + 1].sampler) + 1 && all[i].answers[|all[i].answers| - 1] < 0
    {
      if i > 0 { assert all[i] == rest[i - 1] && all[i + 1] == rest[i - 1 + 1]; }
    }
  }

  function TotalWindows(visits: seq<Visit>): nat {
    if visits == [] then 0 else TotalWindows(visits[..|visits| - 1]) + |visits[|visits| - 1].answers|
  }

  lemma {:induction false} TotalBound(visits: seq<Visit>)
    requires forall i :: 0 <= i < |visits| ==> |visits[i].answers| <= 3
    ensures TotalWindows(visits) <= 3 * |visits|
  {
    if visits != [] { TotalBound(visits[..|visits| - 1]); }
  }

  /** Every answer is what the oracle says at its turn. */
  ghost predicate Asked(oracle: Oracle, visits: seq<Visit>, call: nat) {
    forall i, j :: 0 <= i < |visits| && 0 <= j < |visits[i].answers| ==>
      visits[i].answers[j] == oracle(visits[i].sampler, call + TotalWindows(visits[..i]) + j)
  }

  lemma {:induction false} TotalCons(v: Visit, rest: seq<Visit>)
    ensures TotalWindows([v] + rest) == |v.answers| + TotalWindows(rest)
    decreases |rest|
  {
    if rest == [] {
      assert [v] + rest == [v] && [v][..0] == [];
    } else {
      var last := |rest| - 1;
      assert ([v] + rest)[..last + 1] == [v] + rest[..last];
      TotalCons(v, rest[..last]);
    }
  }

  lemma {:induction false} AskedCons(oracle: Oracle, v: Visit, rest: seq<Visit>, call: nat)
    requires forall j :: 0 <= j < |v.answers| ==> v.answers[j] == oracle(v.sampler, call + j)
    requires Asked(oracle, rest, call + |v.answers|)
    ensures Asked(oracle, [v] + rest, call)
  {
    var all := [v] + rest;
    forall i, j | 0 <= i < |all| && 0 <= j < |all[i].answers|
      ensures all[i].answers[j] == oracle(all[i].sampler, call + TotalWindows(all[..i]) + j)
    {
      if i > 0 {
        assert all[..i] == [v] + rest[..i - 1] && all[i] == rest[i - 1];
        TotalCons(v, rest[..i - 1]);
      }
    }
  }

  lemma {:induction false} ChainAsks(oracle: Oracle, smp: Sampler, call: nat, chainAuto: bool)
    ensures Asked(oracle, Chain(oracle, smp, call, chainAuto), call)
    decreases Left(smp)
  {
    hide Windows, Walk, Asked;
    WindowsBounded(oracle, smp, call, 0);
    var answers := Windows(oracle, smp, call, 0);
    var next := SamplerNext(Some(smp), true);
    NoneAsked(oracle, call + |answers|);
    assert [Visit(smp, answers)] + [] == [Visit(smp, answers)];
    if ChainAdvance(answers[|answers| - 1], chainAuto) && next.Some? {
      ChainAsks(oracle, next.value, call + |answers|, chainAuto);
      AskedCons(oracle, Visit(smp, answers), Chain(oracle, next.value, call + |answers|, chainAuto), call);
    } else {
      AskedCons(oracle, Visit(smp, answers), [], call);
    }
  }

  lemma {:induction false} NoneAsked(oracle: Oracle, call: nat)
    ensures Asked(oracle, [], call)
  {}

  /** For every oracle: the forced sampler, or IBS where there is one and software
      sampling where not, comes first; then software sampling after IBS and ptrace
      after that, each directly after a refusal and never when forced; at most three
      windows each and nine in all; and every answer is the oracle's at its turn. */
  lemma {:induction false} SamplersInOrder(oracle: Oracle, forced: Option<Sampler>, ibsSubstrate: bool)
    ensures var visits := Visits(oracle, forced, ibsSubstrate);
            && visits[0].sampler == (if forced.Some? then forced.value else if ibsSubstrate then Ibs else Sw)
            && (forced.Some? ==> |visits| == 1)
            && (forall i :: 0 <= i < |visits| - 1 ==>
                  && ((visits[i].sampler == Ibs && visits[i + 1].sampler == Sw)
                      || (visits[i].sampler == Sw && visits[i + 1].sampler == Ptrace))
                  && |visits[i].answers| >= 1 && visits[i].answers[|visits[i].answers| - 1] < 0)
            && (forced.None? && LastAnswer(visits) < 0 ==> visits[|visits| - 1].sampler == Ptrace)
            && (forall i :: 0 <= i < |visits| ==> 1 <= |visits[i].answers| <= 3)
            && |visits| <= 3 && TotalWindows(visits) <= 9
            && Disciplined(visits, visits[0].sampler, forced.None?)
            && Asked(oracle, visits, 0)
  {
    hide Chain, Asked;
    var visits := Visits(oracle, forced, ibsSubstrate);
    ChainDisciplined(oracle, First(forced, ibsSubstrate), 0, forced.None?);
    ChainAsks(oracle, First(forced, ibsSubstrate), 0, forced.None?);
    TotalBound(visits);
  }

  /** For every outcome: candidates are armed in rank order, each at most once, up
      to the first that was entered or the last there is. */
  lemma {:induction false} CandidatesInRankOrder(neverRan: nat -> bool, attempt: nat, ncand: int)
    ensures var armed := Armed(neverRan, attempt, ncand);
            && (forall i :: 0 <= i < |armed| ==> armed[i] == attempt + i)
            && (forall i :: 0 <= i < |armed| - 1 ==> neverRan(armed[i]))
            && (neverRan(armed[|armed| - 1]) ==> armed[|armed| - 1] + 1 >= ncand)
            && (ncand > attempt ==> |armed| <= ncand - attempt)
    decreases if attempt < ncand then ncand - attempt else 0
  {
    if Walk(neverRan(attempt), attempt, ncand) == Advance {
      CandidatesInRankOrder(neverRan, attempt + 1, ncand);
      var rest := Armed(neverRan, attempt + 1, ncand);
      assert Armed(neverRan, attempt, ncand) == [attempt] + rest;
      assert forall i :: 0 < i < |rest| + 1 ==> ([attempt] + rest)[i] == attempt + 1 + (i - 1);
    }
  }
}
