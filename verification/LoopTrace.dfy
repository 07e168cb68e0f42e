/**
  The steps of one call as the retry loop takes them, round by round
  (crates/adapter-counter-store-postgres/src/lib.rs).
 */
module LoopTrace {
  import opened CounterTable
  import opened CounterProtocol
  import opened CounterInvariant
  import opened CounterTheorems
  import opened CounterRecovery

  /** What the network does to one attempt. */
  datatype Fault = NoFault | RefusedConnection | BrokenConnection | LostReply

  /** One time round the loop: the attempt, and whether the repair after it gets through. */
  datatype Round = Round(fault: Fault, repaired: bool)

  /** The steps of an attempt. */
  function AttemptMoves(fault: Fault): seq<Move> {
    match fault
    case NoFault => [Send, Execute, Deliver]
    case RefusedConnection => [ConnectFails]
    case BrokenConnection => [Send, BreakConnection]
    case LostReply => [Send, Execute, LoseReply]
  }

  /** The steps between two attempts: the repair, then the sleep. */
  function RetryMoves(repaired: bool): seq<Move> {
    [if repaired then RunRepair else SkipRepair, Wake]
  }

  /** The first `k` rounds, all of them failed and retried. */
  function FailedRounds(rounds: nat -> Round, k: nat): seq<Move> {
    if k == 0 then []
    else FailedRounds(rounds, k - 1) + AttemptMoves(rounds(k - 1).fault) + RetryMoves(rounds(k - 1).repaired)
  }

  /** All steps of a loop whose last round is `last`. */
  function LoopMoves(rounds: nat -> Round, last: nat, gaveUp: bool): seq<Move> {
    FailedRounds(rounds, last) + AttemptMoves(rounds(last).fault) + (if gaveUp then [GiveUp] else [])
  }

  lemma OneRoundMore(rounds: nat -> Round, k: nat)
    ensures FailedRounds(rounds, k) + AttemptMoves(rounds(k).fault) + RetryMoves(rounds(k).repaired)
         == FailedRounds(rounds, k + 1)
  {
  }

  lemma LastRound(rounds: nat -> Round, last: nat)
    ensures FailedRounds(rounds, last) + AttemptMoves(rounds(last).fault) == LoopMoves(rounds, last, false)
    ensures FailedRounds(rounds, last) + AttemptMoves(rounds(last).fault) + [GiveUp] == LoopMoves(rounds, last, true)
  {
  }

  /** Some repair before the last attempt gets through, and no fault hits the attempt after it. */
  ghost predicate SomeGoodRound(rounds: nat -> Round, retries: nat) {
    exists k :: 0 <= k < retries && rounds(k).repaired && rounds(k + 1).fault.NoFault?
  }

  lemma NoRoundYet(rounds: nat -> Round)
    ensures FailedRounds(rounds, 0) == []
  {
  }

  lemma Joined(before: seq<Move>, m: Move, n: Move)
    ensures before + [m] + [n] == before + [m, n]
  {
  }

  lemma JoinedLast(before: seq<Move>, l: Move, m: Move, n: Move)
    ensures before + [l, m] + [n] == before + [l, m, n]
  {
  }

  predicate IsOwn(a: Action, c: nat) { a.Of? && a.call == c && !a.move.ExecuteOrphan? }

  /** The steps of call `c` in a schedule; an orphaned update is a step of the server alone. */
  function OwnMoves(actions: seq<Action>, c: nat): seq<Move> {
    if actions == [] then []
    else OwnMoves(actions[..|actions| - 1], c)
         + (if IsOwn(actions[|actions| - 1], c) then [actions[|actions| - 1].move] else [])
  }

  lemma OwnMovesOneMore(actions: seq<Action>, a: Action, c: nat)
    ensures OwnMoves(actions + [a], c) == OwnMoves(actions, c) + (if IsOwn(a, c) then [a.move] else [])
  {
    assert (actions + [a])[..|actions|] == actions;
  }

  lemma {:induction false} OwnMovesConcat(a: seq<Action>, b: seq<Action>, c: nat)
    ensures OwnMoves(a + b, c) == OwnMoves(a, c) + OwnMoves(b, c)
    decreases |b|
  {
    if b == [] {
      assert a + b == a;
    } else {
      assert (a + b)[..|a + b| - 1] == a + b[..|b| - 1];
      OwnMovesConcat(a, b[..|b| - 1], c);
    }
  }

  lemma {:induction false} OwnMovesAreSteps(actions: seq<Action>, c: nat)
    ensures |OwnMoves(actions, c)| == OwnSteps(actions, c)
    ensures forall i :: 0 <= i < |actions| && IsOwn(actions[i], c) ==> actions[i].move in OwnMoves(actions, c)
  {
    if actions != [] { OwnMovesAreSteps(actions[..|actions| - 1], c); }
  }

  /** A call that has not begun has no steps. */
  lemma NoMovesYet(p: Policy, db: Database, actions: seq<Action>, c: nat)
    requires Run(p, Initial(db), actions).Some? && c >= |Run(p, Initial(db), actions).value.calls|
    ensures OwnMoves(actions, c) == []
  {
    InitialInv(p, db);
    StepsAreCounted(p, Initial(db), actions, c);
    OwnMovesAreSteps(actions, c);
  }

  /** Where step `j` of the call is in the schedule. */
  lemma {:induction false} PlaceOfMove(actions: seq<Action>, c: nat, j: nat) returns (i: nat)
    requires j < |OwnMoves(actions, c)|
    ensures i < |actions| && actions[i] == Of(c, OwnMoves(actions, c)[j])
    ensures OwnMoves(actions[..i], c) == OwnMoves(actions, c)[..j]
    ensures OwnMoves(actions[..i + 1], c) == OwnMoves(actions, c)[..j + 1]
  {
    var last := |actions| - 1;
    var before := OwnMoves(actions[..last], c);
    if j == |before| {
      i := last;
      assert actions[..last + 1] == actions;
    } else {
      i := PlaceOfMove(actions[..last], c, j);
      assert actions[..last][..i] == actions[..i] && actions[..last][..i + 1] == actions[..i + 1];
    }
  }

  /** A failed round and the attempt after it stand together in the steps of the loop. */
  lemma {:induction false} NextAttemptFollows(rounds: nat -> Round, k: nat, last: nat, gaveUp: bool)
    requires k < last
    ensures FailedRounds(rounds, k + 1) + AttemptMoves(rounds(k + 1).fault) <= LoopMoves(rounds, last, gaveUp)
    decreases last
  {
    if k + 1 < last {
      NextAttemptFollows(rounds, k, last - 1, false);
      var shorter := LoopMoves(rounds, last - 1, false);
      assert shorter == FailedRounds(rounds, last - 1) + AttemptMoves(rounds(last - 1).fault);
      assert shorter <= FailedRounds(rounds, last) <= LoopMoves(rounds, last, gaveUp);
    }
  }

  /** The five steps from a repair that gets through to an answer. */
  const REPAIR_AND_ANSWER: seq<Move> := [RunRepair, Wake, Send, Execute, Deliver]

  lemma FiveSteps(rounds: nat -> Round, k: nat, last: nat, gaveUp: bool) returns (j: nat)
    requires k < last && rounds(k).repaired && rounds(k + 1).fault.NoFault?
    ensures j + 5 <= |LoopMoves(rounds, last, gaveUp)|
    ensures LoopMoves(rounds, last, gaveUp)[j..j + 5] == REPAIR_AND_ANSWER
  {
    NextAttemptFollows(rounds, k, last, gaveUp);
    var front := FailedRounds(rounds, k) + AttemptMoves(rounds(k).fault);
    var part := FailedRounds(rounds, k + 1) + AttemptMoves(rounds(k + 1).fault);
    j := |front|;
    assert part == front + REPAIR_AND_ANSWER;
    assert LoopMoves(rounds, last, gaveUp)[..|part|] == part;
    assert LoopMoves(rounds, last, gaveUp)[j..j + 5] == part[j..j + 5];
  }

  // ---------- what a good round achieves ----------

  ghost predicate NoReplacement(actions: seq<Action>) {
    forall i :: 0 <= i < |actions| ==> !actions[i].ReplaceDatabase?
  }

  /** Call `c` begins with step `b` of the schedule. */
  ghost predicate BeginsAt(p: Policy, db: Database, actions: seq<Action>, b: nat, c: nat) {
    && b < |actions| && actions[b] == Begin
    && Run(p, Initial(db), actions[..b]).Some? && |Run(p, Initial(db), actions[..b]).value.calls| == c
  }

  lemma BeganEarlier(p: Policy, db: Database, begun: seq<Action>, actions: seq<Action>, b: nat, c: nat)
    requires BeginsAt(p, db, begun, b, c) && begun <= actions
    ensures BeginsAt(p, db, actions, b, c)
  {
    assert actions[..b] == begun[..b] && actions[b] == begun[b];
  }

  lemma CutRun(p: Policy, db: Database, actions: seq<Action>, i: nat, j: nat)
    requires Run(p, Initial(db), actions).Some? && i <= j <= |actions|
    ensures Run(p, Initial(db), actions[..i]).Some? && Run(p, Initial(db), actions[..j]).Some?
    ensures Run(p, Run(p, Initial(db), actions[..i]).value, actions[i..j]) == Run(p, Initial(db), actions[..j])
  {
    RunPrefix(p, Initial(db), actions, j);
    RunPrefix(p, Initial(db), actions[..j], i);
    assert actions[..j][..i] == actions[..i] && actions[..j][i..] == actions[i..j];
  }

  lemma EnabledAt(p: Policy, db: Database, actions: seq<Action>, i: nat)
    requires Run(p, Initial(db), actions).Some? && i < |actions|
    ensures Run(p, Initial(db), actions[..i]).Some?
    ensures Enabled(Run(p, Initial(db), actions[..i]).value, actions[i])
  {
    CutRun(p, db, actions, i, i + 1);
    assert actions[..i + 1][..i] == actions[..i];
  }

  /** A call takes no step before it begins. */
  lemma MovesComeLater(p: Policy, db: Database, actions: seq<Action>, b: nat, c: nat, i: nat)
    requires Run(p, Initial(db), actions).Some? && BeginsAt(p, db, actions, b, c)
    requires i < |actions| && actions[i].Of? && actions[i].call == c
    ensures b < i
  {
    EnabledAt(p, db, actions, i);
    if i <= b {
      CutRun(p, db, actions, i, b);
      RunGrows(p, Run(p, Initial(db), actions[..i]).value, actions[i..b]);
    }
  }

  lemma {:induction false} EpochStays(p: Policy, s: State, actions: seq<Action>)
    requires |s.bases| > 0 && Run(p, s, actions).Some? && NoReplacement(actions)
    ensures Run(p, s, actions).value.bases == s.bases
    decreases |actions|
  {
    if actions != [] { EpochStays(p, s, actions[..|actions| - 1]); }
  }

  /** Without a replacement, the epoch at a step is that of the end. */
  lemma EpochAt(p: Policy, db: Database, actions: seq<Action>, b: nat, i: nat)
    requires Run(p, Initial(db), actions).Some? && b <= i <= |actions| && NoReplacement(actions[b..])
    ensures Run(p, Initial(db), actions[..i]).Some?
    ensures Run(p, Initial(db), actions[..i]).value.bases == Run(p, Initial(db), actions).value.bases
  {
    hide Step;
    PartHasNoReplacement(actions, b, i, |actions|);
    assert actions[..|actions|] == actions;
    CutRun(p, db, actions, i, |actions|);
    EpochStays(p, Run(p, Initial(db), actions[..i]).value, actions[i..|actions|]);
  }

  lemma JustBegun(p: Policy, db: Database, actions: seq<Action>, b: nat, c: nat)
    requires BeginsAt(p, db, actions, b, c)
    ensures Run(p, Initial(db), actions[..b + 1]).Some?
    ensures var s := Run(p, Initial(db), actions[..b + 1]).value;
            Inv(p, s) && c < |s.calls| && Receipt(s.calls[c]).None?
  {
    RunOneMore(p, Initial(db), actions[..b], Begin);
    assert actions[..b] + [Begin] == actions[..b + 1];
    ReachableInv(p, db, actions[..b + 1]);
  }

  /** An answer is from the epoch in which the call began. */
  lemma SameEpoch(p: Policy, db: Database, actions: seq<Action>, b: nat, c: nat)
    requires Run(p, Initial(db), actions).Some? && BeginsAt(p, db, actions, b, c) && NoReplacement(actions[b..])
    ensures var t := Run(p, Initial(db), actions).value;
            |t.bases| > 0 && c < |t.calls| && FromEpoch(t.calls[c], t.bases[|t.bases| - 1])
  {
    hide Step, Inv, FromEpoch, Receipt, NoReplacement;
    JustBegun(p, db, actions, b, c);
    PartHasNoReplacement(actions, b, b + 1, |actions|);
    assert actions[..|actions|] == actions;
    CutRun(p, db, actions, b + 1, |actions|);
    AnswerInEpoch(p, Run(p, Initial(db), actions[..b + 1]).value, actions[b + 1..|actions|], c);
  }

  lemma AnswerInEpoch(p: Policy, s: State, actions: seq<Action>, c: nat)
    requires Inv(p, s) && c < |s.calls| && Receipt(s.calls[c]).None?
    requires Run(p, s, actions).Some? && NoReplacement(actions)
    ensures var t := Run(p, s, actions).value;
            |t.bases| > 0 && c < |t.calls| && FromEpoch(t.calls[c], t.bases[|t.bases| - 1])
  {
    RecoveredInThisEpoch(p, s, actions, c);
  }

  /** The schedule from the call's repair to its answer. */
  lemma PlacesOfFive(actions: seq<Action>, c: nat, j: nat) returns (i: nat, k: nat)
    requires j + 5 <= |OwnMoves(actions, c)| && OwnMoves(actions, c)[j..j + 5] == REPAIR_AND_ANSWER
    ensures i < k <= |actions| && actions[i] == Of(c, RunRepair)
    ensures OwnMoves(actions[i..k], c) == REPAIR_AND_ANSWER
  {
    var moves := OwnMoves(actions, c);
    assert moves[j] == moves[j..j + 5][0];
    i := PlaceOfMove(actions, c, j);
    var last := PlaceOfMove(actions, c, j + 4);
    k := last + 1;
    if k <= i {
      assert actions[..i] == actions[..k] + actions[k..i];
      OwnMovesConcat(actions[..k], actions[k..i], c);
    }
    assert actions[..k] == actions[..i] + actions[i..k];
    OwnMovesConcat(actions[..i], actions[i..k], c);
    assert moves[..j + 5] == moves[..j] + moves[j..j + 5];
  }

  lemma FiveStepsAreKind(actions: seq<Action>, c: nat)
    requires NoReplacement(actions) && OwnMoves(actions, c) == REPAIR_AND_ANSWER
    ensures OwnSteps(actions, c) == 5
    ensures forall i :: 0 <= i < |actions| ==> KindTo(actions[i], c)
  {
    OwnMovesAreSteps(actions, c);
    forall i | 0 <= i < |actions| ensures KindTo(actions[i], c) {
      if IsOwn(actions[i], c) { assert actions[i].move in REPAIR_AND_ANSWER; }
    }
  }

  /** A repair that gets through and an attempt without a fault: the call has succeeded. */
  lemma FiveStepsSucceed(p: Policy, db: Database, actions: seq<Action>, b: nat, c: nat, j: nat)
    requires Run(p, Initial(db), actions).Some? && BeginsAt(p, db, actions, b, c) && NoReplacement(actions[b..])
    requires var t := Run(p, Initial(db), actions).value;
             |t.bases| > 0 && t.bases[|t.bases| - 1] >= 0 && HasRoom(p, t, |t.calls|)
    requires j + 5 <= |OwnMoves(actions, c)| && OwnMoves(actions, c)[j..j + 5] == REPAIR_AND_ANSWER
    ensures var t := Run(p, Initial(db), actions).value; c < |t.calls| && t.calls[c].Succeeded()
  {
    hide Step, Receipt, OwnMoves, NoReplacement;
    var n := |actions|;
    assert actions[..n] == actions;
    var i, k := PlacesOfFive(actions, c, j);
    MovesComeLater(p, db, actions, b, c, i);
    EpochAt(p, db, actions, b, i);
    EnabledAt(p, db, actions, i);
    CutRun(p, db, actions, i, k);
    CutRun(p, db, actions, k, n);
    PartHasNoReplacement(actions, b, i, k);
    FiveStepsAreKind(actions[i..k], c);
    var s, u, t := Run(p, Initial(db), actions[..i]).value, Run(p, Initial(db), actions[..k]).value,
                   Run(p, Initial(db), actions).value;
    RunGrows(p, u, actions[k..n]);
    RoomInEpoch(p, s, t, |u.calls|);
    FailedCallRecovers(p, db, actions[..i], actions[i..k], c);
  }

  lemma PartHasNoReplacement(actions: seq<Action>, b: nat, i: nat, k: nat)
    requires b <= i <= k <= |actions| && NoReplacement(actions[b..])
    ensures NoReplacement(actions[i..k])
  {
    forall x | 0 <= x < |actions[i..k]| ensures !actions[i..k][x].ReplaceDatabase? {
      assert actions[i..k][x] == actions[b..][i - b + x];
    }
  }

  lemma RoomInEpoch(p: Policy, s: State, t: State, calls: nat)
    requires |t.bases| > 0 && s.bases == t.bases && calls <= |t.calls| && HasRoom(p, t, |t.calls|)
    ensures HasRoom(p, s, calls)
  {
    RoomForFewer(p, t, calls, |t.calls|);
  }

  /**
    A call whose own steps are those of the loop. If some round ends in a
    repair that gets through, the attempt of the next one meets no fault and the database
    is not replaced meanwhile, the call succeeds: it does not give up, and a
    count from an epoch that began at 0 or above is no negative one.
   */
  lemma GoodRoundSucceeds(p: Policy, db: Database, actions: seq<Action>, b: nat, c: nat,
                          rounds: nat -> Round, last: nat)
    requires Run(p, Initial(db), actions).Some? && BeginsAt(p, db, actions, b, c) && NoReplacement(actions[b..])
    requires var t := Run(p, Initial(db), actions).value;
             && |t.bases| > 0 && t.bases[|t.bases| - 1] >= 0 && HasRoom(p, t, |t.calls|)
             && c < |t.calls| && t.calls[c].Over()
             && OwnMoves(actions, c) == LoopMoves(rounds, last, t.calls[c].phase.GaveUp?)
             && (t.calls[c].phase.GaveUp? ==> last == p.retries)
    requires SomeGoodRound(rounds, p.retries)
    ensures Run(p, Initial(db), actions).value.calls[c].Succeeded()
  {
    var call := Run(p, Initial(db), actions).value.calls[c];
    SameEpoch(p, db, actions, b, c);
    if call.phase.GaveUp? {
      var k: nat :| k < p.retries && rounds(k).repaired && rounds(k + 1).fault.NoFault?;
      var j := FiveSteps(rounds, k, last, true);
      FiveStepsSucceed(p, db, actions, b, c, j);
    }
  }
}
