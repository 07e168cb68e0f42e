/** Healing after the row is lost, runs without faults, and how large a gap can get. */
module CounterRecovery {
  import opened Wrappers
  import opened CounterTable
  import opened CounterProtocol
  import opened CounterInvariant
  import opened CounterTheorems

  // ---------- self-healing ----------

  /** No fault hits call `c`; other calls, late updates and initialisations run freely. */
  predicate KindTo(a: Action, c: nat) {
    && !a.ReplaceDatabase?
    && (a.Of? && a.call == c ==> a.move in {RunRepair, Wake, Send, Execute, Deliver, ExecuteOrphan})
  }

  /** Where a failed call is after `steps` undisturbed steps. */
  ghost predicate Recovering(call: Call, failed: Call, db: Database, steps: nat) {
    && call.errors == failed.errors
    && match steps
       case 0 => call.phase == failed.phase && call.retries == failed.retries
       case 1 => call.phase.Sleeping? && Stored(db).Some?
       case 2 => call.phase.Connecting? && Stored(db).Some?
       case 3 => call.phase.Waiting? && Stored(db).Some?
       case 4 => call.phase.Answered? && call.phase.reply.Committed?
       case _ => steps == 5 && call.phase.Returned?
  }

  /** `calls` calls cannot exhaust the column within the current epoch. */
  predicate HasRoom(p: Policy, s: State, calls: nat)
    requires |s.bases| > 0
  {
    s.bases[|s.bases| - 1] + calls * (p.retries + 1) < BIGINT_MAX
  }

  lemma {:induction false} RecoveryContinues(p: Policy, s: State, actions: seq<Action>, c: nat)
    requires Inv(p, s) && c < |s.calls| && s.calls[c].phase.Failed? && s.calls[c].retries > 0
    requires Run(p, s, actions).Some?
    requires forall i :: 0 <= i < |actions| ==> KindTo(actions[i], c)
    requires HasRoom(p, s, |Run(p, s, actions).value.calls|)
    ensures var t := Run(p, s, actions).value;
            && t.bases == s.bases && c < |t.calls|
            && Recovering(t.calls[c], s.calls[c], t.db, OwnSteps(actions, c))
    decreases |actions|
  {
    hide HasRoom;
    if actions != [] {
      var last := |actions| - 1;
      var before := Run(p, s, actions[..last]).value;
      var t := Run(p, s, actions).value;
      RoomForFewer(p, s, |before.calls|, |t.calls|);
      RecoveryContinues(p, s, actions[..last], c);
      RunKeepsInv(p, s, actions[..last]);
      SameRoom(p, s, before);
      StoredIsBelow(p, before);
      RecoveryStep(p, before, actions[last], s.calls[c], c, OwnSteps(actions[..last], c));
    }
  }

  lemma RoomForFewer(p: Policy, s: State, fewer: nat, calls: nat)
    requires |s.bases| > 0 && HasRoom(p, s, calls) && fewer <= calls
    ensures HasRoom(p, s, fewer)
  {
    assert fewer * (p.retries + 1) <= calls * (p.retries + 1);
  }

  lemma InEpochBound(log: seq<Commit>, e: int)
    ensures InEpoch(log, e) <= |log|
  {
  }

  lemma SameRoom(p: Policy, s: State, t: State)
    requires |s.bases| > 0 && t.bases == s.bases && HasRoom(p, s, |t.calls|)
    ensures HasRoom(p, t, |t.calls|)
  {
  }

  lemma StoredIsBelow(p: Policy, s: State)
    requires Inv(p, s) && HasRoom(p, s, |s.calls|)
    ensures Stored(s.db).Some? ==> Stored(s.db).value < BIGINT_MAX
  {
    InEpochBound(s.log, |s.bases| - 1);
    CommitsPerCall(p, s.calls);
  }

  lemma RecoveryStep(p: Policy, s: State, a: Action, failed: Call, c: nat, steps: nat)
    requires |s.bases| > 0 && Enabled(s, a) && KindTo(a, c) && c < |s.calls|
    requires failed.phase.Failed? && failed.retries > 0
    requires Recovering(s.calls[c], failed, s.db, steps)
    requires Stored(s.db).Some? ==> Stored(s.db).value < BIGINT_MAX
    ensures var own := if a.Of? && a.call == c && !a.move.ExecuteOrphan? then 1 else 0;
            var t := Step(p, s, a);
            Recovering(t.calls[c], failed, t.db, steps + own) && t.bases == s.bases
  {
    RowSurvives(p, s, a);
    if a.Of? && a.call != c { assert Step(p, s, a).calls[c] == s.calls[c]; }
  }

  lemma RowSurvives(p: Policy, s: State, a: Action)
    requires |s.bases| > 0 && Enabled(s, a) && !a.ReplaceDatabase?
    ensures Stored(s.db).Some? ==> Stored(Step(p, s, a).db).Some?
    ensures a.Of? && a.move.RunRepair? ==> Stored(Step(p, s, a).db).Some?
  {
  }

  /** How far a call is decides whether it is over, and a count above 0 is a success. */
  lemma RecoveredCall(call: Call, failed: Call, db: Database, steps: nat)
    requires Recovering(call, failed, db, steps) && failed.phase.Failed?
    ensures call.errors == failed.errors
    ensures steps < 5 ==> !call.Over()
    ensures steps >= 5 ==> call.phase.Returned? && (call.phase.value >= 1 ==> call.Succeeded())
  {
  }

  lemma RecoversFrom(p: Policy, s: State, actions: seq<Action>, c: nat)
    requires Inv(p, s) && Run(p, s, actions).Some?
    requires c < |s.calls| && s.calls[c].phase.Failed? && s.calls[c].retries > 0
    requires 0 <= s.bases[|s.bases| - 1] && HasRoom(p, s, |Run(p, s, actions).value.calls|)
    requires forall i :: 0 <= i < |actions| ==> KindTo(actions[i], c)
    ensures var t := Run(p, s, actions).value;
            && c < |t.calls| && t.calls[c].errors == s.calls[c].errors
            && (OwnSteps(actions, c) < 5 ==> !t.calls[c].Over())
            && (OwnSteps(actions, c) >= 5 ==> t.calls[c].Succeeded() && t.calls[c].phase.value >= 1)
  {
    RecoveryContinues(p, s, actions, c);
    RecoveredInThisEpoch(p, s, actions, c);
    hide Recovering, HasRoom, Run;
    RecoveredCall(Run(p, s, actions).value.calls[c], s.calls[c], Run(p, s, actions).value.db, OwnSteps(actions, c));
  }

  /**
    Self-healing. A call whose attempt failed, because the row or the table was gone or
    for any other reason, and that may retry, succeeds with its very next attempt if
    that attempt and the repair before it meet no fault: after five more steps of its
    own it has returned a count, whatever the other calls do in between.
   */
  lemma FailedCallRecovers(p: Policy, db: Database, before: seq<Action>, after: seq<Action>, c: nat)
    requires Run(p, Initial(db), before).Some?
    requires Run(p, Run(p, Initial(db), before).value, after).Some?
    requires var s := Run(p, Initial(db), before).value;
             var t := Run(p, s, after).value;
             && c < |s.calls| && s.calls[c].phase.Failed? && s.calls[c].retries > 0
             && 0 <= s.bases[|s.bases| - 1]
             && HasRoom(p, s, |t.calls|)
    requires forall i :: 0 <= i < |after| ==> KindTo(after[i], c)
    ensures var s := Run(p, Initial(db), before).value;
            var t := Run(p, s, after).value;
            && c < |t.calls| && t.calls[c].errors == s.calls[c].errors
            && (OwnSteps(after, c) < 5 ==> !t.calls[c].Over())
            && (OwnSteps(after, c) >= 5 ==> t.calls[c].Succeeded() && t.calls[c].phase.value >= 1)
  {
    ReachableInv(p, db, before);
    RecoversFrom(p, Run(p, Initial(db), before).value, after, c);
  }

  /** If the call has an answer, its value lies above the base. */
  predicate FromEpoch(call: Call, base: BigInt) {
    Receipt(call).Some? ==> Receipt(call).value.1 > base
  }

  lemma StepStaysInEpoch(p: Policy, s: State, a: Action, c: nat)
    requires Inv(p, s) && Enabled(s, a) && c < |s.calls| && !a.ReplaceDatabase?
    requires FromEpoch(s.calls[c], s.bases[|s.bases| - 1])
    ensures var t := Step(p, s, a);
            t.bases == s.bases && c < |t.calls| && FromEpoch(t.calls[c], s.bases[|s.bases| - 1])
  {
    hide Accounted, Honest, Increasing, WellPlaced;
    if a.Of? && a.call != c { assert Step(p, s, a).calls[c] == s.calls[c]; }
  }

  /** Without a replacement, an answer to a call that had none is from the current epoch. */
  lemma {:induction false} RecoveredInThisEpoch(p: Policy, s: State, actions: seq<Action>, c: nat)
    requires Inv(p, s) && c < |s.calls| && Receipt(s.calls[c]).None?
    requires Run(p, s, actions).Some?
    requires forall i :: 0 <= i < |actions| ==> !actions[i].ReplaceDatabase?
    ensures var t := Run(p, s, actions).value;
            t.bases == s.bases && c < |t.calls| && FromEpoch(t.calls[c], s.bases[|s.bases| - 1])
    decreases |actions|
  {
    assert |s.bases| > 0 && FromEpoch(s.calls[c], s.bases[|s.bases| - 1]);
    hide LogInv, Accounted, Honest, Step, FromEpoch, CanMove;
    if actions != [] {
      var last := |actions| - 1;
      RecoveredInThisEpoch(p, s, actions[..last], c);
      RunKeepsInv(p, s, actions[..last]);
      StepStaysInEpoch(p, Run(p, s, actions[..last]).value, actions[last], c);
    }
  }

  // ---------- no faults ----------

  predicate Faultless(a: Action) {
    a.Begin? || a.Initialise? || (a.Of? && a.move in {Send, Execute, Deliver, RunRepair, Wake})
  }

  predicate RowIsMissing(e: DbError) { e.NoSuchTable? || e.NoSuchRow? }

  /** A call that meets no fault fails at most once, on a row that is not there yet. */
  ghost predicate Undisturbed(p: Policy, call: Call, rowExists: bool) {
    && call.orphans == 0
    && call.commits == (if Receipt(call).Some? then 1 else 0)
    && (call.retries == p.retries || (call.retries == p.retries - 1 && rowExists))
    && match call.phase
       case Failed(e) => call.retries == p.retries && RowIsMissing(e)
       case Answered(_, Refused(e)) => call.retries == p.retries && RowIsMissing(e)
       case Sleeping => call.retries == p.retries && rowExists
       case GaveUp(_) => false
       case _ => true
  }

  /** Without faults the log is the list of the counts from the base upward, and each
      of them is with the call that got it. */
  ghost predicate Gapless(s: State) {
    && |s.bases| == 1
    && (forall t :: 0 <= t < |s.log| ==>
          && s.log[t].value == s.bases[0] + t + 1
          && s.log[t].call < |s.calls|
          && Receipt(s.calls[s.log[t].call]) == Some((t, s.log[t].value)))
    && (Stored(s.db).Some? ==> Stored(s.db).value == s.bases[0] + |s.log|)
    && (Stored(s.db).None? ==> s.bases[0] == 0 && s.log == [])
  }

  ghost predicate FaultFree(p: Policy, s: State) {
    && Gapless(s)
    && (forall c :: 0 <= c < |s.calls| ==> Undisturbed(p, s.calls[c], Stored(s.db).Some?))
  }

  lemma {:induction false} FewCommits(calls: seq<Call>)
    requires forall c :: 0 <= c < |calls| ==> calls[c].commits <= 1
    ensures SumCommits(calls) <= |calls|
    ensures SumCommits(calls) == |calls| <==> forall c :: 0 <= c < |calls| ==> calls[c].commits == 1
  {
    if calls != [] {
      var last := |calls| - 1;
      var shorter := calls[..last];
      FewCommits(shorter);
      assert calls[last].commits <= 1;
      forall c | 0 <= c < last && SumCommits(calls) == |calls| ensures calls[c].commits == 1 {
        assert shorter[c] == calls[c];
      }
    }
  }

  lemma UndisturbedMove(p: Policy, s: State, c: nat, m: Move)
    requires p.retries >= 1 && |s.bases| > 0 && c < |s.calls| && CanMove(s.calls[c], m)
    requires Faultless(Of(c, m)) && Undisturbed(p, s.calls[c], Stored(s.db).Some?)
    requires m.Execute? && Stored(s.db).Some? ==> Stored(s.db).value < BIGINT_MAX
    ensures var t := Step(p, s, Of(c, m));
            && (Stored(s.db).Some? ==> Stored(t.db).Some?)
            && Undisturbed(p, t.calls[c], Stored(t.db).Some?)
  {
  }

  lemma GaplessMove(p: Policy, s: State, c: nat, m: Move)
    requires Gapless(s) && c < |s.calls| && CanMove(s.calls[c], m) && Faultless(Of(c, m))
    ensures Gapless(Step(p, s, Of(c, m)))
  {
    var t := Step(p, s, Of(c, m));
    forall u | 0 <= u < |t.log| ensures Receipt(t.calls[t.log[u].call]) == Some((u, t.log[u].value)) {
      if u < |s.log| { assert Receipt(s.calls[s.log[u].call]) == Some((u, s.log[u].value)); }
    }
  }

  lemma FaultFreeCall(p: Policy, s: State, c: nat, m: Move)
    requires p.retries >= 1 && Inv(p, s) && FaultFree(p, s) && c < |s.calls| && CanMove(s.calls[c], m)
    requires Faultless(Of(c, m)) && s.bases[0] + |s.calls| <= BIGINT_MAX
    ensures FaultFree(p, Step(p, s, Of(c, m)))
  {
    var t := Step(p, s, Of(c, m));
    GaplessMove(p, s, c, m);
    forall d | 0 <= d < |s.calls| ensures Undisturbed(p, s.calls[d], Stored(s.db).Some?) {}
    FewCommits(s.calls);
    if m.Execute? { assert s.calls[c].commits == 0; }
    UndisturbedMove(p, s, c, m);
    forall d | 0 <= d < |t.calls| ensures Undisturbed(p, t.calls[d], Stored(t.db).Some?) {
      if d != c { assert t.calls[d] == s.calls[d]; }
    }
  }

  lemma CallsUnmoved(p: Policy, s: State, t: State)
    requires FaultFree(p, s) && t.log == s.log && t.bases == s.bases
    requires s.calls <= t.calls && forall c :: |s.calls| <= c < |t.calls| ==> t.calls[c] == NewCall(p)
    requires t.db == s.db || t.db == InitSql(s.db)
    ensures FaultFree(p, t)
  {
    forall u | 0 <= u < |t.log| ensures Receipt(t.calls[t.log[u].call]) == Some((u, t.log[u].value)) {
      assert Receipt(s.calls[s.log[u].call]) == Some((u, s.log[u].value));
    }
    forall c | 0 <= c < |t.calls| ensures Undisturbed(p, t.calls[c], Stored(t.db).Some?) {
      if c < |s.calls| { assert Undisturbed(p, s.calls[c], Stored(s.db).Some?); }
    }
  }

  lemma {:induction false} FaultFreeRun(p: Policy, db: Database, actions: seq<Action>)
    requires p.retries >= 1 && Run(p, Initial(db), actions).Some?
    requires forall i :: 0 <= i < |actions| ==> Faultless(actions[i])
    requires Base(db) + |Run(p, Initial(db), actions).value.calls| <= BIGINT_MAX
    ensures FaultFree(p, Run(p, Initial(db), actions).value)
    ensures Run(p, Initial(db), actions).value.bases == [Base(db)]
    decreases |actions|
  {
    if actions != [] {
      var last := |actions| - 1;
      var before := Run(p, Initial(db), actions[..last]).value;
      var t := Run(p, Initial(db), actions).value;
      assert |before.calls| <= |t.calls|;
      FaultFreeRun(p, db, actions[..last]);
      ReachableInv(p, db, actions[..last]);
      match actions[last]
      case Of(c, m) => FaultFreeCall(p, before, c, m);
      case Begin => CallsUnmoved(p, before, t);
      case Initialise => CallsUnmoved(p, before, t);
      case ReplaceDatabase(_) => assert false;
    }
  }

  ghost predicate IsReturned(calls: seq<Call>, value: int) {
    exists c :: 0 <= c < |calls| && calls[c].phase.Returned? && calls[c].phase.value == value
  }

  ghost predicate ExactlyTheNextCounts(base: int, calls: seq<Call>) {
    && (forall c :: 0 <= c < |calls| ==>
          calls[c].phase.Returned? && base < calls[c].phase.value <= base + |calls|)
    && (forall c, d :: 0 <= c < d < |calls| ==> calls[c].phase.value != calls[d].phase.value)
    && (forall v :: base < v <= base + |calls| ==> IsReturned(calls, v))
  }

  ghost predicate GotItsCount(s: State, c: nat)
    requires c < |s.calls| && |s.bases| > 0
  {
    && s.calls[c].phase.Returned? && s.calls[c].commits == 1
    && var ticket := s.calls[c].phase.ticket;
       ticket < |s.log| && s.log[ticket].call == c && s.calls[c].phase.value == s.bases[0] + ticket + 1
  }

  lemma FaultFreeReturn(p: Policy, s: State, c: nat)
    requires Inv(p, s) && FaultFree(p, s) && c < |s.calls| && s.calls[c].Over()
    ensures GotItsCount(s, c)
  {
    assert Undisturbed(p, s.calls[c], Stored(s.db).Some?) && Honest(s, c);
  }

  lemma CountsUp(s: State)
    requires Gapless(s) && |s.log| == |s.calls|
    requires forall c :: 0 <= c < |s.calls| ==> GotItsCount(s, c)
    ensures ExactlyTheNextCounts(s.bases[0], s.calls)
  {
    forall c | 0 <= c < |s.calls|
      ensures s.calls[c].phase.Returned? && s.bases[0] < s.calls[c].phase.value <= s.bases[0] + |s.calls|
    {
      assert GotItsCount(s, c);
    }
    forall c, d | 0 <= c < d < |s.calls| ensures s.calls[c].phase.value != s.calls[d].phase.value {
      assert GotItsCount(s, c) && GotItsCount(s, d);
    }
    forall v | s.bases[0] < v <= s.bases[0] + |s.calls| ensures IsReturned(s.calls, v) {
      var ticket := v - s.bases[0] - 1;
      assert Receipt(s.calls[s.log[ticket].call]) == Some((ticket, s.log[ticket].value));
      assert GotItsCount(s, s.log[ticket].call);
    }
  }

  /**
    Without faults, `n` calls in any concurrent order return exactly the `n` counts that
    follow the starting one, each once: what an atomic in-memory counter returns. The
    row may even be missing at first; then the count starts at 0.
   */
  lemma FaultFreeCallsCountUp(p: Policy, db: Database, actions: seq<Action>)
    requires p.retries >= 1 && Run(p, Initial(db), actions).Some?
    requires forall i :: 0 <= i < |actions| ==> Faultless(actions[i])
    requires var calls := Run(p, Initial(db), actions).value.calls;
             && Base(db) + |calls| <= BIGINT_MAX
             && (forall c :: 0 <= c < |calls| ==> calls[c].Over())
    ensures ExactlyTheNextCounts(Base(db), Run(p, Initial(db), actions).value.calls)
  {
    FaultFreeRun(p, db, actions);
    ReachableInv(p, db, actions);
    var s := Run(p, Initial(db), actions).value;
    forall c | 0 <= c < |s.calls| ensures GotItsCount(s, c) { FaultFreeReturn(p, s, c); }
    FewCommits(s.calls);
    CountsUp(s);
  }

  // ---------- the gap bound is reached ----------

  /** The only call of `s` is about to connect, with `retries` left and nothing delivered. */
  ghost predicate SoleCall(s: State, retries: nat, stored: int) {
    && |s.bases| > 0 && |s.calls| == 1 && s.calls[0].phase.Connecting? && s.calls[0].retries == retries
    && Stored(s.db) == Some(stored)
  }

  /** One attempt that commits and loses its reply. */
  lemma LostReply(p: Policy, db: Database, actions: seq<Action>, retries: nat, stored: int)
    returns (longer: seq<Action>)
    requires Run(p, Initial(db), actions).Some? && stored < BIGINT_MAX
    requires SoleCall(Run(p, Initial(db), actions).value, retries, stored)
    ensures longer == actions + [Of(0, Send), Of(0, Execute), Of(0, LoseReply)]
    ensures Run(p, Initial(db), longer).Some?
    ensures var t := Run(p, Initial(db), longer).value;
            && |t.calls| == 1 && t.calls[0].phase == Failed(ReplyLost) && t.calls[0].retries == retries
            && Stored(t.db) == Some(stored + 1)
  {
    RunOneMore(p, Initial(db), actions, Of(0, Send));
    RunOneMore(p, Initial(db), actions + [Of(0, Send)], Of(0, Execute));
    RunOneMore(p, Initial(db), actions + [Of(0, Send)] + [Of(0, Execute)], Of(0, LoseReply));
    longer := actions + [Of(0, Send)] + [Of(0, Execute)] + [Of(0, LoseReply)];
  }

  /** One attempt that succeeds. */
  lemma GotReply(p: Policy, db: Database, actions: seq<Action>, retries: nat, stored: int)
    returns (longer: seq<Action>)
    requires Run(p, Initial(db), actions).Some? && 0 <= stored < BIGINT_MAX
    requires SoleCall(Run(p, Initial(db), actions).value, retries, stored)
    ensures longer == actions + [Of(0, Send), Of(0, Execute), Of(0, Deliver)]
    ensures Run(p, Initial(db), longer).Some?
    ensures var t := Run(p, Initial(db), longer).value;
            |t.calls| == 1 && t.calls[0].Succeeded() && Stored(t.db) == Some(stored + 1)
  {
    RunOneMore(p, Initial(db), actions, Of(0, Send));
    RunOneMore(p, Initial(db), actions + [Of(0, Send)], Of(0, Execute));
    RunOneMore(p, Initial(db), actions + [Of(0, Send)] + [Of(0, Execute)], Of(0, Deliver));
    longer := actions + [Of(0, Send)] + [Of(0, Execute)] + [Of(0, Deliver)];
  }

  /** The retry after a failed attempt whose repair does not get through. */
  lemma RetryAgain(p: Policy, db: Database, actions: seq<Action>, retries: nat, stored: int)
    returns (longer: seq<Action>)
    requires Run(p, Initial(db), actions).Some?
    requires var s := Run(p, Initial(db), actions).value;
             |s.calls| == 1 && s.calls[0].phase.Failed? && s.calls[0].retries == retries + 1
             && Stored(s.db) == Some(stored)
    ensures longer == actions + [Of(0, SkipRepair), Of(0, Wake)]
    ensures Run(p, Initial(db), longer).Some? && SoleCall(Run(p, Initial(db), longer).value, retries, stored)
  {
    RunOneMore(p, Initial(db), actions, Of(0, SkipRepair));
    RunOneMore(p, Initial(db), actions + [Of(0, SkipRepair)], Of(0, Wake));
    longer := actions + [Of(0, SkipRepair)] + [Of(0, Wake)];
  }

  lemma {:induction false} LoseEveryRetry(p: Policy, db: Database, k: nat) returns (actions: seq<Action>)
    requires k <= p.retries && Stored(db).Some? && Base(db) + k <= BIGINT_MAX
    ensures Run(p, Initial(db), actions).Some?
    ensures forall i :: 0 <= i < |actions| ==> !actions[i].ReplaceDatabase?
    ensures SoleCall(Run(p, Initial(db), actions).value, p.retries - k, Base(db) + k)
  {
    if k == 0 {
      RunOneMore(p, Initial(db), [], Begin);
      actions := [] + [Begin];
    } else {
      var shorter := LoseEveryRetry(p, db, k - 1);
      var lost := LostReply(p, db, shorter, p.retries - (k - 1), Base(db) + k - 1);
      hide Step, SoleCall;
      actions := RetryAgain(p, db, lost, p.retries - k, Base(db) + k);
    }
  }

  /** The bounds of `GapIsBounded` are met exactly: a call can give up after
      `retries + 1` commits, and it can succeed after `retries` wasted ones. */
  lemma GapIsReached(p: Policy, db: Database, succeeds: bool) returns (actions: seq<Action>)
    requires Stored(db).Some? && Base(db) >= 0 && Base(db) + p.retries < BIGINT_MAX
    ensures Run(p, Initial(db), actions).Some?
    ensures forall i :: 0 <= i < |actions| ==> !actions[i].ReplaceDatabase?
    ensures var t := Run(p, Initial(db), actions).value;
            && |t.calls| == 1 && t.calls[0].Over() && t.calls[0].Succeeded() == succeeds
            && Stored(t.db) == Some(Base(db) + p.retries + 1)
  {
    var lost := LoseEveryRetry(p, db, p.retries);
    if succeeds {
      actions := GotReply(p, db, lost, 0, Base(db) + p.retries);
    } else {
      var again := LostReply(p, db, lost, 0, Base(db) + p.retries);
      RunOneMore(p, Initial(db), again, Of(0, GiveUp));
      actions := again + [Of(0, GiveUp)];
    }
  }
}
