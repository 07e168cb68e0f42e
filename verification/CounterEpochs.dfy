/** What a replaced database does to the count: each epoch counts from its own base. */
module CounterEpochs {
  import opened Wrappers
  import opened CounterTable
  import opened CounterProtocol
  import opened CounterInvariant
  import opened CounterTheorems

  /** Each commit carries the base of its epoch plus its number within the epoch, from 1. */
  ghost predicate Numbered(s: State) {
    forall i :: 0 <= i < |s.log| ==> HasItsNumber(s, i)
  }

  ghost predicate HasItsNumber(s: State, i: nat)
    requires i < |s.log|
  {
    && s.log[i].epoch < |s.bases|
    && s.log[i].value == s.bases[s.log[i].epoch] + InEpoch(s.log[..i + 1], s.log[i].epoch)
  }

  lemma NumberStays(s: State, t: State, i: nat)
    requires s.log <= t.log && s.bases <= t.bases && i < |s.log| && HasItsNumber(s, i)
    ensures HasItsNumber(t, i)
  {
    assert t.log[..i + 1] == s.log[..i + 1];
  }

  /** A new commit gets the next number: the stored count is base plus commits. */
  lemma CommitIsNumbered(s: State, t: State, commit: Commit)
    requires |s.bases| > 0 && Conserved(s.db, s.bases, s.log) && Stored(s.db).Some?
    requires t.bases == s.bases && t.log == s.log + [commit]
    requires commit.epoch == |s.bases| - 1 && commit.value == Stored(s.db).value + 1
    ensures HasItsNumber(t, |s.log|)
  {
    assert t.log[..|s.log| + 1] == t.log;
    AppendInEpoch(s.log, commit);
  }

  lemma StepNumbers(p: Policy, s: State, a: Action)
    requires Inv(p, s) && Enabled(s, a) && Numbered(s)
    ensures Numbered(Step(p, s, a))
  {
    var t := Step(p, s, a);
    RunGrowsByStep(p, s, a);
    if |t.log| > |s.log| {
      UpdateAddsOne(s.db);
      CommitIsNumbered(s, t, t.log[|s.log|]);
    }
    hide Step, HasItsNumber, Inv;
    forall i | 0 <= i < |t.log| ensures HasItsNumber(t, i) {
      if i < |s.log| { NumberStays(s, t, i); }
    }
  }

  lemma RunGrowsByStep(p: Policy, s: State, a: Action)
    requires |s.bases| > 0 && Enabled(s, a)
    ensures var t := Step(p, s, a);
            && s.log <= t.log && s.bases <= t.bases && |t.log| <= |s.log| + 1
            && (|t.log| > |s.log| ==> t.bases == s.bases && Update(s.db).1.Committed?
                                      && t.log[|s.log|].epoch == |s.bases| - 1
                                      && t.log[|s.log|].value == Update(s.db).1.value)
  {
  }

  lemma {:induction false} RunNumbers(p: Policy, s: State, actions: seq<Action>)
    requires Inv(p, s) && Numbered(s) && Run(p, s, actions).Some?
    ensures Numbered(Run(p, s, actions).value)
    decreases |actions|
  {
    assert |s.bases| > 0;
    hide Step, Inv, Numbered;
    if actions != [] {
      var last := |actions| - 1;
      RunNumbers(p, s, actions[..last]);
      RunKeepsInv(p, s, actions[..last]);
      StepNumbers(p, Run(p, s, actions[..last]).value, actions[last]);
    }
  }

  /** The states around a replacement and after it. */
  ghost predicate Replaced(p: Policy, db: Database, before: seq<Action>, other: Database, after: seq<Action>) {
    Run(p, Initial(db), before + [ReplaceDatabase(other)] + after).Some?
  }

  lemma ReplacementIsTaken(p: Policy, db: Database, before: seq<Action>, other: Database, after: seq<Action>)
    requires Replaced(p, db, before, other, after)
    ensures Run(p, Initial(db), before).Some?
    ensures var s := Run(p, Initial(db), before).value;
            var r := Run(p, Initial(db), before + [ReplaceDatabase(other)]);
            && r == Some(s.(db := other, bases := s.bases + [Base(other)]))
            && Run(p, r.value, after) == Run(p, Initial(db), before + [ReplaceDatabase(other)] + after)
  {
    RunConcat(p, Initial(db), before + [ReplaceDatabase(other)], after);
    RunConcat(p, Initial(db), before, [ReplaceDatabase(other)]);
    assert (before + [ReplaceDatabase(other)])[..|before|] == before;
  }

  /** Epoch `e` counts from `base`: its `k`-th commit carries `base + k`, and so does the
      row after `k` commits, while the epoch lasts. */
  ghost predicate CountsFrom(t: State, e: nat, base: BigInt) {
    && e < |t.bases| && t.bases[e] == base
    && (forall i :: 0 <= i < |t.log| && t.log[i].epoch == e ==>
          t.log[i].value == base + InEpoch(t.log[..i + 1], e))
    && (e == |t.bases| - 1 && Stored(t.db).Some? ==> Stored(t.db).value == base + InEpoch(t.log, e))
  }

  lemma EpochCounts(t: State, e: nat)
    requires e < |t.bases| && Numbered(t) && Conserved(t.db, t.bases, t.log)
    ensures CountsFrom(t, e, t.bases[e])
  {
    forall i | 0 <= i < |t.log| && t.log[i].epoch == e
      ensures t.log[i].value == t.bases[e] + InEpoch(t.log[..i + 1], e)
    {
      assert HasItsNumber(t, i);
    }
  }

  /**
    A failover, and whatever happens then, further failovers included: the new database
    is exactly the one that took over, and its epoch counts from what that one stored, or
    from 0 if it had no row.
   */
  lemma FailoverCountsFromReplacement(p: Policy, db: Database, before: seq<Action>, other: Database, after: seq<Action>)
    requires Replaced(p, db, before, other, after)
    ensures Run(p, Initial(db), before).Some?
    ensures Run(p, Initial(db), before + [ReplaceDatabase(other)]).Some?
    ensures Run(p, Initial(db), before + [ReplaceDatabase(other)]).value.db == other
    ensures CountsFrom(Run(p, Initial(db), before + [ReplaceDatabase(other)] + after).value,
                       |Run(p, Initial(db), before).value.bases|, Base(other))
  {
    hide Step, CountsFrom, Numbered;
    var actions := before + [ReplaceDatabase(other)] + after;
    ReplacementIsTaken(p, db, before, other, after);
    InitialIsNumbered(db);
    InitialInv(p, db);
    RunNumbers(p, Initial(db), actions);
    ReachableInv(p, db, actions);
    RunGrows(p, Run(p, Initial(db), before + [ReplaceDatabase(other)]).value, after);
    EpochCounts(Run(p, Initial(db), actions).value, |Run(p, Initial(db), before).value.bases|);
  }

  lemma InitialIsNumbered(db: Database)
    ensures Numbered(Initial(db))
  {
  }

  lemma {:induction false} NumbersStayBelow(log: seq<Commit>, n: nat, e: int)
    requires n <= |log|
    ensures InEpoch(log[..n], e) <= InEpoch(log, e)
    decreases |log|
  {
    if n == |log| {
      assert log[..n] == log;
    } else {
      assert log[..|log| - 1][..n] == log[..n];
      NumbersStayBelow(log[..|log| - 1], n, e);
    }
  }

  /**
    After the table or the row is lost, counting restarts at 1: the calls that succeed in
    the new epoch have counts from 1 up to the number of its commits.
   */
  lemma LossRestartsAtOne(p: Policy, db: Database, before: seq<Action>, other: Database, after: seq<Action>, c: nat)
    requires Replaced(p, db, before, other, after) && Stored(other).None?
    requires Run(p, Initial(db), before).Some?
    requires var t := Run(p, Initial(db), before + [ReplaceDatabase(other)] + after).value;
             && c < |t.calls| && t.calls[c].Succeeded()
             && Read(t, c).epoch == |Run(p, Initial(db), before).value.bases|
    ensures var t := Run(p, Initial(db), before + [ReplaceDatabase(other)] + after).value;
            1 <= Read(t, c).value <= InEpoch(t.log, Read(t, c).epoch)
  {
    hide Step;
    var t := Run(p, Initial(db), before + [ReplaceDatabase(other)] + after).value;
    FailoverCountsFromReplacement(p, db, before, other, after);
    ReachableInv(p, db, before + [ReplaceDatabase(other)] + after);
    assert Honest(t, c);
    var ticket := t.calls[c].phase.ticket;
    NumbersStayBelow(t.log, ticket + 1, Read(t, c).epoch);
    assert t.log[..ticket + 1][|t.log[..ticket + 1]| - 1] == t.log[ticket];
  }

  // ---------- epochs do overlap ----------

  /** One undisturbed call. */
  function WholeCall(c: nat): seq<Action> { [Begin, Of(c, Send), Of(c, Execute), Of(c, Deliver)] }

  /** One more call, and it has returned the next count. */
  ghost predicate CountedOnce(s: State, t: State) {
    && |s.bases| > 0 && Stored(s.db).Some? && Stored(s.db).value < BIGINT_MAX && t.bases == s.bases
    && |t.calls| == |s.calls| + 1 && t.calls[..|s.calls|] == s.calls
    && |t.log| == |s.log| + 1 && t.log[..|s.log|] == s.log
    && t.log[|s.log|].epoch == |s.bases| - 1
    && t.calls[|s.calls|].phase == Returned(|s.log|, Stored(s.db).value + 1)
  }

  lemma WholeCallCounts(p: Policy, s: State)
    requires |s.bases| > 0 && Stored(s.db).Some? && 0 <= Stored(s.db).value < BIGINT_MAX
    ensures Run(p, s, WholeCall(|s.calls|)).Some? && CountedOnce(s, Run(p, s, WholeCall(|s.calls|)).value)
  {
    var c := |s.calls|;
    RunOneMore(p, s, [], Begin);
    RunOneMore(p, s, [] + [Begin], Of(c, Send));
    RunOneMore(p, s, [] + [Begin] + [Of(c, Send)], Of(c, Execute));
    RunOneMore(p, s, [] + [Begin] + [Of(c, Send)] + [Of(c, Execute)], Of(c, Deliver));
    assert WholeCall(c) == [] + [Begin] + [Of(c, Send)] + [Of(c, Execute)] + [Of(c, Deliver)];
  }

  lemma FailoverTo(p: Policy, db: Database, actions: seq<Action>, other: Database)
    requires Run(p, Initial(db), actions).Some?
    ensures var s := Run(p, Initial(db), actions).value;
            Run(p, Initial(db), actions + [ReplaceDatabase(other)])
              == Some(s.(db := other, bases := s.bases + [Base(other)]))
  {
    RunOneMore(p, Initial(db), actions, ReplaceDatabase(other));
  }

  lemma AfterWholeCall(p: Policy, db: Database, actions: seq<Action>)
    requires Run(p, Initial(db), actions).Some?
    requires var s := Run(p, Initial(db), actions).value;
             Stored(s.db).Some? && 0 <= Stored(s.db).value < BIGINT_MAX
    ensures var s := Run(p, Initial(db), actions).value;
            && Run(p, Initial(db), actions + WholeCall(|s.calls|)).Some?
            && CountedOnce(s, Run(p, Initial(db), actions + WholeCall(|s.calls|)).value)
  {
    hide Step, WholeCall, CountedOnce;
    var s := Run(p, Initial(db), actions).value;
    WholeCallCounts(p, s);
    RunConcat(p, Initial(db), actions, WholeCall(|s.calls|));
  }

  /** Uniqueness is within an epoch only: after a failover to a copy that lacks the last
      commit, the same count is returned again. */
  lemma SameCountInTwoEpochs(p: Policy, db: Database) returns (actions: seq<Action>)
    requires Stored(db).Some? && 0 <= Stored(db).value < BIGINT_MAX
    ensures Run(p, Initial(db), actions).Some?
    ensures var t := Run(p, Initial(db), actions).value;
            && |t.calls| == 2 && t.calls[0].Succeeded() && t.calls[1].Succeeded()
            && Read(t, 0) == Reading(0, Stored(db).value + 1) && Read(t, 1) == Reading(1, Stored(db).value + 1)
  {
    hide Step, Run, WholeCall;
    var first := [] + WholeCall(0);
    StartOfRun(p, db);
    AfterWholeCall(p, db, []);
    FailoverTo(p, db, first, db);
    AfterWholeCall(p, db, first + [ReplaceDatabase(db)]);
    actions := first + [ReplaceDatabase(db)] + WholeCall(1);
    var t := Run(p, Initial(db), actions).value;
    assert t.calls[0] == t.calls[..1][0] && t.log[0] == t.log[..1][0];
  }

  lemma StartOfRun(p: Policy, db: Database)
    ensures Run(p, Initial(db), []) == Some(Initial(db))
  {
  }

  /** An update whose connection broke can still be executed: the call has failed, and yet
      the count goes up, in whatever epoch the server gets round to it. */
  lemma LateUpdateCounts(p: Policy, db: Database, other: Database) returns (actions: seq<Action>)
    requires Stored(other).Some? && Stored(other).value < BIGINT_MAX
    ensures Run(p, Initial(db), actions).Some?
    ensures var t := Run(p, Initial(db), actions).value;
            && |t.calls| == 1 && t.calls[0].phase == Failed(ReplyLost) && t.calls[0].commits == 1
            && Stored(t.db) == Some(Stored(other).value + 1)
            && t.log == [Commit(0, 1, Stored(other).value + 1)]
  {
    var s := Initial(db);
    RunOneMore(p, s, [], Begin);
    RunOneMore(p, s, [] + [Begin], Of(0, Send));
    RunOneMore(p, s, [] + [Begin] + [Of(0, Send)], Of(0, BreakConnection));
    var broken := [] + [Begin] + [Of(0, Send)] + [Of(0, BreakConnection)];
    RunOneMore(p, s, broken, ReplaceDatabase(other));
    RunOneMore(p, s, broken + [ReplaceDatabase(other)], Of(0, ExecuteOrphan));
    actions := broken + [ReplaceDatabase(other)] + [Of(0, ExecuteOrphan)];
  }
}
