/** One call of `next_visitor_count` that nothing disturbs, as a single step. */
module SoloCall {
  import opened Wrappers
  import opened CounterTable
  import opened CounterProtocol
  import opened CounterInvariant
  import opened CounterTheorems

  /** What a row that arrives makes the call return. */
  function ResultOfRow(value: BigInt): Result<nat, StoreError> {
    if value >= 0 then Success(value) else Failure(NegativeCount(value))
  }

  /** The database and the result after an undisturbed call with at least one retry. */
  function NextCount(db: CounterTable.Database): (CounterTable.Database, Result<nat, StoreError>) {
    match Update(db)
    case (after, Committed(value)) => (after, ResultOfRow(value))
    case (_, Refused(error)) =>
      if error.OutOfRange? then (db, Failure(Database(error))) else (Update(InitSql(db)).0, Success(1))
  }

  /** Every action is a step of call `c`, and none of them is a fault. */
  ghost predicate LeftAlone(actions: seq<Action>, c: nat) {
    forall i :: 0 <= i < |actions| ==>
      actions[i].Of? && actions[i].call == c
      && actions[i].move in {Send, Execute, Deliver, RunRepair, Wake, GiveUp}
  }

  /** The call has still to do what a call that begins at `start` does. */
  predicate AllToDo(db: CounterTable.Database, start: CounterTable.Database, retries: nat) {
    NextCount(db) == NextCount(start) && (Stored(db).None? ==> retries > 0)
  }

  /** Where an undisturbed call is that found the database as `start`. */
  ghost predicate OnCourse(p: Policy, call: Call, db: CounterTable.Database, start: CounterTable.Database) {
    && Accounted(p, call)
    && match call.phase
       case Connecting | Waiting => AllToDo(db, start, call.retries)
       case Answered(_, Committed(value)) => NextCount(start) == (db, ResultOfRow(value))
       case Answered(_, Refused(error)) => AllToDo(db, start, call.retries) && Update(db) == (db, Refused(error))
       case Failed(error) => AllToDo(db, start, call.retries) && Update(db) == (db, Refused(error))
       case Sleeping => AllToDo(db, start, call.retries) && Stored(db).Some?
       case Returned(_, value) => NextCount(start) == (db, ResultOfRow(value))
       case GaveUp(error) => NextCount(start) == (db, Failure(Database(error)))
  }

  lemma RepairThenUpdate(db: CounterTable.Database)
    requires Update(db).1.Refused?
    ensures NextCount(InitSql(db)) == NextCount(db)
    ensures Stored(InitSql(db)).Some?
  {
  }

  /** An undisturbed step keeps the call on course. */
  lemma SoloStep(p: Policy, s: State, c: nat, m: Move, start: CounterTable.Database)
    requires |s.bases| > 0 && |s.calls| == c + 1 && CanMove(s.calls[c], m)
    requires LeftAlone([Of(c, m)], c) && OnCourse(p, s.calls[c], s.db, start)
    ensures var t := Step(p, s, Of(c, m));
            |t.calls| == c + 1 && OnCourse(p, t.calls[c], t.db, start)
  {
    assert [Of(c, m)][0].move == m;
    var reply := if Updates(m) then Update(s.db).1 else Refused(ReplyLost);
    MoveKeepsAccount(p, s.calls[c], m, |s.log|, reply);
    assert Step(p, s, Of(c, m)).calls[c] == Moved(s.calls[c], m, |s.log|, reply);
    if m == RunRepair { RepairThenUpdate(s.db); }
  }

  lemma {:induction false} SoloRun(p: Policy, s: State, more: seq<Action>)
    requires p.retries >= 1 && |s.bases| > 0 && LeftAlone(more, |s.calls|)
    requires Run(p, s, [Begin] + more).Some?
    ensures var t := Run(p, s, [Begin] + more).value;
            |t.calls| == |s.calls| + 1 && OnCourse(p, t.calls[|s.calls|], t.db, s.db)
    decreases |more|
  {
    if more == [] {
      assert ([Begin] + more)[..0] == [];
    } else {
      var last := |more| - 1;
      assert ([Begin] + more)[..|more|] == [Begin] + more[..last];
      SoloRun(p, s, more[..last]);
      SoloStep(p, Run(p, s, [Begin] + more[..last]).value, |s.calls|, more[last].move, s.db);
    }
  }

  /** A call on course that is not over has a next step of its own, and that step counts. */
  lemma NextStep(p: Policy, s: State, c: nat, start: CounterTable.Database) returns (m: Move)
    requires |s.bases| > 0 && |s.calls| == c + 1 && OnCourse(p, s.calls[c], s.db, start) && !s.calls[c].Over()
    ensures CanMove(s.calls[c], m) && LeftAlone([Of(c, m)], c)
    ensures StepsLeft(Step(p, s, Of(c, m)).calls[c]) < StepsLeft(s.calls[c])
  {
    m := NextMove(s.calls[c]);
    var reply := if Updates(m) then Update(s.db).1 else Refused(ReplyLost);
    MoveIsCounted(p, s.calls[c], m, |s.log|, reply);
    assert Step(p, s, Of(c, m)).calls[c] == Moved(s.calls[c], m, |s.log|, reply);
  }

  /** A call that begins now and is left alone can always go on, until it is over. */
  lemma {:induction false} SoloCallEnds(p: Policy, s: State, more: seq<Action>) returns (longer: seq<Action>)
    requires p.retries >= 1 && |s.bases| > 0 && LeftAlone(more, |s.calls|)
    requires Run(p, s, [Begin] + more).Some?
    ensures more <= longer && LeftAlone(longer, |s.calls|) && Run(p, s, [Begin] + longer).Some?
    ensures var t := Run(p, s, [Begin] + longer).value;
            |t.calls| == |s.calls| + 1 && t.calls[|s.calls|].Over()
    decreases var t := Run(p, s, [Begin] + more);
              if t.Some? && |t.value.calls| > |s.calls| then StepsLeft(t.value.calls[|s.calls|]) else 0
  {
    hide OnCourse, Step, CanMove, StepsLeft;
    var t, c := Run(p, s, [Begin] + more).value, |s.calls|;
    SoloRun(p, s, more);
    if t.calls[c].Over() {
      longer := more;
    } else {
      var m := NextStep(p, t, c, s.db);
      RunOneMore(p, s, [Begin] + more, Of(c, m));
      assert [Begin] + more + [Of(c, m)] == [Begin] + (more + [Of(c, m)]);
      assert forall i :: 0 <= i < |more| ==> (more + [Of(c, m)])[i] == more[i];
      assert [Of(c, m)][0] == Of(c, m);
      longer := SoloCallEnds(p, s, more + [Of(c, m)]);
    }
  }

  /**
    Whatever the state, the other calls in it included: a call that begins now and is
    left alone comes to an end, and in whatever way its steps are taken, when it is over
    the database and its result are those of `NextCount`.
   */
  lemma SoloCallIsNextCount(p: Policy, s: State, more: seq<Action>) returns (whole: seq<Action>)
    requires p.retries >= 1 && |s.bases| > 0 && LeftAlone(more, |s.calls|)
    requires Run(p, s, [Begin] + more).Some?
    ensures var t := Run(p, s, [Begin] + more).value;
            && |t.calls| == |s.calls| + 1
            && (t.calls[|s.calls|].Over() ==>
                  t.db == NextCount(s.db).0 && t.calls[|s.calls|].Result() == NextCount(s.db).1)
    ensures more <= whole && LeftAlone(whole, |s.calls|) && Run(p, s, [Begin] + whole).Some?
    ensures var t := Run(p, s, [Begin] + whole).value;
            |t.calls| == |s.calls| + 1 && t.calls[|s.calls|].Over()
  {
    SoloRun(p, s, more);
    whole := SoloCallEnds(p, s, more);
  }
}
