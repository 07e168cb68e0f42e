/**
  The code of `PostgresCounterStore` (crates/adapter-counter-store-postgres/src/lib.rs)
  run inside the protocol. `Cluster` is the database together with everybody who uses
  it; each method performs atomic steps and records them, and between any two steps of
  a call the other parties may do whatever the protocol allows.
 */
module PostgresStore {
  import opened Wrappers
  import opened CounterTable
  import opened CounterProtocol
  import opened CounterTheorems
  import opened CounterRecovery
  import opened LoopTrace

  datatype AdapterError = Connect | Initialize

  /** The errors with which an attempt can fail: the network's, or the database's own. */
  predicate CanReport(fault: Fault, error: DbError) {
    match error
    case ConnectFailed => fault.RefusedConnection?
    case ReplyLost => fault.BrokenConnection? || fault.LostReply?
    case _ => fault.NoFault?
  }

  class Cluster {
    var db: Database
    ghost const start: Database
    ghost var schedule: seq<Action>

    /** The recorded steps are a run of the protocol and end in the present database. */
    ghost predicate Valid()
      reads this
    {
      var run := Run(PRODUCTION, Initial(start), schedule);
      run.Some? && run.value.db == db
    }

    ghost function Now(): State
      requires Valid()
      reads this
    {
      Run(PRODUCTION, Initial(start), schedule).value
    }

    constructor (db: Database)
      ensures Valid() && this.db == db && start == db && schedule == []
    {
      this.db := db;
      start := db;
      schedule := [];
    }

    /** Record a step whose effect on the database, if any, has just been made. */
    ghost method Record(a: Action, c: nat)
      requires Run(PRODUCTION, Initial(start), schedule).Some?
      requires Enabled(Run(PRODUCTION, Initial(start), schedule).value, a)
      requires Step(PRODUCTION, Run(PRODUCTION, Initial(start), schedule).value, a).db == db
      modifies this`schedule
      ensures schedule == old(schedule) + [a] && Valid()
      ensures Now() == Step(PRODUCTION, old(Run(PRODUCTION, Initial(start), schedule).value), a)
      ensures Moves(c) == old(Moves(c)) + (if IsOwn(a, c) then [a.move] else [])
    {
      RunOneMore(PRODUCTION, Initial(start), schedule, a);
      OwnMovesOneMore(schedule, a, c);
      schedule := schedule + [a];
    }

    /** The steps that call `c` has taken. */
    ghost function Moves(c: nat): seq<Move>
      reads `schedule
    {
      OwnMoves(schedule, c)
    }

    /** What call `c` itself can see of its record. */
    ghost predicate At(c: nat, phase: Phase, retries: nat, delay: nat)
      requires Valid()
      reads this
    {
      && c < |Now().calls|
      && Now().calls[c].phase == phase && Now().calls[c].retries == retries && Now().calls[c].delay == delay
    }

    /** Interference: any steps of the other calls, of the server and of the environment.
        Callers know only that these are steps of the protocol, not of call `c`. */
    method Others(ghost c: nat)
      requires Valid() && c < |Now().calls|
      modifies this
      ensures Valid() && old(schedule) <= schedule && Moves(c) == old(Moves(c))
      ensures At(c, old(Now().calls[c].phase), old(Now().calls[c].retries), old(Now().calls[c].delay))
    {
    }

    /** `connect`: open a connection and create the row before serving. The batch may be
        executed (`reached`) without being answered. */
    method Open(connected: bool, reached: bool, answered: bool) returns (r: Result<(), AdapterError>)
      requires Valid()
      modifies this
      ensures Valid() && old(schedule) <= schedule
      ensures r.Success? <==> connected && reached && answered
      ensures r == Failure(Connect) <==> !connected
      ensures db == if connected && reached then InitSql(old(db)) else old(db)
      ensures r.Success? ==> Stored(db).Some?
      ensures old(Stored(db)).Some? ==> db == old(db)
    {
      if !connected {
        return Failure(Connect);
      }
      if reached {
        db := InitSql(db);
        Record(Initialise, 0);
      }
      r := if reached && answered then Success(()) else Failure(Initialize);
    }

    /** The server executes the UPDATE. */
    method ExecuteUpdate(ghost c: nat) returns (answer: Reply<BigInt>)
      requires Valid() && c < |Now().calls| && Now().calls[c].phase.Waiting?
      modifies this
      ensures Valid() && schedule == old(schedule) + [Of(c, Execute)] && c < |Now().calls|
      ensures (db, answer) == Update(old(db))
      ensures Moves(c) == old(Moves(c)) + [Execute]
      ensures Now().calls[c].phase.Answered? && Now().calls[c].phase.reply == answer
      ensures Now().calls[c].retries == old(Now().calls[c].retries)
      ensures Now().calls[c].delay == old(Now().calls[c].delay)
    {
      hide Run, Moves;
      answer := Update(db).1;
      db := Update(db).0;
      Record(Of(c, Execute), c);
    }

    /** The answer arrives, or it is lost. */
    method Receive(ghost c: nat, lost: bool, answer: Reply<BigInt>) returns (reply: Reply<BigInt>)
      requires Valid() && c < |Now().calls|
      requires Now().calls[c].phase.Answered? && Now().calls[c].phase.reply == answer
      modifies this
      ensures Valid() && old(schedule) < schedule && c < |Now().calls|
      ensures reply == if lost then Refused(ReplyLost) else answer
      ensures Moves(c) == old(Moves(c)) + [if lost then LoseReply else Deliver]
      ensures match reply
              case Committed(value) =>
                Now().calls[c].phase.Returned? && Now().calls[c].phase.value == value
              case Refused(error) =>
                At(c, Failed(error), old(Now().calls[c].retries), old(Now().calls[c].delay))
    {
      hide Run, Moves;
      if lost {
        Record(Of(c, LoseReply), c);
        return Refused(ReplyLost);
      }
      Record(Of(c, Deliver), c);
      return answer;
    }

    /** `query_one` on an open connection: send the UPDATE, wait for the row. */
    method Query(ghost c: nat, fault: Fault) returns (reply: Reply<BigInt>)
      requires Valid() && c < |Now().calls| && Now().calls[c].phase.Connecting? && !fault.RefusedConnection?
      modifies this
      ensures Valid() && old(schedule) < schedule && c < |Now().calls|
      ensures Moves(c) == old(Moves(c)) + AttemptMoves(fault)
      ensures reply.Refused? ==> CanReport(fault, reply.error)
      ensures reply.Committed? ==> fault.NoFault?
      ensures match reply
              case Committed(value) =>
                Now().calls[c].phase.Returned? && Now().calls[c].phase.value == value
              case Refused(error) =>
                At(c, Failed(error), old(Now().calls[c].retries), old(Now().calls[c].delay))
    {
      hide Run, Moves;
      ghost var before := Moves(c);
      Record(Of(c, Send), c);
      Others(c);
      if fault.BrokenConnection? {
        Record(Of(c, BreakConnection), c);
        Joined(before, Send, BreakConnection);
        return Refused(ReplyLost);
      }
      var answer := ExecuteUpdate(c);
      Joined(before, Send, Execute);
      Others(c);
      reply := Receive(c, fault.LostReply?, answer);
      JoinedLast(before, Send, Execute, if fault.LostReply? then LoseReply else Deliver);
    }

    /** One attempt: connect, then query. */
    method Attempt(ghost c: nat, fault: Fault) returns (reply: Reply<BigInt>)
      requires Valid() && c < |Now().calls| && Now().calls[c].phase.Connecting?
      modifies this
      ensures Valid() && old(schedule) < schedule && c < |Now().calls|
      ensures Moves(c) == old(Moves(c)) + AttemptMoves(fault)
      ensures reply.Refused? ==> CanReport(fault, reply.error)
      ensures reply.Committed? ==> fault.NoFault?
      ensures match reply
              case Committed(value) =>
                Now().calls[c].phase.Returned? && Now().calls[c].phase.value == value
              case Refused(error) =>
                At(c, Failed(error), old(Now().calls[c].retries), old(Now().calls[c].delay))
    {
      hide Run;
      if fault.RefusedConnection? {
        Record(Of(c, ConnectFails), c);
        return Refused(ConnectFailed);
      }
      reply := Query(c, fault);
    }

    /** The best-effort re-run of INIT_SQL between two attempts. */
    method Repair(ghost c: nat, reached: bool)
      requires Valid() && c < |Now().calls| && Now().calls[c].phase.Failed? && Now().calls[c].retries > 0
      modifies this
      ensures Valid() && schedule == old(schedule) + [Of(c, if reached then RunRepair else SkipRepair)]
      ensures Moves(c) == old(Moves(c)) + [if reached then RunRepair else SkipRepair]
      ensures db == if reached then InitSql(old(db)) else old(db)
      ensures At(c, Sleeping, old(Now().calls[c].retries), old(Now().calls[c].delay))
    {
      if reached {
        db := InitSql(db);
        Record(Of(c, RunRepair), c);
      } else {
        Record(Of(c, SkipRepair), c);
      }
    }

    /** `tokio::time::sleep`, and the bookkeeping of the protocol for it. */
    method Sleep(ghost c: nat, millis: nat)
      requires Valid() && c < |Now().calls| && At(c, Sleeping, Now().calls[c].retries, millis)
      requires Now().calls[c].retries > 0
      modifies this
      ensures Valid() && schedule == old(schedule) + [Of(c, Wake)] && db == old(db)
      ensures Moves(c) == old(Moves(c)) + [Wake]
      ensures At(c, Connecting, old(Now().calls[c].retries) - 1, 2 * millis)
      ensures Now().calls[c].slept == old(Now().calls[c].slept) + millis
    {
      Record(Of(c, Wake), c);
    }

    /** Since step `b` nobody has replaced the database, which began at 0 or above and has
        room for the commits of all calls. */
    ghost predicate Steady(b: nat)
      requires Valid() && b <= |schedule|
      reads this
    {
      && NoReplacement(schedule[b..])
      && |Now().bases| > 0 && Now().bases[|Now().bases| - 1] >= 0
      && HasRoom(PRODUCTION, Now(), |Now().calls|)
    }

    /** Between two attempts: the repair, then the sleep. */
    method Retry(ghost c: nat, reached: bool, millis: nat)
      requires Valid() && c < |Now().calls| && Now().calls[c].phase.Failed? && Now().calls[c].retries > 0
      requires Now().calls[c].delay == millis
      modifies this
      ensures Valid() && old(schedule) <= schedule
      ensures At(c, Connecting, old(Now().calls[c].retries) - 1, 2 * millis)
      ensures Moves(c) == old(Moves(c)) + RetryMoves(reached)
    {
      hide Run, Moves;
      ghost var before := Moves(c);
      Repair(c, reached);
      Others(c);
      Sleep(c, millis);
      Joined(before, if reached then RunRepair else SkipRepair, Wake);
    }

    /** The protocol's record of a new call, and of one that gives up. */
    ghost method BeginCall() returns (c: nat)
      requires Valid()
      modifies this`schedule
      ensures Valid() && schedule == old(schedule) + [Begin] && c == old(|Now().calls|)
      ensures At(c, Connecting, 3, 250) && Moves(c) == []
      ensures BeginsAt(PRODUCTION, start, schedule, old(|schedule|), c)
    {
      hide Run, Moves;
      c := |Now().calls|;
      NothingYet(c);
      Record(Begin, c);
      assert schedule[..|schedule| - 1] == old(schedule);
    }

    ghost method EndCall(c: nat, error: DbError)
      requires Valid() && c < |Now().calls| && At(c, Failed(error), 0, Now().calls[c].delay)
      modifies this`schedule
      ensures Valid() && schedule == old(schedule) + [Of(c, GiveUp)]
      ensures c < |Now().calls| && Now().calls[c].phase == GaveUp(error) && Moves(c) == old(Moves(c)) + [GiveUp]
    {
      hide Run, Moves;
      Record(Of(c, GiveUp), c);
    }

    /**
      The retry loop. Whatever the others do, its steps are a run of the protocol in
      which call `c` began with this invocation and is over with exactly this result;
      so every theorem about calls that are over speaks about what this method returns.
      Its own steps are, round by round, what `rounds` prescribes, up to round `last`. On a
      steady database it succeeds if some repair gets through and no fault hits the attempt
      after it, and it blames the network only for the last of its four attempts.
     */
    method NextVisitorCount(rounds: nat -> Round)
      returns (result: Result<nat, StoreError>, ghost c: nat, ghost last: nat)
      requires Valid()
      modifies this
      ensures Valid() && old(schedule) <= schedule
      ensures c == old(|Now().calls|) && c < |Now().calls|
      ensures Now().calls[c].Over() && result == Now().calls[c].Result()
      ensures Moves(c) == LoopMoves(rounds, last, Now().calls[c].phase.GaveUp?)
      ensures last <= 3 && (Now().calls[c].phase.GaveUp? ==> last == 3)
      ensures Attempts(schedule, c) <= 4 && Now().calls[c].slept <= 1750
      ensures Steady(old(|schedule|)) && SomeGoodRound(rounds, 3) ==> result.Success?
      ensures result.Failure? && result.error.Database? ==> CanReport(rounds(3).fault, result.error.error)
      ensures result.Success? ==> forall d :: 0 <= d < |Now().calls| && d != c && Now().calls[d].Succeeded() ==>
                                    Read(Now(), d) != Read(Now(), c)
    {
      hide Attempts, Read, Run, Moves, Steady, SomeGoodRound, FailedRounds, LoopMoves;
      hide AttemptMoves, RetryMoves, CanReport, BeginsAt, Step;
      var retries: nat := 3;
      var delay: nat := 250;
      ghost var b := |schedule|;
      c := BeginCall();
      ghost var begun := schedule;
      NoRoundYet(rounds);
      while true
        invariant Valid() && begun <= schedule
        invariant retries <= 3 && At(c, Connecting, retries, delay)
        invariant Moves(c) == FailedRounds(rounds, 3 - retries)
        decreases retries
      {
        last := 3 - retries;
        Others(c);
        var attempt := Attempt(c, rounds(3 - retries).fault);
        match attempt {
          case Committed(value) =>
            result := if value >= 0 then Success(value) else Failure(NegativeCount(value));
            LastRound(rounds, last);
            OverInTime(c);
            OverInTrace(b, c, rounds, last, begun);
            return;
          case Refused(error) =>
            Others(c);
            if retries > 0 {
              Retry(c, rounds(3 - retries).repaired, delay);
              OneRoundMore(rounds, last);
              retries := retries - 1;
              delay := delay * 2;
            } else {
              EndCall(c, error);
              result := Failure(Database(error));
              LastRound(rounds, last);
              OverInTime(c);
              OverInTrace(b, c, rounds, last, begun);
              return;
            }
        }
      }
    }

    lemma NothingYet(c: nat)
      requires Valid() && c >= |Now().calls|
      ensures Moves(c) == []
    {
      NoMovesYet(PRODUCTION, start, schedule, c);
    }

    lemma OverInTrace(b: nat, c: nat, rounds: nat -> Round, last: nat, begun: seq<Action>)
      requires Valid() && c < |Now().calls| && Now().calls[c].Over()
      requires begun <= schedule && b < |begun| && BeginsAt(PRODUCTION, start, begun, b, c)
      requires Moves(c) == LoopMoves(rounds, last, Now().calls[c].phase.GaveUp?)
      requires Now().calls[c].phase.GaveUp? ==> last == 3
      ensures Steady(b) && SomeGoodRound(rounds, 3) ==> Now().calls[c].Succeeded()
    {
      hide HasRoom, Run, OwnMoves, LoopMoves, SomeGoodRound, NoReplacement, BeginsAt;
      BeganEarlier(PRODUCTION, start, begun, schedule, b, c);
      if Steady(b) && SomeGoodRound(rounds, 3) {
        GoodRoundSucceeds(PRODUCTION, start, schedule, b, c, rounds, last);
      }
    }

    lemma OverInTime(c: nat)
      requires Valid() && c < |Now().calls| && Now().calls[c].Over()
      ensures Attempts(schedule, c) <= 4 && Now().calls[c].slept <= 1750
      ensures Now().calls[c].Succeeded() ==>
                forall d :: 0 <= d < |Now().calls| && d != c && Now().calls[d].Succeeded() ==>
                  Read(Now(), d) != Read(Now(), c)
    {
      ProductionLimits(start, schedule, c);
      if Now().calls[c].Succeeded() {
        forall d | 0 <= d < |Now().calls| && d != c && Now().calls[d].Succeeded()
          ensures Read(Now(), d) != Read(Now(), c)
        {
          CountsAreUnique(PRODUCTION, start, schedule, c, d);
        }
      }
    }
  }
}
