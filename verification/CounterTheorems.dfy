/** What the counter promises over whole runs, faults included. */
module CounterTheorems {
  import opened Wrappers
  import opened CounterTable
  import opened CounterProtocol
  import opened CounterInvariant

  /** A count together with the epoch it was counted in. */
  datatype Reading = Reading(epoch: int, value: int)

  predicate Precedes(a: Reading, b: Reading) {
    a.epoch < b.epoch || (a.epoch == b.epoch && a.value < b.value)
  }

  /** What call `c` returned, if it returned a count. */
  function Read(s: State, c: nat): Reading
    requires c < |s.calls| && s.calls[c].Succeeded()
  {
    var ticket := s.calls[c].phase.ticket;
    Reading(if ticket < |s.log| then s.log[ticket].epoch else 0, s.calls[c].phase.value)
  }

  lemma ReachableInv(p: Policy, db: Database, actions: seq<Action>)
    requires Run(p, Initial(db), actions).Some?
    ensures Inv(p, Run(p, Initial(db), actions).value)
  {
    InitialInv(p, db);
    RunKeepsInv(p, Initial(db), actions);
  }

  // ---------- uniqueness and range ----------

  /** No two calls return the same count in one epoch. */
  lemma CountsAreUnique(p: Policy, db: Database, actions: seq<Action>, c: nat, d: nat)
    requires Run(p, Initial(db), actions).Some?
    requires var s := Run(p, Initial(db), actions).value;
             c < |s.calls| && d < |s.calls| && c != d && s.calls[c].Succeeded() && s.calls[d].Succeeded()
    ensures var s := Run(p, Initial(db), actions).value;
            Precedes(Read(s, c), Read(s, d)) || Precedes(Read(s, d), Read(s, c))
  {
    ReachableInv(p, db, actions);
    var s := Run(p, Initial(db), actions).value;
    assert Honest(s, c) && Honest(s, d);
  }

  /** A returned count is above what its epoch started from and, while the epoch
      lasts, at most the stored value. */
  lemma CountsAreInRange(p: Policy, db: Database, actions: seq<Action>, c: nat)
    requires Run(p, Initial(db), actions).Some?
    requires var s := Run(p, Initial(db), actions).value; c < |s.calls| && s.calls[c].Succeeded()
    ensures var s := Run(p, Initial(db), actions).value;
            var r := Read(s, c);
            && 0 <= r.epoch < |s.bases|
            && s.bases[r.epoch] < r.value
            && (r.epoch == |s.bases| - 1 ==> Stored(s.db).Some? && r.value <= Stored(s.db).value)
  {
    ReachableInv(p, db, actions);
    var s := Run(p, Initial(db), actions).value;
    assert Honest(s, c);
  }

  // ---------- real-time order and the abstract counter ----------

  /** Commits, calls and their outcomes are never taken back. */
  lemma {:induction false} RunGrows(p: Policy, s: State, actions: seq<Action>)
    requires |s.bases| > 0 && Run(p, s, actions).Some?
    ensures var t := Run(p, s, actions).value;
            && s.log <= t.log && s.bases <= t.bases && |s.calls| <= |t.calls|
            && (forall c :: 0 <= c < |s.calls| && s.calls[c].Over() ==> t.calls[c].phase == s.calls[c].phase)
    decreases |actions|
  {
    if actions != [] {
      RunGrows(p, s, actions[..|actions| - 1]);
    }
  }

  /** If one call had returned before another began, it returned the earlier count. */
  lemma RealTimeOrder(p: Policy, db: Database, before: seq<Action>, after: seq<Action>, c: nat, d: nat)
    requires Run(p, Initial(db), before).Some?
    requires Run(p, Run(p, Initial(db), before).value, after).Some?
    requires var s := Run(p, Initial(db), before).value;
             var t := Run(p, s, after).value;
             && c < |s.calls| && s.calls[c].Succeeded()
             && |s.calls| <= d < |t.calls| && t.calls[d].Succeeded()
    ensures var s := Run(p, Initial(db), before).value;
            var t := Run(p, s, after).value;
            && t.calls[c].Succeeded() && Read(t, c) == Read(s, c)
            && t.calls[c].phase.ticket < t.calls[d].phase.ticket
            && Precedes(Read(t, c), Read(t, d))
  {
    var s := Run(p, Initial(db), before).value;
    var t := Run(p, s, after).value;
    ReachableInv(p, db, before);
    RunKeepsInv(p, s, after);
    RunGrows(p, s, after);
    assert Honest(s, c) && Honest(t, d);
    assert forall i :: 0 <= i < |s.log| ==> t.log[i].call < |s.calls|;
  }

  /** The counter as a client may picture it: an atomic object that hands out
      readings one after the other, skipping some, repeating none, never going back. */
  predicate SkippingCounter(last: Reading, served: seq<Reading>)
    decreases |served|
  {
    served == [] || (Precedes(last, served[0]) && SkippingCounter(served[0], served[1..]))
  }

  predicate Delivered(s: State, ticket: nat)
    requires ticket < |s.log|
  {
    var c := s.log[ticket].call;
    c < |s.calls| && s.calls[c].Succeeded() && s.calls[c].phase.ticket == ticket
  }

  /** The successful calls in the order of their commits, up to ticket `n`. */
  function ServedOrder(s: State, n: nat): seq<nat>
    requires n <= |s.log|
  {
    if n == 0 then []
    else ServedOrder(s, n - 1) + (if Delivered(s, n - 1) then [s.log[n - 1].call] else [])
  }

  function Readings(s: State, order: seq<nat>): seq<Reading>
    requires forall k :: 0 <= k < |order| ==> order[k] < |s.calls| && s.calls[order[k]].Succeeded()
  {
    seq(|order|, k requires 0 <= k < |order| => Read(s, order[k]))
  }

  /** Successful calls by increasing ticket. */
  ghost predicate Sorted(s: State, n: nat, order: seq<nat>) {
    && (forall k :: 0 <= k < |order| ==>
          order[k] < |s.calls| && s.calls[order[k]].Succeeded() && s.calls[order[k]].phase.ticket < n)
    && (forall j, k :: 0 <= j < k < |order| ==>
          s.calls[order[j]].phase.ticket < s.calls[order[k]].phase.ticket)
  }

  /** Exactly the successful calls, by increasing ticket. */
  ghost predicate OrderOf(s: State, n: nat, order: seq<nat>) {
    && Sorted(s, n, order)
    && (forall c :: 0 <= c < |s.calls| && s.calls[c].Succeeded() && s.calls[c].phase.ticket < n ==> c in order)
  }

  lemma {:induction false} ServedOrderIsOrder(p: Policy, s: State, n: nat)
    requires Inv(p, s) && n <= |s.log|
    ensures OrderOf(s, n, ServedOrder(s, n))
  {
    if n > 0 {
      ServedOrderIsOrder(p, s, n - 1);
      if Delivered(s, n - 1) {
        OneMoreServed(s, n, ServedOrder(s, n - 1), s.log[n - 1].call);
      }
      NoneMissed(p, s, n);
    }
  }

  /** A call with the next ticket may be put behind the order. */
  lemma OneMoreServed(s: State, n: nat, order: seq<nat>, c: nat)
    requires n > 0 && Sorted(s, n - 1, order)
    requires c < |s.calls| && s.calls[c].Succeeded() && s.calls[c].phase.ticket == n - 1
    ensures Sorted(s, n, order + [c])
  {
  }

  /** Every successful call with a ticket below `n` is in the order. */
  lemma NoneMissed(p: Policy, s: State, n: nat)
    requires Inv(p, s) && 0 < n <= |s.log| && OrderOf(s, n - 1, ServedOrder(s, n - 1))
    ensures forall c :: 0 <= c < |s.calls| && s.calls[c].Succeeded() && s.calls[c].phase.ticket < n ==>
              c in ServedOrder(s, n)
  {
    var shorter, order := ServedOrder(s, n - 1), ServedOrder(s, n);
    assert shorter <= order;
    forall c | 0 <= c < |s.calls| && s.calls[c].Succeeded() && s.calls[c].phase.ticket < n ensures c in order {
      assert Honest(s, c);
      if s.calls[c].phase.ticket < n - 1 {
        assert c in shorter;
      } else {
        assert Delivered(s, n - 1) && order[|order| - 1] == c;
      }
    }
  }

  lemma {:induction false} SortedIsSkipping(last: Reading, served: seq<Reading>)
    requires forall k :: 0 <= k < |served| ==> Precedes(last, served[k])
    requires forall j, k :: 0 <= j < k < |served| ==> Precedes(served[j], served[k])
    ensures SkippingCounter(last, served)
    decreases |served|
  {
    if served != [] { SortedIsSkipping(served[0], served[1..]); }
  }

  /** `order` lists every successful call once, as a counter starting at `start` serves them. */
  ghost predicate ServedBySkippingCounter(start: Reading, s: State, order: seq<nat>) {
    && (forall k :: 0 <= k < |order| ==> order[k] < |s.calls| && s.calls[order[k]].Succeeded())
    && (forall c :: 0 <= c < |s.calls| && s.calls[c].Succeeded() ==> c in order)
    && (forall j, k :: 0 <= j < k < |order| ==> order[j] != order[k])
    && SkippingCounter(start, Readings(s, order))
  }

  lemma ServedInOrder(p: Policy, s: State, order: seq<nat>)
    requires Inv(p, s) && OrderOf(s, |s.log|, order)
    ensures ServedBySkippingCounter(Reading(0, s.bases[0]), s, order)
  {
    var served := Readings(s, order);
    forall k | 0 <= k < |served| ensures Precedes(Reading(0, s.bases[0]), served[k]) {
      assert Honest(s, order[k]);
    }
    forall j, k | 0 <= j < k < |served| ensures Precedes(served[j], served[k]) {
      assert Honest(s, order[j]) && Honest(s, order[k]);
    }
    SortedIsSkipping(Reading(0, s.bases[0]), served);
    forall c | 0 <= c < |s.calls| && s.calls[c].Succeeded() ensures c in order {
      assert Honest(s, c);
    }
  }

  /** Call `c` had returned before call `d` began, in a schedule cut in two. */
  ghost predicate ReturnedBefore(s: State, c: nat, d: nat) {
    c < |s.calls| && s.calls[c].Over() && d >= |s.calls|
  }

  lemma OrderKeepsRealTime(p: Policy, db: Database, before: seq<Action>, after: seq<Action>,
                           order: seq<nat>, j: nat, k: nat)
    requires Run(p, Initial(db), before).Some?
    requires Run(p, Run(p, Initial(db), before).value, after).Some?
    requires var s := Run(p, Initial(db), before).value;
             var t := Run(p, s, after).value;
             && OrderOf(t, |t.log|, order)
             && j < |order| && k < |order| && ReturnedBefore(s, order[j], order[k])
    ensures j < k
  {
    hide Step;
    var s := Run(p, Initial(db), before).value;
    var t := Run(p, s, after).value;
    RunGrows(p, s, after);
    assert t.calls[order[j]].phase == s.calls[order[j]].phase;
    RealTimeOrder(p, db, before, after, order[j], order[k]);
  }

  /** `order` never puts a call before one that had already returned when it began. */
  ghost predicate KeepsRealTime(p: Policy, db: Database, actions: seq<Action>, order: seq<nat>)
    requires forall n :: 0 <= n <= |actions| ==> Run(p, Initial(db), actions[..n]).Some?
  {
    forall n, j, k :: 0 <= n <= |actions| && 0 <= j < |order| && 0 <= k < |order| ==>
      ReturnedBefore(Run(p, Initial(db), actions[..n]).value, order[j], order[k]) ==> j < k
  }

  lemma PrefixesRun(p: Policy, db: Database, actions: seq<Action>)
    requires Run(p, Initial(db), actions).Some?
    ensures forall n :: 0 <= n <= |actions| ==> Run(p, Initial(db), actions[..n]).Some?
  {
    forall n | 0 <= n <= |actions| ensures Run(p, Initial(db), actions[..n]).Some? {
      RunPrefix(p, Initial(db), actions, n);
    }
  }

  /**
    Every run refines the skipping counter: its successful calls can be put in one
    order, each exactly once, that the counter serves from the initial count and that
    is right for every moment of the run: it never puts a call before one that had
    already returned when it began.
   */
  lemma RefinesSkippingCounter(p: Policy, db: Database, actions: seq<Action>) returns (order: seq<nat>)
    requires Run(p, Initial(db), actions).Some?
    ensures forall n :: 0 <= n <= |actions| ==> Run(p, Initial(db), actions[..n]).Some?
    ensures ServedBySkippingCounter(Reading(0, Base(db)), Run(p, Initial(db), actions).value, order)
    ensures KeepsRealTime(p, db, actions, order)
  {
    var t := Run(p, Initial(db), actions).value;
    ReachableInv(p, db, actions);
    RunGrows(p, Initial(db), actions);
    PrefixesRun(p, db, actions);
    order := ServedOrder(t, |t.log|);
    ServedOrderIsOrder(p, t, |t.log|);
    ServedInOrder(p, t, order);
    assert t.bases[0] == Base(db);
    forall n, j, k | 0 <= n <= |actions| && 0 <= j < |order| && 0 <= k < |order|
      && ReturnedBefore(Run(p, Initial(db), actions[..n]).value, order[j], order[k])
      ensures j < k
    {
      RunPrefix(p, Initial(db), actions, n);
      OrderKeepsRealTime(p, db, actions[..n], actions[n..], order, j, k);
    }
  }

  // ---------- conservation ----------

  function Successes(calls: seq<Call>): nat {
    if calls == [] then 0
    else Successes(calls[..|calls| - 1]) + (if calls[|calls| - 1].Succeeded() then 1 else 0)
  }

  lemma CallBudget(p: Policy, call: Call)
    requires Accounted(p, call)
    ensures (if call.Succeeded() then 1 else 0) <= call.commits <= p.retries + 1
    ensures AttemptsMade(call) <= p.retries + 1
  {
  }

  lemma OneMore(n: nat, k: nat)
    ensures (n + 1) * k == n * k + k
  {
  }

  /** Any gap in the counts is due to replies that were lost, and is bounded per call:
      a successful call wastes at most one commit per retry, any other call one more. */
  lemma {:induction false} CommitsPerCall(p: Policy, calls: seq<Call>)
    requires forall c :: 0 <= c < |calls| ==> Accounted(p, calls[c])
    ensures Successes(calls) <= SumCommits(calls) <= |calls| * (p.retries + 1)
  {
    if calls != [] {
      var last := |calls| - 1;
      CommitsPerCall(p, calls[..last]);
      CallBudget(p, calls[last]);
      OneMore(last, p.retries + 1);
    }
  }

  /** The commits that the log has of call `c`. */
  function CommitsBy(log: seq<Commit>, c: nat): nat {
    if log == [] then 0
    else CommitsBy(log[..|log| - 1], c) + (if log[|log| - 1].call == c then 1 else 0)
  }

  lemma CommitsByOneMore(log: seq<Commit>, commit: Commit, c: nat)
    ensures CommitsBy(log + [commit], c) == CommitsBy(log, c) + (if commit.call == c then 1 else 0)
  {
    assert (log + [commit])[..|log|] == log;
  }

  /** The log has as many commits of a call as the call itself. */
  predicate IsLogged(s: State, c: nat) {
    CommitsBy(s.log, c) == if c < |s.calls| then s.calls[c].commits else 0
  }

  lemma MoveCommits(call: Call, m: Move, t: nat, reply: Reply<BigInt>)
    requires CanMove(call, m) && (reply.Committed? ==> Updates(m))
    ensures Moved(call, m, t, reply).commits == call.commits + (if reply.Committed? then 1 else 0)
  {
  }

  lemma StepIsLogged(p: Policy, s: State, a: Action, c: nat)
    requires |s.bases| > 0 && Enabled(s, a) && IsLogged(s, c)
    ensures IsLogged(Step(p, s, a), c)
  {
    hide Moved, CommitsBy, CanMove, Update, InitSql;
    match a
    case Of(d, m) =>
      var reply := if Updates(m) then Update(s.db).1 else Refused(ReplyLost);
      MoveCommits(s.calls[d], m, |s.log|, reply);
      assert Step(p, s, a).calls == s.calls[d := Moved(s.calls[d], m, |s.log|, reply)];
      if reply.Committed? { CommitsByOneMore(s.log, Commit(d, |s.bases| - 1, reply.value), c); }
    case _ =>
  }

  lemma {:induction false} CommitsAreLogged(p: Policy, db: Database, actions: seq<Action>, c: nat)
    requires Run(p, Initial(db), actions).Some?
    ensures IsLogged(Run(p, Initial(db), actions).value, c)
    decreases |actions|
  {
    if actions != [] {
      hide Step, IsLogged;
      var last := |actions| - 1;
      CommitsAreLogged(p, db, actions[..last], c);
      StepIsLogged(p, Run(p, Initial(db), actions[..last]).value, actions[last], c);
    }
  }

  /** In every run each call commits at most `retries + 1` updates, late ones included,
      and a successful call has a commit of its own that carries its count. */
  lemma CommitsOfOneCall(p: Policy, db: Database, actions: seq<Action>, c: nat)
    requires Run(p, Initial(db), actions).Some?
    requires c < |Run(p, Initial(db), actions).value.calls|
    ensures var s := Run(p, Initial(db), actions).value;
            && CommitsBy(s.log, c) <= p.retries + 1
            && (s.calls[c].Succeeded() ==>
                  CommitsBy(s.log, c) >= 1
                  && exists i :: 0 <= i < |s.log| && s.log[i].call == c && s.log[i].value == s.calls[c].phase.value)
  {
    var s := Run(p, Initial(db), actions).value;
    ReachableInv(p, db, actions);
    CommitsAreLogged(p, db, actions, c);
    CallBudget(p, s.calls[c]);
    assert Honest(s, c);
  }

  lemma GapOfState(p: Policy, s: State)
    requires Inv(p, s) && |s.bases| == 1 && Stored(s.db).Some?
    requires forall i :: 0 <= i < |s.log| ==> s.log[i].epoch == 0
    ensures var successes := Successes(s.calls);
            var surplus := Stored(s.db).value - s.bases[0] - successes;
            0 <= surplus <= p.retries * successes + (p.retries + 1) * (|s.calls| - successes)
  {
    CommitsPerCall(p, s.calls);
    AllInOneEpoch(s.log);
    Surplus(p.retries, |s.calls|, Successes(s.calls), SumCommits(s.calls));
  }

  /**
    Conservation with a bounded gap. As long as the database is not replaced, the
    stored count is the starting count plus every success plus a surplus of commits
    whose replies were lost, at most `retries` for a success and `retries + 1` for any
    other call.
   */
  lemma GapIsBounded(p: Policy, db: Database, actions: seq<Action>)
    requires Run(p, Initial(db), actions).Some?
    requires forall i :: 0 <= i < |actions| ==> !actions[i].ReplaceDatabase?
    requires Stored(Run(p, Initial(db), actions).value.db).Some?
    ensures var s := Run(p, Initial(db), actions).value;
            var successes := Successes(s.calls);
            var surplus := Stored(s.db).value - Base(db) - successes;
            0 <= surplus <= p.retries * successes + (p.retries + 1) * (|s.calls| - successes)
  {
    ReachableInv(p, db, actions);
    OneEpoch(p, db, actions);
    GapOfState(p, Run(p, Initial(db), actions).value);
  }

  lemma Surplus(retries: nat, calls: nat, successes: nat, commits: nat)
    requires successes <= commits <= calls * (retries + 1)
    ensures 0 <= commits - successes <= retries * successes + (retries + 1) * (calls - successes)
  {
  }

  /** In general: what the current epoch has counted is what was committed in it. */
  lemma StoredIsBasePlusCommits(p: Policy, db: Database, actions: seq<Action>)
    requires Run(p, Initial(db), actions).Some?
    requires Stored(Run(p, Initial(db), actions).value.db).Some?
    ensures var s := Run(p, Initial(db), actions).value;
            && Stored(s.db).value == s.bases[|s.bases| - 1] + InEpoch(s.log, |s.bases| - 1)
            && |s.log| <= |s.calls| * (p.retries + 1)
  {
    ReachableInv(p, db, actions);
    CommitsPerCall(p, Run(p, Initial(db), actions).value.calls);
  }

  lemma {:induction false} OneEpoch(p: Policy, db: Database, actions: seq<Action>)
    requires Run(p, Initial(db), actions).Some?
    requires forall i :: 0 <= i < |actions| ==> !actions[i].ReplaceDatabase?
    ensures Run(p, Initial(db), actions).value.bases == [Base(db)]
    ensures forall i :: 0 <= i < |Run(p, Initial(db), actions).value.log| ==>
              Run(p, Initial(db), actions).value.log[i].epoch == 0
    decreases |actions|
  {
    if actions != [] { OneEpoch(p, db, actions[..|actions| - 1]); }
  }

  lemma {:induction false} AllInOneEpoch(log: seq<Commit>)
    requires forall i :: 0 <= i < |log| ==> log[i].epoch == 0
    ensures InEpoch(log, 0) == |log|
  {
    if log != [] { AllInOneEpoch(log[..|log| - 1]); }
  }

  // ---------- the retry loop ----------

  /** The attempts that call `c` has started in a schedule. */
  function Attempts(actions: seq<Action>, c: nat): nat {
    if actions == [] then 0
    else Attempts(actions[..|actions| - 1], c)
         + (if actions[|actions| - 1] in {Of(c, ConnectFails), Of(c, Send)} then 1 else 0)
  }

  /** All steps of call `c`; an orphaned update is a step of the server alone. */
  function OwnSteps(actions: seq<Action>, c: nat): nat {
    if actions == [] then 0
    else OwnSteps(actions[..|actions| - 1], c)
         + (var a := actions[|actions| - 1];
            if a.Of? && a.call == c && !a.move.ExecuteOrphan? then 1 else 0)
  }

  function StepsLeft(call: Call): nat {
    match call.phase
    case Connecting => 5 * call.retries + 4
    case Waiting => 5 * call.retries + 3
    case Answered(_, _) => 5 * call.retries + 2
    case Failed(_) => 5 * call.retries + 1
    case Sleeping => 5 * call.retries
    case _ => 0
  }

  function AttemptsMade(call: Call): nat {
    |call.errors| + (if AttemptExecuted(call) || call.phase.Waiting? then 1 else 0)
  }

  lemma MoveIsCounted(p: Policy, call: Call, m: Move, t: nat, reply: Reply<BigInt>)
    requires Accounted(p, call) && CanMove(call, m)
    ensures var moved := Moved(call, m, t, reply);
            && StepsLeft(moved) + (if m.ExecuteOrphan? then 0 else 1) <= StepsLeft(call)
            && AttemptsMade(moved) == AttemptsMade(call) + (if m.ConnectFails? || m.Send? then 1 else 0)
  {
  }

  lemma {:induction false} StepsAreCounted(p: Policy, s: State, actions: seq<Action>, c: nat)
    requires Inv(p, s) && |s.calls| <= c && Run(p, s, actions).Some?
    ensures var t := Run(p, s, actions).value;
            if c < |t.calls|
            then OwnSteps(actions, c) + StepsLeft(t.calls[c]) <= 5 * p.retries + 4
                 && Attempts(actions, c) == AttemptsMade(t.calls[c])
            else OwnSteps(actions, c) == Attempts(actions, c) == 0
    decreases |actions|
  {
    if actions != [] {
      var last := |actions| - 1;
      StepsAreCounted(p, s, actions[..last], c);
      RunKeepsInv(p, s, actions[..last]);
      var before := Run(p, s, actions[..last]).value;
      match actions[last]
      case Of(d, m) =>
        if c == d {
          var after := Step(p, before, actions[last]);
          var reply := if Updates(m) then Update(before.db).1 else Refused(ReplyLost);
          assert after.calls[c] == Moved(before.calls[c], m, |before.log|, reply);
          MoveIsCounted(p, before.calls[c], m, |before.log|, reply);
        }
      case _ =>
    }
  }

  /**
    Under every schedule a call is over after at most `retries + 1` attempts and
    `5 * retries + 4` steps of its own; until then it always has a next step.
   */
  lemma CallsTerminate(p: Policy, db: Database, actions: seq<Action>, c: nat) returns (next: Move)
    requires Run(p, Initial(db), actions).Some?
    requires c < |Run(p, Initial(db), actions).value.calls|
    ensures var call := Run(p, Initial(db), actions).value.calls[c];
            && Attempts(actions, c) <= p.retries + 1
            && OwnSteps(actions, c) <= 5 * p.retries + 4
            && (call.Over() || (CanMove(call, next) && !next.ExecuteOrphan?))
  {
    InitialInv(p, db);
    StepsAreCounted(p, Initial(db), actions, c);
    ReachableInv(p, db, actions);
    var call := Run(p, Initial(db), actions).value.calls[c];
    CallBudget(p, call);
    next := NextMove(call);
  }

  /** What a call that is not over does next, if nothing goes wrong. */
  function NextMove(call: Call): (m: Move)
    ensures call.Over() || (call.phase.Sleeping? && call.retries == 0) || CanMove(call, m)
    ensures !m.ExecuteOrphan?
  {
    match call.phase
    case Connecting => Send
    case Waiting => Execute
    case Answered(_, _) => Deliver
    case Failed(_) => if call.retries > 0 then RunRepair else GiveUp
    case _ => Wake
  }

  function LeastOf(a: nat, b: nat): nat { if a <= b then a else b }

  function Pow2(n: nat): (p: nat)
    ensures p >= 1
  {
    if n == 0 then 1 else 2 * Pow2(n - 1)
  }

  /** The sleep in closed form. */
  lemma {:induction false} SleepIsGeometric(delay: nat, k: nat)
    ensures Backoff(delay, k) == delay * Pow2(k)
    ensures SleptAfter(delay, k) == delay * (Pow2(k) - 1)
  {
    if k > 0 {
      SleepIsGeometric(delay, k - 1);
      Double(delay, Pow2(k - 1));
    }
  }

  lemma Double(d: nat, q: nat)
    ensures d * (2 * q) == 2 * (d * q)
    ensures d * (2 * q - 1) == d * (q - 1) + d * q
  {
  }

  /** How a call that is over, after `attempts` attempts, came to its end. */
  ghost predicate LoopOutcome(p: Policy, call: Call, attempts: nat)
    requires call.Over()
  {
    var k := |call.errors|;
    && k <= p.retries + 1
    && (call.phase.GaveUp? <==> k == p.retries + 1)
    && (k == p.retries + 1 ==> call.Result() == Failure(Database(call.errors[k - 1])) && attempts == k)
    && (k <= p.retries ==> attempts == k + 1 && call.commits >= 1)
    && call.slept == p.delay * (Pow2(LeastOf(k, p.retries)) - 1)
  }

  lemma OutcomeOfCall(p: Policy, call: Call)
    requires Accounted(p, call) && call.Over()
    ensures LoopOutcome(p, call, AttemptsMade(call))
  {
    SleepIsGeometric(p.delay, LeastOf(|call.errors|, p.retries));
  }

  /**
    A call that is over has failed `k` attempts; it gave up exactly when all
    `retries + 1` failed, then with the last attempt's error, and it slept
    `delay * (2^j - 1)` after `j` failures that were followed by a retry.
   */
  lemma OutcomeOfTheLoop(p: Policy, db: Database, actions: seq<Action>, c: nat)
    requires Run(p, Initial(db), actions).Some?
    requires c < |Run(p, Initial(db), actions).value.calls|
    requires Run(p, Initial(db), actions).value.calls[c].Over()
    ensures LoopOutcome(p, Run(p, Initial(db), actions).value.calls[c], Attempts(actions, c))
  {
    InitialInv(p, db);
    StepsAreCounted(p, Initial(db), actions, c);
    ReachableInv(p, db, actions);
    OutcomeOfCall(p, Run(p, Initial(db), actions).value.calls[c]);
  }

  lemma ProductionCall(call: Call)
    requires Accounted(PRODUCTION, call)
    ensures AttemptsMade(call) <= 4 && call.slept in {0, 250, 750, 1750}
    ensures call.phase.GaveUp? ==> AttemptsMade(call) == 4 && call.slept == 1750
  {
    assert SleptAfter(250, 1) == 250 && SleptAfter(250, 2) == 750 && SleptAfter(250, 3) == 1750;
  }

  /** With the program's constants: at most 4 attempts (the repository's README.md:59 counts 3)
      and 1750 ms of sleep. */
  lemma ProductionLimits(db: Database, actions: seq<Action>, c: nat)
    requires Run(PRODUCTION, Initial(db), actions).Some?
    requires c < |Run(PRODUCTION, Initial(db), actions).value.calls|
    ensures var call := Run(PRODUCTION, Initial(db), actions).value.calls[c];
            && Attempts(actions, c) <= 4
            && call.slept in {0, 250, 750, 1750}
            && (call.phase.GaveUp? ==> Attempts(actions, c) == 4 && call.slept == 1750)
  {
    InitialInv(PRODUCTION, db);
    StepsAreCounted(PRODUCTION, Initial(db), actions, c);
    ReachableInv(PRODUCTION, db, actions);
    ProductionCall(Run(PRODUCTION, Initial(db), actions).value.calls[c]);
  }
}
