/** What every step of the counter protocol keeps. */
module CounterInvariant {
  import opened Wrappers
  import opened CounterTable
  import opened CounterProtocol

  // ---------- one call ----------

  /** Whether the attempt in progress is already among the failed ones. */
  predicate AttemptFailed(call: Call) {
    call.phase.Failed? || call.phase.Sleeping? || call.phase.GaveUp?
  }

  /** Whether the update of the attempt in progress has been executed. */
  predicate AttemptExecuted(call: Call) {
    call.phase.Answered? || call.phase.Returned?
  }

  /** A value on its way to the caller, or delivered, with its ticket. */
  function Receipt(call: Call): Option<(nat, BigInt)> {
    match call.phase
    case Answered(ticket, Committed(value)) => Some((ticket, value))
    case Returned(ticket, value) => Some((ticket, value))
    case _ => None
  }

  /** The back-off after `k` retries, and the sleep that these retries have cost. */
  function Backoff(delay: nat, k: nat): nat {
    if k == 0 then delay else 2 * Backoff(delay, k - 1)
  }

  function SleptAfter(delay: nat, k: nat): nat {
    if k == 0 then 0 else SleptAfter(delay, k - 1) + Backoff(delay, k - 1)
  }

  /** Retries, back-off, errors and commits of a call are in step with each other. */
  ghost predicate Accounted(p: Policy, call: Call) {
    && call.retries <= p.retries
    && var backoffs := p.retries - call.retries;
    && call.delay == Backoff(p.delay, backoffs)
    && call.slept == SleptAfter(p.delay, backoffs)
    && |call.errors| == backoffs + (if AttemptFailed(call) then 1 else 0)
    && (call.phase.Failed? || call.phase.GaveUp? ==> call.errors[|call.errors| - 1] == call.phase.error)
    && (call.phase.Sleeping? ==> call.retries > 0)
    && (call.phase.GaveUp? ==> call.retries == 0)
    && call.commits + call.orphans <= |call.errors| + (if AttemptExecuted(call) then 1 else 0)
    && (Receipt(call).Some? ==> call.commits >= 1)
  }

  lemma MoveKeepsAccount(p: Policy, call: Call, m: Move, t: nat, reply: Reply<BigInt>)
    requires Accounted(p, call) && CanMove(call, m)
    ensures Accounted(p, Moved(call, m, t, reply))
  {
  }

  // ---------- the log ----------

  /** How many of the commits belong to epoch `e`. */
  function InEpoch(log: seq<Commit>, e: int): nat {
    if log == [] then 0
    else InEpoch(log[..|log| - 1], e) + (if log[|log| - 1].epoch == e then 1 else 0)
  }

  function SumCommits(calls: seq<Call>): nat {
    if calls == [] then 0 else SumCommits(calls[..|calls| - 1]) + calls[|calls| - 1].commits
  }

  /** Epochs never go back, and within one epoch the values strictly increase. */
  ghost predicate Increasing(log: seq<Commit>) {
    forall i, j :: 0 <= i < j < |log| ==>
      log[i].epoch < log[j].epoch || (log[i].epoch == log[j].epoch && log[i].value < log[j].value)
  }

  /** Each commit has its caller and lies in its epoch, above that epoch's base. */
  ghost predicate WellPlaced(log: seq<Commit>, bases: seq<BigInt>, calls: nat) {
    forall i :: 0 <= i < |log| ==>
      log[i].call < calls && log[i].epoch < |bases| && bases[log[i].epoch] < log[i].value
  }

  /** The stored count is the epoch's base plus one for each commit of the epoch. */
  ghost predicate Conserved(db: Database, bases: seq<BigInt>, log: seq<Commit>)
    requires |bases| > 0
  {
    var e := |bases| - 1;
    match Stored(db)
    case Some(value) =>
      && value == bases[e] + InEpoch(log, e)
      && (forall i :: 0 <= i < |log| && log[i].epoch == e ==> log[i].value <= value)
    case None => bases[e] == 0 && forall i :: 0 <= i < |log| ==> log[i].epoch < e
  }

  ghost predicate LogInv(db: Database, bases: seq<BigInt>, log: seq<Commit>, calls: nat) {
    |bases| > 0 && Increasing(log) && WellPlaced(log, bases, calls) && Conserved(db, bases, log)
  }

  /** A receipt names the call's own commit. */
  ghost predicate Honest(s: State, c: nat)
    requires c < |s.calls|
  {
    match Receipt(s.calls[c])
    case None => true
    case Some((ticket, value)) => ticket < |s.log| && s.log[ticket].call == c && s.log[ticket].value == value
  }

  ghost predicate Inv(p: Policy, s: State) {
    && LogInv(s.db, s.bases, s.log, |s.calls|)
    && |s.log| == SumCommits(s.calls)
    && (forall c :: 0 <= c < |s.calls| ==> Accounted(p, s.calls[c]) && Honest(s, c))
  }

  // ---------- every step keeps it ----------

  lemma {:induction false} NoneInEpoch(log: seq<Commit>, e: int)
    requires forall i :: 0 <= i < |log| ==> log[i].epoch < e
    ensures InEpoch(log, e) == 0
  {
    if log != [] { NoneInEpoch(log[..|log| - 1], e); }
  }

  lemma {:induction false} SumAfter(calls: seq<Call>, c: nat, call: Call)
    requires c < |calls|
    ensures SumCommits(calls[c := call]) == SumCommits(calls) - calls[c].commits + call.commits
  {
    var last := |calls| - 1;
    if c == last {
      assert calls[c := call][..last] == calls[..last];
    } else {
      assert calls[c := call][..last] == calls[..last][c := call];
      SumAfter(calls[..last], c, call);
    }
  }

  lemma UpdateAddsOne(db: Database)
    requires Update(db).1.Committed?
    ensures Stored(db).Some? && Update(db).1.value == Stored(db).value + 1
    ensures Stored(Update(db).0) == Some(Update(db).1.value)
  {
  }

  lemma AppendIncreasing(log: seq<Commit>, commit: Commit)
    requires Increasing(log)
    requires forall i :: 0 <= i < |log| ==>
               log[i].epoch < commit.epoch || (log[i].epoch == commit.epoch && log[i].value < commit.value)
    ensures Increasing(log + [commit])
  {
  }

  /** The next value lies above all commits of the current epoch, which is the last. */
  lemma NextIsLast(db: Database, bases: seq<BigInt>, log: seq<Commit>, calls: nat)
    requires LogInv(db, bases, log, calls) && Stored(db).Some?
    ensures forall i :: 0 <= i < |log| ==>
              log[i].epoch < |bases| - 1 || (log[i].epoch == |bases| - 1 && log[i].value < Stored(db).value + 1)
  {
  }

  lemma CommitKeepsCount(db: Database, bases: seq<BigInt>, log: seq<Commit>, commit: Commit)
    requires |bases| > 0 && Conserved(db, bases, log)
    requires Update(db).1.Committed? && commit.epoch == |bases| - 1 && commit.value == Update(db).1.value
    ensures Conserved(Update(db).0, bases, log + [commit])
    ensures bases[commit.epoch] < commit.value
  {
    UpdateAddsOne(db);
    AppendInEpoch(log, commit);
  }

  lemma CommitKeepsLog(db: Database, bases: seq<BigInt>, log: seq<Commit>, calls: nat, c: nat)
    requires LogInv(db, bases, log, calls) && c < calls
    requires Update(db).1.Committed?
    ensures LogInv(Update(db).0, bases, log + [Commit(c, |bases| - 1, Update(db).1.value)], calls)
  {
    hide WellPlaced, Increasing, Conserved;
    var commit := Commit(c, |bases| - 1, Update(db).1.value);
    CommitKeepsCount(db, bases, log, commit);
    NextIsLast(db, bases, log, calls);
    AppendIncreasing(log, commit);
    AppendPlaced(bases, log, calls, commit);
  }

  lemma AppendPlaced(bases: seq<BigInt>, log: seq<Commit>, calls: nat, commit: Commit)
    requires WellPlaced(log, bases, calls) && commit.call < calls && commit.epoch < |bases|
    requires bases[commit.epoch] < commit.value
    ensures WellPlaced(log + [commit], bases, calls)
  {
  }

  lemma AppendInEpoch(log: seq<Commit>, commit: Commit)
    ensures InEpoch(log + [commit], commit.epoch) == InEpoch(log, commit.epoch) + 1
  {
    assert (log + [commit])[..|log + [commit]| - 1] == log;
  }

  lemma InitKeepsLog(db: Database, bases: seq<BigInt>, log: seq<Commit>, calls: nat)
    requires LogInv(db, bases, log, calls)
    ensures LogInv(InitSql(db), bases, log, calls)
  {
    if Stored(db).None? { NoneInEpoch(log, |bases| - 1); }
  }

  /** A move changes one call; its receipt, if it has one, is for a commit of its own. */
  lemma MoveKeepsReceipts(p: Policy, s: State, c: nat, m: Move)
    requires Inv(p, s) && c < |s.calls| && CanMove(s.calls[c], m)
    ensures var after := Step(p, s, Of(c, m));
            forall d :: 0 <= d < |after.calls| ==> Honest(after, d)
  {
    assert |s.bases| > 0;
    hide LogInv, Accounted;
    var after := Step(p, s, Of(c, m));
    forall d | 0 <= d < |after.calls| ensures Honest(after, d) {
      assert Honest(s, d);
      if d != c { assert after.calls[d] == s.calls[d]; }
    }
  }

  lemma MoveKeepsAccounts(p: Policy, s: State, c: nat, m: Move)
    requires Inv(p, s) && c < |s.calls| && CanMove(s.calls[c], m)
    ensures var after := Step(p, s, Of(c, m));
            && (forall d :: 0 <= d < |after.calls| ==> Accounted(p, after.calls[d]))
            && |after.log| == SumCommits(after.calls)
  {
    assert |s.bases| > 0;
    hide LogInv, Honest, Accounted;
    var after := Step(p, s, Of(c, m));
    var reply := if Updates(m) then Update(s.db).1 else Refused(ReplyLost);
    MoveKeepsAccount(p, s.calls[c], m, |s.log|, reply);
    assert after.calls == s.calls[c := Moved(s.calls[c], m, |s.log|, reply)];
    SumAfter(s.calls, c, after.calls[c]);
  }

  lemma MoveKeepsLog(p: Policy, s: State, c: nat, m: Move)
    requires Inv(p, s) && c < |s.calls| && CanMove(s.calls[c], m)
    ensures var after := Step(p, s, Of(c, m));
            LogInv(after.db, after.bases, after.log, |after.calls|)
  {
    hide Accounted, Honest, Conserved, WellPlaced, Increasing, Moved;
    if Updates(m) {
      if Update(s.db).1.Committed? { CommitKeepsLog(s.db, s.bases, s.log, |s.calls|, c); }
    } else {
      InitKeepsLog(s.db, s.bases, s.log, |s.calls|);
    }
  }

  /** Nothing was committed, the calls are as they were, and new ones have no receipt. */
  ghost predicate ReceiptsKept(s: State, t: State) {
    && t.log == s.log && s.calls <= t.calls
    && forall c :: |s.calls| <= c < |t.calls| ==> Receipt(t.calls[c]).None?
  }

  lemma HonestyIsKept(s: State, t: State)
    requires ReceiptsKept(s, t) && forall c :: 0 <= c < |s.calls| ==> Honest(s, c)
    ensures forall c :: 0 <= c < |t.calls| ==> Honest(t, c)
  {
    forall c | 0 <= c < |t.calls| ensures Honest(t, c) {
      if c < |s.calls| { assert Honest(s, c) && t.calls[c] == s.calls[c]; }
    }
  }

  lemma BeginKeepsInv(p: Policy, s: State)
    requires Inv(p, s)
    ensures Inv(p, Step(p, s, Begin))
  {
    hide Honest, Increasing, Conserved;
    var t := Step(p, s, Begin);
    assert t.calls[..|s.calls|] == s.calls;
    HonestyIsKept(s, t);
  }

  lemma InitialiseKeepsInv(p: Policy, s: State)
    requires Inv(p, s)
    ensures Inv(p, Step(p, s, Initialise))
  {
    assert |s.bases| > 0;
    hide Accounted, Honest, LogInv;
    InitKeepsLog(s.db, s.bases, s.log, |s.calls|);
    HonestyIsKept(s, Step(p, s, Initialise));
  }

  lemma ReplaceKeepsInv(p: Policy, s: State, other: Database)
    requires Inv(p, s)
    ensures Inv(p, Step(p, s, ReplaceDatabase(other)))
  {
    hide Accounted, Honest, Increasing;
    NoneInEpoch(s.log, |s.bases|);
    HonestyIsKept(s, Step(p, s, ReplaceDatabase(other)));
  }

  lemma StepKeepsInv(p: Policy, s: State, a: Action)
    requires Inv(p, s) && Enabled(s, a)
    ensures Inv(p, Step(p, s, a))
  {
    assert |s.bases| > 0;
    hide Moved, Accounted, Honest, LogInv;
    match a
    case Of(c, m) =>
      MoveKeepsReceipts(p, s, c, m);
      MoveKeepsAccounts(p, s, c, m);
      MoveKeepsLog(p, s, c, m);
    case Begin => BeginKeepsInv(p, s);
    case Initialise => InitialiseKeepsInv(p, s);
    case ReplaceDatabase(other) => ReplaceKeepsInv(p, s, other);
  }

  /** The invariant holds in every state of every run. */
  lemma {:induction false} RunKeepsInv(p: Policy, s: State, actions: seq<Action>)
    requires Inv(p, s) && Run(p, s, actions).Some?
    ensures Inv(p, Run(p, s, actions).value)
    decreases |actions|
  {
    assert |s.bases| > 0;
    hide LogInv, Accounted, Honest, Step;
    if actions != [] {
      var last := |actions| - 1;
      RunKeepsInv(p, s, actions[..last]);
      StepKeepsInv(p, Run(p, s, actions[..last]).value, actions[last]);
    }
  }

  lemma InitialInv(p: Policy, db: Database)
    ensures Inv(p, Initial(db))
  {
  }
}
