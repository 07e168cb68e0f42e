/**
  The shared counter as a distributed protocol: any number of concurrent calls of
  `next_visitor_count` against one counter row, and an environment that refuses
  connections, loses replies, delivers requests late, runs INIT_SQL at any time and
  replaces the database. Each action is one atomic step of one party.
 */
module CounterProtocol {
  import opened Wrappers
  import opened CounterTable

  /** The retry budget of one call and its first back-off, in milliseconds. */
  datatype Policy = Policy(retries: nat, delay: nat)

  const PRODUCTION := Policy(3, 250)

  datatype StoreError = Database(error: DbError) | NegativeCount(value: BigInt)

  datatype Phase =
    | Connecting                                          // top of the loop
    | Waiting                                             // UPDATE sent, not executed yet
    | Answered(ticket: nat, reply: Reply<BigInt>)         // executed, the answer is on its way
    | Failed(error: DbError)                              // the attempt is an Err
    | Sleeping                                            // between the repair and the next attempt
    | Returned(ticket: nat, value: BigInt)                // the attempt was an Ok, the call is over
    | GaveUp(error: DbError)                              // out of retries, the call is over

  /**
    One call. The first four fields are its program state; `errors` are those of its
    failed attempts. `orphans` counts the updates it sent whose connection broke and
    which the server may still execute; `commits` counts its committed updates.
   */
  datatype Call = Call(phase: Phase, retries: nat, delay: nat, slept: nat,
                       errors: seq<DbError>, orphans: nat, commits: nat)
  {
    predicate Over() { phase.Returned? || phase.GaveUp? }

    /** `u64::try_from` decides what a call that got a row returns. */
    function Result(): (r: Result<nat, StoreError>)
      requires Over()
    {
      match phase
      case Returned(_, value) => if value >= 0 then Success(value) else Failure(NegativeCount(value))
      case GaveUp(error) => Failure(Database(error))
    }

    predicate Succeeded() { Over() && Result().Success? }
  }

  /** A committed update: who sent it, what it returned, in which epoch. */
  datatype Commit = Commit(call: nat, epoch: nat, value: BigInt)

  /**
    Calls are numbered in the order in which they begin. An epoch is the lifetime of
    one database: within it commits are durable. `bases[e]` is the count that epoch
    `e` starts from, and a commit's ticket is its position in `log`.
   */
  datatype State = State(db: Database, bases: seq<BigInt>, log: seq<Commit>, calls: seq<Call>)

  datatype Move =
    | ConnectFails | Send | Execute | BreakConnection | LoseReply | Deliver
    | RunRepair | SkipRepair | Wake | GiveUp | ExecuteOrphan

  datatype Action =
    | Begin
    | Of(call: nat, move: Move)
    | Initialise                           // any INIT_SQL: a server starting up, a late repair
    | ReplaceDatabase(other: Database)     // a new leader without (or with older) data

  function Base(db: Database): BigInt {
    match Stored(db) case None => 0 case Some(value) => value
  }

  function Initial(db: Database): State {
    State(db, [Base(db)], [], [])
  }

  function NewCall(p: Policy): Call {
    Call(Connecting, p.retries, p.delay, 0, [], 0, 0)
  }

  predicate CanMove(call: Call, m: Move) {
    match m
    case ConnectFails | Send => call.phase.Connecting?
    case Execute | BreakConnection => call.phase.Waiting?
    case LoseReply | Deliver => call.phase.Answered?
    case RunRepair | SkipRepair => call.phase.Failed? && call.retries > 0
    case GiveUp => call.phase.Failed? && call.retries == 0
    case Wake => call.phase.Sleeping? && call.retries > 0
    case ExecuteOrphan => call.orphans > 0
  }

  predicate Enabled(s: State, a: Action) {
    match a
    case Of(c, move) => c < |s.calls| && CanMove(s.calls[c], move)
    case _ => true
  }

  function Fail(call: Call, error: DbError): Call {
    call.(phase := Failed(error), errors := call.errors + [error])
  }

  /** What a move makes of the call, when the server answers `reply` with ticket `t`. */
  function Moved(call: Call, m: Move, t: nat, reply: Reply<BigInt>): Call
    requires CanMove(call, m)
  {
    match m
    case ConnectFails => Fail(call, ConnectFailed)
    case Send => call.(phase := Waiting)
    case Execute => Committing(call.(phase := Answered(t, reply)), reply)
    case ExecuteOrphan => Committing(call.(orphans := call.orphans - 1), reply)
    case BreakConnection => Fail(call.(orphans := call.orphans + 1), ReplyLost)
    case LoseReply => Fail(call, ReplyLost)
    case Deliver =>
      (match call.phase.reply
       case Committed(value) => call.(phase := Returned(call.phase.ticket, value))
       case Refused(error) => Fail(call, error))
    case RunRepair | SkipRepair => call.(phase := Sleeping)
    case Wake =>
      call.(phase := Connecting, slept := call.slept + call.delay,
            retries := call.retries - 1, delay := call.delay * 2)
    case GiveUp => call.(phase := GaveUp(call.phase.error))
  }

  function Committing(call: Call, reply: Reply<BigInt>): Call {
    if reply.Committed? then call.(commits := call.commits + 1) else call
  }

  predicate Updates(m: Move) { m.Execute? || m.ExecuteOrphan? }

  function Step(p: Policy, s: State, a: Action): State
    requires |s.bases| > 0 && Enabled(s, a)
  {
    match a
    case Begin => s.(calls := s.calls + [NewCall(p)])
    case Initialise => s.(db := InitSql(s.db))
    case ReplaceDatabase(other) => s.(db := other, bases := s.bases + [Base(other)])
    case Of(c, move) =>
      var (db, reply) := if Updates(move) then Update(s.db)
                         else if move.RunRepair? then (InitSql(s.db), Refused(ReplyLost))
                         else (s.db, Refused(ReplyLost));
      State(db, s.bases,
            if reply.Committed? then s.log + [Commit(c, |s.bases| - 1, reply.value)] else s.log,
            s.calls[c := Moved(s.calls[c], move, |s.log|, reply)])
  }

  // ---------- runs ----------

  /** The state that a schedule of actions leads to; `None` if some action was not enabled. */
  function Run(p: Policy, s: State, actions: seq<Action>): Option<State>
    requires |s.bases| > 0
    ensures Run(p, s, actions).Some? ==> |Run(p, s, actions).value.bases| >= |s.bases|
    decreases |actions|
  {
    if actions == [] then Some(s)
    else
      var last := |actions| - 1;
      match Run(p, s, actions[..last])
      case None => None
      case Some(before) =>
        if Enabled(before, actions[last]) then Some(Step(p, before, actions[last])) else None
  }

  lemma {:induction false} RunConcat(p: Policy, s: State, first: seq<Action>, second: seq<Action>)
    requires |s.bases| > 0
    ensures Run(p, s, first + second)
         == match Run(p, s, first) { case None => None case Some(middle) => Run(p, middle, second) }
    decreases |second|
  {
    if second == [] {
      assert first + second == first;
    } else {
      var last := |second| - 1;
      RunConcat(p, s, first, second[..last]);
      assert (first + second)[..|first + second| - 1] == first + second[..last];
    }
  }

  lemma RunOneMore(p: Policy, s: State, actions: seq<Action>, a: Action)
    requires |s.bases| > 0 && Run(p, s, actions).Some? && Enabled(Run(p, s, actions).value, a)
    ensures Run(p, s, actions + [a]) == Some(Step(p, Run(p, s, actions).value, a))
  {
    assert (actions + [a])[..|actions|] == actions;
  }

  /** A run contains all its prefixes. */
  lemma {:induction false} RunPrefix(p: Policy, s: State, actions: seq<Action>, k: nat)
    requires |s.bases| > 0 && k <= |actions|
    requires Run(p, s, actions).Some?
    ensures Run(p, s, actions[..k]).Some?
    ensures Run(p, Run(p, s, actions[..k]).value, actions[k..]) == Run(p, s, actions)
  {
    assert actions == actions[..k] + actions[k..];
    RunConcat(p, s, actions[..k], actions[k..]);
  }
}
