/**
  The service on top of a counter store (crates/application/src/service.rs) and the two
  stores it can run on, without faults.
 */
module Service {
  import opened Wrappers
  import opened CounterTable
  import P = CounterProtocol
  import Theorems = CounterTheorems
  import opened SoloCall
  import opened Greeting

  datatype GreetingMode = PlainMode | CounterMode

  datatype HelloResponse = HelloResponse(message: string, visitorCount: Option<nat>)
  datatype HealthResponse = HealthResponse(status: string, storage: string)

  datatype ApplicationError = CounterStore(store: P.StoreError) | Greeting(greeting: GreetingError)

  datatype Request = Hello(mode: GreetingMode) | Health
  datatype Response = Greeted(hello: Result<HelloResponse, ApplicationError>) | Reported(health: HealthResponse)

  datatype Store = Postgres(db: Database) | Memory(counter: nat)

  /** crates/adapter-counter-store-memory/src/lib.rs: the counter behind its lock. */
  class MemoryCounterStore {
    var counter: nat

    constructor ()
      ensures counter == 0
    {
      counter := 0;
    }

    method NextVisitorCount() returns (r: Result<nat, P.StoreError>)
      requires counter < 0xFFFF_FFFF_FFFF_FFFF
      modifies this
      ensures (Memory(counter), r) == Next(Memory(old(counter)))
    {
      counter := counter + 1;
      r := Success(counter);
    }
  }

  function Next(store: Store): (Store, Result<nat, P.StoreError>) {
    match store
    case Postgres(db) => var (after, r) := NextCount(db); (Postgres(after), r)
    case Memory(counter) => (Memory(counter + 1), Success(counter + 1))
  }

  function StorageName(store: Store): string {
    if store.Postgres? then "postgres" else "memory"
  }

  /** What the service makes of what the store returned. */
  function Greet(next: Result<nat, P.StoreError>): Result<HelloResponse, ApplicationError> {
    match next
    case Failure(error) => Failure(CounterStore(error))
    case Success(value) =>
      match NewVisitorCount(value)
      case Failure(error) => Failure(ApplicationError.Greeting(error))
      case Success(count) => Success(HelloResponse(Message(Numbered(count)), Some(count.value)))
  }

  function SayHello(mode: GreetingMode, store: Store): (Store, Result<HelloResponse, ApplicationError>) {
    match mode
    case PlainMode => (store, Success(HelloResponse(Message(Plain), None)))
    case CounterMode => var (after, next) := Next(store); (after, Greet(next))
  }

  function Answer(store: Store, request: Request): (Store, Response) {
    match request
    case Health => (store, Reported(HealthResponse("ok", StorageName(store))))
    case Hello(mode) => var (after, hello) := SayHello(mode, store); (after, Greeted(hello))
  }

  function Serve(store: Store, requests: seq<Request>): (served: (Store, seq<Response>))
    ensures |served.1| == |requests|
    decreases |requests|
  {
    if requests == [] then (store, [])
    else
      var last := |requests| - 1;
      var (before, responses) := Serve(store, requests[..last]);
      var (after, response) := Answer(before, requests[last]);
      (after, responses + [response])
  }

  function Weight(request: Request): nat {
    if request == Hello(CounterMode) then 1 else 0
  }

  /** How many of the requests ask for a count. */
  function Counted(requests: seq<Request>): nat {
    if requests == [] then 0
    else Counted(requests[..|requests| - 1]) + Weight(requests[|requests| - 1])
  }

  /** The answer to a request if the column were unbounded and stood at `value` once the
      request has counted itself; beyond the column's maximum every update is refused. */
  function Expected(request: Request, value: int, storage: string): Response
    requires BIGINT_MIN <= value
  {
    match request
    case Health => Reported(HealthResponse("ok", storage))
    case Hello(PlainMode) => Greeted(Success(HelloResponse("Hello World", None)))
    case Hello(CounterMode) =>
      Greeted(if value > BIGINT_MAX then Failure(CounterStore(P.Database(OutOfRange)))
              else if value < 0 then Failure(CounterStore(P.NegativeCount(value)))
              else if value == 0 then Failure(ApplicationError.Greeting(InvalidVisitorCount))
              else Success(HelloResponse(BEFORE_COUNT + Decimal(value) + AFTER_COUNT, Some(value))))
  }

  /** The counting requests up to and including request `i`. */
  function CountedThrough(requests: seq<Request>, i: nat): nat
    requires i < |requests|
  {
    Counted(requests[..i + 1])
  }

  /** Request `i` is answered as `Expected` says, with the counter starting at `start`. */
  ghost predicate AnsweredAt(start: BigInt, requests: seq<Request>, responses: seq<Response>, i: nat) {
    && i < |requests| && i < |responses|
    && responses[i] == Expected(requests[i], start + CountedThrough(requests, i), "postgres")
  }

  /** So is every request. */
  ghost predicate AnsweredFrom(start: BigInt, requests: seq<Request>, responses: seq<Response>) {
    |responses| == |requests| && forall i :: 0 <= i < |requests| ==> AnsweredAt(start, requests, responses, i)
  }

  lemma SameAnswer(start: BigInt, requests: seq<Request>, request: Request,
                   responses: seq<Response>, response: Response, i: nat)
    requires AnsweredAt(start, requests, responses, i)
    ensures AnsweredAt(start, requests + [request], responses + [response], i)
  {
    hide Expected, Counted;
    assert (requests + [request])[..i + 1] == requests[..i + 1];
  }

  lemma LastAnswer(start: BigInt, requests: seq<Request>, request: Request,
                   responses: seq<Response>, response: Response)
    requires |responses| == |requests|
    requires response == Expected(request, start + Counted(requests) + Weight(request), "postgres")
    ensures AnsweredAt(start, requests + [request], responses + [response], |requests|)
  {
    hide Expected, Weight;
    var more := requests + [request];
    assert more[..|requests| + 1] == more && more[..|more| - 1] == requests;
  }

  lemma AnsweredOneMore(start: BigInt, requests: seq<Request>, request: Request,
                        responses: seq<Response>, response: Response)
    requires AnsweredFrom(start, requests, responses)
    requires response == Expected(request, start + Counted(requests) + Weight(request), "postgres")
    ensures AnsweredFrom(start, requests + [request], responses + [response])
  {
    hide Expected, Counted, AnsweredAt;
    forall i | 0 <= i < |requests| ensures AnsweredAt(start, requests + [request], responses + [response], i) {
      SameAnswer(start, requests, request, responses, response, i);
    }
    LastAnswer(start, requests, request, responses, response);
  }

  /** `value` is what an unbounded column would hold. */
  lemma AnswerOnPostgres(db: Database, value: int, request: Request)
    requires BIGINT_MIN <= value && Stored(db) == Some(Min(BIGINT_MAX, value))
    ensures var (after, response) := Answer(Postgres(db), request);
            && after.Postgres? && Stored(after.db) == Some(Min(BIGINT_MAX, value + Weight(request)))
            && after.db.rows - {COUNTER_ID} == db.rows - {COUNTER_ID}
            && response == Expected(request, value + Weight(request), "postgres")
  {
    if request == Hello(CounterMode) {
      assert Update(db).0.rows - {COUNTER_ID} == db.rows - {COUNTER_ID};
    }
  }

  /**
    The whole service on Postgres, from any stored count and for any requests: each
    counter-mode greeting advances the row by one, up to the column's maximum, and nothing
    else touches it; the answer is a store error below 0 and beyond the maximum, a greeting
    error at 0 and a greeting with exactly that count from 1 on.
   */
  lemma {:induction false} ServiceOnPostgres(db: Database, requests: seq<Request>)
    requires Stored(db).Some?
    ensures var (store, responses) := Serve(Postgres(db), requests);
            && store.Postgres? && Stored(store.db) == Some(Min(BIGINT_MAX, Stored(db).value + Counted(requests)))
            && store.db.rows - {COUNTER_ID} == db.rows - {COUNTER_ID}
            && AnsweredFrom(Stored(db).value, requests, responses)
    decreases |requests|
  {
    hide Answer, Expected, AnsweredFrom;
    if requests != [] {
      var last := |requests| - 1;
      var (before, responses) := Serve(Postgres(db), requests[..last]);
      ServiceOnPostgres(db, requests[..last]);
      AnswerOnPostgres(before.db, Stored(db).value + Counted(requests[..last]), requests[last]);
      AnsweredOneMore(Stored(db).value, requests[..last], requests[last], responses,
                      Answer(before, requests[last]).1);
      assert requests[..last] + [requests[last]] == requests;
    } else {
      NothingAnswered(Stored(db).value);
    }
  }

  lemma NothingAnswered(start: BigInt)
    ensures AnsweredFrom(start, [], [])
  {
  }

  /** Request `first` is the first one that gets a count. */
  ghost predicate FirstToSucceed(requests: seq<Request>, responses: seq<Response>, first: nat)
    requires |responses| == |requests|
  {
    && first < |requests| && requests[first] == Hello(CounterMode)
    && responses[first].Greeted? && responses[first].hello.Success?
    && forall i :: 0 <= i < first && requests[i] == Hello(CounterMode) ==>
         responses[i].Greeted? && responses[i].hello.Failure?
  }

  /** Before the first success, the counter was below 1 once every request had counted. */
  lemma BelowOneBefore(start: BigInt, requests: seq<Request>, responses: seq<Response>, first: nat)
    requires AnsweredFrom(start, requests, responses) && FirstToSucceed(requests, responses, first)
    ensures Counted(requests[..first]) > 0 ==> start + Counted(requests[..first]) < 1
  {
    if Counted(requests[..first]) > 0 {
      var i := LastCounted(requests[..first]);
      assert requests[..first][..i + 1] == requests[..i + 1];
      assert CountedThrough(requests, i) == Counted(requests[..first]);
      CountedOneMore(requests, first);
      assert AnsweredAt(start, requests, responses, first) && AnsweredAt(start, requests, responses, i);
    }
  }

  lemma CountedOneMore(requests: seq<Request>, i: nat)
    requires i < |requests|
    ensures CountedThrough(requests, i) == Counted(requests[..i]) + Weight(requests[i])
  {
    assert requests[..i + 1][..i] == requests[..i];
  }

  lemma CountOfFirst(start: BigInt, requests: seq<Request>, responses: seq<Response>, first: nat)
    requires AnsweredFrom(start, requests, responses) && FirstToSucceed(requests, responses, first)
    ensures responses[first].hello.value.visitorCount == Some(if start + 1 >= 1 then start + 1 else 1)
  {
    hide Counted, Decimal;
    BelowOneBefore(start, requests, responses, first);
    CountedOneMore(requests, first);
    assert AnsweredAt(start, requests, responses, first);
  }

  /** The first counter-mode greeting that succeeds carries max(1, start + 1). */
  lemma FirstSuccess(db: Database, requests: seq<Request>, first: nat)
    requires Stored(db).Some? && FirstToSucceed(requests, Serve(Postgres(db), requests).1, first)
    ensures var start := Stored(db).value;
            Serve(Postgres(db), requests).1[first].hello.value.visitorCount
              == Some(if start + 1 >= 1 then start + 1 else 1)
  {
    ServiceOnPostgres(db, requests);
    hide AnsweredFrom, Serve, Counted;
    CountOfFirst(Stored(db).value, requests, Serve(Postgres(db), requests).1, first);
  }

  /** The last counting request among some. */
  lemma {:induction false} LastCounted(requests: seq<Request>) returns (i: nat)
    requires Counted(requests) > 0
    ensures i < |requests| && requests[i] == Hello(CounterMode)
    ensures Counted(requests[..i + 1]) == Counted(requests)
  {
    var last := |requests| - 1;
    if requests[last] == Hello(CounterMode) {
      assert requests[..last + 1] == requests;
      i := last;
    } else {
      i := LastCounted(requests[..last]);
      assert requests[..last][..i + 1] == requests[..i + 1];
    }
  }

  lemma AnswersAgree(db: Database, counter: nat, request: Request)
    requires Stored(db) == Some(counter) && counter + Weight(request) <= BIGINT_MAX
    ensures var (postgres, answer) := Answer(Postgres(db), request);
            var (memory, expected) := Answer(Memory(counter), request);
            && postgres.Postgres? && memory == Memory(counter + Weight(request))
            && Stored(postgres.db) == Some(memory.counter)
            && (if request.Hello? then answer == expected
                else answer == Reported(HealthResponse("ok", "postgres"))
                     && expected == Reported(HealthResponse("ok", "memory")))
  {
    hide Message;
  }

  /** Below 2^63 the two stores answer every sequence of requests alike, storage name
      aside, and stay in step. */
  lemma {:induction false} StoresAgree(db: Database, counter: nat, requests: seq<Request>)
    requires Stored(db) == Some(counter) && counter + Counted(requests) <= BIGINT_MAX
    ensures var (postgres, answers) := Serve(Postgres(db), requests);
            var (memory, expected) := Serve(Memory(counter), requests);
            && postgres.Postgres? && memory == Memory(counter + Counted(requests))
            && Stored(postgres.db) == Some(memory.counter)
            && |answers| == |expected| == |requests|
            && forall i :: 0 <= i < |requests| ==>
                 if requests[i].Hello? then answers[i] == expected[i]
                 else answers[i] == Reported(HealthResponse("ok", "postgres"))
                      && expected[i] == Reported(HealthResponse("ok", "memory"))
    decreases |requests|
  {
    hide Answer;
    if requests != [] {
      var last := |requests| - 1;
      StoresAgree(db, counter, requests[..last]);
      AnswersAgree(Serve(Postgres(db), requests[..last]).0.db, counter + Counted(requests[..last]), requests[last]);
    }
  }

  /** In every run of the protocol, two calls of one epoch that both greet a visitor
      greet them with different texts. */
  lemma VisitorsSeeDifferentTexts(p: P.Policy, db: Database, actions: seq<P.Action>, c: nat, d: nat)
    requires P.Run(p, P.Initial(db), actions).Some?
    requires var s := P.Run(p, P.Initial(db), actions).value;
             && c < |s.calls| && d < |s.calls| && c != d && s.calls[c].Succeeded() && s.calls[d].Succeeded()
             && Theorems.Read(s, c).epoch == Theorems.Read(s, d).epoch
             && NewVisitorCount(s.calls[c].Result().value).Success?
             && NewVisitorCount(s.calls[d].Result().value).Success?
    ensures var s := P.Run(p, P.Initial(db), actions).value;
            Message(Numbered(NewVisitorCount(s.calls[c].Result().value).value))
              != Message(Numbered(NewVisitorCount(s.calls[d].Result().value).value))
  {
    var s := P.Run(p, P.Initial(db), actions).value;
    Theorems.CountsAreUnique(p, db, actions, c, d);
    MessagesDiffer(Numbered(NewVisitorCount(s.calls[c].Result().value).value),
                   Numbered(NewVisitorCount(s.calls[d].Result().value).value));
  }
}
