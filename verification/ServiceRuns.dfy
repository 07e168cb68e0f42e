/** The service on Postgres as a run of the counter protocol, one call after the other. */
module ServiceRuns {
  import opened CounterTable
  import opened CounterProtocol
  import opened CounterTheorems
  import opened SoloCall
  import opened Service

  /** The last block of a run: from `cut` on, call `c` begins, is left alone and ends. */
  ghost predicate LastBlock(p: Policy, db: CounterTable.Database, actions: seq<Action>, cut: nat, c: nat) {
    && cut < |actions| && actions[cut] == Begin && LeftAlone(actions[cut + 1..], c)
    && var run := Run(p, Initial(db), actions);
       run.Some? && c < |run.value.calls| && run.value.calls[c].Over()
  }

  /** `n` calls, each left alone from its beginning to its end. */
  ghost predicate OneByOne(p: Policy, db: CounterTable.Database, actions: seq<Action>, n: nat)
    decreases n
  {
    if n == 0 then actions == []
    else exists cut: nat :: cut < |actions| && LastBlock(p, db, actions, cut, n - 1)
                            && OneByOne(p, db, actions[..cut], n - 1)
  }

  /** Request `i`, if it counts, was answered with what its own call returned. */
  ghost predicate AnsweredByCall(s: State, requests: seq<Request>, responses: seq<Response>, i: nat) {
    && i < |requests| && i < |responses|
    && (requests[i] == Hello(CounterMode) ==>
          var c := CountedThrough(requests, i) - 1;
          0 <= c < |s.calls| && s.calls[c].Over()
          && responses[i] == Greeted(Greet(s.calls[c].Result())))
  }

  /** The run has one call per counting request, and database and answers are its own. */
  ghost predicate ServedByRun(s: State, requests: seq<Request>, served: (Store, seq<Response>)) {
    && |s.calls| == Counted(requests) && served.0 == Postgres(s.db) && |served.1| == |requests|
    && forall i :: 0 <= i < |requests| ==> AnsweredByCall(s, requests, served.1, i)
  }

  lemma BlockIsSoloRun(p: Policy, db: CounterTable.Database, actions: seq<Action>, cut: nat, c: nat)
    requires LastBlock(p, db, actions, cut, c)
    ensures Run(p, Initial(db), actions[..cut]).Some?
    ensures var s := Run(p, Initial(db), actions[..cut]).value;
            Run(p, s, [Begin] + actions[cut + 1..]) == Run(p, Initial(db), actions)
  {
    RunPrefix(p, Initial(db), actions, cut);
    assert actions[cut..] == [Begin] + actions[cut + 1..];
  }

  /** A call that is over keeps its result while later ones run. */
  lemma StillAnswered(s: State, t: State, requests: seq<Request>, request: Request,
                      responses: seq<Response>, response: Response, i: nat)
    requires AnsweredByCall(s, requests, responses, i)
    requires |s.calls| <= |t.calls|
    requires forall c :: 0 <= c < |s.calls| && s.calls[c].Over() ==> t.calls[c].phase == s.calls[c].phase
    ensures AnsweredByCall(t, requests + [request], responses + [response], i)
  {
    assert (requests + [request])[..i + 1] == requests[..i + 1];
  }

  lemma CountedWithLast(requests: seq<Request>, request: Request)
    ensures Counted(requests + [request]) == Counted(requests) + Weight(request)
    ensures CountedThrough(requests + [request], |requests|) == Counted(requests + [request])
  {
    var more := requests + [request];
    assert more[..|requests|] == requests && more[..|requests| + 1] == more;
  }

  lemma ServeOneMore(store: Store, requests: seq<Request>, request: Request)
    ensures var (before, responses) := Serve(store, requests);
            var (after, response) := Answer(before, request);
            Serve(store, requests + [request]) == (after, responses + [response])
  {
    assert (requests + [request])[..|requests|] == requests;
  }

  /** A request that does not count needs no step of the protocol. */
  lemma ServeWithoutCall(db: CounterTable.Database, s: State, requests: seq<Request>, request: Request)
    requires ServedByRun(s, requests, Serve(Postgres(db), requests)) && request != Hello(CounterMode)
    ensures ServedByRun(s, requests + [request], Serve(Postgres(db), requests + [request]))
  {
    var responses := Serve(Postgres(db), requests).1;
    var response := Answer(Postgres(s.db), request).1;
    ServeOneMore(Postgres(db), requests, request);
    CountedWithLast(requests, request);
    hide Serve, Counted, AnsweredByCall;
    forall i | 0 <= i < |requests| ensures AnsweredByCall(s, requests + [request], responses + [response], i) {
      StillAnswered(s, s, requests, request, responses, response, i);
    }
    LastNeedsNoCall(s, requests, request, responses, response);
  }

  lemma LastNeedsNoCall(s: State, requests: seq<Request>, request: Request,
                        responses: seq<Response>, response: Response)
    requires request != Hello(CounterMode) && |responses| == |requests|
    ensures AnsweredByCall(s, requests + [request], responses + [response], |requests|)
  {
  }

  /** A counting request is one more call. */
  lemma ServeWithCall(db: CounterTable.Database, s: State, t: State, requests: seq<Request>)
    requires ServedByRun(s, requests, Serve(Postgres(db), requests))
    requires |t.calls| == |s.calls| + 1 && t.calls[|s.calls|].Over()
    requires t.db == NextCount(s.db).0 && t.calls[|s.calls|].Result() == NextCount(s.db).1
    requires forall c :: 0 <= c < |s.calls| && s.calls[c].Over() ==> t.calls[c].phase == s.calls[c].phase
    ensures ServedByRun(t, requests + [Hello(CounterMode)], Serve(Postgres(db), requests + [Hello(CounterMode)]))
  {
    hide Serve, Counted, AnsweredByCall, Greet, NextCount, Answer;
    var request := Hello(CounterMode);
    var responses := Serve(Postgres(db), requests).1;
    var response := Answer(Postgres(s.db), request).1;
    AnswerIsNextCount(s.db);
    ServeOneMore(Postgres(db), requests, request);
    CountedWithLast(requests, request);
    forall i | 0 <= i < |requests| ensures AnsweredByCall(t, requests + [request], responses + [response], i) {
      StillAnswered(s, t, requests, request, responses, response, i);
    }
    LastHasItsCall(t, requests, responses, response);
  }

  lemma AnswerIsNextCount(db: CounterTable.Database)
    ensures var (after, next) := NextCount(db);
            Answer(Postgres(db), Hello(CounterMode)) == (Postgres(after), Greeted(Greet(next)))
  {
  }

  lemma LastHasItsCall(t: State, requests: seq<Request>, responses: seq<Response>, response: Response)
    requires |t.calls| == Counted(requests) + 1 && t.calls[Counted(requests)].Over()
    requires |responses| == |requests| && response == Greeted(Greet(t.calls[Counted(requests)].Result()))
    ensures AnsweredByCall(t, requests + [Hello(CounterMode)], responses + [response], |requests|)
  {
    hide Greet;
    CountedWithLast(requests, Hello(CounterMode));
  }

  /**
    Whatever the requests: in every run of the protocol that has one call per
    counter-mode greeting, one after the other and each left alone, the calls return
    what the service answers with and the database ends where the service leaves it.
   */
  lemma {:induction false} ServeIsEveryRun(p: Policy, db: CounterTable.Database, requests: seq<Request>,
                                           actions: seq<Action>)
    requires p.retries >= 1 && OneByOne(p, db, actions, Counted(requests))
    ensures Run(p, Initial(db), actions).Some?
    ensures ServedByRun(Run(p, Initial(db), actions).value, requests, Serve(Postgres(db), requests))
    decreases |requests|
  {
    if requests != [] {
      hide LastBlock, ServedByRun, Serve, Run;
      var last := |requests| - 1;
      var shorter, request := requests[..last], requests[last];
      assert requests == shorter + [request];
      CountedWithLast(shorter, request);
      if request == Hello(CounterMode) {
        var n := Counted(shorter);
        var cut: nat :| cut < |actions| && LastBlock(p, db, actions, cut, n) && OneByOne(p, db, actions[..cut], n);
        ServeIsEveryRun(p, db, shorter, actions[..cut]);
        BlockServes(p, db, shorter, actions, cut);
      } else {
        ServeIsEveryRun(p, db, shorter, actions);
        ServeWithoutCall(db, Run(p, Initial(db), actions).value, shorter, request);
      }
    }
  }

  lemma BlockServes(p: Policy, db: CounterTable.Database, requests: seq<Request>, actions: seq<Action>, cut: nat)
    requires p.retries >= 1 && LastBlock(p, db, actions, cut, Counted(requests))
    requires Run(p, Initial(db), actions[..cut]).Some?
    requires ServedByRun(Run(p, Initial(db), actions[..cut]).value, requests, Serve(Postgres(db), requests))
    ensures var more := requests + [Hello(CounterMode)];
            ServedByRun(Run(p, Initial(db), actions).value, more, Serve(Postgres(db), more))
  {
    hide Serve, Counted, NextCount, Step;
    var s, t := Run(p, Initial(db), actions[..cut]).value, Run(p, Initial(db), actions).value;
    BlockIsSoloRun(p, db, actions, cut, Counted(requests));
    var whole := SoloCallIsNextCount(p, s, actions[cut + 1..]);
    RunGrows(p, s, [Begin] + actions[cut + 1..]);
    ServeWithCall(db, s, t, requests);
  }

  /** There is such a run for every number of calls. */
  lemma {:induction false} CallsCanRunOneByOne(p: Policy, db: CounterTable.Database, n: nat)
    returns (actions: seq<Action>)
    requires p.retries >= 1
    ensures OneByOne(p, db, actions, n) && Run(p, Initial(db), actions).Some?
    ensures |Run(p, Initial(db), actions).value.calls| == n
  {
    if n == 0 {
      actions := [];
    } else {
      var before := CallsCanRunOneByOne(p, db, n - 1);
      actions := OneCallMore(p, db, before, n - 1);
      assert actions[..|before|] == before;
    }
  }

  lemma OneCallMore(p: Policy, db: CounterTable.Database, before: seq<Action>, c: nat) returns (actions: seq<Action>)
    requires p.retries >= 1 && Run(p, Initial(db), before).Some?
    requires |Run(p, Initial(db), before).value.calls| == c
    ensures before <= actions && LastBlock(p, db, actions, |before|, c)
    ensures |Run(p, Initial(db), actions).value.calls| == c + 1
  {
    hide Step;
    var s := Run(p, Initial(db), before).value;
    RunOneMore(p, s, [], Begin);
    assert [] + [Begin] == [Begin] + [];
    var whole := SoloCallIsNextCount(p, s, []);
    actions := before + ([Begin] + whole);
    RunConcat(p, Initial(db), before, [Begin] + whole);
    assert actions[|before|] == Begin && actions[|before| + 1..] == whole;
  }
}
