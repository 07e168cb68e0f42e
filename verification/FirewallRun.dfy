/** What a complete run of the firewall script leaves behind, from any chain. */
module FirewallRun {
  import opened Wrappers
  import opened Firewall

  /** Remove the first copy of each of the rules. */
  function Prune(chain: seq<Rule>, rules: seq<Rule>): seq<Rule>
    decreases |rules|
  {
    if rules == [] then chain else Prune(RemoveFirst(chain, rules[0]), rules[1..])
  }

  function ManagedByAll(cl: Cluster, ports: seq<nat>): seq<Rule> {
    if ports == [] then [] else ManagedBy(cl, ports[0]) + ManagedByAll(cl, ports[1..])
  }

  lemma {:induction false} PruneIsExec(chain: seq<Rule>, rules: seq<Rule>)
    ensures Exec(chain, Deletes(rules)) == Prune(chain, rules)
    decreases |rules|
  {
    if rules != [] {
      assert Deletes(rules)[1..] == Deletes(rules[1..]);
      PruneIsExec(RemoveFirst(chain, rules[0]), rules[1..]);
    }
  }

  lemma {:induction false} AppendIsExec(chain: seq<Rule>, rules: seq<Rule>)
    ensures Exec(chain, Appends(rules)) == chain + rules
    decreases |rules|
  {
    if rules != [] {
      assert Appends(rules)[1..] == Appends(rules[1..]);
      AppendIsExec(chain + [rules[0]], rules[1..]);
      assert chain + [rules[0]] + rules[1..] == chain + rules;
    } else {
      assert chain + rules == chain;
    }
  }

  lemma {:induction false} RemoveBefore(a: seq<Rule>, b: seq<Rule>, r: Rule)
    requires r !in b
    ensures RemoveFirst(a + b, r) == RemoveFirst(a, r) + b
  {
    if a == [] {
      assert a + b == b;
      RemoveAbsent(b, r);
    } else {
      assert (a + b)[1..] == a[1..] + b;
      RemoveBefore(a[1..], b, r);
    }
  }

  lemma {:induction false} RemoveAbsent(chain: seq<Rule>, r: Rule)
    requires r !in chain
    ensures RemoveFirst(chain, r) == chain
  {
    if chain != [] { RemoveAbsent(chain[1..], r); }
  }

  lemma {:induction false} PruneBefore(a: seq<Rule>, b: seq<Rule>, rules: seq<Rule>)
    requires forall r :: r in rules ==> r !in b
    ensures Prune(a + b, rules) == Prune(a, rules) + b
    decreases |rules|
  {
    if rules != [] {
      RemoveBefore(a, b, rules[0]);
      PruneBefore(RemoveFirst(a, rules[0]), b, rules[1..]);
    }
  }

  lemma {:induction false} PruneConcat(chain: seq<Rule>, a: seq<Rule>, b: seq<Rule>)
    ensures Prune(chain, a + b) == Prune(Prune(chain, a), b)
    decreases |a|
  {
    if a == [] {
      assert a + b == b;
    } else {
      assert (a + b)[1..] == a[1..] + b;
      PruneConcat(RemoveFirst(chain, a[0]), a[1..], b);
    }
  }

  lemma OnePass(cl: Cluster, port: nat, found: seq<Rule>, done: seq<Rule>)
    requires forall r :: r in done ==> r.dport.Some? && r.dport.value != port
    ensures Exec(found + done, Pass(cl, port)) == Prune(found, ManagedBy(cl, port)) + done + Block(cl, port)
  {
    var rules, block := ManagedBy(cl, port), Block(cl, port);
    forall r | r in rules ensures r !in done { ManagedByPort(cl, port, r); }
    PruneIsExec(found + done, rules);
    PruneBefore(found, done, rules);
    AppendIsExec(Prune(found, rules) + done, block);
    ExecConcat(found + done, Deletes(rules), Appends(block));
  }

  lemma ManagedByPort(cl: Cluster, port: nat, r: Rule)
    ensures r in ManagedBy(cl, port) ==> r.dport == Some(port)
    ensures r in Block(cl, port) ==> r in ManagedBy(cl, port)
  {
  }

  /** A run from any chain: one copy of every managed rule is removed from the part that
      was there before, and the blocks follow, although each pass moves its port's rules
      behind those of the ports before it. */
  lemma {:induction false} RunFromAny(cl: Cluster, ports: seq<nat>, found: seq<Rule>, done: seq<Rule>)
    requires Distinct(ports) && NoneFor(ports, done)
    ensures Exec(found + done, Program(cl, ports)) == Prune(found, ManagedByAll(cl, ports)) + done + Blocks(cl, ports)
    decreases |ports|
  {
    if ports == [] {
      assert found + done + [] == found + done;
    } else {
      var port, rest := ports[0], ports[1..];
      var pruned := Prune(found, ManagedBy(cl, port));
      OnePass(cl, port, found, done);
      ExecConcat(found + done, Pass(cl, port), Program(cl, rest));
      assert pruned + done + Block(cl, port) == pruned + (done + Block(cl, port));
      NoneForRest(cl, ports, done);
      RunFromAny(cl, rest, pruned, done + Block(cl, port));
      PruneConcat(found, ManagedBy(cl, port), ManagedByAll(cl, rest));
      Regroup(Prune(pruned, ManagedByAll(cl, rest)), done, Block(cl, port), Blocks(cl, rest));
    }
  }

  lemma Regroup(a: seq<Rule>, b: seq<Rule>, c: seq<Rule>, d: seq<Rule>)
    ensures a + (b + c) + d == a + b + (c + d)
  {
  }

  ghost predicate NoneFor(ports: seq<nat>, rules: seq<Rule>) {
    forall r :: r in rules ==> r.dport.Some? && r.dport.value !in ports
  }

  lemma NoneForRest(cl: Cluster, ports: seq<nat>, rules: seq<Rule>)
    requires ports != [] && Distinct(ports) && NoneFor(ports, rules)
    ensures NoneFor(ports[1..], rules + Block(cl, ports[0]))
  {
    forall r | r in rules + Block(cl, ports[0]) ensures r.dport.Some? && r.dport.value !in ports[1..] {
      if r in Block(cl, ports[0]) { ManagedByPort(cl, ports[0], r); }
    }
  }

  lemma RunIsPrune(cl: Cluster, ports: seq<nat>, chain: seq<Rule>)
    requires Distinct(ports)
    ensures Exec(chain, Program(cl, ports)) == Prune(chain, ManagedByAll(cl, ports)) + Blocks(cl, ports)
  {
    RunFromAny(cl, ports, chain, []);
    assert chain + [] == chain;
    assert Prune(chain, ManagedByAll(cl, ports)) + [] == Prune(chain, ManagedByAll(cl, ports));
  }

  // ---------- which rules, and how often ----------

  lemma {:induction false} ManagedByAllIsManaged(cl: Cluster, ports: seq<nat>, r: Rule)
    ensures r in ManagedByAll(cl, ports) <==> Managed(cl, ports, r)
  {
    if ports != [] { ManagedByAllIsManaged(cl, ports[1..], r); }
  }

  lemma DistinctConcat(a: seq<Rule>, b: seq<Rule>)
    requires Distinct(a) && Distinct(b) && forall r :: r in a ==> r !in b
    ensures Distinct(a + b)
  {
    forall i, j | 0 <= i < j < |a + b| ensures (a + b)[i] != (a + b)[j] {
      if i < |a| <= j { assert a[i] in a && b[j - |a|] in b; }
    }
  }

  lemma ManagedByIsDistinct(cl: Cluster, port: nat)
    requires Distinct(cl.peers)
    ensures Distinct(ManagedBy(cl, port)) && Distinct(Block(cl, port))
  {
    DistinctConcat([OldDrop(port)], OldAccepts(cl, port));
    DistinctConcat(NewAccepts(cl, port), [NewDrop(cl, port)]);
    DistinctConcat([NewDrop(cl, port)], NewAccepts(cl, port));
    DistinctConcat([OldDrop(port)] + OldAccepts(cl, port), [NewDrop(cl, port)] + NewAccepts(cl, port));
    assert ManagedBy(cl, port)
        == [OldDrop(port)] + OldAccepts(cl, port) + ([NewDrop(cl, port)] + NewAccepts(cl, port));
  }

  lemma {:induction false} ManagedByAllIsDistinct(cl: Cluster, ports: seq<nat>)
    requires Distinct(ports) && Distinct(cl.peers)
    ensures Distinct(ManagedByAll(cl, ports))
  {
    if ports != [] {
      ManagedByAllIsDistinct(cl, ports[1..]);
      forall r | r in ManagedBy(cl, ports[0]) ensures r !in ManagedByAll(cl, ports[1..]) {
        ManagedByAllIsManaged(cl, ports[1..], r);
        ManagedByPort(cl, ports[0], r);
      }
      ManagedByIsDistinct(cl, ports[0]);
      DistinctConcat(ManagedBy(cl, ports[0]), ManagedByAll(cl, ports[1..]));
    }
  }

  lemma {:induction false} BlocksAreManaged(cl: Cluster, ports: seq<nat>, r: Rule)
    ensures r in Blocks(cl, ports) ==> Managed(cl, ports, r) && r.iface == Some(cl.extIf)
    ensures Managed(cl, ports, r) && r.iface == Some(cl.extIf) ==> r in Blocks(cl, ports)
  {
    if ports != [] { BlocksAreManaged(cl, ports[1..], r); }
  }

  lemma {:induction false} BlocksAreDistinct(cl: Cluster, ports: seq<nat>)
    requires Distinct(ports) && Distinct(cl.peers)
    ensures Distinct(Blocks(cl, ports))
  {
    if ports != [] {
      BlocksAreDistinct(cl, ports[1..]);
      forall r | r in Block(cl, ports[0]) ensures r !in Blocks(cl, ports[1..]) {
        BlocksAreManaged(cl, ports[1..], r);
        ManagedByPort(cl, ports[0], r);
      }
      ManagedByIsDistinct(cl, ports[0]);
      DistinctConcat(Block(cl, ports[0]), Blocks(cl, ports[1..]));
    }
  }

  lemma {:induction false} DistinctCount(s: seq<Rule>, r: Rule)
    requires Distinct(s)
    ensures multiset(s)[r] == if r in s then 1 else 0
  {
    if s != [] {
      assert s == [s[0]] + s[1..];
      DistinctCount(s[1..], r);
    }
  }

  lemma {:induction false} RemoveCount(chain: seq<Rule>, r: Rule)
    ensures multiset(RemoveFirst(chain, r)) == multiset(chain) - multiset{r}
  {
    if chain != [] {
      assert chain == [chain[0]] + chain[1..];
      RemoveCount(chain[1..], r);
    }
  }

  function Less1(n: nat): nat { if n == 0 then 0 else n - 1 }

  lemma {:induction false} PruneCount(chain: seq<Rule>, rules: seq<Rule>, r: Rule)
    requires Distinct(rules)
    ensures multiset(Prune(chain, rules))[r]
         == if r in rules then Less1(multiset(chain)[r]) else multiset(chain)[r]
    decreases |rules|
  {
    hide RemoveFirst;
    if rules != [] {
      RemoveCount(chain, rules[0]);
      PruneCount(RemoveFirst(chain, rules[0]), rules[1..], r);
      assert rules == [rules[0]] + rules[1..];
    }
  }

  lemma {:induction false} RemoveOnlyCopy(chain: seq<Rule>, r: Rule)
    requires multiset(chain)[r] <= 1
    ensures RemoveFirst(chain, r) == Filter(chain, x => x != r)
  {
    if chain != [] {
      assert chain == [chain[0]] + chain[1..];
      if chain[0] == r {
        assert r !in multiset(chain[1..]);
        FilterKeepsAll(chain[1..], x => x != r);
      } else {
        RemoveOnlyCopy(chain[1..], r);
      }
    }
  }

  lemma {:induction false} FilterTwice(chain: seq<Rule>, f: Rule -> bool, g: Rule -> bool, both: Rule -> bool)
    requires forall r :: both(r) <==> f(r) && g(r)
    ensures Filter(Filter(chain, f), g) == Filter(chain, both)
  {
    if chain != [] {
      FilterTwice(chain[1..], f, g, both);
      if f(chain[0]) {
        assert ([chain[0]] + Filter(chain[1..], f))[1..] == Filter(chain[1..], f);
      }
    }
  }

  lemma {:induction false} PruneSingles(chain: seq<Rule>, rules: seq<Rule>)
    requires Distinct(rules) && forall r :: r in rules ==> multiset(chain)[r] <= 1
    ensures Prune(chain, rules) == Filter(chain, r => r !in rules)
    decreases |rules|
  {
    if rules == [] {
      FilterKeepsAll(chain, r => r !in rules);
    } else {
      assert rules == [rules[0]] + rules[1..];
      RemoveOnlyCopy(chain, rules[0]);
      var rest := Filter(chain, x => x != rules[0]);
      forall r | r in rules[1..] ensures multiset(rest)[r] <= 1 { FilterCounts(chain, x => x != rules[0], r); }
      PruneSingles(rest, rules[1..]);
      FilterTwice(chain, x => x != rules[0], r => r !in rules[1..], r => r !in rules);
    }
  }

  // ---------- theorems ----------

  /**
    A complete run leaves exactly the unmanaged rules in their order followed by the
    block of each port, if and only if it started from at most one copy of each managed
    rule.
   */
  lemma RunIsCanonical(cl: Cluster, ports: seq<nat>, chain: seq<Rule>)
    requires Distinct(ports) && Distinct(cl.peers)
    ensures Exec(chain, Program(cl, ports)) == Canonical(cl, ports, chain) <==> SingleCopies(cl, ports, chain)
  {
    RunIsPrune(cl, ports, chain);
    var rules := ManagedByAll(cl, ports);
    ManagedByAllIsDistinct(cl, ports);
    forall r ensures r in rules <==> Managed(cl, ports, r) { ManagedByAllIsManaged(cl, ports, r); }
    var kept := Unmanaged(cl, ports, chain);
    if SingleCopies(cl, ports, chain) {
      PruneSingles(chain, rules);
      SameFilter(chain, r => r !in rules, r => !Managed(cl, ports, r));
    }
    if Prune(chain, rules) + Blocks(cl, ports) == kept + Blocks(cl, ports) {
      SameFront(Prune(chain, rules), kept, Blocks(cl, ports));
      forall r | Managed(cl, ports, r) ensures multiset(chain)[r] <= 1 {
        PruneCount(chain, rules, r);
        FilterCounts(chain, x => !Managed(cl, ports, x), r);
      }
    }
  }

  lemma SameFront(a: seq<Rule>, b: seq<Rule>, c: seq<Rule>)
    requires a + c == b + c
    ensures a == b
  {
    assert |a| == |a + c| - |c| == |b + c| - |c| == |b|;
    assert a == (a + c)[..|a|] && b == (b + c)[..|b|];
  }

  lemma {:induction false} SameFilter(chain: seq<Rule>, f: Rule -> bool, g: Rule -> bool)
    requires forall r :: r in chain ==> (f(r) <==> g(r))
    ensures Filter(chain, f) == Filter(chain, g)
  {
    if chain != [] { SameFilter(chain[1..], f, g); }
  }

  lemma CanonicalIsStable(cl: Cluster, ports: seq<nat>, chain: seq<Rule>)
    requires Distinct(ports) && Distinct(cl.peers)
    ensures var after := Canonical(cl, ports, chain);
            SingleCopies(cl, ports, after) && Canonical(cl, ports, after) == after
  {
    var unmanaged := r => !Managed(cl, ports, r);
    var kept, blocks := Unmanaged(cl, ports, chain), Blocks(cl, ports);
    forall r ensures r in blocks ==> Managed(cl, ports, r) { BlocksAreManaged(cl, ports, r); }
    forall r | Managed(cl, ports, r) ensures multiset(kept + blocks)[r] <= 1 {
      FilterCounts(chain, unmanaged, r);
      BlocksAreDistinct(cl, ports);
      DistinctCount(blocks, r);
    }
    FilterConcat(kept, blocks, unmanaged);
    FilterTwice(chain, unmanaged, unmanaged, unmanaged);
    FilterKeepsNone(blocks, unmanaged);
    assert kept + [] == kept;
  }

  /** Pruning two parts with distinct rules: what the first part lacks goes from the second. */
  lemma {:induction false} PruneParts(a: seq<Rule>, b: seq<Rule>, rules: seq<Rule>)
    requires Distinct(rules)
    ensures Prune(a + b, rules) == Prune(a, rules) + Prune(b, Filter(rules, r => r !in a))
    decreases |rules|
  {
    if rules != [] {
      var r, rest := rules[0], rules[1..];
      var lacking := Filter(rest, x => x !in a);
      RemoveCount(a, r);
      if r in a {
        RemoveInFirst(a, b, r);
        PruneParts(RemoveFirst(a, r), b, rest);
        assert forall x :: x in rest ==> (x in RemoveFirst(a, r) <==> x in a) by { SameOthers(a, r); }
        SameFilter(rest, x => x !in RemoveFirst(a, r), x => x !in a);
      } else {
        RemoveInSecond(a, b, r);
        RemoveAbsent(a, r);
        PruneParts(a, RemoveFirst(b, r), rest);
        assert Filter(rules, x => x !in a) == [r] + lacking;
        assert ([r] + lacking)[1..] == lacking;
      }
    }
  }

  lemma SameOthers(a: seq<Rule>, r: Rule)
    ensures forall x :: x != r ==> (x in RemoveFirst(a, r) <==> x in a)
  {
    RemoveCount(a, r);
    forall x | x != r ensures x in RemoveFirst(a, r) <==> x in a {
      assert multiset(RemoveFirst(a, r))[x] == multiset(a)[x];
    }
  }

  lemma {:induction false} RemoveInFirst(a: seq<Rule>, b: seq<Rule>, r: Rule)
    requires r in a
    ensures RemoveFirst(a + b, r) == RemoveFirst(a, r) + b
  {
    assert (a + b)[1..] == a[1..] + b;
    if a[0] != r { RemoveInFirst(a[1..], b, r); }
  }

  lemma {:induction false} RemoveInSecond(a: seq<Rule>, b: seq<Rule>, r: Rule)
    requires r !in a
    ensures RemoveFirst(a + b, r) == a + RemoveFirst(b, r)
  {
    if a == [] {
      assert a + b == b;
    } else {
      assert (a + b)[1..] == a[1..] + b;
      RemoveInSecond(a[1..], b, r);
    }
  }

  /** What a run leaves of the chain it finds, in front of the new blocks. */
  function Front(cl: Cluster, ports: seq<nat>, chain: seq<Rule>): seq<Rule> {
    Prune(chain, ManagedByAll(cl, ports))
  }

  /** Rules of the blocks of which the front still holds a copy. */
  function Leftovers(cl: Cluster, ports: seq<nat>, front: seq<Rule>): seq<Rule> {
    Filter(Blocks(cl, ports), r => r in front)
  }

  lemma SecondRun(cl: Cluster, ports: seq<nat>, front: seq<Rule>)
    requires Distinct(ports) && Distinct(cl.peers)
    ensures Front(cl, ports, front + Blocks(cl, ports)) == Front(cl, ports, front) + Leftovers(cl, ports, front)
  {
    var rules, blocks := ManagedByAll(cl, ports), Blocks(cl, ports);
    var lacking := Filter(rules, r => r !in front);
    ManagedByAllIsDistinct(cl, ports);
    BlocksAreDistinct(cl, ports);
    PruneParts(front, blocks, rules);
    forall r ensures multiset(lacking)[r] == if r in rules && r !in front then 1 else 0 {
      FilterCounts(rules, x => x !in front, r);
      DistinctCount(rules, r);
    }
    DistinctIfCounted(lacking);
    forall r | r in lacking ensures multiset(blocks)[r] <= 1 { DistinctCount(blocks, r); }
    PruneSingles(blocks, lacking);
    forall r | r in blocks ensures r !in lacking <==> r in front {
      BlocksAreManaged(cl, ports, r);
      ManagedByAllIsManaged(cl, ports, r);
      assert r in lacking <==> multiset(lacking)[r] > 0;
    }
    SameFilter(blocks, r => r !in lacking, r => r in front);
  }

  lemma DistinctIfCounted(s: seq<Rule>)
    requires forall r :: multiset(s)[r] <= 1
    ensures Distinct(s)
  {
    forall i, j | 0 <= i < j < |s| ensures s[i] != s[j] {
      assert s == s[..j] + s[j..] && s[i] == s[..j][i] && s[j] == s[j..][0];
      assert multiset(s)[s[j]] == multiset(s[..j])[s[j]] + multiset(s[j..])[s[j]];
    }
  }

  /**
    A second run changes nothing, not even the order, if and only if what the first one
    left in front of its blocks ends in the leftovers of these blocks, in their order. So
    it is from single copies, which leave nothing over.
   */
  lemma RunIsIdempotent(cl: Cluster, ports: seq<nat>, chain: seq<Rule>)
    requires Distinct(ports) && Distinct(cl.peers)
    ensures var after := Exec(chain, Program(cl, ports));
            var front := Front(cl, ports, chain);
            && (Exec(after, Program(cl, ports)) == after
                <==> front == Front(cl, ports, front) + Leftovers(cl, ports, front))
            && (SingleCopies(cl, ports, chain) ==> Exec(after, Program(cl, ports)) == after)
  {
    var front := Front(cl, ports, chain);
    RunIsPrune(cl, ports, chain);
    RunIsPrune(cl, ports, front + Blocks(cl, ports));
    SecondRun(cl, ports, front);
    if front != Front(cl, ports, front) + Leftovers(cl, ports, front)
      && Exec(front + Blocks(cl, ports), Program(cl, ports)) == front + Blocks(cl, ports) {
      SameFront(Front(cl, ports, front) + Leftovers(cl, ports, front), front, Blocks(cl, ports));
    }
    if SingleCopies(cl, ports, chain) {
      RunIsCanonical(cl, ports, chain);
      CanonicalIsStable(cl, ports, chain);
      RunIsCanonical(cl, ports, Canonical(cl, ports, chain));
    }
  }

  function Reruns(cl: Cluster, ports: seq<nat>, chain: seq<Rule>, n: nat): seq<Rule> {
    if n == 0 then chain else Exec(Reruns(cl, ports, chain, n - 1), Program(cl, ports))
  }

  lemma CopiesInBlocks(cl: Cluster, ports: seq<nat>, r: Rule)
    requires Distinct(ports) && Distinct(cl.peers) && Managed(cl, ports, r)
    ensures multiset(Blocks(cl, ports))[r] == if r.iface.None? then 0 else 1
  {
    BlocksAreManaged(cl, ports, r);
    BlocksAreDistinct(cl, ports);
    DistinctCount(Blocks(cl, ports), r);
    assert r.iface.None? || r.iface == Some(cl.extIf);
  }

  lemma CopiesAfterRun(cl: Cluster, ports: seq<nat>, chain: seq<Rule>, r: Rule)
    requires Distinct(ports) && Distinct(cl.peers) && Managed(cl, ports, r)
    ensures multiset(Exec(chain, Program(cl, ports)))[r]
         == Less1(multiset(chain)[r]) + (if r.iface.None? then 0 else 1)
  {
    var rules := ManagedByAll(cl, ports);
    RunIsPrune(cl, ports, chain);
    ManagedByAllIsDistinct(cl, ports);
    ManagedByAllIsManaged(cl, ports, r);
    PruneCount(chain, rules, r);
    CopiesInBlocks(cl, ports, r);
    CountOfConcat(Prune(chain, rules), Blocks(cl, ports), r);
  }

  lemma CountOfConcat(a: seq<Rule>, b: seq<Rule>, r: Rule)
    ensures multiset(a + b)[r] == multiset(a)[r] + multiset(b)[r]
  {
  }

  /** Each run removes one copy of an interface-agnostic rule; of an interface-scoped rule
      it removes one copy and appends another, so that duplicates of it stay for ever. */
  lemma {:induction false} CopiesAfterReruns(cl: Cluster, ports: seq<nat>, chain: seq<Rule>, n: nat, r: Rule)
    requires Distinct(ports) && Distinct(cl.peers) && Managed(cl, ports, r)
    ensures var copies := multiset(Reruns(cl, ports, chain, n))[r];
            var before := multiset(chain)[r];
            copies == if r.iface.None? then (if before >= n then before - n else 0)
                      else if n > 0 && before == 0 then 1 else before
  {
    if n > 0 {
      CopiesAfterReruns(cl, ports, chain, n - 1, r);
      CopiesAfterRun(cl, ports, Reruns(cl, ports, chain, n - 1), r);
    }
  }

  lemma {:induction false} RerunsKeepUnmanaged(cl: Cluster, ports: seq<nat>, chain: seq<Rule>, n: nat)
    requires Distinct(ports)
    ensures Unmanaged(cl, ports, Reruns(cl, ports, chain, n)) == Unmanaged(cl, ports, chain)
  {
    hide Unmanaged;
    if n > 0 {
      RerunsKeepUnmanaged(cl, ports, chain, n - 1);
      UnmanagedUntouched(cl, ports, Reruns(cl, ports, chain, n - 1), Program(cl, ports));
    }
  }

  lemma {:induction false} ProgramIsManaged(cl: Cluster, ports: seq<nat>, i: nat)
    requires i < |Program(cl, ports)|
    ensures Managed(cl, ports, Program(cl, ports)[i].rule)
  {
    var pass, rest := Pass(cl, ports[0]), Program(cl, ports[1..]);
    if i < |pass| {
      assert Program(cl, ports)[i] == pass[i];
      PassIsManaged(cl, ports[0], i);
    } else {
      assert Program(cl, ports)[i] == rest[i - |pass|];
      ProgramIsManaged(cl, ports[1..], i - |pass|);
    }
  }

  lemma PassIsManaged(cl: Cluster, port: nat, i: nat)
    requires i < |Pass(cl, port)|
    ensures Pass(cl, port)[i].rule in ManagedBy(cl, port) && Pass(cl, port)[i].rule.dport == Some(port)
  {
    var rules, block := ManagedBy(cl, port), Block(cl, port);
    forall r | r in block ensures r in rules && r.dport == Some(port) {}
    if i < |rules| { assert Pass(cl, port)[i] == Delete(rules[i]); }
    else { assert Pass(cl, port)[i] == Append(block[i - |rules|]); }
  }

  /** No command of the script touches an unmanaged rule. */
  lemma {:induction false} UnmanagedUntouched(cl: Cluster, ports: seq<nat>, chain: seq<Rule>, commands: seq<Command>)
    requires commands <= Program(cl, ports)
    ensures Unmanaged(cl, ports, Exec(chain, commands)) == Unmanaged(cl, ports, chain)
  {
    var unmanaged := r => !Managed(cl, ports, r);
    FilterExec(chain, commands, unmanaged);
    forall i | 0 <= i < |commands| ensures !unmanaged(commands[i].rule) { ProgramIsManaged(cl, ports, i); }
    NoCommands(commands, unmanaged);
  }

  lemma {:induction false} NoCommands(commands: seq<Command>, keep: Rule -> bool)
    requires forall i :: 0 <= i < |commands| ==> !keep(commands[i].rule)
    ensures FilterCommands(commands, keep) == []
  {
    if commands != [] { NoCommands(commands[1..], keep); }
  }

  /** Restarting the script reaches the canonical chain at some time if and only if the
      chain never held two copies of the same interface-scoped rule. */
  lemma RerunsConverge(cl: Cluster, ports: seq<nat>, chain: seq<Rule>)
    requires Distinct(ports) && Distinct(cl.peers)
    ensures (exists n :: Reruns(cl, ports, chain, n) == Canonical(cl, ports, chain))
            <==> (forall r | Managed(cl, ports, r) && r.iface.Some? :: multiset(chain)[r] <= 1)
  {
    forall n, r | Reruns(cl, ports, chain, n) == Canonical(cl, ports, chain) && Managed(cl, ports, r) && r.iface.Some?
      ensures multiset(chain)[r] <= 1
    {
      CanonicalIsStable(cl, ports, chain);
      CopiesAfterReruns(cl, ports, chain, n, r);
    }
    if forall r | Managed(cl, ports, r) && r.iface.Some? :: multiset(chain)[r] <= 1 {
      ConvergesIn(cl, ports, chain, |chain|);
    }
  }

  lemma ConvergesIn(cl: Cluster, ports: seq<nat>, chain: seq<Rule>, n: nat)
    requires Distinct(ports) && Distinct(cl.peers) && n >= |chain|
    requires forall r | Managed(cl, ports, r) && r.iface.Some? :: multiset(chain)[r] <= 1
    ensures Reruns(cl, ports, chain, n + 1) == Canonical(cl, ports, chain)
  {
    var last := Reruns(cl, ports, chain, n);
    forall r | Managed(cl, ports, r) ensures multiset(last)[r] <= 1 {
      CopiesAfterReruns(cl, ports, chain, n, r);
      assert multiset(chain)[r] <= |multiset(chain)| == |chain|;
    }
    RunIsCanonical(cl, ports, last);
    RerunsKeepUnmanaged(cl, ports, chain, n);
  }

  /** The smallest failing input: of two copies of an interface-scoped DROP one is left in
      front of the block, however often the script runs. */
  lemma DuplicateDropStays(cl: Cluster, port: nat, n: nat)
    requires Distinct(cl.peers)
    ensures var chain := [NewDrop(cl, port), NewDrop(cl, port)];
            && multiset(Reruns(cl, [port], chain, n))[NewDrop(cl, port)] == 2
            && Reruns(cl, [port], chain, n) != Canonical(cl, [port], chain)
  {
    var drop := NewDrop(cl, port);
    var chain := [drop, drop];
    assert drop in ManagedBy(cl, port);
    assert multiset(chain)[drop] == 2;
    CopiesAfterReruns(cl, [port], chain, n, drop);
    CanonicalIsStable(cl, [port], chain);
  }
}
