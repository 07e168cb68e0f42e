/** scripts/deploy/render-postgres-runtime.sh: six substitutions per line, with the two
    HAProxy hosts chosen by the role of the node. */
module PostgresRuntime {
  import opened Wrappers
  import opened Substitution

  /** The variables the script reads; an unset one is "" to it. */
  datatype Environment = Environment(role: string, primaryHost: string, replicaHost: string,
                                     user: string, standbyName: string)

  datatype Templates = Templates(primaryConf: seq<string>, standbyConf: seq<string>, hba: seq<string>,
                                 haproxy: seq<string>)

  datatype Runtime = Runtime(conf: seq<string>, hba: seq<string>, haproxy: seq<string>)

  function PrimaryHost(e: Environment): string { OrElse(e.primaryHost, "postgres") }
  function ReplicaHost(e: Environment): string { OrElse(e.replicaHost, "postgres") }

  /** The expressions of `sed`, in order. */
  function Expressions(e: Environment, haproxyPrimary: string, haproxyReplica: string): seq<Binding> {
    [Binding("STANDBY_NAME", OrElse(e.standbyName, "standby1")),
     Binding("DATABASE_PRIMARY_HOST", PrimaryHost(e)),
     Binding("DATABASE_REPLICA_HOST", ReplicaHost(e)),
     Binding("HAPROXY_PRIMARY_HOST", haproxyPrimary),
     Binding("HAPROXY_REPLICA_HOST", haproxyReplica),
     Binding("POSTGRES_USER", OrElse(e.user, "postgres"))]
  }

  method RenderTemplate(lines: seq<string>, bindings: seq<Binding>) returns (out: seq<string>)
    ensures out == ChainLines(lines, bindings)
  {
    out := [];
    for i := 0 to |lines|
      invariant out == ChainLines(lines, bindings)[..i]
    {
      var line := lines[i];
      for j := 0 to |bindings|
        invariant Chain(line, bindings[j..]) == Chain(lines[i], bindings)
      {
        var pattern := Placeholder(bindings[j].name);
        assert bindings[j..][1..] == bindings[j + 1..];
        line := ReplaceAll(line, pattern, Expand(bindings[j].value, pattern));
      }
      assert bindings[|bindings|..] == [];
      out := out + [line];
    }
  }

  /** What the two HAProxy placeholders stand for on a node of this role. */
  function HaproxyHosts(e: Environment): Option<(string, string)> {
    match OrElse(e.role, "primary")
    case "primary" => Some(("postgres", ReplicaHost(e)))
    case "standby" => Some((PrimaryHost(e), "postgres"))
    case _ => None
  }

  /** The whole script; any other role fails before a file is written. */
  method RenderRuntime(e: Environment, t: Templates) returns (r: Option<Runtime>)
    ensures r.Some? <==> HaproxyHosts(e).Some?
    ensures r.Some? ==>
              var bindings := Expressions(e, HaproxyHosts(e).value.0, HaproxyHosts(e).value.1);
              && r.value.conf == ChainLines(if OrElse(e.role, "primary") == "primary" then t.primaryConf
                                               else t.standbyConf, bindings)
              && r.value.hba == ChainLines(t.hba, bindings)
              && r.value.haproxy == ChainLines(t.haproxy, bindings)
  {
    var haproxyPrimary, haproxyReplica := PrimaryHost(e), ReplicaHost(e);
    var conf: seq<string>;
    match OrElse(e.role, "primary") {
      case "primary" =>
        haproxyPrimary := "postgres";
        haproxyReplica := ReplicaHost(e);
        conf := RenderTemplate(t.primaryConf, Expressions(e, haproxyPrimary, haproxyReplica));
      case "standby" =>
        haproxyPrimary := PrimaryHost(e);
        haproxyReplica := "postgres";
        conf := RenderTemplate(t.standbyConf, Expressions(e, haproxyPrimary, haproxyReplica));
      case _ =>
        return None;
    }
    var hba := RenderTemplate(t.hba, Expressions(e, haproxyPrimary, haproxyReplica));
    var haproxy := RenderTemplate(t.haproxy, Expressions(e, haproxyPrimary, haproxyReplica));
    r := Some(Runtime(conf, hba, haproxy));
  }

  // ---------- the rendered text ----------

  /** Values that `sed` takes literally; a slash would end its expression. */
  ghost predicate SedValue(value: string) { PlainValue(value) && '/' !in value }

  ghost predicate PlainEnvironment(e: Environment) {
    SedValue(e.primaryHost) && SedValue(e.replicaHost) && SedValue(e.user) && SedValue(e.standbyName)
  }

  lemma HostNames()
    ensures IsName("DATABASE_PRIMARY_HOST") && IsName("DATABASE_REPLICA_HOST")
  {
  }

  lemma HaproxyNames()
    ensures IsName("HAPROXY_PRIMARY_HOST") && IsName("HAPROXY_REPLICA_HOST")
  {
  }

  lemma OtherNames()
    ensures IsName("STANDBY_NAME") && IsName("POSTGRES_USER") && SedValue("postgres") && SedValue("standby1")
  {
  }

  lemma NamesAreGood(e: Environment, primary: string, replica: string)
    ensures GoodNames(Expressions(e, primary, replica))
  {
    HostNames();
    HaproxyNames();
    OtherNames();
    var x := Expressions(e, primary, replica);
    assert |x[0].name| == 12 && |x[1].name| == |x[2].name| == 21;
    assert |x[3].name| == |x[4].name| == 20 && |x[5].name| == 13;
    assert x[1].name[9] == 'P' && x[2].name[9] == 'R' && x[3].name[8] == 'P' && x[4].name[8] == 'R';
  }

  lemma ExpressionsAreGood(e: Environment, primary: string, replica: string)
    requires PlainEnvironment(e) && SedValue(primary) && SedValue(replica)
    ensures GoodBindings(Expressions(e, primary, replica))
  {
    NamesAreGood(e, primary, replica);
    OtherNames();
  }

  /** The roles a node can have: "primary", which is the default, and "standby". */
  lemma KnownRoles(e: Environment)
    ensures HaproxyHosts(e).Some? <==> e.role in ["", "primary", "standby"]
  {
  }

  lemma BoundValues(e: Environment, primary: string, replica: string)
    ensures var values := ValueMap(Expressions(e, primary, replica));
            && Gives(values, "STANDBY_NAME", if e.standbyName == "" then "standby1" else e.standbyName)
            && Gives(values, "DATABASE_PRIMARY_HOST", if e.primaryHost == "" then "postgres" else e.primaryHost)
            && Gives(values, "DATABASE_REPLICA_HOST", if e.replicaHost == "" then "postgres" else e.replicaHost)
            && Gives(values, "HAPROXY_PRIMARY_HOST", primary)
            && Gives(values, "HAPROXY_REPLICA_HOST", replica)
            && Gives(values, "POSTGRES_USER", if e.user == "" then "postgres" else e.user)
  {
    var x := Expressions(e, primary, replica);
    NamesAreGood(e, primary, replica);
    hide ValueMap, GoodNames;
    ValueOf(x, 0);
    ValueOf(x, 1);
    ValueOf(x, 2);
    ValueOf(x, 3);
    ValueOf(x, 4);
    ValueOf(x, 5);
  }

  /**
    What the six placeholders stand for on a node, in terms of its variables. HAProxy's
    host of the node's own role is the local database, the other one is the other node.
   */
  lemma ValuesOnNode(e: Environment)
    requires HaproxyHosts(e).Some?
    ensures var (primary, replica) := HaproxyHosts(e).value;
            var values := ValueMap(Expressions(e, primary, replica));
            && Gives(values, "STANDBY_NAME", if e.standbyName == "" then "standby1" else e.standbyName)
            && Gives(values, "DATABASE_PRIMARY_HOST", if e.primaryHost == "" then "postgres" else e.primaryHost)
            && Gives(values, "DATABASE_REPLICA_HOST", if e.replicaHost == "" then "postgres" else e.replicaHost)
            && Gives(values, "HAPROXY_PRIMARY_HOST",
                     if e.role == "standby" && e.primaryHost != "" then e.primaryHost else "postgres")
            && Gives(values, "HAPROXY_REPLICA_HOST",
                     if e.role != "standby" && e.replicaHost != "" then e.replicaHost else "postgres")
            && Gives(values, "POSTGRES_USER", if e.user == "" then "postgres" else e.user)
  {
    var (primary, replica) := HaproxyHosts(e).value;
    BoundValues(e, primary, replica);
  }

  /** On a node of either role, every line of every template comes out with all its holes
      filled at once with the values of `ValuesOnNode`, and none left if all have one. */
  lemma LineOnNode(l: Line, e: Environment)
    requires WellFormed(l) && PlainEnvironment(e) && HaproxyHosts(e).Some?
    ensures var (primary, replica) := HaproxyHosts(e).value;
            var values := ValueMap(Expressions(e, primary, replica));
            var out := Chain(Text(l), Expressions(e, primary, replica));
            && out == FillAll(l, values)
            && (AllBound(l, values.Keys) ==> Quiet(out))
            && (e.role in ["", "primary"] ==>
                  Gives(values, "HAPROXY_PRIMARY_HOST", "postgres")
                  && Gives(values, "HAPROXY_REPLICA_HOST", if e.replicaHost == "" then "postgres" else e.replicaHost))
            && (e.role == "standby" ==>
                  Gives(values, "HAPROXY_PRIMARY_HOST", if e.primaryHost == "" then "postgres" else e.primaryHost)
                  && Gives(values, "HAPROXY_REPLICA_HOST", "postgres"))
  {
    var (primary, replica) := HaproxyHosts(e).value;
    OtherNames();
    ValuesOnNode(e);
    ExpressionsAreGood(e, primary, replica);
    ChainIsSimultaneous(l, Expressions(e, primary, replica));
    if AllBound(l, ValueMap(Expressions(e, primary, replica)).Keys) {
      NothingSurvives(l, Expressions(e, primary, replica));
    }
  }

  /** HAProxy's line for the primary, `server primary __HAPROXY_PRIMARY_HOST__:5432 ...`:
      the node itself, or on a standby the other node. */
  lemma PrimaryLineOnNode(e: Environment, before: string, after: string)
    requires PlainEnvironment(e) && HaproxyHosts(e).Some? && Quiet(before) && Quiet(after)
    ensures Chain(before + (Placeholder("HAPROXY_PRIMARY_HOST") + after),
                  Expressions(e, HaproxyHosts(e).value.0, HaproxyHosts(e).value.1))
         == before + ((if e.role == "standby" && e.primaryHost != "" then e.primaryHost else "postgres") + after)
  {
    HaproxyNames();
    hide Quiet, IsName, Chain, ValueMap, PlainEnvironment, Expressions, Placeholder;
    LineOnNode(Hole(before, "HAPROXY_PRIMARY_HOST", End(after)), e);
    ValuesOnNode(e);
  }
}
