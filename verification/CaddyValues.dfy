/** What scripts/deploy/render-infra-caddyfile.sh puts into each hole of the template, and
    which alternative of each service it renders, in terms of its own variables. */
module CaddyValues {
  import opened Substitution
  import opened Sections
  import opened CaddyRuntime
  import opened CaddyText

  /** The addresses, each from its own variable or its own default. */
  lemma AddressesInHoles(e: Environment)
    ensures var values := ValueMap(BindingsOf(e));
            && Gives(values, "SENTRY_SERVER_IP", if e.sentryIp == "" then "94.130.13.115" else e.sentryIp)
            && Gives(values, "NOFEEBOOKING_SERVER_IP", if e.nofeeIp == "" then "94.130.13.115" else e.nofeeIp)
            && Gives(values, "NOFEEBOOKING_BACKEND_2", if e.backend2 == "" then "88.99.151.102" else e.backend2)
            && Gives(values, "NOFEEBOOKING_BACKEND_3", if e.backend3 == "" then "138.201.129.173" else e.backend3)
            && Gives(values, "STORJ_SERVER_IP", if e.storjIp == "" then "94.130.13.115" else e.storjIp)
  {
    var b := BindingsOf(e);
    NamesAreGood(e);
    hide ValueMap, GoodNames;
    ValueOf(b, 3);
    ValueOf(b, 4);
    ValueOf(b, 5);
    ValueOf(b, 6);
    ValueOf(b, 7);
  }

  /** The directive for two files. */
  function TlsLine(crt: string, key: string): string { "    tls " + (crt + (" " + key)) }

  lemma DirectiveIsTlsLine(pair: string)
    ensures Directive(pair) == TlsLine(TLS_PATH + Crt(pair), TLS_PATH + Key(pair))
  {
    assert TLS_PATH + (Crt(pair) + (" " + (TLS_PATH + Key(pair))))
        == (TLS_PATH + Crt(pair)) + (" " + (TLS_PATH + Key(pair)));
  }

  lemma TlsCrtPath()
    ensures Crt(TLS) == "tls.crt" && TLS_PATH + "tls.crt" == "/etc/caddy/tls/tls.crt"
  {
  }

  lemma TlsKeyPath()
    ensures Key(TLS) == "tls.key" && TLS_PATH + "tls.key" == "/etc/caddy/tls/tls.key"
  {
  }

  lemma NofeeCrtPath()
    ensures Crt(NOFEE) == "nofeebooking.crt" && TLS_PATH + "nofeebooking.crt" == "/etc/caddy/tls/nofeebooking.crt"
  {
  }

  lemma NofeeKeyPath()
    ensures Key(NOFEE) == "nofeebooking.key" && TLS_PATH + "nofeebooking.key" == "/etc/caddy/tls/nofeebooking.key"
  {
  }

  lemma WwwCrtPath()
    ensures Crt(WWW) == "nofeebooking-www.crt"
    ensures TLS_PATH + "nofeebooking-www.crt" == "/etc/caddy/tls/nofeebooking-www.crt"
  {
  }

  lemma WwwKeyPath()
    ensures Key(WWW) == "nofeebooking-www.key"
    ensures TLS_PATH + "nofeebooking-www.key" == "/etc/caddy/tls/nofeebooking-www.key"
  {
  }

  /** The directives, each if both variables of its pair are set; those of nofeebooking only
      on a host that is not the TLS source. */
  lemma DirectivesInHoles(e: Environment)
    ensures var values := ValueMap(BindingsOf(e));
            && Gives(values, "TLS_DIRECTIVE",
                     if e.tlsCert != "" && e.tlsKey != ""
                     then TlsLine("/etc/caddy/tls/tls.crt", "/etc/caddy/tls/tls.key") else "")
            && Gives(values, "NOFEEBOOKING_TLS_DIRECTIVE",
                     if e.tlsSource != "true" && e.nofeeCert != "" && e.nofeeKey != ""
                     then TlsLine("/etc/caddy/tls/nofeebooking.crt", "/etc/caddy/tls/nofeebooking.key") else "")
            && Gives(values, "NOFEEBOOKING_WWW_TLS_DIRECTIVE",
                     if e.tlsSource != "true" && e.wwwCert != "" && e.wwwKey != ""
                     then TlsLine("/etc/caddy/tls/nofeebooking-www.crt", "/etc/caddy/tls/nofeebooking-www.key") else "")
  {
    var b := BindingsOf(e);
    NamesAreGood(e);
    TlsCrtPath();
    TlsKeyPath();
    NofeeCrtPath();
    NofeeKeyPath();
    WwwCrtPath();
    WwwKeyPath();
    DirectiveIsTlsLine(TLS);
    DirectiveIsTlsLine(NOFEE);
    DirectiveIsTlsLine(WWW);
    hide ValueMap, GoodNames, Directive, TlsLine, Crt, Key;
    ValueOf(b, 0);
    ValueOf(b, 1);
    ValueOf(b, 2);
  }

  /** A proxied service: its address between what the template has before and after it. */
  lemma ProxyLine(e: Environment, before: string, name: string, after: string)
    requires PlainAddresses(e) && Quiet(before) && IsName(name) && Quiet(after)
    requires name in ValueMap(BindingsOf(e))
    ensures Chain(before + (Placeholder(name) + after), BindingsOf(e))
         == before + (ValueMap(BindingsOf(e))[name] + after)
  {
    LineIsFilled(Hole(before, name, End(after)), e);
  }

  lemma ProxyParts()
    ensures Quiet("    reverse_proxy ") && Quiet(":3004") && Quiet(":9000") && Quiet(":80")
  {
  }

  lemma StorjHole()
    ensures Placeholder("STORJ_SERVER_IP") == "__STORJ_SERVER_IP__"
    ensures "__STORJ_SERVER_IP__" + ":3004" == "__STORJ_SERVER_IP__:3004"
  {
  }

  lemma StorjProxyText()
    ensures "    reverse_proxy __STORJ_SERVER_IP__:3004"
         == "    reverse_proxy " + (Placeholder("STORJ_SERVER_IP") + ":3004")
  {
    hide Placeholder;
    StorjHole();
  }

  lemma SentryHole()
    ensures Placeholder("SENTRY_SERVER_IP") == "__SENTRY_SERVER_IP__"
    ensures "__SENTRY_SERVER_IP__" + ":9000" == "__SENTRY_SERVER_IP__:9000"
  {
  }

  lemma SentryProxyText()
    ensures "    reverse_proxy __SENTRY_SERVER_IP__:9000"
         == "    reverse_proxy " + (Placeholder("SENTRY_SERVER_IP") + ":9000")
  {
    hide Placeholder;
    SentryHole();
  }

  lemma NofeeHole()
    ensures Placeholder("NOFEEBOOKING_SERVER_IP") == "__NOFEEBOOKING_SERVER_IP__"
    ensures "__NOFEEBOOKING_SERVER_IP__" + ":80" == "__NOFEEBOOKING_SERVER_IP__:80"
  {
  }

  lemma NofeeProxyText()
    ensures "    reverse_proxy __NOFEEBOOKING_SERVER_IP__:80"
         == "    reverse_proxy " + (Placeholder("NOFEEBOOKING_SERVER_IP") + ":80")
  {
    hide Placeholder;
    NofeeHole();
  }

  /** The proxy lines of the template go to the address of their own service. */
  lemma ProxiesGoToTheirService(e: Environment)
    requires PlainAddresses(e)
    ensures Chain("    reverse_proxy __STORJ_SERVER_IP__:3004", BindingsOf(e))
         == "    reverse_proxy " + ((if e.storjIp == "" then "94.130.13.115" else e.storjIp) + ":3004")
    ensures Chain("    reverse_proxy __SENTRY_SERVER_IP__:9000", BindingsOf(e))
         == "    reverse_proxy " + ((if e.sentryIp == "" then "94.130.13.115" else e.sentryIp) + ":9000")
    ensures Chain("    reverse_proxy __NOFEEBOOKING_SERVER_IP__:80", BindingsOf(e))
         == "    reverse_proxy " + ((if e.nofeeIp == "" then "94.130.13.115" else e.nofeeIp) + ":80")
  {
    ProxyParts();
    StorjProxyText();
    SentryProxyText();
    NofeeProxyText();
    ShortNames();
    NofeeIpName();
    AddressesInHoles(e);
    hide Chain, ValueMap, BindingsOf, Placeholder, Quiet, IsName, PlainAddresses;
    ProxyLine(e, "    reverse_proxy ", "STORJ_SERVER_IP", ":3004");
    ProxyLine(e, "    reverse_proxy ", "SENTRY_SERVER_IP", ":9000");
    ProxyLine(e, "    reverse_proxy ", "NOFEEBOOKING_SERVER_IP", ":80");
  }

  /** Which alternative of each service is rendered. A variable that is unset counts as one
      that is not "true": the proxy of each service, and no TLS source. */
  lemma AlternativesByVariables(e: Environment)
    ensures Alternative(Sentry, SettingsOf(e)) == if e.sentry == "true" then SentryBlock else SentryProxy
    ensures Alternative(Storj, SettingsOf(e)) == if e.storj == "true" then StorjBlock else StorjProxy
    ensures Alternative(Nofeebooking, SettingsOf(e))
         == if e.nofeebooking != "true" then NofeeProxy
            else if e.tlsSource == "true" then NofeeBlock else NofeeStatic
    ensures forall k :: !Skipped(k, SettingsOf(e)) <==> k == Alternative(ServiceOf(k), SettingsOf(e))
  {
  }
}
