/** Service descriptions, and the gRPC targets built from them. The target string is
    the key under which the connection manager caches a connection. */
module Dns {
  import opened Wrappers
  import opened Text

  const DEFAULT_RESOLVER_SCHEME := "dns"
  const DEFAULT_NAMESPACE := "default"
  const DEFAULT_SERVICE_TYPE := "svc"
  const DEFAULT_CLUSTER_DOMAIN := "cluster.local"
  const DEFAULT_SERVICE_PORT: Port := 9090

  datatype DnsError =
    | ServiceNameEmpty
    | NamespaceEmpty
    | TargetHostEmpty
    | TargetPortInvalid
    | TargetResolverSchemeEmpty

  type Port = n: nat | n < 0x1_0000

  // ----- Configuration -----

  datatype DnsConfig = DnsConfig(
    defaultNamespace: string,
    defaultServiceType: string,
    defaultClusterDomain: string,
    defaultPort: Port,
    resolverScheme: string)
  {
    predicate Usable() {
      && !Blank(defaultNamespace)
      && !Blank(defaultServiceType)
      && !Blank(defaultClusterDomain)
      && defaultPort != 0
      && !Blank(resolverScheme)
    }

    function Normalized(): (c: DnsConfig)
      ensures c.Usable()
      ensures Usable() ==> c == this
      ensures c.defaultNamespace == if Blank(defaultNamespace) then "default" else defaultNamespace
      ensures c.defaultServiceType == if Blank(defaultServiceType) then "svc" else defaultServiceType
      ensures c.defaultClusterDomain == if Blank(defaultClusterDomain) then "cluster.local" else defaultClusterDomain
      ensures c.defaultPort == if defaultPort == 0 then 9090 else defaultPort
      ensures c.resolverScheme == if Blank(resolverScheme) then "dns" else resolverScheme
    {
      DefaultsAreNotBlank();
      DnsConfig(
        OrDefault(defaultNamespace, DEFAULT_NAMESPACE),
        OrDefault(defaultServiceType, DEFAULT_SERVICE_TYPE),
        OrDefault(defaultClusterDomain, DEFAULT_CLUSTER_DOMAIN),
        if defaultPort == 0 then DEFAULT_SERVICE_PORT else defaultPort,
        OrDefault(resolverScheme, DEFAULT_RESOLVER_SCHEME))
    }
  }

  type UsableConfig = c: DnsConfig | c.Usable()
    witness (DefaultsAreNotBlank(); DnsConfig(DEFAULT_NAMESPACE, DEFAULT_SERVICE_TYPE, DEFAULT_CLUSTER_DOMAIN, DEFAULT_SERVICE_PORT, DEFAULT_RESOLVER_SCHEME))

  lemma DefaultsAreNotBlank()
    ensures !Blank(DEFAULT_NAMESPACE) && !Blank(DEFAULT_SERVICE_TYPE)
    ensures !Blank(DEFAULT_CLUSTER_DOMAIN) && !Blank(DEFAULT_RESOLVER_SCHEME)
  {
    assert !IsSpace(DEFAULT_NAMESPACE[0]) && !IsSpace(DEFAULT_SERVICE_TYPE[0]);
    assert !IsSpace(DEFAULT_CLUSTER_DOMAIN[0]) && !IsSpace(DEFAULT_RESOLVER_SCHEME[0]);
  }

  function OrDefault(s: string, default: string): string {
    if Blank(s) then default else s
  }

  // ----- Descriptions and what they denote -----

  datatype Description = Description(
    service: string,
    namespace: string,
    serviceType: string,
    clusterDomain: string,
    port: Port)

  function Filled(c: UsableConfig, d: Description): Description {
    Description(
      d.service,
      OrDefault(d.namespace, c.defaultNamespace),
      OrDefault(d.serviceType, c.defaultServiceType),
      OrDefault(d.clusterDomain, c.defaultClusterDomain),
      if d.port == 0 then c.defaultPort else d.port)
  }

  function HostName(d: Description): string {
    Trim(d.service) + "." + Trim(d.namespace) + "." + Trim(d.serviceType) + "." + Trim(d.clusterDomain)
  }

  datatype Endpoint = Endpoint(host: string, port: Port)

  /** Where a description leads once the defaults are filled in. */
  function EndpointOf(c: UsableConfig, d: Description): Endpoint {
    var f := Filled(c, d);
    Endpoint(HostName(f), f.port)
  }

  /** net.JoinHostPort. */
  function JoinHostPort(host: string, port: string): string {
    if ':' in host then "[" + host + "]:" + port else host + ":" + port
  }

  function TargetString(scheme: string, e: Endpoint): string {
    scheme + ":///" + JoinHostPort(e.host, Decimal(e.port))
  }

  function CacheKey(c: UsableConfig, d: Description): string {
    TargetString(c.resolverScheme, EndpointOf(c, d))
  }

  // ----- The objects the repository updates in place -----

  class DNS {
    var service: string
    var namespace: string
    var serviceType: string
    var clusterDomain: string
    var port: Port

    constructor (d: Description)
      ensures Value() == d
    {
      service, namespace, serviceType, clusterDomain, port :=
        d.service, d.namespace, d.serviceType, d.clusterDomain, d.port;
    }

    function Value(): Description
      reads this
    {
      Description(service, namespace, serviceType, clusterDomain, port)
    }
  }

  class Target {
    var resolverScheme: string
    var host: string
    var port: Port
    var address: string
    var grpcTarget: string

    constructor (resolverScheme: string, host: string, port: Port)
      ensures this.resolverScheme == resolverScheme && this.host == host && this.port == port
      ensures address == "" && grpcTarget == ""
    {
      this.resolverScheme, this.host, this.port := resolverScheme, host, port;
      address, grpcTarget := "", "";
    }

    function Validate(): Option<DnsError>
      reads this
    {
      if Blank(resolverScheme) then Some(TargetResolverSchemeEmpty)
      else if Blank(host) then Some(TargetHostEmpty)
      else if port == 0 then Some(TargetPortInvalid)
      else None
    }

    function Address(): string
      reads this
    {
      if address != "" then address else JoinHostPort(Trim(host), Decimal(port))
    }

    function GRPCTarget(): string
      reads this
    {
      if grpcTarget != "" then grpcTarget else resolverScheme + ":///" + Address()
    }

    /** Computes both strings anew. What the target answers stays the same unless it had strings
        cached for other fields. */
    method CacheDerivedStrings()
      modifies `address, `grpcTarget
      ensures address == JoinHostPort(Trim(host), Decimal(port)) != ""
      ensures grpcTarget == resolverScheme + ":///" + address
      ensures old(address) == "" ==> Address() == old(Address())
      ensures old(address) == "" && old(grpcTarget) == "" ==> GRPCTarget() == old(GRPCTarget())
    {
      address := JoinHostPort(Trim(host), Decimal(port));
      grpcTarget := resolverScheme + ":///" + address;
    }
  }

  class DnsManager {
    const config: UsableConfig

    constructor (config: Option<DnsConfig>)
      ensures this.config == (if config.Some? then config.value
                              else DnsConfig("", "", "", 0, "")).Normalized()
    {
      this.config := (if config.Some? then config.value
                      else DnsConfig("", "", "", 0, "")).Normalized();
    }

    /** Fills the defaults into the caller's object, or into a new one when there is none. */
    method Normalize(dns: DNS?) returns (r: DNS)
      modifies dns
      ensures dns != null ==> r == dns && r.Value() == Filled(config, old(dns.Value()))
      ensures dns == null ==> fresh(r) && r.Value() == Filled(config, Description("", "", "", "", 0))
      ensures r.service == if dns == null then "" else old(dns.service)
      ensures r.namespace == if dns == null || Blank(old(dns.namespace)) then config.defaultNamespace else old(dns.namespace)
      ensures r.serviceType == if dns == null || Blank(old(dns.serviceType)) then config.defaultServiceType else old(dns.serviceType)
      ensures r.clusterDomain ==
        if dns == null || Blank(old(dns.clusterDomain)) then config.defaultClusterDomain else old(dns.clusterDomain)
      ensures r.port == if dns == null || old(dns.port) == 0 then config.defaultPort else old(dns.port)
    {
      if dns == null {
        r := new DNS(Description("", "", "", "", 0));
      } else {
        r := dns;
      }
      if Blank(r.namespace) {
        r.namespace := config.defaultNamespace;
      }
      if Blank(r.serviceType) {
        r.serviceType := config.defaultServiceType;
      }
      if Blank(r.clusterDomain) {
        r.clusterDomain := config.defaultClusterDomain;
      }
      if r.port == 0 {
        r.port := config.defaultPort;
      }
    }

    method Build(dns: DNS?) returns (r: Result<Target, DnsError>)
      modifies dns
      ensures r.Ok? <==> dns != null && !Blank(old(dns.service))
      ensures r.Err? ==> r.error == ServiceNameEmpty
      ensures dns != null ==> dns.Value() == Filled(config, old(dns.Value()))
      ensures r.Ok? ==>
        && fresh(r.value)
        && r.value.GRPCTarget() == CacheKey(config, old(dns.Value()))
        && Endpoint(r.value.host, r.value.port) == EndpointOf(config, old(dns.Value()))
    {
      var d := Normalize(dns);
      r := BuildTarget(d.Value());
    }

    /** The part of Build that follows the filling of defaults. */
    method BuildTarget(d: Description) returns (r: Result<Target, DnsError>)
      requires d == Filled(config, d)
      ensures r.Ok? <==> !Blank(d.service)
      ensures r.Err? ==> r.error == ServiceNameEmpty
      ensures r.Ok? ==>
        && fresh(r.value)
        && r.value.GRPCTarget() == CacheKey(config, d)
        && Endpoint(r.value.host, r.value.port) == EndpointOf(config, d)
    {
      var invalid := Validate(d);
      if invalid.Some? {
        return Err(invalid.value);
      }
      var port := EffectivePort(d, config.defaultPort);
      if port.Err? {
        return Err(TargetPortInvalid);
      }
      HostIsTrimmed(d);
      var target := new Target(config.resolverScheme, HostName(d), port.value);
      target.CacheDerivedStrings();
      match target.Validate() {
        case Some(e) => return Err(e);
        case None => return Ok(target);
      }
    }

    /** Building twice from one object, whose defaults the first call filled in place,
        gives the same target. */
    method BuildTwice(dns: DNS) returns (first: Result<Target, DnsError>, second: Result<Target, DnsError>)
      modifies dns
      ensures first.Ok? == second.Ok?
      ensures first.Ok? ==> first.value.GRPCTarget() == second.value.GRPCTarget()
    {
      first := Build(dns);
      second := Build(dns);
    }
  }

  function Validate(d: Description): Option<DnsError> {
    if Blank(d.service) then Some(ServiceNameEmpty)
    else if Blank(d.namespace) then Some(NamespaceEmpty)
    else None
  }

  function EffectivePort(d: Description, defaultPort: Port): Result<Port, DnsError> {
    if d.port != 0 then Ok(d.port) else if defaultPort != 0 then Ok(defaultPort) else Err(TargetPortInvalid)
  }

  // ----- Which descriptions share a target -----

  lemma HostIsTrimmed(d: Description)
    requires !Blank(d.service) && !Blank(d.clusterDomain)
    ensures Trim(HostName(d)) == HostName(d) && HostName(d) != ""
  {
    var h := HostName(d);
    assert h[0] == Trim(d.service)[0];
    assert h[|h| - 1] == Trim(d.clusterDomain)[|Trim(d.clusterDomain)| - 1];
  }

  /** What stands before the port: a host that holds a colon is bracketed. */
  function BeforePort(host: string): string {
    if ':' in host then "[" + host + "]" else host
  }

  lemma JoinedForm(host: string, port: string)
    ensures JoinHostPort(host, port) == BeforePort(host) + ":" + port
  {
  }

  lemma BracketsKeepColons(host: string)
    ensures ':' in BeforePort(host) <==> ':' in host
  {
    if ':' in host {
      assert BeforePort(host)[1..|host| + 1] == host;
    }
  }

  lemma BeforePortIsInjective(host: string, host': string)
    requires BeforePort(host) == BeforePort(host')
    ensures host == host'
  {
    BracketsKeepColons(host);
    BracketsKeepColons(host');
    if ':' in host {
      var s := BeforePort(host);
      assert s[1..|s| - 1] == host && s[1..|s| - 1] == host';
    }
  }

  /** Host and port can be read back from their joined form: the last colon separates them. */
  lemma JoinHostPortIsInjective(host: string, port: nat, host': string, port': nat)
    requires JoinHostPort(host, Decimal(port)) == JoinHostPort(host', Decimal(port'))
    ensures host == host' && port == port'
  {
    JoinedForm(host, Decimal(port));
    JoinedForm(host', Decimal(port'));
    LastColon(BeforePort(host), Decimal(port), BeforePort(host'), Decimal(port'));
    BeforePortIsInjective(host, host');
    DecimalRoundTrip(port);
    DecimalRoundTrip(port');
  }

  /** The last colon of `host:port` separates the two, because ports hold none. */
  lemma LastColon(s: string, p: string, s': string, p': string)
    requires ':' !in p && ':' !in p'
    requires s + ":" + p == s' + ":" + p'
    ensures s == s' && p == p'
  {
    var t := s + ":" + p;
    assert t[|s|] == ':' && t[|s'|] == ':';
    assert |s| == |s'| by {
      assert p == t[|s| + 1..] && p' == t[|s'| + 1..];
      assert forall i :: |s| < i < |t| ==> t[i] in p;
      assert forall i :: |s'| < i < |t| ==> t[i] in p';
    }
    assert s == t[..|s|] && s' == t[..|s'|];
    assert p == t[|s| + 1..] && p' == t[|s'| + 1..];
  }

  /** Two descriptions share a cache key exactly when their defaulted and trimmed host
      and port are equal. */
  lemma CacheKeysAreExact(c: UsableConfig, d: Description, d': Description)
    ensures CacheKey(c, d) == CacheKey(c, d') <==> EndpointOf(c, d) == EndpointOf(c, d')
  {
    if CacheKey(c, d) == CacheKey(c, d') {
      var prefix := c.resolverScheme + ":///";
      var e, e' := EndpointOf(c, d), EndpointOf(c, d');
      assert CacheKey(c, d)[|prefix|..] == JoinHostPort(e.host, Decimal(e.port));
      assert CacheKey(c, d')[|prefix|..] == JoinHostPort(e'.host, Decimal(e'.port));
      JoinHostPortIsInjective(e.host, e.port, e'.host, e'.port);
    }
  }

  /** The target of a description in full: the scheme, and then service, namespace, service type and cluster
      domain in this order, and the port; each defaulted and trimmed, the host in brackets if it has a colon. */
  lemma TargetInFull(c: UsableConfig, d: Description)
    ensures
      var namespace := Trim(if Blank(d.namespace) then c.defaultNamespace else d.namespace);
      var serviceType := Trim(if Blank(d.serviceType) then c.defaultServiceType else d.serviceType);
      var domain := Trim(if Blank(d.clusterDomain) then c.defaultClusterDomain else d.clusterDomain);
      var port := Decimal(if d.port == 0 then c.defaultPort else d.port);
      var host := Trim(d.service) + "." + namespace + "." + serviceType + "." + domain;
      CacheKey(c, d) == c.resolverScheme + ":///" + (if ':' in host then "[" + host + "]:" + port else host + ":" + port)
  {
  }

  predicate Labels(d: Description) {
    '.' !in d.service && '.' !in d.namespace && '.' !in d.serviceType
  }

  /** When service, namespace and service type are single labels, a shared key means
      that every defaulted and trimmed field is equal. */
  lemma KeysOfLabelsAreExact(c: UsableConfig, d: Description, d': Description)
    requires Labels(Filled(c, d)) && Labels(Filled(c, d'))
    ensures CacheKey(c, d) == CacheKey(c, d') <==>
      var f, f' := Filled(c, d), Filled(c, d');
      && Trim(f.service) == Trim(f'.service)
      && Trim(f.namespace) == Trim(f'.namespace)
      && Trim(f.serviceType) == Trim(f'.serviceType)
      && Trim(f.clusterDomain) == Trim(f'.clusterDomain)
      && f.port == f'.port
  {
    CacheKeysAreExact(c, d, d');
    var f, f' := Filled(c, d), Filled(c, d');
    if HostName(f) == HostName(f') {
      LabelsAreSeparated(
        Trim(f.service), Trim(f.namespace), Trim(f.serviceType), Trim(f.clusterDomain),
        Trim(f'.service), Trim(f'.namespace), Trim(f'.serviceType), Trim(f'.clusterDomain));
    }
  }

  lemma LabelsAreSeparated(a: string, b: string, c: string, d: string, a': string, b': string, c': string, d': string)
    requires '.' !in a && '.' !in b && '.' !in c && '.' !in a' && '.' !in b' && '.' !in c'
    requires a + "." + b + "." + c + "." + d == a' + "." + b' + "." + c' + "." + d'
    ensures a == a' && b == b' && c == c' && d == d'
  {
    var cd, cd' := c + "." + d, c' + "." + d';
    var bcd, bcd' := b + "." + cd, b' + "." + cd';
    assert a + "." + b + "." + c + "." + d == a + "." + bcd;
    assert a' + "." + b' + "." + c' + "." + d' == a' + "." + bcd';
    JoinIsInjective(a, bcd, '.', a', bcd');
    JoinIsInjective(b, cd, '.', b', cd');
    JoinIsInjective(c, d, '.', c', d');
  }
}
