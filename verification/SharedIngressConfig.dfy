/** Generation of the shared HAProxy's configuration from the hosted clusters and their routes. */
module SharedIngressConfig {
  import opened Common
  import opened Sorting

  datatype HostedCluster = HostedCluster(
    namespace: string, name: string, clusterId: string, deleting: bool, isPrivate: bool,
    allowedCidrBlocks: seq<string>, kubeApiServerDnsName: string)

  datatype Service = Service(clusterIp: string, port: int)

  datatype Route = Route(name: string, host: string, serviceName: string)

  /** What the API server answers: services by namespace and name, labelled routes by namespace. */
  datatype Api = Api(services: map<(string, string), Service>, routes: string -> Option<seq<Route>>)

  datatype Backend = Backend(name: string, svcIp: string, svcPort: int, clusterId: string, allowedCidrs: seq<string>)

  datatype ExternalBackend = ExternalBackend(
    name: string, hostName: string, svcIp: string, svcPort: int, allowedCidrs: seq<string>)

  datatype Backends = Backends(internal: seq<Backend>, external: seq<ExternalBackend>)

  const NONE := Backends([], [])

  function Append(a: Backends, b: Backends): Backends {
    Backends(a.internal + b.internal, a.external + b.external)
  }

  /** The namespace of the hosted control plane, which is also the sort key. */
  function ControlPlane(hc: HostedCluster): string {
    hc.namespace + "-" + hc.name
  }

  function RouteName(route: Route): string {
    route.name
  }

  // ---- one hosted cluster ----

  function AllowedCidrs(blocks: seq<string>): seq<string> {
    if blocks == [] then []
    else
      var last := blocks[|blocks| - 1];
      AllowedCidrs(blocks[..|blocks| - 1]) + if last == "" then [] else [last]
  }

  function RouteBackend(namespace: string, route: Route, service: Service, cidrs: seq<string>): seq<ExternalBackend> {
    if route.name == "kube-apiserver" then
      [ExternalBackend(namespace + "-apiserver", route.host, service.clusterIp, 6443, cidrs)]
    else if route.name == "ignition-server" then
      [ExternalBackend(namespace + "-ignition", route.host, service.clusterIp, 443, cidrs)]
    else if route.name == "konnectivity-server" then
      [ExternalBackend(namespace + "-konnectivity", route.host, service.clusterIp, 8091, cidrs)]
    else if route.name == "oauth" then
      [ExternalBackend(namespace + "-oauth", route.host, service.clusterIp, 6443, cidrs)]
    else []
  }

  /** The backends of the first n routes, or none at all if one of their services cannot be read. */
  function RouteBackends(
      api: Api, namespace: string, routes: seq<Route>, cidrs: seq<string>, n: nat): Option<seq<ExternalBackend>>
    requires n <= |routes|
  {
    if n == 0 then Some([])
    else
      var before := RouteBackends(api, namespace, routes, cidrs, n - 1);
      var route := routes[n - 1];
      if before.None? || (namespace, route.serviceName) !in api.services then None
      else Some(before.value + RouteBackend(namespace, route, api.services[(namespace, route.serviceName)], cidrs))
  }

  function CustomBackend(hc: HostedCluster, kas: Service, cidrs: seq<string>): seq<ExternalBackend> {
    if hc.kubeApiServerDnsName == "" then []
    else [ExternalBackend(ControlPlane(hc) + "-apiserver-custom", hc.kubeApiServerDnsName, kas.clusterIp, 6443, cidrs)]
  }

  function KasBackend(hc: HostedCluster, kas: Service, cidrs: seq<string>): seq<Backend> {
    if hc.isPrivate then []
    else [Backend(ControlPlane(hc) + "-" + "kube-apiserver", kas.clusterIp, kas.port, hc.clusterId, cidrs)]
  }

  function BackendsFor(api: Api, hc: HostedCluster): Option<Backends> {
    var cidrs := AllowedCidrs(hc.allowedCidrBlocks);
    var namespace := ControlPlane(hc);
    if (namespace, "kube-apiserver") !in api.services || api.routes(namespace).None? then None
    else
      var kas := api.services[(namespace, "kube-apiserver")];
      var routes := Sort(api.routes(namespace).value, RouteName);
      match RouteBackends(api, namespace, routes, cidrs, |routes|)
      case None => None
      case Some(external) => Some(Backends(KasBackend(hc, kas, cidrs), external + CustomBackend(hc, kas, cidrs)))
  }

  method FilterCidrs(blocks: seq<string>) returns (cidrs: seq<string>)
    ensures cidrs == AllowedCidrs(blocks)
  {
    cidrs := [];
    for i := 0 to |blocks|
      invariant cidrs == AllowedCidrs(blocks[..i])
    {
      assert blocks[..i + 1][..i] == blocks[..i];
      if blocks[i] != "" {
        cidrs := cidrs + [blocks[i]];
      }
    }
    assert blocks[..|blocks|] == blocks;
  }

  method GetBackendsForHostedCluster(api: Api, hc: HostedCluster) returns (backends: Option<Backends>)
    ensures backends == BackendsFor(api, hc)
  {
    var cidrs := FilterCidrs(hc.allowedCidrBlocks);
    var namespace := ControlPlane(hc);
    if (namespace, "kube-apiserver") !in api.services {
      return None;
    }
    var kas := api.services[(namespace, "kube-apiserver")];
    var internal := [];
    if !hc.isPrivate {
      internal := internal + [Backend(namespace + "-" + "kube-apiserver", kas.clusterIp, kas.port, hc.clusterId,
          cidrs)];
    }
    assert internal == KasBackend(hc, kas, cidrs);
    if api.routes(namespace).None? {
      return None;
    }
    var routes := Sort(api.routes(namespace).value, RouteName);
    var external := [];
    for i := 0 to |routes|
      invariant RouteBackends(api, namespace, routes, cidrs, i) == Some(external)
    {
      if (namespace, routes[i].serviceName) !in api.services {
        RouteBackendsFail(api, namespace, routes, cidrs, i + 1, |routes|);
        return None;
      }
      external := external + RouteBackend(namespace, routes[i], api.services[(namespace, routes[i].serviceName)],
          cidrs);
    }
    return Some(Backends(internal, external + CustomBackend(hc, kas, cidrs)));
  }

  lemma {:induction false} RouteBackendsFail(
      api: Api, namespace: string, routes: seq<Route>, cidrs: seq<string>, n: nat, m: nat)
    requires n <= m <= |routes| && RouteBackends(api, namespace, routes, cidrs, n) == None
    ensures RouteBackends(api, namespace, routes, cidrs, m) == None
  {
    if n == m {
    } else {
      RouteBackendsFail(api, namespace, routes, cidrs, n, m - 1);
    }
  }

  // ---- all hosted clusters ----

  /** What a hosted cluster adds to the configuration: nothing if it is being deleted or fails. */
  function Contribution(api: Api, hc: HostedCluster): Backends {
    var backends := BackendsFor(api, hc);
    if hc.deleting || backends.None? then NONE else backends.value
  }

  function Contributions(api: Api, clusters: seq<HostedCluster>): Backends {
    if clusters == [] then NONE
    else Append(Contributions(api, clusters[..|clusters| - 1]), Contribution(api, clusters[|clusters| - 1]))
  }

  function RouterConfig(api: Api, listed: seq<HostedCluster>): Backends {
    Contributions(api, Sort(listed, ControlPlane))
  }

  method GenerateRouterConfig(api: Api, listed: Option<seq<HostedCluster>>) returns (params: Option<Backends>)
    ensures params == if listed.None? then None else Some(RouterConfig(api, listed.value))
  {
    if listed.None? {
      return None;
    }
    var clusters := Sort(listed.value, ControlPlane);
    var all := NONE;
    for i := 0 to |clusters|
      invariant all == Contributions(api, clusters[..i])
    {
      assert clusters[..i + 1][..i] == clusters[..i];
      if clusters[i].deleting {
        continue;
      }
      var backends := GetBackendsForHostedCluster(api, clusters[i]);
      if backends.None? {
        continue;
      }
      all := Append(all, backends.value);
    }
    assert clusters[..|clusters|] == clusters;
    return Some(all);
  }

  // ---- failures ----

  lemma {:induction false} RouteBackendsFailExactlyWhen(
      api: Api, namespace: string, routes: seq<Route>, cidrs: seq<string>, n: nat)
    requires n <= |routes|
    ensures RouteBackends(api, namespace, routes, cidrs, n).None? <==>
            exists i :: 0 <= i < n && (namespace, routes[i].serviceName) !in api.services
  {
    if n == 0 {
    } else {
      RouteBackendsFailExactlyWhen(api, namespace, routes, cidrs, n - 1);
    }
  }

  /** A hosted cluster fails exactly when its API server, its routes or a routed service cannot be read. */
  lemma FailsExactlyWhen(api: Api, hc: HostedCluster)
    ensures BackendsFor(api, hc).None? <==>
            || (ControlPlane(hc), "kube-apiserver") !in api.services
            || api.routes(ControlPlane(hc)).None?
            || exists route ::
                route in api.routes(ControlPlane(hc)).value && (ControlPlane(hc), route.serviceName) !in api.services
  {
    var namespace := ControlPlane(hc);
    if api.routes(namespace).Some? {
      var listed := api.routes(namespace).value;
      var routes := Sort(listed, RouteName);
      SortSorts(listed, RouteName);
      SameMembers(routes, listed);
      RouteBackendsFailExactlyWhen(api, namespace, routes, AllowedCidrs(hc.allowedCidrBlocks), |routes|);
    }
  }

  lemma SameMembers<T>(a: seq<T>, b: seq<T>)
    requires multiset(a) == multiset(b)
    ensures forall x :: x in a <==> x in b
  {
    forall x
      ensures x in a <==> x in b
    {
      assert x in a <==> x in multiset(a);
      assert x in b <==> x in multiset(b);
    }
  }

  /** Both answer alike about every namespace but this one. */
  ghost predicate AgreeOutside(api: Api, other: Api, namespace: string) {
    && (forall n, name :: n != namespace ==>
          ((n, name) in api.services <==> (n, name) in other.services)
          && ((n, name) in api.services ==> api.services[(n, name)] == other.services[(n, name)]))
    && (forall n :: n != namespace ==> api.routes(n) == other.routes(n))
  }

  lemma {:induction false} RouteBackendsAgree(
      api: Api, other: Api, namespace: string, own: string, routes: seq<Route>, cidrs: seq<string>, n: nat)
    requires AgreeOutside(api, other, namespace) && own != namespace && n <= |routes|
    ensures RouteBackends(api, own, routes, cidrs, n) == RouteBackends(other, own, routes, cidrs, n)
  {
    if n == 0 {
    } else {
      RouteBackendsAgree(api, other, namespace, own, routes, cidrs, n - 1);
      assert own != namespace;
    }
  }

  lemma OnlyOwnNamespaceMatters(api: Api, other: Api, namespace: string, hc: HostedCluster)
    requires AgreeOutside(api, other, namespace) && ControlPlane(hc) != namespace
    ensures Contribution(api, hc) == Contribution(other, hc)
  {
    var own := ControlPlane(hc);
    assert api.routes(own) == other.routes(own);
    if api.routes(own).Some? {
      var routes := Sort(api.routes(own).value, RouteName);
      RouteBackendsAgree(api, other, namespace, own, routes, AllowedCidrs(hc.allowedCidrBlocks), |routes|);
    }
  }

  lemma {:induction false} ContributionsAgree(api: Api, other: Api, namespace: string, clusters: seq<HostedCluster>)
    requires AgreeOutside(api, other, namespace)
    requires forall i :: 0 <= i < |clusters| ==> ControlPlane(clusters[i]) != namespace
    ensures Contributions(api, clusters) == Contributions(other, clusters)
  {
    if clusters == [] {
    } else {
      ContributionsAgree(api, other, namespace, clusters[..|clusters| - 1]);
      OnlyOwnNamespaceMatters(api, other, namespace, clusters[|clusters| - 1]);
    }
  }

  lemma {:induction false} ContributionsConcat(api: Api, a: seq<HostedCluster>, b: seq<HostedCluster>)
    ensures Contributions(api, a + b) == Append(Contributions(api, a), Contributions(api, b))
  {
    if b == [] {
      assert a + b == a;
    } else {
      var n := |b| - 1;
      ContributionsConcat(api, a, b[..n]);
      calc {
        Contributions(api, a + b);
        { assert (a + b)[..|a + b| - 1] == a + b[..n] && (a + b)[|a + b| - 1] == b[n]; }
        Append(Contributions(api, a + b[..n]), Contribution(api, b[n]));
        Append(Append(Contributions(api, a), Contributions(api, b[..n])), Contribution(api, b[n]));
        { AppendAssociative(Contributions(api, a), Contributions(api, b[..n]), Contribution(api, b[n])); }
        Append(Contributions(api, a), Contributions(api, b));
      }
    }
  }

  lemma AppendAssociative(a: Backends, b: Backends, c: Backends)
    ensures Append(Append(a, b), c) == Append(a, Append(b, c))
  {
    assert (a.internal + b.internal) + c.internal == a.internal + (b.internal + c.internal);
    assert (a.external + b.external) + c.external == a.external + (b.external + c.external);
  }

  /**
    Whatever becomes of one hosted cluster, the others' backends stay the same and in place: two
    configurations that differ in the answers about its namespace only share all around it.
   */
  lemma FailureIsIsolated(api: Api, other: Api, listed: seq<HostedCluster>, hc: HostedCluster)
    returns (before: Backends, after: Backends)
    requires DistinctKeys(listed, ControlPlane) && hc in listed && AgreeOutside(api, other, ControlPlane(hc))
    ensures RouterConfig(api, listed) == Append(before, Append(Contribution(api, hc), after))
    ensures RouterConfig(other, listed) == Append(before, Append(Contribution(other, hc), after))
  {
    var clusters := Sort(listed, ControlPlane);
    SortIgnoresOrder(listed, listed, ControlPlane);
    SortSorts(listed, ControlPlane);
    SameMembers(clusters, listed);
    var i :| 0 <= i < |clusters| && clusters[i] == hc;
    before, after := IsolatedAt(api, other, clusters, i);
  }

  lemma IsolatedAt(api: Api, other: Api, clusters: seq<HostedCluster>, i: nat)
    returns (before: Backends, after: Backends)
    requires i < |clusters| && DistinctKeys(clusters, ControlPlane)
    requires AgreeOutside(api, other, ControlPlane(clusters[i]))
    ensures Contributions(api, clusters) == Append(before, Append(Contribution(api, clusters[i]), after))
    ensures Contributions(other, clusters) == Append(before, Append(Contribution(other, clusters[i]), after))
  {
    var hc := clusters[i];
    var left, right := clusters[..i], clusters[i + 1..];
    forall k | 0 <= k < |left|
      ensures ControlPlane(left[k]) != ControlPlane(hc)
    {
      assert left[k] == clusters[k];
    }
    forall k | 0 <= k < |right|
      ensures ControlPlane(right[k]) != ControlPlane(hc)
    {
      assert right[k] == clusters[i + 1 + k];
    }
    ContributionsAgree(api, other, ControlPlane(hc), left);
    ContributionsAgree(api, other, ControlPlane(hc), right);
    before, after := Contributions(api, left), Contributions(api, right);
    assert clusters == left + ([hc] + right);
    Around(api, left, hc, right);
    Around(other, left, hc, right);
  }

  lemma Around(api: Api, left: seq<HostedCluster>, hc: HostedCluster, right: seq<HostedCluster>)
    ensures Contributions(api, left + ([hc] + right))
         == Append(Contributions(api, left), Append(Contribution(api, hc), Contributions(api, right)))
  {
    ContributionsConcat(api, left, [hc] + right);
    ContributionsConcat(api, [hc], right);
    assert Contributions(api, [hc]) == Append(NONE, Contribution(api, hc)) == Contribution(api, hc);
  }

  // ---- listing order ----

  /** The same services, and the same routes listed in any order. */
  ghost predicate SameAnswers(api: Api, other: Api) {
    && api.services == other.services
    && forall namespace ::
         && (api.routes(namespace).Some? <==> other.routes(namespace).Some?)
         && (api.routes(namespace).Some? ==>
               && multiset(api.routes(namespace).value) == multiset(other.routes(namespace).value)
               && DistinctKeys(api.routes(namespace).value, RouteName))
  }

  lemma {:induction false} RouteBackendsSame(
      api: Api, other: Api, namespace: string, routes: seq<Route>, cidrs: seq<string>, n: nat)
    requires api.services == other.services && n <= |routes|
    ensures RouteBackends(api, namespace, routes, cidrs, n) == RouteBackends(other, namespace, routes, cidrs, n)
  {
    if n == 0 {
    } else {
      RouteBackendsSame(api, other, namespace, routes, cidrs, n - 1);
    }
  }

  lemma ContributionIgnoresOrder(api: Api, other: Api, hc: HostedCluster)
    requires SameAnswers(api, other)
    ensures Contribution(api, hc) == Contribution(other, hc)
  {
    var namespace := ControlPlane(hc);
    if api.routes(namespace).Some? {
      SortIgnoresOrder(api.routes(namespace).value, other.routes(namespace).value, RouteName);
      var routes := Sort(api.routes(namespace).value, RouteName);
      RouteBackendsSame(api, other, namespace, routes, AllowedCidrs(hc.allowedCidrBlocks), |routes|);
    }
  }

  lemma {:induction false} ContributionsIgnoreOrder(api: Api, other: Api, clusters: seq<HostedCluster>)
    requires SameAnswers(api, other)
    ensures Contributions(api, clusters) == Contributions(other, clusters)
  {
    if clusters == [] {
    } else {
      ContributionsIgnoreOrder(api, other, clusters[..|clusters| - 1]);
      ContributionIgnoresOrder(api, other, clusters[|clusters| - 1]);
    }
  }

  /** The configuration does not depend on the order in which hosted clusters and routes are listed. */
  lemma ConfigIgnoresListingOrder(api: Api, other: Api, listed: seq<HostedCluster>, relisted: seq<HostedCluster>)
    requires SameAnswers(api, other) && DistinctKeys(listed, ControlPlane) && multiset(listed) == multiset(relisted)
    ensures RouterConfig(api, listed) == RouterConfig(other, relisted)
  {
    SortIgnoresOrder(listed, relisted, ControlPlane);
    ContributionsIgnoreOrder(api, other, Sort(listed, ControlPlane));
  }
}
