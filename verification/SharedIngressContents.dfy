/** What the generated configuration contains: which backends there are, and what each of them says. */
module SharedIngressContents {
  import opened Common
  import opened Sorting
  import opened SharedIngressConfig

  /** The hosted cluster is not being deleted, and everything that is read about it can be read. */
  ghost predicate IsServed(api: Api, hc: HostedCluster) {
    var namespace := hc.namespace + "-" + hc.name;
    && !hc.deleting
    && (namespace, "kube-apiserver") in api.services
    && api.routes(namespace).Some?
    && forall route :: route in api.routes(namespace).value ==> (namespace, route.serviceName) in api.services
  }

  /** Exactly the nonempty blocks, each as often as listed. */
  ghost predicate IsAllowList(blocks: seq<string>, cidrs: seq<string>) {
    forall block :: multiset(cidrs)[block] == if block == "" then 0 else multiset(blocks)[block]
  }

  /** The backend for the hosted cluster's own API server service. */
  ghost predicate IsInternalBackend(api: Api, hc: HostedCluster, backend: Backend)
    requires IsServed(api, hc)
  {
    var service := api.services[(ControlPlane(hc), "kube-apiserver")];
    && backend.name == ControlPlane(hc) + "-kube-apiserver"
    && backend.svcIp == service.clusterIp && backend.svcPort == service.port
    && backend.clusterId == hc.clusterId
    && IsAllowList(hc.allowedCidrBlocks, backend.allowedCidrs)
  }

  /** The routes that get a backend, with its suffix and port. */
  predicate IsExposed(route: string, suffix: string, port: int) {
    || (route == "kube-apiserver" && suffix == "-apiserver" && port == 6443)
    || (route == "ignition-server" && suffix == "-ignition" && port == 443)
    || (route == "konnectivity-server" && suffix == "-konnectivity" && port == 8091)
    || (route == "oauth" && suffix == "-oauth" && port == 6443)
  }

  /** The backend for one of the hosted cluster's routes. */
  ghost predicate IsRouteBackend(
      api: Api, hc: HostedCluster, route: Route, suffix: string, port: int, backend: ExternalBackend)
    requires IsServed(api, hc) && route in api.routes(ControlPlane(hc)).value
  {
    && IsExposed(route.name, suffix, port)
    && backend.name == ControlPlane(hc) + suffix && backend.svcPort == port
    && backend.hostName == route.host
    && backend.svcIp == api.services[(ControlPlane(hc), route.serviceName)].clusterIp
    && IsAllowList(hc.allowedCidrBlocks, backend.allowedCidrs)
  }

  /** The backend for the hosted cluster's own name for its API server. */
  ghost predicate IsCustomBackend(api: Api, hc: HostedCluster, backend: ExternalBackend)
    requires IsServed(api, hc)
  {
    && hc.kubeApiServerDnsName != ""
    && backend.name == ControlPlane(hc) + "-apiserver-custom" && backend.svcPort == 6443
    && backend.hostName == hc.kubeApiServerDnsName
    && backend.svcIp == api.services[(ControlPlane(hc), "kube-apiserver")].clusterIp
    && IsAllowList(hc.allowedCidrBlocks, backend.allowedCidrs)
  }

  // ---- one hosted cluster ----

  lemma {:induction false} CidrsExactly(blocks: seq<string>)
    ensures IsAllowList(blocks, AllowedCidrs(blocks))
  {
    if blocks == [] {
    } else {
      var n := |blocks| - 1;
      CidrsExactly(blocks[..n]);
      assert blocks == blocks[..n] + [blocks[n]];
      forall block
        ensures multiset(AllowedCidrs(blocks))[block] == if block == "" then 0 else multiset(blocks)[block]
      {
        assert multiset(AllowedCidrs(blocks))[block]
            == multiset(AllowedCidrs(blocks[..n]))[block] + if block != "" && block == blocks[n] then 1 else 0;
      }
    }
  }

  lemma ServedExactlyWhen(api: Api, hc: HostedCluster)
    ensures IsServed(api, hc) <==> !hc.deleting && BackendsFor(api, hc).Some?
    ensures !IsServed(api, hc) ==> Contribution(api, hc) == NONE
  {
    FailsExactlyWhen(api, hc);
  }

  /** A hosted cluster that is served has one internal backend if it is not private, and otherwise none. */
  lemma InternalOfCluster(api: Api, hc: HostedCluster)
    ensures var internal := Contribution(api, hc).internal;
            if IsServed(api, hc) && !hc.isPrivate
            then |internal| == 1 && IsInternalBackend(api, hc, internal[0]) else internal == []
  {
    ServedExactlyWhen(api, hc);
    CidrsExactly(hc.allowedCidrBlocks);
    assert ControlPlane(hc) + "-" + "kube-apiserver" == ControlPlane(hc) + "-kube-apiserver";
  }

  /** The routes in the order of their names. */
  function RoutesOf(api: Api, hc: HostedCluster): seq<Route>
    requires api.routes(ControlPlane(hc)).Some?
  {
    Sort(api.routes(ControlPlane(hc)).value, RouteName)
  }

  lemma RoutesListed(api: Api, hc: HostedCluster)
    requires api.routes(ControlPlane(hc)).Some?
    ensures forall route :: route in RoutesOf(api, hc) <==> route in api.routes(ControlPlane(hc)).value
  {
    SortSorts(api.routes(ControlPlane(hc)).value, RouteName);
    SameMembers(RoutesOf(api, hc), api.routes(ControlPlane(hc)).value);
  }

  /** One route adds one backend if it is exposed, and otherwise none. */
  lemma RouteAdds(api: Api, hc: HostedCluster, route: Route)
    requires IsServed(api, hc) && route in api.routes(ControlPlane(hc)).value
    ensures var service := api.services[(ControlPlane(hc), route.serviceName)];
            var added := RouteBackend(ControlPlane(hc), route, service, AllowedCidrs(hc.allowedCidrBlocks));
            && |added| <= 1
            && (forall suffix, port :: IsExposed(route.name, suffix, port) ==>
                  |added| == 1 && IsRouteBackend(api, hc, route, suffix, port, added[0]))
            && (|added| == 1 ==> exists suffix, port :: IsRouteBackend(api, hc, route, suffix, port, added[0]))
  {
    CidrsExactly(hc.allowedCidrBlocks);
    assert "kube-apiserver"[0] == 'k' && "ignition-server"[0] == 'i' && "oauth"[0] == 'o';
    assert "konnectivity-server"[1] == 'o' && "kube-apiserver"[1] == 'u' && "konnectivity-server"[0] == 'k';
    var suffix, port := if route.name == "kube-apiserver" then "-apiserver"
                        else if route.name == "ignition-server" then "-ignition"
                        else if route.name == "konnectivity-server" then "-konnectivity" else "-oauth",
                        if route.name == "ignition-server" then 443
                        else if route.name == "konnectivity-server" then 8091 else 6443;
    var service := api.services[(ControlPlane(hc), route.serviceName)];
    var added := RouteBackend(ControlPlane(hc), route, service, AllowedCidrs(hc.allowedCidrBlocks));
    if |added| == 1 {
      assert IsRouteBackend(api, hc, route, suffix, port, added[0]);
    }
  }

  /** The backend of one of the first n routes, in the order of their names. */
  ghost predicate IsOfRoutes(api: Api, hc: HostedCluster, n: nat, backend: ExternalBackend)
    requires IsServed(api, hc)
  {
    exists i, suffix, port {:trigger IsOfRoute(api, hc, i, suffix, port, backend)} ::
      0 <= i < n && IsOfRoute(api, hc, i, suffix, port, backend)
  }

  ghost predicate IsOfRoute(
      api: Api, hc: HostedCluster, i: int, suffix: string, port: int, backend: ExternalBackend)
    requires IsServed(api, hc)
  {
    && 0 <= i < |RoutesOf(api, hc)| && RoutesOf(api, hc)[i] in api.routes(ControlPlane(hc)).value
    && IsRouteBackend(api, hc, RoutesOf(api, hc)[i], suffix, port, backend)
  }

  ghost function Listed(api: Api, hc: HostedCluster, n: nat): Option<seq<ExternalBackend>>
    requires IsServed(api, hc) && n <= |RoutesOf(api, hc)|
  {
    RouteBackends(api, ControlPlane(hc), RoutesOf(api, hc), AllowedCidrs(hc.allowedCidrBlocks), n)
  }

  /** What route i adds to the backends of those before it. */
  lemma ListedStep(api: Api, hc: HostedCluster, i: nat) returns (added: seq<ExternalBackend>)
    requires IsServed(api, hc) && i < |RoutesOf(api, hc)| && Listed(api, hc, i).Some?
    ensures Listed(api, hc, i + 1) == Some(Listed(api, hc, i).value + added) && |added| <= 1
    ensures forall suffix, port :: IsExposed(RoutesOf(api, hc)[i].name, suffix, port) ==>
              |added| == 1 && IsOfRoute(api, hc, i, suffix, port, added[0])
    ensures |added| == 1 ==> exists suffix, port :: IsOfRoute(api, hc, i, suffix, port, added[0])
  {
    var route := RoutesOf(api, hc)[i];
    RoutesListed(api, hc);
    assert route in RoutesOf(api, hc);
    RouteAdds(api, hc, route);
    added := RouteBackend(ControlPlane(hc), route, api.services[(ControlPlane(hc), route.serviceName)],
      AllowedCidrs(hc.allowedCidrBlocks));
    if |added| == 1 {
      var suffix, port :| IsRouteBackend(api, hc, route, suffix, port, added[0]);
      assert IsOfRoute(api, hc, i, suffix, port, added[0]);
    }
  }

  lemma {:induction false} ListedIsOfRoutes(api: Api, hc: HostedCluster, n: nat)
    requires IsServed(api, hc) && n <= |RoutesOf(api, hc)|
    ensures Listed(api, hc, n).Some?
    ensures forall k :: 0 <= k < |Listed(api, hc, n).value| ==> IsOfRoutes(api, hc, n, Listed(api, hc, n).value[k])
  {
    if n == 0 {
    } else {
      ListedIsOfRoutes(api, hc, n - 1);
      var added := ListedStep(api, hc, n - 1);
      var before, all := Listed(api, hc, n - 1).value, Listed(api, hc, n).value;
      forall k | 0 <= k < |all|
        ensures IsOfRoutes(api, hc, n, all[k])
      {
        if k < |before| {
          assert IsOfRoutes(api, hc, n - 1, before[k]);
        }
      }
    }
  }

  lemma {:induction false} RouteIsListed(api: Api, hc: HostedCluster, n: nat, i: nat, suffix: string, port: int)
    returns (k: nat)
    requires IsServed(api, hc) && i < n <= |RoutesOf(api, hc)|
    requires IsExposed(RoutesOf(api, hc)[i].name, suffix, port)
    ensures Listed(api, hc, n).Some? && k < |Listed(api, hc, n).value|
    ensures IsOfRoute(api, hc, i, suffix, port, Listed(api, hc, n).value[k])
  {
    ListedIsOfRoutes(api, hc, n - 1);
    var added := ListedStep(api, hc, n - 1);
    if i == n - 1 {
      k := |Listed(api, hc, n - 1).value|;
    } else {
      k := RouteIsListed(api, hc, n - 1, i, suffix, port);
    }
  }

  /** Of one of the hosted cluster's routes, or under its own name. */
  ghost predicate IsExternalBackend(api: Api, hc: HostedCluster, backend: ExternalBackend)
    requires IsServed(api, hc)
  {
    || IsCustomBackend(api, hc, backend)
    || exists route, suffix, port :: route in api.routes(ControlPlane(hc)).value
                                     && IsRouteBackend(api, hc, route, suffix, port, backend)
  }

  lemma ExternalShape(api: Api, hc: HostedCluster) returns (custom: seq<ExternalBackend>)
    requires IsServed(api, hc)
    ensures Listed(api, hc, |RoutesOf(api, hc)|).Some?
    ensures Contribution(api, hc).external == Listed(api, hc, |RoutesOf(api, hc)|).value + custom
    ensures if hc.kubeApiServerDnsName == "" then custom == []
            else |custom| == 1 && IsCustomBackend(api, hc, custom[0])
  {
    ServedExactlyWhen(api, hc);
    CidrsExactly(hc.allowedCidrBlocks);
    ListedIsOfRoutes(api, hc, |RoutesOf(api, hc)|);
    custom := CustomBackend(hc, api.services[(ControlPlane(hc), "kube-apiserver")],
      AllowedCidrs(hc.allowedCidrBlocks));
  }

  /** Every external backend of a hosted cluster is one of those. */
  lemma ExternalOfCluster(api: Api, hc: HostedCluster, backend: ExternalBackend)
    requires backend in Contribution(api, hc).external
    ensures IsServed(api, hc) && IsExternalBackend(api, hc, backend)
  {
    ServedExactlyWhen(api, hc);
    var custom := ExternalShape(api, hc);
    var n := |RoutesOf(api, hc)|;
    var routed := Listed(api, hc, n).value;
    if backend in routed {
      ListedIsOfRoutes(api, hc, n);
      var k :| 0 <= k < |routed| && routed[k] == backend;
      assert IsOfRoutes(api, hc, n, routed[k]);
      var i, suffix, port :| 0 <= i < n && IsOfRoute(api, hc, i, suffix, port, backend);
      assert IsRouteBackend(api, hc, RoutesOf(api, hc)[i], suffix, port, backend);
    }
  }

  /** Every exposed route of a hosted cluster that is served has its backend. */
  lemma RouteHasBackend(api: Api, hc: HostedCluster, route: Route, suffix: string, port: int)
    returns (backend: ExternalBackend)
    requires IsServed(api, hc) && route in api.routes(ControlPlane(hc)).value
    requires IsExposed(route.name, suffix, port)
    ensures backend in Contribution(api, hc).external && IsRouteBackend(api, hc, route, suffix, port, backend)
  {
    RoutesListed(api, hc);
    var custom := ExternalShape(api, hc);
    var routes := RoutesOf(api, hc);
    var i :| 0 <= i < |routes| && routes[i] == route;
    var k := RouteIsListed(api, hc, |routes|, i, suffix, port);
    backend := Listed(api, hc, |routes|).value[k];
  }

  // ---- the whole configuration ----

  lemma ContributionKept(api: Api, clusters: seq<HostedCluster>, i: nat)
    requires i < |clusters|
    ensures forall backend :: backend in Contribution(api, clusters[i]).internal ==>
              backend in Contributions(api, clusters).internal
    ensures forall backend :: backend in Contribution(api, clusters[i]).external ==>
              backend in Contributions(api, clusters).external
  {
    assert clusters == clusters[..i] + ([clusters[i]] + clusters[i + 1..]);
    Around(api, clusters[..i], clusters[i], clusters[i + 1..]);
  }

  lemma {:induction false} InternalOrigin(api: Api, clusters: seq<HostedCluster>, backend: Backend) returns (i: nat)
    requires backend in Contributions(api, clusters).internal
    ensures i < |clusters| && backend in Contribution(api, clusters[i]).internal
  {
    var n := |clusters| - 1;
    if backend in Contribution(api, clusters[n]).internal {
      i := n;
    } else {
      i := InternalOrigin(api, clusters[..n], backend);
    }
  }

  lemma {:induction false} ExternalOrigin(api: Api, clusters: seq<HostedCluster>, backend: ExternalBackend)
    returns (i: nat)
    requires backend in Contributions(api, clusters).external
    ensures i < |clusters| && backend in Contribution(api, clusters[i]).external
  {
    var n := |clusters| - 1;
    if backend in Contribution(api, clusters[n]).external {
      i := n;
    } else {
      i := ExternalOrigin(api, clusters[..n], backend);
    }
  }

  lemma ListedAt(listed: seq<HostedCluster>, hc: HostedCluster) returns (i: nat)
    requires hc in listed
    ensures i < |Sort(listed, ControlPlane)| && Sort(listed, ControlPlane)[i] == hc
  {
    var clusters := Sort(listed, ControlPlane);
    SortSorts(listed, ControlPlane);
    SameMembers(clusters, listed);
    i :| 0 <= i < |clusters| && clusters[i] == hc;
  }

  /** A backend is in the configuration exactly if a listed hosted cluster contributes it. */
  lemma InternalMember(api: Api, listed: seq<HostedCluster>, backend: Backend)
    ensures backend in RouterConfig(api, listed).internal <==>
            exists hc :: hc in listed && backend in Contribution(api, hc).internal
  {
    var clusters := Sort(listed, ControlPlane);
    if backend in RouterConfig(api, listed).internal {
      var i := InternalOrigin(api, clusters, backend);
      SortSorts(listed, ControlPlane);
      SameMembers(clusters, listed);
    } else if hc :| hc in listed && backend in Contribution(api, hc).internal {
      var i := ListedAt(listed, hc);
      ContributionKept(api, clusters, i);
    }
  }

  lemma ExternalMember(api: Api, listed: seq<HostedCluster>, backend: ExternalBackend)
    ensures backend in RouterConfig(api, listed).external <==>
            exists hc :: hc in listed && backend in Contribution(api, hc).external
  {
    var clusters := Sort(listed, ControlPlane);
    if backend in RouterConfig(api, listed).external {
      var i := ExternalOrigin(api, clusters, backend);
      SortSorts(listed, ControlPlane);
      SameMembers(clusters, listed);
    } else if hc :| hc in listed && backend in Contribution(api, hc).external {
      var i := ListedAt(listed, hc);
      ContributionKept(api, clusters, i);
    }
  }

  /**
    The internal backends are exactly those of the listed hosted clusters that are served and not
    private, each with the address of its API server service.
   */
  lemma InternalExactly(api: Api, listed: seq<HostedCluster>)
    ensures forall backend :: backend in RouterConfig(api, listed).internal ==>
              exists hc :: hc in listed && IsServed(api, hc) && !hc.isPrivate && IsInternalBackend(api, hc, backend)
    ensures forall hc :: hc in listed && IsServed(api, hc) && !hc.isPrivate ==>
              exists backend :: backend in RouterConfig(api, listed).internal && IsInternalBackend(api, hc, backend)
  {
    forall backend | backend in RouterConfig(api, listed).internal
      ensures exists hc :: hc in listed && IsServed(api, hc) && !hc.isPrivate && IsInternalBackend(api, hc, backend)
    {
      InternalMember(api, listed, backend);
      var hc :| hc in listed && backend in Contribution(api, hc).internal;
      InternalOfCluster(api, hc);
    }
    forall hc | hc in listed && IsServed(api, hc) && !hc.isPrivate
      ensures exists backend :: backend in RouterConfig(api, listed).internal && IsInternalBackend(api, hc, backend)
    {
      InternalOfCluster(api, hc);
      var backend := Contribution(api, hc).internal[0];
      InternalMember(api, listed, backend);
    }
  }

  /**
    The external backends are exactly those of the exposed routes of the listed hosted clusters that
    are served, and those under a hosted cluster's own name.
   */
  lemma ExternalExactly(api: Api, listed: seq<HostedCluster>)
    ensures forall backend :: backend in RouterConfig(api, listed).external ==>
              exists hc :: hc in listed && IsServed(api, hc) && IsExternalBackend(api, hc, backend)
    ensures forall hc :: hc in listed && IsServed(api, hc) && hc.kubeApiServerDnsName != "" ==>
              exists backend :: backend in RouterConfig(api, listed).external && IsCustomBackend(api, hc, backend)
    ensures forall hc, route, suffix, port ::
              hc in listed && IsServed(api, hc) && route in api.routes(ControlPlane(hc)).value
              && IsExposed(route.name, suffix, port) ==>
              exists backend :: backend in RouterConfig(api, listed).external
                                && IsRouteBackend(api, hc, route, suffix, port, backend)
  {
    forall backend | backend in RouterConfig(api, listed).external
      ensures exists hc :: hc in listed && IsServed(api, hc) && IsExternalBackend(api, hc, backend)
    {
      ExternalMember(api, listed, backend);
      var hc :| hc in listed && backend in Contribution(api, hc).external;
      ExternalOfCluster(api, hc, backend);
    }
    forall hc | hc in listed && IsServed(api, hc) && hc.kubeApiServerDnsName != ""
      ensures exists backend :: backend in RouterConfig(api, listed).external && IsCustomBackend(api, hc, backend)
    {
      var custom := ExternalShape(api, hc);
      ExternalMember(api, listed, custom[0]);
    }
    forall hc, route, suffix, port |
      hc in listed && IsServed(api, hc) && route in api.routes(ControlPlane(hc)).value
      && IsExposed(route.name, suffix, port)
      ensures exists backend :: backend in RouterConfig(api, listed).external
                                && IsRouteBackend(api, hc, route, suffix, port, backend)
    {
      var backend := RouteHasBackend(api, hc, route, suffix, port);
      ExternalMember(api, listed, backend);
    }
  }

  // ---- no two backends share a name ----

  predicate IsSuffix(suffix: string) {
    suffix in {"-apiserver", "-ignition", "-konnectivity", "-oauth", "-apiserver-custom"}
  }

  lemma NameSplits(a: string, suffix: string, b: string, other: string)
    requires IsSuffix(suffix) && IsSuffix(other) && a + suffix == b + other
    ensures a == b && suffix == other
  {
    var name := a + suffix;
    assert name[|name| - 1] == suffix[|suffix| - 1] == other[|other| - 1];
    assert "-apiserver"[9] == 'r' && "-ignition"[8] == 'n' && "-konnectivity"[12] == 'y';
    assert "-oauth"[5] == 'h' && "-apiserver-custom"[16] == 'm';
    assert a == name[..|name| - |suffix|];
  }

  /** The suffix under which a hosted cluster's backend is named. */
  lemma ExternalName(api: Api, hc: HostedCluster, backend: ExternalBackend) returns (suffix: string)
    requires backend in Contribution(api, hc).external
    ensures IsSuffix(suffix) && backend.name == ControlPlane(hc) + suffix
  {
    ExternalOfCluster(api, hc, backend);
    if IsCustomBackend(api, hc, backend) {
      suffix := "-apiserver-custom";
    } else {
      var route, taken, port :|
        route in api.routes(ControlPlane(hc)).value && IsRouteBackend(api, hc, route, taken, port, backend);
      suffix := taken;
    }
  }

  ghost predicate NamesDiffer(backends: seq<ExternalBackend>) {
    forall i, j :: 0 <= i < j < |backends| ==> backends[i].name != backends[j].name
  }

  /** Routes of different names are exposed under different suffixes, none of them that of the own name. */
  lemma SuffixesDiffer(a: string, b: string, suffix: string, port: int, other: string, otherPort: int)
    requires IsExposed(a, suffix, port) && IsExposed(b, other, otherPort)
    ensures suffix == other ==> a == b
    ensures IsSuffix(suffix) && suffix != "-apiserver-custom"
  {
    assert "-apiserver"[9] == 'r' && "-ignition"[8] == 'n' && "-konnectivity"[12] == 'y' && "-oauth"[5] == 'h';
    assert |"-apiserver-custom"| == 17;
  }

  lemma AppendedNamesDiffer(before: seq<ExternalBackend>, added: seq<ExternalBackend>)
    requires NamesDiffer(before) && NamesDiffer(added)
    requires forall i, j :: 0 <= i < |before| && 0 <= j < |added| ==> before[i].name != added[j].name
    ensures NamesDiffer(before + added)
  {
  }

  lemma {:induction false} RoutedNamesDiffer(api: Api, hc: HostedCluster, n: nat)
    requires IsServed(api, hc) && n <= |RoutesOf(api, hc)| && DistinctKeys(RoutesOf(api, hc), RouteName)
    ensures Listed(api, hc, n).Some? && NamesDiffer(Listed(api, hc, n).value)
  {
    if n > 0 {
      RoutedNamesDiffer(api, hc, n - 1);
      var added := ListedStep(api, hc, n - 1);
      AddedNameDiffers(api, hc, n - 1, added);
      AppendedNamesDiffer(Listed(api, hc, n - 1).value, added);
    }
  }

  lemma AddedNameDiffers(api: Api, hc: HostedCluster, n: nat, added: seq<ExternalBackend>)
    requires IsServed(api, hc) && n < |RoutesOf(api, hc)| && DistinctKeys(RoutesOf(api, hc), RouteName)
    requires Listed(api, hc, n).Some? && |added| <= 1
    requires |added| == 1 ==> exists suffix, port :: IsOfRoute(api, hc, n, suffix, port, added[0])
    ensures var before := Listed(api, hc, n).value;
            forall i, j :: 0 <= i < |before| && 0 <= j < |added| ==> before[i].name != added[j].name
  {
    if |added| == 1 {
      var suffix, port :| IsOfRoute(api, hc, n, suffix, port, added[0]);
      ListedIsOfRoutes(api, hc, n);
      var before := Listed(api, hc, n).value;
      forall i | 0 <= i < |before|
        ensures before[i].name != added[0].name
      {
        NewNameDiffers(api, hc, n, before[i], suffix, port, added[0]);
      }
    }
  }

  lemma NewNameDiffers(
      api: Api, hc: HostedCluster, n: nat, earlier: ExternalBackend, suffix: string, port: int,
      added: ExternalBackend)
    requires IsServed(api, hc) && n < |RoutesOf(api, hc)| && DistinctKeys(RoutesOf(api, hc), RouteName)
    requires IsOfRoutes(api, hc, n, earlier) && IsOfRoute(api, hc, n, suffix, port, added)
    ensures earlier.name != added.name
  {
    var i, other, otherPort :| 0 <= i < n && IsOfRoute(api, hc, i, other, otherPort, earlier);
    var routes := RoutesOf(api, hc);
    SuffixesDiffer(routes[i].name, routes[n].name, other, otherPort, suffix, port);
    SuffixesDiffer(routes[n].name, routes[i].name, suffix, port, other, otherPort);
    assert RouteName(routes[i]) != RouteName(routes[n]);
    if earlier.name == added.name {
      NameSplits(ControlPlane(hc), suffix, ControlPlane(hc), other);
    }
  }

  /** A hosted cluster's backends have names of their own if its routes have. */
  lemma ClusterNamesDiffer(api: Api, hc: HostedCluster)
    requires api.routes(ControlPlane(hc)).Some? ==> DistinctKeys(api.routes(ControlPlane(hc)).value, RouteName)
    ensures NamesDiffer(Contribution(api, hc).external)
  {
    ServedExactlyWhen(api, hc);
    if IsServed(api, hc) {
      var n := |RoutesOf(api, hc)|;
      SortSorts(api.routes(ControlPlane(hc)).value, RouteName);
      PermutationKeepsKeysDistinct(api.routes(ControlPlane(hc)).value, RoutesOf(api, hc), RouteName);
      RoutedNamesDiffer(api, hc, n);
      var custom := ExternalShape(api, hc);
      var routed := Listed(api, hc, n).value;
      ListedIsOfRoutes(api, hc, n);
      forall i, j | 0 <= i < |routed| && 0 <= j < |custom|
        ensures routed[i].name != custom[j].name
      {
        RoutedIsNotCustom(api, hc, routed[i], custom[j]);
      }
      AppendedNamesDiffer(routed, custom);
    }
  }

  lemma RoutedIsNotCustom(api: Api, hc: HostedCluster, routed: ExternalBackend, custom: ExternalBackend)
    requires IsServed(api, hc) && IsOfRoutes(api, hc, |RoutesOf(api, hc)|, routed) && IsCustomBackend(api, hc, custom)
    ensures routed.name != custom.name
  {
    var i, suffix, port :| 0 <= i < |RoutesOf(api, hc)| && IsOfRoute(api, hc, i, suffix, port, routed);
    var name := RoutesOf(api, hc)[i].name;
    SuffixesDiffer(name, name, suffix, port, suffix, port);
    if routed.name == custom.name {
      NameSplits(ControlPlane(hc), suffix, ControlPlane(hc), "-apiserver-custom");
    }
  }

  ghost predicate RoutesDiffer(api: Api, clusters: seq<HostedCluster>) {
    forall i :: 0 <= i < |clusters| && api.routes(ControlPlane(clusters[i])).Some? ==>
      DistinctKeys(api.routes(ControlPlane(clusters[i])).value, RouteName)
  }

  lemma {:induction false} SortedNamesDiffer(api: Api, clusters: seq<HostedCluster>)
    requires DistinctKeys(clusters, ControlPlane) && RoutesDiffer(api, clusters)
    ensures NamesDiffer(Contributions(api, clusters).external)
  {
    if clusters == [] {
    } else {
      var n := |clusters| - 1;
      SortedNamesDiffer(api, clusters[..n]);
      ClusterNamesDiffer(api, clusters[n]);
      var before, added := Contributions(api, clusters[..n]).external, Contribution(api, clusters[n]).external;
      forall i, j | 0 <= i < |before| && 0 <= j < |added|
        ensures before[i].name != added[j].name
      {
        var k := ExternalOrigin(api, clusters[..n], before[i]);
        var suffix := ExternalName(api, clusters[k], before[i]);
        var other := ExternalName(api, clusters[n], added[j]);
        if before[i].name == added[j].name {
          NameSplits(ControlPlane(clusters[k]), suffix, ControlPlane(clusters[n]), other);
        }
      }
      AppendedNamesDiffer(before, added);
    }
  }

  /**
    With distinct keys of the hosted clusters and distinct names of each one's routes, no two
    external backends share a name: each exposed route and each own name has exactly one.
   */
  lemma ExternalNamesDiffer(api: Api, listed: seq<HostedCluster>)
    requires DistinctKeys(listed, ControlPlane) && RoutesDiffer(api, listed)
    ensures NamesDiffer(RouterConfig(api, listed).external)
  {
    var clusters := Sort(listed, ControlPlane);
    SortSorts(listed, ControlPlane);
    PermutationKeepsKeysDistinct(listed, clusters, ControlPlane);
    SameMembers(clusters, listed);
    forall i | 0 <= i < |clusters| && api.routes(ControlPlane(clusters[i])).Some?
      ensures DistinctKeys(api.routes(ControlPlane(clusters[i])).value, RouteName)
    {
      assert clusters[i] in listed;
    }
    SortedNamesDiffer(api, clusters);
  }

  ghost predicate InternalDiffer(backends: seq<Backend>) {
    forall i, j :: 0 <= i < j < |backends| ==> backends[i].name != backends[j].name
  }

  lemma {:induction false} SortedInternalDiffer(api: Api, clusters: seq<HostedCluster>)
    requires DistinctKeys(clusters, ControlPlane)
    ensures InternalDiffer(Contributions(api, clusters).internal)
  {
    if clusters == [] {
    } else {
      var n := |clusters| - 1;
      SortedInternalDiffer(api, clusters[..n]);
      InternalOfCluster(api, clusters[n]);
      var before, added := Contributions(api, clusters[..n]).internal, Contribution(api, clusters[n]).internal;
      forall i | 0 <= i < |before| && |added| == 1
        ensures before[i].name != added[0].name
      {
        var k := InternalOrigin(api, clusters[..n], before[i]);
        InternalOfCluster(api, clusters[k]);
        var a, b := ControlPlane(clusters[k]), ControlPlane(clusters[n]);
        assert a == (a + "-kube-apiserver")[..|a + "-kube-apiserver"| - 15];
        assert b == (b + "-kube-apiserver")[..|b + "-kube-apiserver"| - 15];
      }
      assert Contributions(api, clusters).internal == before + added;
    }
  }

  /** Nor do two internal ones: each hosted cluster that is served and not private has exactly one. */
  lemma InternalNamesDiffer(api: Api, listed: seq<HostedCluster>)
    requires DistinctKeys(listed, ControlPlane)
    ensures InternalDiffer(RouterConfig(api, listed).internal)
  {
    SortSorts(listed, ControlPlane);
    PermutationKeepsKeysDistinct(listed, Sort(listed, ControlPlane), ControlPlane);
    SortedInternalDiffer(api, Sort(listed, ControlPlane));
  }
}
