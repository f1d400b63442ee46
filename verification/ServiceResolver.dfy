/** The service resolver's cache: three event streams update two maps, one handler at a time. */
module ServiceResolver {
  import opened Folds

  // Cluster objects, as far as the resolver looks at them.

  datatype Pod = Pod(name: string, podIp: string)

  datatype Service = Service(
    name: string, clusterIp: string, clusterIps: seq<string>, externalIps: seq<string>, ingressIps: seq<string>)

  /** `serviceName` is the service-name label, empty when the label is missing. */
  datatype Slice = Slice(serviceName: string, endpoints: seq<seq<string>>)

  datatype Event =
    | PodSet(pod: Pod) | PodDeleted(pod: Pod)
    | ServiceSet(svc: Service) | ServiceDeleted(svc: Service)
    | SliceSet(slice: Slice) | SliceDeleted(slice: Slice)

  type Cache = map<string, string>

  datatype State = State(ipSvc: Cache, ipPod: Cache)

  function Elements(ips: seq<string>): set<string> {
    set ip | ip in ips
  }

  /** The addresses of a list that count: empty ones never do, headless ones only where asked. */
  function Usable(ips: seq<string>, skipHeadless: bool): set<string> {
    Elements(ips) - (if skipHeadless then {"", "None"} else {""})
  }

  /** The addresses at which a service is reached. */
  function ServiceIps(svc: Service): set<string> {
    Usable([svc.clusterIp], true) + Usable(svc.clusterIps, true)
    + Usable(svc.externalIps, false) + Usable(svc.ingressIps, false)
  }

  function Addresses(endpoints: seq<seq<string>>): set<string> {
    if endpoints == [] then {}
    else Addresses(endpoints[..|endpoints| - 1]) + Elements(endpoints[|endpoints| - 1])
  }

  function SliceAddresses(slice: Slice): set<string> {
    Addresses(slice.endpoints)
  }

  /** All the addresses in `ips` now stand for `name`. */
  function Assign(m: Cache, ips: set<string>, name: string): Cache {
    map k | k in m.Keys + ips :: if k in ips then name else m[k]
  }

  /** The addresses in `ips` that stand for `name` are forgotten. */
  function Forget(m: Cache, ips: set<string>, name: string): Cache {
    map k | k in m && !(k in ips && m[k] == name) :: m[k]
  }

  function ForgetName(m: Cache, name: string): Cache {
    map k | k in m && m[k] != name :: m[k]
  }

  /** The effect of one handler, which holds the lock throughout. */
  function Handle(s: State, e: Event): State {
    match e
    case PodSet(pod) =>
      if pod.podIp == "" then s else s.(ipPod := s.ipPod[pod.podIp := pod.name])
    case PodDeleted(pod) =>
      if pod.podIp == "" then s else s.(ipPod := s.ipPod - {pod.podIp})
    case ServiceSet(svc) =>
      s.(ipSvc := Assign(s.ipSvc, ServiceIps(svc), svc.name))
    case ServiceDeleted(svc) =>
      s.(ipSvc := ForgetName(s.ipSvc, svc.name))
    case SliceSet(slice) =>
      if slice.serviceName == "" then s else s.(ipSvc := Assign(s.ipSvc, SliceAddresses(slice), slice.serviceName))
    case SliceDeleted(slice) =>
      s.(ipSvc := Forget(s.ipSvc, SliceAddresses(slice), slice.serviceName))
  }

  function Run(s: State, events: seq<Event>): State {
    Fold(Handle, s, events)
  }

  const EMPTY: State := State(map[], map[])

  datatype Listing<T> = Listed(items: seq<T>) | Failed

  /** The list phase of NewService as events: a list that fails is skipped. */
  function ListEvents(pods: Listing<Pod>, svcs: Listing<Service>, slices: Listing<Slice>): seq<Event> {
    (if pods.Listed? then seq(|pods.items|, i requires 0 <= i < |pods.items| => PodSet(pods.items[i])) else [])
    + (if svcs.Listed? then seq(|svcs.items|, i requires 0 <= i < |svcs.items| => ServiceSet(svcs.items[i])) else [])
    + (if slices.Listed?
       then seq(|slices.items|, i requires 0 <= i < |slices.items| => SliceSet(slices.items[i])) else [])
  }

  // The addresses and lists, in terms of the objects themselves.

  /** A service is reached at its cluster addresses unless they are headless, and at its external and
      load-balancer addresses; never at an empty one. */
  lemma ServiceIpsAre(svc: Service, x: string)
    ensures x in ServiceIps(svc) <==>
            x != "" &&
            ((x != "None" && (x == svc.clusterIp || x in svc.clusterIps))
             || x in svc.externalIps || x in svc.ingressIps)
  {
  }

  /** The addresses of a slice are those of all its endpoints. */
  lemma SliceAddressesAre(slice: Slice, x: string)
    ensures x in SliceAddresses(slice) <==>
            exists i :: 0 <= i < |slice.endpoints| && x in slice.endpoints[i]
  {
    AddressesAre(slice.endpoints, x);
  }

  lemma {:induction false} AddressesAre(endpoints: seq<seq<string>>, x: string)
    ensures x in Addresses(endpoints) <==> exists i :: 0 <= i < |endpoints| && x in endpoints[i]
  {
    if endpoints != [] {
      var n := |endpoints| - 1;
      AddressesAre(endpoints[..n], x);
      assert forall i :: 0 <= i < n ==> endpoints[..n][i] == endpoints[i];
    }
  }

  function Size<T>(list: Listing<T>): nat {
    if list.Listed? then |list.items| else 0
  }

  /** All listed pods, then all listed services, then all listed slices, each as an addition. */
  lemma ListEventsAre(pods: Listing<Pod>, svcs: Listing<Service>, slices: Listing<Slice>, i: nat)
    ensures |ListEvents(pods, svcs, slices)| == Size(pods) + Size(svcs) + Size(slices)
    ensures i < Size(pods) ==> ListEvents(pods, svcs, slices)[i] == PodSet(pods.items[i])
    ensures i < Size(svcs) ==> ListEvents(pods, svcs, slices)[Size(pods) + i] == ServiceSet(svcs.items[i])
    ensures i < Size(slices) ==>
              ListEvents(pods, svcs, slices)[Size(pods) + Size(svcs) + i] == SliceSet(slices.items[i])
  {
  }

  lemma AssignTwice(m: Cache, a: set<string>, b: set<string>, name: string)
    ensures Assign(Assign(m, a, name), b, name) == Assign(m, a + b, name)
    ensures Assign(m, {}, name) == m
  {
  }

  lemma AssignOne(m: Cache, ip: string, name: string)
    ensures m[ip := name] == Assign(m, {ip}, name)
  {
  }

  lemma ForgetTwice(m: Cache, a: set<string>, b: set<string>, name: string)
    ensures Forget(Forget(m, a, name), b, name) == Forget(m, a + b, name)
    ensures Forget(m, {}, name) == m
  {
  }

  lemma ForgetOne(m: Cache, ip: string, name: string)
    ensures Forget(m, {ip}, name) == if (if ip in m then m[ip] else "") == name then m - {ip} else m
  {
  }

  lemma ElementsSnoc(ips: seq<string>, i: nat)
    requires i < |ips|
    ensures Elements(ips[..i + 1]) == Elements(ips[..i]) + {ips[i]}
    ensures Elements(ips[..0]) == {} && Elements(ips[..|ips|]) == Elements(ips)
  {
    assert ips[..i + 1] == ips[..i] + [ips[i]];
    assert ips[..|ips|] == ips;
  }

  lemma AddressesSnoc(endpoints: seq<seq<string>>, i: nat)
    requires i < |endpoints|
    ensures Addresses(endpoints[..i + 1]) == Addresses(endpoints[..i]) + Elements(endpoints[i])
  {
    assert endpoints[..i + 1][..i] == endpoints[..i];
  }

  /** An address: nil, or the text it prints as. */
  datatype Address = Nil | Text(text: string)

  class Resolver {
    var ipSvc: Cache
    var ipPod: Cache
    const enabled: bool

    function View(): State
      reads this
    {
      State(ipSvc, ipPod)
    }

    /** An enabled resolver starts from the three lists, a disabled one stays empty. */
    constructor (enabled: bool, pods: Listing<Pod>, svcs: Listing<Service>, slices: Listing<Slice>)
      ensures this.enabled == enabled
      ensures View() == if enabled then Run(EMPTY, ListEvents(pods, svcs, slices)) else EMPTY
    {
      ipSvc, ipPod := map[], map[];
      this.enabled := enabled;
      new;
      if enabled {
        HandleAll(ListEvents(pods, svcs, slices));
      }
    }

    method HandleAll(events: seq<Event>)
      modifies this
      ensures View() == Run(old(View()), events)
    {
      for i := 0 to |events|
        invariant View() == Run(old(View()), events[..i])
      {
        FoldNext(Handle, old(View()), events, i);
        HandleEvent(events[i]);
      }
      assert events[..|events|] == events;
    }

    /** One turn of a watcher's loop. */
    method HandleEvent(e: Event)
      modifies this
      ensures View() == Handle(old(View()), e)
    {
      match e {
        case PodSet(pod) => AddPod(pod);
        case PodDeleted(pod) =>
          if pod.podIp != "" {
            ipPod := ipPod - {pod.podIp};
          }
        case ServiceSet(svc) => AddService(svc);
        case ServiceDeleted(svc) => DeleteService(svc);
        case SliceSet(slice) => AddSlice(slice);
        case SliceDeleted(slice) => DeleteSlice(slice);
      }
    }

    method AddPod(pod: Pod)
      modifies `ipPod
      ensures View() == Handle(old(View()), PodSet(pod))
    {
      if pod.podIp == "" {
        return;
      }
      ipPod := ipPod[pod.podIp := pod.name];
    }

    /** Assigns the addresses of a list that count. */
    method AssignList(ips: seq<string>, name: string, skipHeadless: bool)
      modifies `ipSvc
      ensures ipSvc == Assign(old(ipSvc), Usable(ips, skipHeadless), name)
    {
      hide Assign;
      ghost var was := ipSvc;
      AssignTwice(was, {}, {}, name);
      assert Usable(ips[..0], skipHeadless) == {};
      for i := 0 to |ips|
        modifies `ipSvc
        invariant ipSvc == Assign(was, Usable(ips[..i], skipHeadless), name)
      {
        var ip := ips[i];
        ElementsSnoc(ips, i);
        if ip != "" && !(skipHeadless && ip == "None") {
          AssignOne(ipSvc, ip, name);
          AssignTwice(was, Usable(ips[..i], skipHeadless), {ip}, name);
          assert Usable(ips[..i + 1], skipHeadless) == Usable(ips[..i], skipHeadless) + {ip};
          ipSvc := ipSvc[ip := name];
        } else {
          assert Usable(ips[..i + 1], skipHeadless) == Usable(ips[..i], skipHeadless);
        }
      }
      assert ips[..|ips|] == ips;
    }

    method AddService(svc: Service)
      modifies `ipSvc
      ensures View() == Handle(old(View()), ServiceSet(svc))
    {
      hide Assign, Usable;
      ghost var was, name := ipSvc, svc.name;
      ghost var a, b, c, d := Usable([svc.clusterIp], true), Usable(svc.clusterIps, true),
                              Usable(svc.externalIps, false), Usable(svc.ingressIps, false);
      AssignList([svc.clusterIp], svc.name, true);
      AssignList(svc.clusterIps, svc.name, true);
      AssignTwice(was, a, b, name);
      AssignList(svc.externalIps, svc.name, false);
      AssignTwice(was, a + b, c, name);
      AssignList(svc.ingressIps, svc.name, false);
      AssignTwice(was, a + b + c, d, name);
    }

    method DeleteService(svc: Service)
      modifies `ipSvc
      ensures View() == Handle(old(View()), ServiceDeleted(svc))
    {
      var todo := ipSvc.Keys;
      ghost var was := ipSvc;
      while todo != {}
        modifies `ipSvc
        invariant todo <= ipSvc.Keys <= was.Keys
        invariant ipSvc == map k | k in was && (k in todo || was[k] != svc.name) :: was[k]
      {
        var k :| k in todo;
        if ipSvc[k] == svc.name {
          ipSvc := ipSvc - {k};
        }
        todo := todo - {k};
      }
      assert ipSvc == ForgetName(was, svc.name);
    }

    method AddSlice(slice: Slice)
      modifies `ipSvc
      ensures View() == Handle(old(View()), SliceSet(slice))
    {
      hide Assign;
      if slice.serviceName == "" {
        return;
      }
      ghost var was := ipSvc;
      AssignTwice(was, {}, {}, slice.serviceName);
      for i := 0 to |slice.endpoints|
        modifies `ipSvc
        invariant ipSvc == Assign(was, Addresses(slice.endpoints[..i]), slice.serviceName)
      {
        AssignEndpoint(slice.endpoints[i], slice.serviceName);
        AssignTwice(was, Addresses(slice.endpoints[..i]), Elements(slice.endpoints[i]), slice.serviceName);
        AddressesSnoc(slice.endpoints, i);
      }
      assert slice.endpoints[..|slice.endpoints|] == slice.endpoints;
    }

    method AssignEndpoint(ep: seq<string>, name: string)
      modifies `ipSvc
      ensures ipSvc == Assign(old(ipSvc), Elements(ep), name)
    {
      hide Assign;
      ghost var was := ipSvc;
      AssignTwice(was, {}, {}, name);
      assert Elements(ep[..0]) == {};
      for j := 0 to |ep|
        modifies `ipSvc
        invariant ipSvc == Assign(was, Elements(ep[..j]), name)
      {
        AssignOne(ipSvc, ep[j], name);
        AssignTwice(was, Elements(ep[..j]), {ep[j]}, name);
        ElementsSnoc(ep, j);
        ipSvc := ipSvc[ep[j] := name];
      }
      assert ep[..|ep|] == ep;
    }

    /** A missing key reads as the empty name. */
    function Lookup(k: string): string
      reads this
    {
      if k in ipSvc then ipSvc[k] else ""
    }

    method DeleteSlice(slice: Slice)
      modifies `ipSvc
      ensures View() == Handle(old(View()), SliceDeleted(slice))
    {
      hide Forget;
      ghost var was := ipSvc;
      ForgetTwice(was, {}, {}, slice.serviceName);
      for i := 0 to |slice.endpoints|
        modifies `ipSvc
        invariant ipSvc == Forget(was, Addresses(slice.endpoints[..i]), slice.serviceName)
      {
        ForgetEndpoint(slice.endpoints[i], slice.serviceName);
        ForgetTwice(was, Addresses(slice.endpoints[..i]), Elements(slice.endpoints[i]), slice.serviceName);
        AddressesSnoc(slice.endpoints, i);
      }
      assert slice.endpoints[..|slice.endpoints|] == slice.endpoints;
    }

    method ForgetEndpoint(ep: seq<string>, name: string)
      modifies `ipSvc
      ensures ipSvc == Forget(old(ipSvc), Elements(ep), name)
    {
      hide Forget;
      ghost var was := ipSvc;
      ForgetTwice(was, {}, {}, name);
      assert Elements(ep[..0]) == {};
      for j := 0 to |ep|
        modifies `ipSvc
        invariant ipSvc == Forget(was, Elements(ep[..j]), name)
      {
        ForgetOne(ipSvc, ep[j], name);
        ForgetTwice(was, Elements(ep[..j]), {ep[j]}, name);
        ElementsSnoc(ep, j);
        if Lookup(ep[j]) == name {
          ipSvc := ipSvc - {ep[j]};
        }
      }
      assert ep[..|ep|] == ep;
    }

    method Resolve(ip: Address) returns (name: string)
      ensures name == NameOf(View(), enabled, ip)
      ensures ip.Nil? ==> name == "<nil>"
      ensures ip.Text? ==> name == if enabled && ip.text in ipSvc then ipSvc[ip.text]
                                   else if enabled && ip.text in ipPod then ipPod[ip.text]
                                   else ip.text
    {
      if !enabled || ip.Nil? {
        return TextOf(ip);
      }
      if ip.text in ipSvc {
        return ipSvc[ip.text];
      }
      if ip.text in ipPod {
        return ipPod[ip.text];
      }
      return ip.text;
    }
  }

  function TextOf(ip: Address): string {
    if ip.Nil? then "<nil>" else ip.text
  }

  /** Service name, else pod name, else the address itself. */
  function NameOf(s: State, enabled: bool, ip: Address): string {
    if !enabled || ip.Nil? then TextOf(ip)
    else if ip.text in s.ipSvc then s.ipSvc[ip.text]
    else if ip.text in s.ipPod then s.ipPod[ip.text]
    else ip.text
  }
}
