/** What the resolver's cache holds after any history of events, and when the order of the three
    event streams matters. */
module ResolverRuns {
  import opened Options
  import opened ServiceResolver

  // Single events, in terms of the objects themselves.

  function Find(m: Cache, x: string): Option<string> {
    if x in m then Some(m[x]) else None
  }

  /** What an event does to the entries of one address. */
  lemma EventEffect(s: State, e: Event, x: string)
    ensures
      var svc, pod := Find(Handle(s, e).ipSvc, x), Find(Handle(s, e).ipPod, x);
      match e
      case PodSet(p) =>
        svc == Find(s.ipSvc, x) && pod == if x != "" && x == p.podIp then Some(p.name) else Find(s.ipPod, x)
      case PodDeleted(p) =>
        svc == Find(s.ipSvc, x) && pod == if x == p.podIp && x != "" then None else Find(s.ipPod, x)
      case ServiceSet(v) =>
        pod == Find(s.ipPod, x) &&
        svc == if x != "" && ((x != "None" && (x == v.clusterIp || x in v.clusterIps))
                              || x in v.externalIps || x in v.ingressIps)
               then Some(v.name) else Find(s.ipSvc, x)
      case ServiceDeleted(v) =>
        pod == Find(s.ipPod, x) && svc == if Find(s.ipSvc, x) == Some(v.name) then None else Find(s.ipSvc, x)
      case SliceSet(l) =>
        pod == Find(s.ipPod, x) &&
        svc == if l.serviceName != "" && exists i :: 0 <= i < |l.endpoints| && x in l.endpoints[i]
               then Some(l.serviceName) else Find(s.ipSvc, x)
      case SliceDeleted(l) =>
        pod == Find(s.ipPod, x) &&
        svc == if Find(s.ipSvc, x) == Some(l.serviceName)
                  && exists i :: 0 <= i < |l.endpoints| && x in l.endpoints[i]
               then None else Find(s.ipSvc, x)
  {
    hide ServiceIps, SliceAddresses;
    match e
    case PodSet(_) =>
    case PodDeleted(_) =>
    case ServiceSet(v) => ServiceIpsAre(v, x);
    case ServiceDeleted(_) =>
    case SliceSet(l) => SliceAddressesAre(l, x);
    case SliceDeleted(l) => SliceAddressesAre(l, x);
  }

  // History.

  /** The service an event says an address stands for. */
  function Asserted(e: Event, x: string): Option<string> {
    match e
    case ServiceSet(svc) => if x in ServiceIps(svc) then Some(svc.name) else None
    case SliceSet(slice) =>
      if slice.serviceName != "" && x in SliceAddresses(slice) then Some(slice.serviceName) else None
    case _ => None
  }

  /** Whether an event withdraws an address that stands for service `name`. */
  predicate Withdraws(e: Event, x: string, name: string) {
    match e
    case ServiceDeleted(svc) => svc.name == name
    case SliceDeleted(slice) => slice.serviceName == name && x in SliceAddresses(slice)
    case _ => false
  }

  /** Event `i` is the last to assert anything of `x`; it names `name`, and nothing withdraws that later. */
  ghost predicate StandsSince(events: seq<Event>, i: nat, x: string, name: string) {
    && i < |events|
    && Asserted(events[i], x) == Some(name)
    && forall j :: i < j < |events| ==> Asserted(events[j], x) == None && !Withdraws(events[j], x, name)
  }

  ghost predicate Stands(events: seq<Event>, x: string, name: string) {
    exists i :: StandsSince(events, i, x, name)
  }

  lemma StandsSnoc(init: seq<Event>, last: Event, x: string, name: string)
    ensures Stands(init + [last], x, name) <==>
            if Asserted(last, x).Some? then Asserted(last, x).value == name
            else !Withdraws(last, x, name) && Stands(init, x, name)
  {
    hide Asserted, Withdraws;
    var events, n := init + [last], |init|;
    if Asserted(last, x) == Some(name) {
      assert StandsSince(events, n, x, name);
    }
    forall i | 0 <= i < n
      ensures StandsSince(events, i, x, name) <==>
              StandsSince(init, i, x, name) && Asserted(last, x) == None && !Withdraws(last, x, name)
    {
      assert events[i] == init[i] && events[n] == last;
      assert StandsSince(init, i, x, name) ==> forall j :: i < j < n ==> events[j] == init[j];
      assert StandsSince(events, i, x, name) ==> forall j :: i < j < n ==> init[j] == events[j];
    }
  }

  lemma HandleAt(s: State, e: Event, x: string, name: string)
    ensures x in Handle(s, e).ipSvc && Handle(s, e).ipSvc[x] == name <==>
            if Asserted(e, x).Some? then Asserted(e, x).value == name
            else !Withdraws(e, x, name) && x in s.ipSvc && s.ipSvc[x] == name
  {
    hide ServiceIps, SliceAddresses;
  }

  /** Main result, for every history: an address stands for a service exactly when the last event
      that asserted it named that service and no later event deleted the service, or a slice of
      the service with that address. */
  lemma {:induction false} ServiceHistory(events: seq<Event>, x: string, name: string)
    ensures x in Run(EMPTY, events).ipSvc && Run(EMPTY, events).ipSvc[x] == name <==> Stands(events, x, name)
    decreases |events|
  {
    if events != [] {
      hide Handle, Asserted, Withdraws, Stands;
      var init, last := events[..|events| - 1], events[|events| - 1];
      ServiceHistory(init, x, name);
      HandleAt(Run(EMPTY, init), last, x, name);
      StandsSnoc(init, last, x, name);
      assert events == init + [last];
    }
  }

  /** The address a pod event is about; an event without one is ignored. */
  function PodIp(e: Event): string {
    if e.PodSet? || e.PodDeleted? then e.pod.podIp else ""
  }

  ghost predicate PodSince(events: seq<Event>, i: nat, x: string, name: string) {
    && i < |events|
    && events[i].PodSet? && PodIp(events[i]) == x && events[i].pod.name == name
    && forall j :: i < j < |events| ==> PodIp(events[j]) != x
  }

  ghost predicate PodStands(events: seq<Event>, x: string, name: string) {
    x != "" && exists i :: PodSince(events, i, x, name)
  }

  lemma PodSnoc(init: seq<Event>, last: Event, x: string, name: string)
    requires x != ""
    ensures (exists i :: PodSince(init + [last], i, x, name)) <==>
            if PodIp(last) == x then last.PodSet? && last.pod.name == name
            else exists i :: PodSince(init, i, x, name)
  {
    var events, n := init + [last], |init|;
    if PodIp(last) == x && last.PodSet? && last.pod.name == name {
      assert PodSince(events, n, x, name);
    }
    forall i | 0 <= i < n
      ensures PodSince(events, i, x, name) <==> PodSince(init, i, x, name) && PodIp(last) != x
    {
      assert events[i] == init[i] && events[n] == last;
      assert PodSince(init, i, x, name) ==> forall j :: i < j < n ==> events[j] == init[j];
      assert PodSince(events, i, x, name) ==> forall j :: i < j < n ==> init[j] == events[j];
    }
  }

  /** An address belongs to a pod exactly when the last pod event on it was an addition or a change
      that named this pod. */
  lemma {:induction false} PodHistory(events: seq<Event>, x: string, name: string)
    ensures x in Run(EMPTY, events).ipPod && Run(EMPTY, events).ipPod[x] == name <==> PodStands(events, x, name)
    decreases |events|
  {
    if events != [] {
      hide PodSince;
      var init, last := events[..|events| - 1], events[|events| - 1];
      PodHistory(init, x, name);
      assert events == init + [last];
      if x != "" {
        PodSnoc(init, last, x, name);
      }
    }
  }

  /** What an enabled resolver answers after any history: the service that stands, else the pod, else
      the address itself. */
  lemma ResolveAnswers(events: seq<Event>, x: string)
    ensures
      var answer := NameOf(Run(EMPTY, events), true, Text(x));
      && (forall name :: Stands(events, x, name) ==> answer == name)
      && ((forall name :: !Stands(events, x, name)) ==>
            && (forall name :: PodStands(events, x, name) ==> answer == name)
            && ((forall name :: !PodStands(events, x, name)) ==> answer == x))
  {
    hide Handle, Stands, PodStands;
    var s := Run(EMPTY, events);
    forall name
      ensures x in s.ipSvc && s.ipSvc[x] == name <==> Stands(events, x, name)
      ensures x in s.ipPod && s.ipPod[x] == name <==> PodStands(events, x, name)
    {
      ServiceHistory(events, x, name);
      PodHistory(events, x, name);
    }
    assert x in s.ipSvc ==> Stands(events, x, s.ipSvc[x]);
    assert x in s.ipPod ==> PodStands(events, x, s.ipPod[x]);
  }

  // Interleavings.

  predicate OfPod(e: Event) { e.PodSet? || e.PodDeleted? }

  predicate OfService(e: Event) { e.ServiceSet? || e.ServiceDeleted? }

  predicate OfSlice(e: Event) { e.SliceSet? || e.SliceDeleted? }

  /** Whether the order of a service event and a slice event is immaterial, read off the events. */
  predicate Independent(e: Event, f: Event)
    requires OfService(e) && OfSlice(f)
  {
    match e
    case ServiceSet(svc) =>
      || ServiceIps(svc) !! SliceAddresses(f.slice)
      || (if f.SliceSet? then f.slice.serviceName == "" || f.slice.serviceName == svc.name
          else f.slice.serviceName != svc.name)
    case ServiceDeleted(svc) =>
      || f.SliceDeleted? || f.slice.serviceName == "" || f.slice.serviceName != svc.name
      || SliceAddresses(f.slice) == {}
  }

  ghost predicate Commute(e: Event, f: Event) {
    forall s :: Handle(Handle(s, e), f) == Handle(Handle(s, f), e)
  }

  lemma IndependentCommutes(e: Event, f: Event, s: State)
    requires OfService(e) && OfSlice(f) && Independent(e, f)
    ensures Handle(Handle(s, e), f) == Handle(Handle(s, f), e)
  {
    hide ServiceIps, SliceAddresses, Assign, Forget, ForgetName;
    var m, addrs, name := s.ipSvc, SliceAddresses(f.slice), f.slice.serviceName;
    match e
    case ServiceSet(svc) =>
      if f.SliceSet? {
        SetsCommute(m, ServiceIps(svc), svc.name, addrs, name);
      } else {
        SetAndForgetCommute(m, ServiceIps(svc), svc.name, addrs, name);
      }
    case ServiceDeleted(svc) =>
      if f.SliceSet? {
        DeleteAndSetCommute(m, svc.name, addrs, name);
      } else {
        DeletesCommute(m, svc.name, addrs, name);
      }
  }

  lemma SetsCommute(m: Cache, ips: set<string>, svc: string, addrs: set<string>, name: string)
    ensures ips !! addrs || name == svc ==>
              Assign(Assign(m, ips, svc), addrs, name) == Assign(Assign(m, addrs, name), ips, svc)
  {
  }

  lemma SetAndForgetCommute(m: Cache, ips: set<string>, svc: string, addrs: set<string>, name: string)
    ensures ips !! addrs || name != svc ==>
              Forget(Assign(m, ips, svc), addrs, name) == Assign(Forget(m, addrs, name), ips, svc)
  {
  }

  lemma DeleteAndSetCommute(m: Cache, svc: string, addrs: set<string>, name: string)
    ensures name != svc || addrs == {} ==>
              Assign(ForgetName(m, svc), addrs, name) == ForgetName(Assign(m, addrs, name), svc)
  {
  }

  lemma DeletesCommute(m: Cache, svc: string, addrs: set<string>, name: string)
    ensures Forget(ForgetName(m, svc), addrs, name) == ForgetName(Forget(m, addrs, name), svc)
  {
  }

  /** A dependent pair already differs on the empty cache. */
  lemma DependentDiffers(e: Event, f: Event)
    requires OfService(e) && OfSlice(f) && !Independent(e, f)
    ensures Handle(Handle(EMPTY, e), f) != Handle(Handle(EMPTY, f), e)
  {
    hide ServiceIps, SliceAddresses;
    var l, r := Handle(Handle(EMPTY, e), f).ipSvc, Handle(Handle(EMPTY, f), e).ipSvc;
    match e
    case ServiceSet(svc) =>
      var x :| x in ServiceIps(svc) && x in SliceAddresses(f.slice);
      assert x in r && (x in l ==> l[x] != r[x]);
    case ServiceDeleted(svc) =>
      var x :| x in SliceAddresses(f.slice);
      assert x in l && x !in r;
  }

  /** Exactly the independent pairs commute on every cache. */
  lemma CommuteIffIndependent(e: Event, f: Event)
    requires OfService(e) && OfSlice(f)
    ensures Commute(e, f) <==> Independent(e, f)
  {
    hide Independent, Handle;
    if Independent(e, f) {
      forall s ensures Handle(Handle(s, e), f) == Handle(Handle(s, f), e) {
        IndependentCommutes(e, f, s);
      }
    } else {
      DependentDiffers(e, f);
    }
  }

  lemma PodsCommute(e: Event, f: Event)
    requires OfPod(e) && !OfPod(f)
    ensures Commute(e, f)
  {
    hide Assign, Forget, ForgetName, ServiceIps, SliceAddresses;
  }

  /** The events of one stream, in their order within a run. */
  function Stream(events: seq<Event>, of: Event -> bool): seq<Event> {
    if events == [] then [] else
      var init, last := events[..|events| - 1], events[|events| - 1];
      Stream(init, of) + (if of(last) then [last] else [])
  }

  lemma {:induction false} StreamMembers(events: seq<Event>, of: Event -> bool, e: Event)
    requires e in Stream(events, of)
    ensures e in events && of(e)
    decreases |events|
  {
    var init, last := events[..|events| - 1], events[|events| - 1];
    assert events == init + [last];
    if e in Stream(init, of) {
      StreamMembers(init, of, e);
    }
  }

  /** An event that commutes with each of `fs` may be handled before them. */
  lemma {:induction false} Pass(s: State, fs: seq<Event>, e: Event)
    requires forall i :: 0 <= i < |fs| ==> Commute(e, fs[i])
    ensures Handle(Run(s, fs), e) == Run(Handle(s, e), fs)
    decreases |fs|
  {
    hide Handle;
    if fs != [] {
      var n := |fs| - 1;
      Pass(s, fs[..n], e);
      assert Commute(e, fs[n]);
    }
  }

  /** One stream after the other. */
  function InTurn(s: State, events: seq<Event>): State {
    Run(Run(Run(s, Stream(events, OfPod)), Stream(events, OfService)), Stream(events, OfSlice))
  }

  ghost predicate AllIndependent(events: seq<Event>) {
    forall e, f :: e in events && f in events && OfService(e) && OfSlice(f) ==> Independent(e, f)
  }

  lemma PassStream(s: State, events: seq<Event>, of: Event -> bool, e: Event)
    requires forall f :: f in events && of(f) ==> Commute(e, f)
    ensures Handle(Run(s, Stream(events, of)), e) == Run(Handle(s, e), Stream(events, of))
  {
    hide Handle, Commute;
    var fs := Stream(events, of);
    forall i | 0 <= i < |fs| ensures Commute(e, fs[i]) {
      StreamMembers(events, of, fs[i]);
    }
    Pass(s, fs, e);
  }

  lemma StreamSnoc(init: seq<Event>, last: Event, of: Event -> bool, s: State)
    ensures Run(s, Stream(init + [last], of)) ==
            if of(last) then Handle(Run(s, Stream(init, of)), last) else Run(s, Stream(init, of))
  {
    hide Handle;
    var fs := Stream(init, of);
    assert (init + [last])[..|init|] == init;
    assert (fs + [last])[..|fs|] == fs && fs + [] == fs;
  }

  lemma {:induction false} RunInTurn(s: State, events: seq<Event>)
    requires AllIndependent(events)
    ensures Run(s, events) == InTurn(s, events)
    decreases |events|
  {
    if events != [] {
      hide Handle, Commute, Independent;
      var init, last := events[..|events| - 1], events[|events| - 1];
      assert events == init + [last];
      RunInTurn(s, init);
      LastInTurn(s, init, last);
    }
  }

  lemma LastInTurn(s: State, init: seq<Event>, last: Event)
    requires AllIndependent(init + [last])
    ensures Handle(InTurn(s, init), last) == InTurn(s, init + [last])
  {
    hide Handle, Commute, Independent, Stream;
    var afterPods := Run(s, Stream(init, OfPod));
    var afterServices := Run(afterPods, Stream(init, OfService));
    StreamSnoc(init, last, OfPod, s);
    if OfPod(last) {
      forall f | f in init && !OfPod(f) ensures Commute(last, f) {
        PodsCommute(last, f);
      }
      PassStream(afterServices, init, OfSlice, last);
      PassStream(afterPods, init, OfService, last);
      StreamSnoc(init, last, OfService, Handle(afterPods, last));
      StreamSnoc(init, last, OfSlice, Handle(afterServices, last));
    } else {
      StreamSnoc(init, last, OfService, afterPods);
      if OfService(last) {
        forall f | f in init && OfSlice(f) ensures Commute(last, f) {
          assert last in init + [last] && f in init + [last];
          CommuteIffIndependent(last, f);
        }
        PassStream(afterServices, init, OfSlice, last);
        StreamSnoc(init, last, OfSlice, Handle(afterServices, last));
      } else {
        StreamSnoc(init, last, OfSlice, afterServices);
      }
    }
  }

  /** Main result: if every service event is independent of every slice event, any two
      interleavings of the three streams lead from any cache to the same cache. */
  lemma InterleavingsAgree(s: State, events: seq<Event>, events': seq<Event>)
    requires AllIndependent(events)
    requires Stream(events, OfPod) == Stream(events', OfPod)
    requires Stream(events, OfService) == Stream(events', OfService)
    requires Stream(events, OfSlice) == Stream(events', OfSlice)
    ensures Run(s, events) == Run(s, events')
  {
    hide Handle, Independent;
    forall e, f | e in events' && f in events' && OfService(e) && OfSlice(f)
      ensures Independent(e, f)
    {
      InStream(events', OfService, e);
      StreamMembers(events, OfService, e);
      InStream(events', OfSlice, f);
      StreamMembers(events, OfSlice, f);
    }
    RunInTurn(s, events);
    RunInTurn(s, events');
  }

  lemma {:induction false} InStream(events: seq<Event>, of: Event -> bool, e: Event)
    requires e in events && of(e)
    ensures e in Stream(events, of)
    decreases |events|
  {
    var init, last := events[..|events| - 1], events[|events| - 1];
    assert events == init + [last];
    if e in init {
      InStream(init, of, e);
    }
  }

  /** A condition on the streams as a whole that makes all pairs independent: services and slices
      name different addresses, and no service that gets deleted is named by a slice that is set. */
  lemma SeparateStreamsAreIndependent(events: seq<Event>)
    requires forall e, f :: e in events && f in events && e.ServiceSet? && OfSlice(f) ==>
               ServiceIps(e.svc) !! SliceAddresses(f.slice)
    requires forall e, f :: e in events && f in events && e.ServiceDeleted? && f.SliceSet? ==>
               e.svc.name != f.slice.serviceName
    ensures AllIndependent(events)
  {
    hide ServiceIps, SliceAddresses;
  }
}
