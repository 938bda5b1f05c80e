/**
 * Flow tracing (`FlowUtils.buildFlows`): from every endpoint of every
 * controller, follow the calls into services and from services into
 * repositories. The walk sets the links of ONE Flow object per endpoint and
 * appends that same object to the result at every leaf, so all entries for
 * one endpoint alias each other and show the links of the last branch.
 *
 * The links a walk leaves and the number of entries it appends are
 * specified on values (`Links`, `Walk`); the methods over `Flow` objects are
 * proved to produce exactly those.
 */
module Flows {
  import opened Wrappers
  import opened Ir
  import M = MicroserviceModel
  import opened Microservices
  import opened Systems

  /** The eleven links of a Flow; a missing link is null in Java. */
  datatype Links = FlowLinks(
    model: Option<M.Service>,
    controller: Option<JClass>,
    controllerMethod: Option<Method>,
    serviceMethodCall: Option<MethodCall>,
    controllerServiceField: Option<Field>,
    service: Option<JClass>,
    serviceMethod: Option<Method>,
    repositoryMethodCall: Option<MethodCall>,
    serviceRepositoryField: Option<Field>,
    repository: Option<JClass>,
    repositoryMethod: Option<Method>)

  const NoLinks := FlowLinks(None, None, None, None, None, None, None, None, None, None, None)

  class Flow {
    var model: Option<M.Service>
    var controller: Option<JClass>
    var controllerMethod: Option<Method>
    var serviceMethodCall: Option<MethodCall>
    var controllerServiceField: Option<Field>
    var service: Option<JClass>
    var serviceMethod: Option<Method>
    var repositoryMethodCall: Option<MethodCall>
    var serviceRepositoryField: Option<Field>
    var repository: Option<JClass>
    var repositoryMethod: Option<Method>

    function Links(): Links
      reads this
    {
      FlowLinks(model, controller, controllerMethod, serviceMethodCall, controllerServiceField, service,
                  serviceMethod, repositoryMethodCall, serviceRepositoryField, repository, repositoryMethod)
    }

    /** `new Flow()`: every link null. */
    constructor()
      ensures Links() == NoLinks
    {
      model, controller, controllerMethod, serviceMethodCall, controllerServiceField := None, None, None, None, None;
      service, serviceMethod, repositoryMethodCall := None, None, None;
      serviceRepositoryField, repository, repositoryMethod := None, None, None;
    }
  }

  function Repeat<T>(x: T, n: nat): (r: seq<T>)
    ensures |r| == n && forall i :: 0 <= i < n ==> r[i] == x
  {
    if n == 0 then [] else Repeat(x, n - 1) + [x]
  }

  lemma {:induction false} RepeatAdd<T>(x: T, n: nat, k: nat)
    ensures Repeat(x, n) + Repeat(x, k) == Repeat(x, n + k)
  {
    if k > 0 {
      RepeatAdd(x, n, k - 1);
      assert Repeat(x, n) + Repeat(x, k) == Repeat(x, n) + Repeat(x, k - 1) + [x];
    } else {
      assert Repeat(x, n) + Repeat(x, k) == Repeat(x, n);
    }
  }

  // ------------------------------------------------------------ the find helpers

  /** `findAllServiceMethodCalls` / `findAllRepositoryMethodCalls`: the calls
      made from the method named `name`, in call-list order. */
  function CallsFrom(calls: seq<MethodCall>, name: string): (r: seq<MethodCall>)
    ensures forall c :: c in r <==> c in calls && c.calledFrom == name
    ensures |r| <= |calls|
  {
    if calls == [] then []
    else (if calls[0].calledFrom == name then [calls[0]] else []) + CallsFrom(calls[1..], name)
  }

  /** The filter keeps order: filtering a concatenation concatenates. */
  lemma {:induction false} CallsFromAppend(a: seq<MethodCall>, b: seq<MethodCall>, name: string)
    ensures CallsFrom(a + b, name) == CallsFrom(a, name) + CallsFrom(b, name)
  {
    if a != [] {
      assert (a + b)[1..] == a[1..] + b;
      CallsFromAppend(a[1..], b, name);
    } else {
      assert a + b == b;
    }
  }

  /** `findServiceField` / `findRepositoryField`: the first field named
      `name`, or none. */
  function FindField(fields: seq<Field>, name: string): (r: Option<Field>)
    ensures r.None? <==> forall x :: x in fields ==> x.name != name
    ensures r.Some? ==> r.value in fields && r.value.name == name
  {
    if fields == [] then None
    else if fields[0].name == name then Some(fields[0])
    else FindField(fields[1..], name)
  }

  /** It is the FIRST one so named. */
  lemma {:induction false} FindFieldFirst(fields: seq<Field>, name: string, i: nat)
    requires i < |fields| && fields[i].name == name
    requires forall j :: 0 <= j < i ==> fields[j].name != name
    ensures FindField(fields, name) == Some(fields[i])
  {
    if i > 0 {
      FindFieldFirst(fields[1..], name, i - 1);
    }
  }

  /** `findServiceMethod` / `findRepositoryMethod`: the first method named
      `name`, or none. */
  function FindMethod(methods: seq<Method>, name: string): (r: Option<Method>)
    ensures r.None? <==> forall x :: x in methods ==> x.name != name
    ensures r.Some? ==> r.value in methods && r.value.name == name
  {
    if methods == [] then None
    else if methods[0].name == name then Some(methods[0])
    else FindMethod(methods[1..], name)
  }

  /** It is the FIRST one so named. */
  lemma {:induction false} FindMethodFirst(methods: seq<Method>, name: string, i: nat)
    requires i < |methods| && methods[i].name == name
    requires forall j :: 0 <= j < i ==> methods[j].name != name
    ensures FindMethod(methods, name) == Some(methods[i])
  {
    if i > 0 {
      FindMethodFirst(methods[1..], name, i - 1);
    }
  }

  /** A class the field's type may stand for: it implements the type, or it
      is the type. */
  predicate Implements(c: JClass, typeName: string) {
    typeName in c.implementedTypes || c.name == typeName
  }

  /** `findAllServices` / `findAllRepositorys`: every candidate class for the
      field's type, in bucket order. */
  function Candidates(classes: seq<JClass>, typeName: string): (r: seq<JClass>)
    ensures forall c :: c in r <==> c in classes && Implements(c, typeName)
    ensures |r| <= |classes|
  {
    if classes == [] then []
    else (if Implements(classes[0], typeName) then [classes[0]] else []) + Candidates(classes[1..], typeName)
  }

  // ------------------------------------------------------------ base flows

  /** One base flow: a service, one of its controllers, one endpoint. */
  datatype Base = Base(model: M.Service, controller: JClass, endpoint: Method)

  /** A base flow's links: model, controller and controller method set. */
  function BaseLinks(b: Base): (l: Links)
    ensures l.model == Some(b.model) && l.controller == Some(b.controller) && l.controllerMethod == Some(b.endpoint)
    ensures l.(model := None, controller := None, controllerMethod := None) == NoLinks
  {
    NoLinks.(model := Some(b.model), controller := Some(b.controller), controllerMethod := Some(b.endpoint))
  }

  function EndpointBases(s: M.Service, c: JClass, es: seq<Method>): (r: seq<Base>)
    ensures |r| == |es| && forall i :: 0 <= i < |es| ==> r[i] == Base(s, c, es[i])
  {
    if es == [] then [] else EndpointBases(s, c, es[..|es| - 1]) + [Base(s, c, es[|es| - 1])]
  }

  function ControllerBases(s: M.Service, cs: seq<JClass>): (r: seq<Base>)
  {
    if cs == [] then [] else ControllerBases(s, cs[..|cs| - 1]) + EndpointBases(s, cs[|cs| - 1], GetEndpoints(cs[|cs| - 1]))
  }

  /** `generateNewFlows`: the base flows, service by service, controller by
      controller, endpoint by endpoint. */
  function BaseFlows(services: seq<M.Service>): (r: seq<Base>)
  {
    if services == [] then [] else BaseFlows(services[..|services| - 1]) + ControllerBases(services[|services| - 1], services[|services| - 1].controllers)
  }

  lemma EndpointBasesSpec(s: M.Service, c: JClass, es: seq<Method>, b: Base)
    ensures b in EndpointBases(s, c, es) <==> b.model == s && b.controller == c && b.endpoint in es
  {
    if b.model == s && b.controller == c && b.endpoint in es {
      var i :| 0 <= i < |es| && es[i] == b.endpoint;
      assert EndpointBases(s, c, es)[i] == b;
    }
  }

  lemma {:induction false} ControllerBasesSpec(s: M.Service, cs: seq<JClass>, b: Base)
    ensures b in ControllerBases(s, cs) <==> b.model == s && b.controller in cs && b.endpoint in GetEndpoints(b.controller)
  {
    if cs != [] {
      var init, last := cs[..|cs| - 1], cs[|cs| - 1];
      ControllerBasesSpec(s, init, b);
      EndpointBasesSpec(s, last, GetEndpoints(last), b);
      assert b in ControllerBases(s, cs) <==> b in ControllerBases(s, init) || b in EndpointBases(s, last, GetEndpoints(last));
      assert b.controller in cs <==> b.controller in init || b.controller == last by {
        SplitLast(cs);
      }
    }
  }

  /** The base flows are the triples of a service, one of its controllers
      and one of that controller's endpoints, and nothing else. */
  lemma {:induction false} BaseFlowsSpec(services: seq<M.Service>, b: Base)
    ensures b in BaseFlows(services) <==>
      b.model in services && b.controller in b.model.controllers && b.endpoint in GetEndpoints(b.controller)
  {
    if services != [] {
      var init, last := services[..|services| - 1], services[|services| - 1];
      BaseFlowsSpec(init, b);
      ControllerBasesSpec(last, last.controllers, b);
      assert b in BaseFlows(services) <==> b in BaseFlows(init) || b in ControllerBases(last, last.controllers);
      assert b.model in services <==> b.model in init || b.model == last by {
        SplitLast(services);
      }
    }
  }

  // ------------------------------------------------------------ the walk

  /** What a stretch of the walk leaves: the links of the shared flow and the
      number of entries it appended. */
  datatype Walk = Walk(links: Links, count: nat)

  /** The innermost loop, over the repository candidates of one repository
      call: each sets the repository, and its method when one is named like
      the call (otherwise the previous one stays), and appends one entry. */
  function RepositoryClasses(l: Links, call: MethodCall, classes: seq<JClass>): (w: Walk)
    ensures w.count == |classes|
    decreases |classes|
  {
    if classes == [] then Walk(l, 0)
    else
      var l1 := l.(repository := Some(classes[0]));
      var m := FindMethod(classes[0].methods, call.name);
      var l2 := if m.Some? then l1.(repositoryMethod := m) else l1;
      var w := RepositoryClasses(l2, call, classes[1..]);
      Walk(w.links, w.count + 1)
  }

  /** The loop over a service method's calls: a call whose field the
      service lacks appends one entry; otherwise the field's repository
      candidates are walked. */
  function RepositoryCalls(l: Links, model: M.Service, service: JClass, calls: seq<MethodCall>): (w: Walk)
    decreases |calls|
  {
    if calls == [] then Walk(l, 0)
    else
      var call := calls[0];
      var l1 := l.(repositoryMethodCall := Some(call));
      var w1 := match FindField(service.fields, call.objectName)
        case None => Walk(l1, 1)
        case Some(f) => RepositoryClasses(l1.(serviceRepositoryField := Some(f)), call, Candidates(model.repositories, f.fieldType));
      var w := RepositoryCalls(w1.links, model, service, calls[1..]);
      Walk(w.links, w1.count + w.count)
  }

  /** The loop over the service candidates of one controller call: a
      service without a method named like the call appends one entry;
      otherwise that method's calls are walked. */
  function ServiceClasses(l: Links, model: M.Service, call: MethodCall, classes: seq<JClass>): (w: Walk)
    decreases |classes|
  {
    if classes == [] then Walk(l, 0)
    else
      var c := classes[0];
      var l1 := l.(service := Some(c));
      var w1 := match FindMethod(c.methods, call.name)
        case None => Walk(l1, 1)
        case Some(m) => RepositoryCalls(l1.(serviceMethod := Some(m)), model, c, CallsFrom(c.methodCalls, m.name));
      var w := ServiceClasses(w1.links, model, call, classes[1..]);
      Walk(w.links, w1.count + w.count)
  }

  /** The loop over an endpoint's calls: a call whose field the controller
      lacks appends one entry; otherwise the field's service candidates are
      walked. */
  function ServiceCalls(l: Links, model: M.Service, controller: JClass, calls: seq<MethodCall>): (w: Walk)
    decreases |calls|
  {
    if calls == [] then Walk(l, 0)
    else
      var call := calls[0];
      var l1 := l.(serviceMethodCall := Some(call));
      var w1 := match FindField(controller.fields, call.objectName)
        case None => Walk(l1, 1)
        case Some(f) => ServiceClasses(l1.(controllerServiceField := Some(f)), model, call, Candidates(model.services, f.fieldType));
      var w := ServiceCalls(w1.links, model, controller, calls[1..]);
      Walk(w.links, w1.count + w.count)
  }

  /** The candidate calls of a base flow. */
  function EndpointCalls(b: Base): seq<MethodCall> {
    CallsFrom(b.controller.methodCalls, b.endpoint.name)
  }

  /** One base flow's whole walk, plus the single entry of a base flow
      without calls. */
  function Process(b: Base): Walk {
    var calls := EndpointCalls(b);
    var w := ServiceCalls(BaseLinks(b), b.model, b.controller, calls);
    Walk(w.links, w.count + if calls == [] then 1 else 0)
  }

  /** The links of every entry `buildFlows` returns, in order. */
  function FlowsOf(bases: seq<Base>): (r: seq<Links>)
  {
    if bases == [] then []
    else
      var b := bases[|bases| - 1];
      FlowsOf(bases[..|bases| - 1]) + Repeat(Process(b).links, Process(b).count)
  }

  /** For every entry, the index of the base flow whose object it is. */
  function OwnersOf(bases: seq<Base>): (r: seq<nat>)
    ensures |r| == |FlowsOf(bases)|
    ensures forall k :: 0 <= k < |r| ==> r[k] < |bases|
  {
    if bases == [] then []
    else
      var b := bases[|bases| - 1];
      OwnersOf(bases[..|bases| - 1]) + Repeat(|bases| - 1, Process(b).count)
  }

  // ------------------------------------------------------------ walk lemmas

  /** A base flow with no candidate calls is appended exactly once, as it
      is. */
  lemma NoCallsOnce(b: Base)
    requires EndpointCalls(b) == []
    ensures Process(b) == Walk(BaseLinks(b), 1)
  {
  }

  /** The loops below the controller never touch the model, the controller,
      the endpoint or the controller call. */
  lemma {:induction false} RepositoryClassesKeeps(l: Links, call: MethodCall, classes: seq<JClass>)
    ensures var r := RepositoryClasses(l, call, classes).links;
      r.model == l.model && r.controller == l.controller && r.controllerMethod == l.controllerMethod &&
      r.serviceMethodCall == l.serviceMethodCall && r.service == l.service
    decreases |classes|
  {
    if classes != [] {
      var l1 := l.(repository := Some(classes[0]));
      var m := FindMethod(classes[0].methods, call.name);
      RepositoryClassesKeeps(if m.Some? then l1.(repositoryMethod := m) else l1, call, classes[1..]);
    }
  }

  lemma {:induction false} RepositoryCallsKeeps(l: Links, model: M.Service, service: JClass, calls: seq<MethodCall>)
    ensures var r := RepositoryCalls(l, model, service, calls).links;
      r.model == l.model && r.controller == l.controller && r.controllerMethod == l.controllerMethod &&
      r.serviceMethodCall == l.serviceMethodCall && r.service == l.service
    decreases |calls|
  {
    if calls != [] {
      var call := calls[0];
      var l1 := l.(repositoryMethodCall := Some(call));
      var ff := FindField(service.fields, call.objectName);
      if ff.Some? {
        RepositoryClassesKeeps(l1.(serviceRepositoryField := ff), call, Candidates(model.repositories, ff.value.fieldType));
      }
      var w1 := match ff
        case None => Walk(l1, 1)
        case Some(f) => RepositoryClasses(l1.(serviceRepositoryField := Some(f)), call, Candidates(model.repositories, f.fieldType));
      RepositoryCallsKeeps(w1.links, model, service, calls[1..]);
    }
  }

  lemma {:induction false} ServiceClassesKeeps(l: Links, model: M.Service, call: MethodCall, classes: seq<JClass>)
    ensures var r := ServiceClasses(l, model, call, classes).links;
      r.model == l.model && r.controller == l.controller && r.controllerMethod == l.controllerMethod &&
      r.serviceMethodCall == l.serviceMethodCall
    decreases |classes|
  {
    if classes != [] {
      var c := classes[0];
      var l1 := l.(service := Some(c));
      var fm := FindMethod(c.methods, call.name);
      if fm.Some? {
        RepositoryCallsKeeps(l1.(serviceMethod := fm), model, c, CallsFrom(c.methodCalls, fm.value.name));
      }
      var w1 := match fm
        case None => Walk(l1, 1)
        case Some(m) => RepositoryCalls(l1.(serviceMethod := Some(m)), model, c, CallsFrom(c.methodCalls, m.name));
      ServiceClassesKeeps(w1.links, model, call, classes[1..]);
    }
  }

  /** The walk over an endpoint's calls keeps the base links, and leaves
      the LAST call as the flow's controller call: each branch overwrites
      what the one before it set. */
  lemma {:induction false} ServiceCallsLastWins(l: Links, model: M.Service, controller: JClass, calls: seq<MethodCall>)
    requires calls != []
    ensures var r := ServiceCalls(l, model, controller, calls).links;
      r.model == l.model && r.controller == l.controller && r.controllerMethod == l.controllerMethod &&
      r.serviceMethodCall == Some(calls[|calls| - 1])
    decreases |calls|
  {
    var call := calls[0];
    var l1 := l.(serviceMethodCall := Some(call));
    var ff := FindField(controller.fields, call.objectName);
    if ff.Some? {
      ServiceClassesKeeps(l1.(controllerServiceField := ff), model, call, Candidates(model.services, ff.value.fieldType));
    }
    var w1 := match ff
      case None => Walk(l1, 1)
      case Some(f) => ServiceClasses(l1.(controllerServiceField := Some(f)), model, call, Candidates(model.services, f.fieldType));
    if |calls| > 1 {
      ServiceCallsLastWins(w1.links, model, controller, calls[1..]);
    }
  }

  /** Every entry of a processed base flow still names its service,
      controller and endpoint, and, when the endpoint made calls, its last
      call. */
  lemma ProcessKeepsBase(b: Base)
    ensures var r := Process(b).links;
      r.model == Some(b.model) && r.controller == Some(b.controller) && r.controllerMethod == Some(b.endpoint)
    ensures EndpointCalls(b) != [] ==>
      Process(b).links.serviceMethodCall == Some(EndpointCalls(b)[|EndpointCalls(b)| - 1])
  {
    if EndpointCalls(b) != [] {
      ServiceCallsLastWins(BaseLinks(b), b.model, b.controller, EndpointCalls(b));
    }
  }

  /** When no endpoint call names a field of the controller, there is one
      entry per call. */
  lemma {:induction false} MissingFieldsOnePerCall(l: Links, model: M.Service, controller: JClass, calls: seq<MethodCall>)
    requires forall c :: c in calls ==> FindField(controller.fields, c.objectName).None?
    ensures ServiceCalls(l, model, controller, calls).count == |calls|
    decreases |calls|
  {
    if calls != [] {
      assert calls[0] in calls;
      assert forall c :: c in calls[1..] ==> c in calls;
      MissingFieldsOnePerCall(l.(serviceMethodCall := Some(calls[0])), model, controller, calls[1..]);
    }
  }

  /** A repository call with its field and `n` candidates appends `n`
      entries. */
  lemma RepositoryCallEntries(l: Links, model: M.Service, service: JClass, call: MethodCall, f: Field)
    requires FindField(service.fields, call.objectName) == Some(f)
    ensures RepositoryCalls(l, model, service, [call]).count == |Candidates(model.repositories, f.fieldType)|
  {
  }

  // ------------------------------------------------------------ the methods

  /** No flow object occurs twice. */
  predicate Distinct(fs: seq<Flow>) {
    forall k, j :: 0 <= k < j < |fs| ==> fs[k] != fs[j]
  }

  /** The flows hold exactly the links of the base flows `bs`. */
  predicate HoldBases(fs: seq<Flow>, bs: seq<Base>)
    reads set f | f in fs
  {
    |fs| == |bs| && forall k :: 0 <= k < |fs| ==> fs[k].Links() == BaseLinks(bs[k])
  }

  /** Joining two lists of distinct flows that share no object. */
  lemma Join(a: seq<Flow>, b: seq<Flow>, ba: seq<Base>, bb: seq<Base>)
    requires HoldBases(a, ba) && HoldBases(b, bb) && Distinct(a) && Distinct(b)
    requires forall x, y :: x in a && y in b ==> x != y
    ensures HoldBases(a + b, ba + bb) && Distinct(a + b)
  {
    forall k, j | 0 <= k < j < |a + b|
      ensures (a + b)[k] != (a + b)[j]
    {
      if j >= |a| && k < |a| {
        assert a[k] in a && b[j - |a|] in b;
      }
    }
  }

  /** The innermost loop of `generateNewFlows`: a new flow per endpoint of
      one controller. */
  method EndpointFlows(s: M.Service, c: JClass) returns (fs: seq<Flow>)
    ensures HoldBases(fs, EndpointBases(s, c, GetEndpoints(c))) && Distinct(fs)
    ensures forall k :: 0 <= k < |fs| ==> fresh(fs[k])
  {
    var es := GetEndpoints(c);
    fs := [];
    for i := 0 to |es|
      invariant |fs| == i
      invariant forall k :: 0 <= k < i ==> fs[k].Links() == BaseLinks(Base(s, c, es[k]))
      invariant Distinct(fs)
      invariant forall k :: 0 <= k < i ==> fresh(fs[k])
    {
      var f := new Flow();
      f.controller := Some(c);
      f.controllerMethod := Some(es[i]);
      f.model := Some(s);
      fs := fs + [f];
    }
  }

  /** The middle loop of `generateNewFlows`: one service's controllers. */
  method ControllerFlows(s: M.Service, cs: seq<JClass>) returns (fs: seq<Flow>)
    ensures HoldBases(fs, ControllerBases(s, cs)) && Distinct(fs)
    ensures forall k :: 0 <= k < |fs| ==> fresh(fs[k])
  {
    fs := [];
    for i := 0 to |cs|
      invariant HoldBases(fs, ControllerBases(s, cs[..i])) && Distinct(fs)
      invariant forall k :: 0 <= k < |fs| ==> fresh(fs[k])
    {
      assert cs[..i + 1][..i] == cs[..i];
      ghost var prev := fs;
      var more := EndpointFlows(s, cs[i]);
      Join(prev, more, ControllerBases(s, cs[..i]), EndpointBases(s, cs[i], GetEndpoints(cs[i])));
      fs := fs + more;
    }
    assert cs[..|cs|] == cs;
  }

  /** `generateNewFlows`: a new flow per base flow, in `BaseFlows` order. */
  method GenerateNewFlows(services: seq<M.Service>) returns (fs: seq<Flow>)
    ensures HoldBases(fs, BaseFlows(services)) && Distinct(fs)
    ensures forall k :: 0 <= k < |fs| ==> fresh(fs[k])
  {
    fs := [];
    for i := 0 to |services|
      invariant HoldBases(fs, BaseFlows(services[..i])) && Distinct(fs)
      invariant forall k :: 0 <= k < |fs| ==> fresh(fs[k])
    {
      assert services[..i + 1][..i] == services[..i];
      ghost var prev := fs;
      var more := ControllerFlows(services[i], services[i].controllers);
      Join(prev, more, BaseFlows(services[..i]), ControllerBases(services[i], services[i].controllers));
      fs := fs + more;
    }
    assert services[..|services|] == services;
  }

  /** The loop over repository candidates (the loop of `buildFlows` over `repositoryClasses`). */
  method WalkRepositoryClasses(f: Flow, call: MethodCall, classes: seq<JClass>, out: seq<Flow>) returns (out': seq<Flow>)
    modifies f
    ensures f.Links() == RepositoryClasses(old(f.Links()), call, classes).links
    ensures out' == out + Repeat(f, |classes|)
  {
    ghost var l0 := f.Links();
    out' := out;
    for i := 0 to |classes|
      invariant RepositoryClasses(l0, call, classes).links == RepositoryClasses(f.Links(), call, classes[i..]).links
      invariant out' == out + Repeat(f, i)
    {
      DropNext(classes, i);
      f.repository := Some(classes[i]);
      var m := FindMethod(classes[i].methods, call.name);
      if m.Some? {
        f.repositoryMethod := m;
      }
      out' := out' + [f];
    }
  }

  /** The loop over a service method's calls (the loop over `repositoryMethodCalls`). */
  method WalkRepositoryCalls(f: Flow, model: M.Service, service: JClass, calls: seq<MethodCall>, out: seq<Flow>)
    returns (out': seq<Flow>)
    modifies f
    ensures f.Links() == RepositoryCalls(old(f.Links()), model, service, calls).links
    ensures out' == out + Repeat(f, RepositoryCalls(old(f.Links()), model, service, calls).count)
  {
    ghost var l0 := f.Links();
    ghost var n: nat := 0;
    out' := out;
    for i := 0 to |calls|
      invariant RepositoryCalls(l0, model, service, calls).links == RepositoryCalls(f.Links(), model, service, calls[i..]).links
      invariant RepositoryCalls(l0, model, service, calls).count == n + RepositoryCalls(f.Links(), model, service, calls[i..]).count
      invariant out' == out + Repeat(f, n)
    {
      DropNext(calls, i);
      var call := calls[i];
      f.repositoryMethodCall := Some(call);
      var field := FindField(service.fields, call.objectName);
      if field.None? {
        out' := out' + [f];
        n := n + 1;
      } else {
        f.serviceRepositoryField := field;
        var candidates := Candidates(model.repositories, field.value.fieldType);
        out' := WalkRepositoryClasses(f, call, candidates, out');
        RepeatAdd(f, n, |candidates|);
        n := n + |candidates|;
      }
    }
  }

  /** The loop over service candidates (the loop over `serviceClasses`). */
  method WalkServiceClasses(f: Flow, model: M.Service, call: MethodCall, classes: seq<JClass>, out: seq<Flow>)
    returns (out': seq<Flow>)
    modifies f
    ensures f.Links() == ServiceClasses(old(f.Links()), model, call, classes).links
    ensures out' == out + Repeat(f, ServiceClasses(old(f.Links()), model, call, classes).count)
  {
    ghost var l0 := f.Links();
    ghost var n: nat := 0;
    out' := out;
    for i := 0 to |classes|
      invariant ServiceClasses(l0, model, call, classes).links == ServiceClasses(f.Links(), model, call, classes[i..]).links
      invariant ServiceClasses(l0, model, call, classes).count == n + ServiceClasses(f.Links(), model, call, classes[i..]).count
      invariant out' == out + Repeat(f, n)
    {
      DropNext(classes, i);
      var c := classes[i];
      f.service := Some(c);
      var m := FindMethod(c.methods, call.name);
      if m.None? {
        out' := out' + [f];
        n := n + 1;
      } else {
        f.serviceMethod := m;
        ghost var before := f.Links();
        var calls := CallsFrom(c.methodCalls, m.value.name);
        out' := WalkRepositoryCalls(f, model, c, calls, out');
        ghost var k := RepositoryCalls(before, model, c, calls).count;
        RepeatAdd(f, n, k);
        n := n + k;
      }
    }
  }

  /** The loop over an endpoint's calls (the loop over `serviceMethodCalls`). */
  method WalkServiceCalls(f: Flow, model: M.Service, controller: JClass, calls: seq<MethodCall>, out: seq<Flow>)
    returns (out': seq<Flow>)
    modifies f
    ensures f.Links() == ServiceCalls(old(f.Links()), model, controller, calls).links
    ensures out' == out + Repeat(f, ServiceCalls(old(f.Links()), model, controller, calls).count)
  {
    ghost var l0 := f.Links();
    ghost var n: nat := 0;
    out' := out;
    for i := 0 to |calls|
      invariant ServiceCalls(l0, model, controller, calls).links == ServiceCalls(f.Links(), model, controller, calls[i..]).links
      invariant ServiceCalls(l0, model, controller, calls).count == n + ServiceCalls(f.Links(), model, controller, calls[i..]).count
      invariant out' == out + Repeat(f, n)
    {
      DropNext(calls, i);
      var call := calls[i];
      f.serviceMethodCall := Some(call);
      var field := FindField(controller.fields, call.objectName);
      if field.None? {
        out' := out' + [f];
        n := n + 1;
      } else {
        f.controllerServiceField := field;
        ghost var before := f.Links();
        var candidates := Candidates(model.services, field.value.fieldType);
        out' := WalkServiceClasses(f, model, call, candidates, out');
        ghost var k := ServiceClasses(before, model, call, candidates).count;
        RepeatAdd(f, n, k);
        n := n + k;
      }
    }
  }

  /** One base flow's pass of `buildFlows` (the body of the loop over `baseFlows`). */
  method WalkBase(f: Flow, b: Base, out: seq<Flow>) returns (out': seq<Flow>)
    requires f.Links() == BaseLinks(b)
    modifies f
    ensures f.Links() == Process(b).links
    ensures out' == out + Repeat(f, Process(b).count)
  {
    var calls := CallsFrom(b.controller.methodCalls, b.endpoint.name);
    out' := WalkServiceCalls(f, b.model, b.controller, calls, out);
    if calls == [] {
      out' := out' + [f];
    }
  }

  /** Entry `j` of `FlowsOf` carries the final links of its owner. */
  lemma {:induction false} FlowsOfOwners(bases: seq<Base>)
    ensures |FlowsOf(bases)| == |OwnersOf(bases)|
    ensures forall j :: 0 <= j < |FlowsOf(bases)| ==> FlowsOf(bases)[j] == Finals(bases)[OwnersOf(bases)[j]]
  {
    if bases != [] {
      var init := bases[..|bases| - 1];
      FlowsOfOwners(init);
      forall j | 0 <= j < |FlowsOf(bases)|
        ensures FlowsOf(bases)[j] == Finals(bases)[OwnersOf(bases)[j]]
      {
        if j < |FlowsOf(init)| {
          assert FlowsOf(bases)[j] == FlowsOf(init)[j];
          assert OwnersOf(bases)[j] == OwnersOf(init)[j];
          assert Finals(bases)[OwnersOf(init)[j]] == Finals(init)[OwnersOf(init)[j]];
        }
      }
    }
  }

  /**
   * `buildFlows`: the entries' links are `FlowsOf` the base flows, every
   * entry is a new object, and two entries are the same object exactly
   * when they come from the same base flow.
   */
  method BuildFlows(system: MicroserviceSystem) returns (allFlows: seq<Flow>)
    ensures var bases := BaseFlows(old(States(system.microservices)));
      |allFlows| == |FlowsOf(bases)| &&
      (forall j :: 0 <= j < |allFlows| ==> allFlows[j].Links() == FlowsOf(bases)[j]) &&
      (forall j, j' :: 0 <= j < |allFlows| && 0 <= j' < |allFlows| ==>
         (allFlows[j] == allFlows[j'] <==> OwnersOf(bases)[j] == OwnersOf(bases)[j']))
    ensures forall j :: 0 <= j < |allFlows| ==> fresh(allFlows[j])
  {
    var services := States(system.microservices);
    var bases := BaseFlows(services);
    var baseFlows := GenerateNewFlows(services);
    ghost var owners;
    allFlows, owners := WalkAll(baseFlows, bases);
    FlowsOfOwners(bases);
    forall j | 0 <= j < |allFlows|
      ensures allFlows[j].Links() == FlowsOf(bases)[j]
    {
      assert allFlows[j].Links() == Finals(bases)[owners[j]];
    }
    SameObjectSameOwner(allFlows, baseFlows, owners);
  }

  /** The outer loop of `buildFlows` (over `baseFlows`): each base flow is walked
      once; `owners` says which base flow each entry is. */
  method WalkAll(baseFlows: seq<Flow>, bases: seq<Base>) returns (allFlows: seq<Flow>, ghost owners: seq<nat>)
    requires HoldBases(baseFlows, bases) && Distinct(baseFlows)
    modifies set f | f in baseFlows
    ensures owners == OwnersOf(bases) && |allFlows| == |owners|
    ensures forall j :: 0 <= j < |allFlows| ==> owners[j] < |bases| && allFlows[j] == baseFlows[owners[j]]
    ensures forall k :: 0 <= k < |bases| ==> baseFlows[k].Links() == Finals(bases)[k]
  {
    owners := [];
    allFlows := [];
    for i := 0 to |bases|
      invariant owners == OwnersOf(bases[..i]) && |allFlows| == |owners|
      invariant Owned(allFlows, owners, baseFlows, i)
      invariant forall k :: 0 <= k < |bases| ==> baseFlows[k].Links() == if k < i then Finals(bases)[k] else BaseLinks(bases[k])
    {
      allFlows, owners := WalkNext(baseFlows, bases, i, allFlows, owners);
    }
    assert bases[..|bases|] == bases;
  }

  /** One iteration of that loop: base flow `i` is walked. */
  method WalkNext(baseFlows: seq<Flow>, bases: seq<Base>, i: nat, allFlows: seq<Flow>, ghost owners: seq<nat>)
    returns (allFlows': seq<Flow>, ghost owners': seq<nat>)
    requires i < |bases| && |baseFlows| == |bases| && Distinct(baseFlows)
    requires owners == OwnersOf(bases[..i]) && |allFlows| == |owners|
    requires Owned(allFlows, owners, baseFlows, i)
    requires forall k :: 0 <= k < |bases| ==> baseFlows[k].Links() == if k < i then Finals(bases)[k] else BaseLinks(bases[k])
    modifies baseFlows[i]
    ensures owners' == OwnersOf(bases[..i + 1]) && |allFlows'| == |owners'|
    ensures Owned(allFlows', owners', baseFlows, i + 1)
    ensures forall k :: 0 <= k < |bases| ==> baseFlows[k].Links() == if k < i + 1 then Finals(bases)[k] else BaseLinks(bases[k])
  {
    ghost var count := Process(bases[i]).count;
    OwnersOfSnoc(bases, i);
    FinalsAt(bases, i);
    allFlows' := WalkBase(baseFlows[i], bases[i], allFlows);
    owners' := owners + Repeat(i, count);
    OwnedAppend(allFlows, owners, baseFlows, i, count);
    forall k | 0 <= k < |bases|
      ensures baseFlows[k].Links() == if k < i + 1 then Finals(bases)[k] else BaseLinks(bases[k])
    {
      if k != i {
        assert if k < i then baseFlows[k] != baseFlows[i] else baseFlows[i] != baseFlows[k];
        assert baseFlows[k].Links() == old(baseFlows[k].Links());
      }
    }
  }

  /** Entry `j` of `all` is the base flow `owners[j]`, one of the first `n`. */
  ghost predicate Owned<T>(all: seq<T>, owners: seq<nat>, base: seq<T>, n: nat) {
    n <= |base| && |all| == |owners| &&
    forall j :: 0 <= j < |all| ==> owners[j] < n && all[j] == base[owners[j]]
  }

  /** The walks of base flow `i` are appended, each owned by `i`. */
  lemma OwnedAppend<T>(all: seq<T>, owners: seq<nat>, base: seq<T>, i: nat, count: nat)
    requires i < |base| && Owned(all, owners, base, i)
    ensures Owned(all + Repeat(base[i], count), owners + Repeat(i, count), base, i + 1)
  {
  }

  lemma OwnersOfSnoc(bases: seq<Base>, i: nat)
    requires i < |bases|
    ensures OwnersOf(bases[..i + 1]) == OwnersOf(bases[..i]) + Repeat(i, Process(bases[i]).count)
  {
    var p := bases[..i + 1];
    assert p[..|p| - 1] == bases[..i];
    assert p[|p| - 1] == bases[i];
  }

  /** The final links of each base flow. */
  function Finals(bases: seq<Base>): (r: seq<Links>)
    ensures |r| == |bases|
  {
    if bases == [] then [] else Finals(bases[..|bases| - 1]) + [Process(bases[|bases| - 1]).links]
  }

  lemma {:induction false} FinalsAt(bases: seq<Base>, k: nat)
    requires k < |bases|
    ensures Finals(bases)[k] == Process(bases[k]).links
  {
    if k < |bases| - 1 {
      FinalsAt(bases[..|bases| - 1], k);
    }
  }

  /** Entries that are base flows picked by owner index are the same
      object exactly when their owners agree. */
  lemma SameObjectSameOwner(entries: seq<Flow>, baseFlows: seq<Flow>, owners: seq<nat>)
    requires Distinct(baseFlows) && |entries| == |owners|
    requires forall j :: 0 <= j < |entries| ==> owners[j] < |baseFlows| && entries[j] == baseFlows[owners[j]]
    ensures forall j, j' :: 0 <= j < |entries| && 0 <= j' < |entries| ==>
      (entries[j] == entries[j'] <==> owners[j] == owners[j'])
  {
    forall j, j' | 0 <= j < |entries| && 0 <= j' < |entries| && owners[j] != owners[j']
      ensures entries[j] != entries[j']
    {
      if owners[j] < owners[j'] {
        assert baseFlows[owners[j]] != baseFlows[owners[j']];
      } else {
        assert baseFlows[owners[j']] != baseFlows[owners[j]];
      }
    }
  }
}
