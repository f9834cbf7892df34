/**
  Admission of a layered RPC request: transparent generic wrappers are removed one by one,
  the layer of the nested query may be selected by a wrapper, and the innermost method
  becomes an immutable call descriptor.
 */
module RpcFreeze {
  import opened Bin
  import opened Schema

  const MAX_NESTING := 256

  datatype Action = Direct | Adapter | Reject | Unavailable

  datatype Slot = Slot(profile: int, owner: Key, ordinal: nat, name: string)

  datatype Nested = InheritProfile | ProfileFromField

  datatype Wrapper = Wrapper(resultSlot: Slot, nested: Nested)

  /** What a method returns in one layer; the identity of the plan stands for its contents. */
  datatype ResultPlan = ResultPlan(owner: Key, layer: int, action: Action)

  datatype Route = Route(
    method_: Key, handler: bool, request: Action, requestHook: string, result: ResultPlan, wrapper: Option<Wrapper>)

  datatype RouteKey = RouteKey(layer: int, wireID: nat)

  datatype Model = Model(profiles: seq<int>, routes: map<RouteKey, Route>)

  datatype Request = Request(wireID: nat, nestedLayer: int, nested: Option<Request>)

  datatype Binding = Binding(slot: Slot, result: ResultPlan)

  datatype Call = Call(profile: int, method_: Key, wireID: nat, result: ResultPlan, adapter: string,
                       bindings: seq<Binding>)

  datatype Rejection =
    | UnsupportedProfile | TooDeep | NoRoute | FailClosed | NoNestedQuery | UnexpectedNestedQuery | NoHandler
    | ResultFailClosed

  datatype Outcome = Frozen(call: Call) | Rejected(why: Rejection)

  // ---------------------------------------------------------------- supported profiles

  ghost predicate Sorted(s: seq<int>)
  {
    forall i, j :: 0 <= i < j < |s| ==> s[i] <= s[j]
  }

  /** Binary search for the first element that is not below `x`. */
  method SearchInts(s: seq<int>, x: int) returns (index: nat)
    requires Sorted(s)
    ensures index <= |s|
    ensures forall i :: 0 <= i < index ==> s[i] < x
    ensures forall i :: index <= i < |s| ==> s[i] >= x
  {
    var j := |s|;
    index := 0;
    while index < j
      invariant 0 <= index <= j <= |s|
      invariant forall i :: 0 <= i < index ==> s[i] < x
      invariant forall i :: j <= i < |s| ==> s[i] >= x
    {
      var h := (index + j) / 2;
      if s[h] < x { index := h + 1; } else { j := h; }
    }
  }

  method ProfileSupported(profiles: seq<int>, layer: int) returns (ok: bool)
    requires Sorted(profiles)
    ensures ok <==> layer in profiles
  {
    var index := SearchInts(profiles, layer);
    ok := index < |profiles| && profiles[index] == layer;
    if layer in profiles {
      var i :| 0 <= i < |profiles| && profiles[i] == layer;
      assert index <= i;
      assert profiles[index] <= profiles[i];
    }
  }

  // ---------------------------------------------------------------- freezing

  predicate Closed(a: Action)
  {
    a.Reject? || a.Unavailable?
  }

  function Freeze(m: Model, profile: int, request: Request, depth: nat): Outcome
    decreases request
  {
    var key := RouteKey(profile, request.wireID);
    if depth > MAX_NESTING then Rejected(TooDeep)
    else if key !in m.routes then Rejected(NoRoute)
    else
      var route := m.routes[key];
      if Closed(route.request) then Rejected(FailClosed)
      else if route.wrapper.Some? then FreezeWrapper(m, profile, request, depth, route.wrapper.value)
      else if request.nested.Some? then Rejected(UnexpectedNestedQuery)
      else if !route.handler then
        if route.request.Adapter? && route.requestHook != "" && route.result.action.Adapter?
        then Frozen(Call(profile, route.method_, request.wireID, route.result, route.requestHook, []))
        else Rejected(NoHandler)
      else if Closed(route.result.action) then Rejected(ResultFailClosed)
      else Frozen(Call(profile, route.method_, request.wireID, route.result, "", []))
  }

  function FreezeWrapper(m: Model, profile: int, request: Request, depth: nat, wrapper: Wrapper): Outcome
    decreases request, 0
  {
    if request.nested.None? then Rejected(NoNestedQuery)
    else if wrapper.nested.ProfileFromField? && request.nestedLayer !in m.profiles then Rejected(UnsupportedProfile)
    else
      var nestedProfile := if wrapper.nested.ProfileFromField? then request.nestedLayer else profile;
      match Freeze(m, nestedProfile, request.nested.value, depth + 1)
      case Rejected(why) => Rejected(why)
      case Frozen(call) => Frozen(call.(bindings := call.bindings + [Binding(wrapper.resultSlot, call.result)]))
  }

  function FreezeCall(m: Model, profile: int, request: Option<Request>): Outcome
  {
    if request.None? || profile !in m.profiles then Rejected(UnsupportedProfile)
    else Freeze(m, profile, request.value, 0)
  }

  /**
    `freeze` as it runs: supported layers are found by binary search and bindings are appended to
    the returned call.
   */
  method RunFreeze(m: Model, profile: int, request: Request, depth: nat) returns (r: Outcome)
    requires Sorted(m.profiles)
    ensures r == Freeze(m, profile, request, depth)
    decreases request
  {
    if depth > MAX_NESTING { return Rejected(TooDeep); }
    var key := RouteKey(profile, request.wireID);
    if key !in m.routes { return Rejected(NoRoute); }
    var route := m.routes[key];
    if Closed(route.request) { return Rejected(FailClosed); }
    if route.wrapper.Some? {
      if request.nested.None? { return Rejected(NoNestedQuery); }
      var nestedProfile := profile;
      if route.wrapper.value.nested.ProfileFromField? {
        nestedProfile := request.nestedLayer;
        var supported := ProfileSupported(m.profiles, nestedProfile);
        if !supported { return Rejected(UnsupportedProfile); }
      }
      r := RunFreeze(m, nestedProfile, request.nested.value, depth + 1);
      if r.Rejected? { return; }
      r := Frozen(r.call.(bindings := r.call.bindings + [Binding(route.wrapper.value.resultSlot, r.call.result)]));
      return;
    }
    if request.nested.Some? { return Rejected(UnexpectedNestedQuery); }
    if !route.handler {
      if route.request.Adapter? && route.requestHook != "" && route.result.action.Adapter? {
        return Frozen(Call(profile, route.method_, request.wireID, route.result, route.requestHook, []));
      }
      return Rejected(NoHandler);
    }
    if Closed(route.result.action) { return Rejected(ResultFailClosed); }
    r := Frozen(Call(profile, route.method_, request.wireID, route.result, "", []));
  }

  /** `freezeCall`: it succeeds exactly on admitted chains and then returns the call they describe. */
  method RunFreezeCall(m: Model, profile: int, request: Option<Request>) returns (r: Outcome)
    requires Sorted(m.profiles)
    ensures r.Frozen? <==> request.Some? && profile in m.profiles && Admitted(m, profile, Chain(request.value))
    ensures r.Frozen? ==> Describes(m, profile, Chain(request.value), r.call) && r.call.profile in m.profiles
    ensures r == FreezeCall(m, profile, request)
  {
    if request.None? { return Rejected(UnsupportedProfile); }
    FreezeCallExact(m, profile, request.value);
    var supported := ProfileSupported(m.profiles, profile);
    if !supported { return Rejected(UnsupportedProfile); }
    r := RunFreeze(m, profile, request.value, 0);
  }

  // ---------------------------------------------------------------- the request as a chain

  /** The requests of the chain, outermost first. */
  function Chain(r: Request): (c: seq<Request>)
    ensures |c| >= 1 && c[0] == r
  {
    [r] + (if r.nested.Some? then Chain(r.nested.value) else [])
  }

  function RouteAt(m: Model, profile: int, r: Request): Option<Route>
  {
    var key := RouteKey(profile, r.wireID);
    if key in m.routes then Some(m.routes[key]) else None
  }

  predicate Selects(m: Model, profile: int, r: Request)
  {
    var route := RouteAt(m, profile, r);
    route.Some? && route.value.wrapper.Some? && route.value.wrapper.value.nested.ProfileFromField?
  }

  /** The layer in force at position `i`: the one chosen by the last selecting wrapper before it. */
  function ProfileAt(m: Model, profile: int, c: seq<Request>, i: nat): int
    requires i < |c|
  {
    if i == 0 then profile
    else
      var before := ProfileAt(m, profile, c, i - 1);
      if Selects(m, before, c[i - 1]) then c[i - 1].nestedLayer else before
  }

  /** The request at `i` has a route that is not closed in the layer in force there. */
  ghost predicate OpenAt(m: Model, profile: int, c: seq<Request>, i: nat)
    requires i < |c|
  {
    var route := RouteAt(m, ProfileAt(m, profile, c, i), c[i]);
    route.Some? && (route.value.request.Direct? || route.value.request.Adapter?)
  }

  ghost predicate WrapperAt(m: Model, profile: int, c: seq<Request>, i: nat)
    requires i < |c|
  {
    && OpenAt(m, profile, c, i)
    && RouteAt(m, ProfileAt(m, profile, c, i), c[i]).value.wrapper.Some?
    && (Selects(m, ProfileAt(m, profile, c, i), c[i]) ==> c[i].nestedLayer in m.profiles)
  }

  /** The innermost method is handled, or adapted as a whole. */
  ghost predicate Callable(r: Route)
  {
    && r.wrapper.None?
    && if r.handler then r.result.action.Direct? || r.result.action.Adapter?
       else r.request.Adapter? && r.requestHook != "" && r.result.action.Adapter?
  }

  /** Every link of the chain is an admitted wrapper, the last one an admitted method, under at most 256 wrappers. */
  ghost predicate Admitted(m: Model, profile: int, c: seq<Request>)
    requires |c| >= 1
  {
    && |c| - 1 <= 256
    && (forall i :: 0 <= i < |c| - 1 ==> WrapperAt(m, profile, c, i))
    && OpenAt(m, profile, c, |c| - 1)
    && Callable(RouteAt(m, ProfileAt(m, profile, c, |c| - 1), c[|c| - 1]).value)
  }

  ghost function SlotAt(m: Model, profile: int, c: seq<Request>, i: nat): Slot
    requires i < |c| && WrapperAt(m, profile, c, i)
  {
    RouteAt(m, ProfileAt(m, profile, c, i), c[i]).value.wrapper.value.resultSlot
  }

  /**
    The descriptor of an admitted chain: the innermost method in its layer, one binding per
    wrapper, innermost first.
   */
  ghost predicate Describes(m: Model, profile: int, c: seq<Request>, call: Call)
    requires |c| >= 1 && Admitted(m, profile, c)
  {
    var last := |c| - 1;
    var route := RouteAt(m, ProfileAt(m, profile, c, last), c[last]).value;
    && call.profile == ProfileAt(m, profile, c, last)
    && call.method_ == route.method_ && call.wireID == c[last].wireID && call.result == route.result
    && call.adapter == (if route.handler then "" else route.requestHook)
    && |call.bindings| == last
    && forall k :: 0 <= k < last ==> call.bindings[k] == Binding(SlotAt(m, profile, c, last - 1 - k), route.result)
  }

  // ---------------------------------------------------------------- one link at a time

  function NextProfile(m: Model, profile: int, r: Request): int
  {
    if Selects(m, profile, r) then r.nestedLayer else profile
  }

  lemma {:induction false} ProfileShift(m: Model, profile: int, c: seq<Request>, i: nat)
    requires i + 1 < |c|
    ensures ProfileAt(m, profile, c, i + 1) == ProfileAt(m, NextProfile(m, profile, c[0]), c[1..], i)
  {
    if i == 0 {
      assert ProfileAt(m, profile, c, 0) == profile;
    } else {
      ProfileShift(m, profile, c, i - 1);
      assert c[1..][i - 1] == c[i];
    }
  }

  lemma LinkShift(m: Model, profile: int, c: seq<Request>, i: nat)
    requires i + 1 < |c|
    ensures WrapperAt(m, profile, c, i + 1) <==> WrapperAt(m, NextProfile(m, profile, c[0]), c[1..], i)
    ensures OpenAt(m, profile, c, i + 1) <==> OpenAt(m, NextProfile(m, profile, c[0]), c[1..], i)
    ensures WrapperAt(m, profile, c, i + 1) ==>
            SlotAt(m, profile, c, i + 1) == SlotAt(m, NextProfile(m, profile, c[0]), c[1..], i)
  {
    ProfileShift(m, profile, c, i);
    assert c[1..][i] == c[i + 1];
  }

  /** A longer chain is admitted when its first link is a wrapper and the rest is admitted one level deeper. */
  ghost predicate AdmittedFrom(m: Model, profile: int, c: seq<Request>, depth: nat)
    requires |c| >= 1
  {
    && depth + |c| - 1 <= 256
    && (forall i :: 0 <= i < |c| - 1 ==> WrapperAt(m, profile, c, i))
    && OpenAt(m, profile, c, |c| - 1)
    && Callable(RouteAt(m, ProfileAt(m, profile, c, |c| - 1), c[|c| - 1]).value)
  }

  lemma AdmittedStep(m: Model, profile: int, c: seq<Request>, depth: nat)
    requires |c| >= 2
    ensures AdmittedFrom(m, profile, c, depth) <==>
            WrapperAt(m, profile, c, 0) && AdmittedFrom(m, NextProfile(m, profile, c[0]), c[1..], depth + 1)
  {
    var p', c' := NextProfile(m, profile, c[0]), c[1..];
    forall i | 0 <= i < |c| - 1
      ensures WrapperAt(m, profile, c, i + 1) <==> WrapperAt(m, p', c', i)
      ensures OpenAt(m, profile, c, i + 1) <==> OpenAt(m, p', c', i)
    {
      LinkShift(m, profile, c, i);
    }
    ProfileShift(m, profile, c, |c| - 2);
    assert forall i :: 0 <= i < |c| - 2 ==> WrapperAt(m, profile, c, i + 1) == WrapperAt(m, p', c', i);
    if AdmittedFrom(m, p', c', depth + 1) && WrapperAt(m, profile, c, 0) {
      forall i | 0 <= i < |c| - 1 ensures WrapperAt(m, profile, c, i) {
        if i > 0 { assert WrapperAt(m, profile, c, (i - 1) + 1) == WrapperAt(m, p', c', i - 1); }
      }
    }
  }

  lemma DescribesStep(m: Model, profile: int, c: seq<Request>, depth: nat, call: Call)
    requires |c| >= 2 && AdmittedFrom(m, profile, c, depth)
    requires AdmittedFrom(m, NextProfile(m, profile, c[0]), c[1..], depth + 1)
    requires Describes(m, NextProfile(m, profile, c[0]), c[1..], call)
    ensures Describes(m, profile, c,
                      call.(bindings := call.bindings + [Binding(SlotAt(m, profile, c, 0), call.result)]))
  {
    var last := |c| - 1;
    var p', c' := NextProfile(m, profile, c[0]), c[1..];
    ProfileShift(m, profile, c, last - 1);
    var bindings := call.bindings + [Binding(SlotAt(m, profile, c, 0), call.result)];
    forall k | 0 <= k < last
      ensures bindings[k] == Binding(SlotAt(m, profile, c, last - 1 - k), call.result)
    {
      if k < last - 1 {
        LinkShift(m, profile, c, last - 2 - k);
        assert SlotAt(m, profile, c, (last - 2 - k) + 1) == SlotAt(m, p', c', last - 2 - k);
      }
    }
  }

  lemma {:induction false} FreezeIsAdmission(m: Model, profile: int, r: Request, depth: nat)
    ensures Freeze(m, profile, r, depth).Frozen? <==> AdmittedFrom(m, profile, Chain(r), depth)
    ensures Freeze(m, profile, r, depth).Frozen? ==> Describes(m, profile, Chain(r), Freeze(m, profile, r, depth).call)
    decreases r
  {
    var c := Chain(r);
    if r.nested.None? {
      assert c == [r];
    } else {
      var c' := Chain(r.nested.value);
      assert c == [r] + c' && c[1..] == c';
      AdmittedStep(m, profile, c, depth);
      FreezeIsAdmission(m, NextProfile(m, profile, r), r.nested.value, depth + 1);
      if AdmittedFrom(m, profile, c, depth) {
        DescribesStep(m, profile, c, depth, Freeze(m, NextProfile(m, profile, r), r.nested.value, depth + 1).call);
      }
    }
  }

  /** Only configured layers are ever in force along an admitted chain. */
  lemma {:induction false} ProfilesStaySupported(m: Model, profile: int, c: seq<Request>, i: nat)
    requires i < |c| && profile in m.profiles
    requires forall j :: 0 <= j < i ==> WrapperAt(m, profile, c, j)
    ensures ProfileAt(m, profile, c, i) in m.profiles
  {
    if i > 0 {
      ProfilesStaySupported(m, profile, c, i - 1);
      assert WrapperAt(m, profile, c, i - 1);
    }
  }

  /**
    A request is frozen exactly when every link of its chain is admitted in the layer in force
    there, and the descriptor is that of the innermost method with all wrappers bound to its result.
   */
  lemma FreezeCallExact(m: Model, profile: int, r: Request)
    ensures FreezeCall(m, profile, Some(r)).Frozen? <==> profile in m.profiles && Admitted(m, profile, Chain(r))
    ensures FreezeCall(m, profile, Some(r)).Frozen? ==>
              Describes(m, profile, Chain(r), FreezeCall(m, profile, Some(r)).call) &&
              FreezeCall(m, profile, Some(r)).call.profile in m.profiles
    ensures FreezeCall(m, profile, None).Rejected?
  {
    FreezeIsAdmission(m, profile, r, 0);
    if FreezeCall(m, profile, Some(r)).Frozen? {
      ProfilesStaySupported(m, profile, Chain(r), |Chain(r)| - 1);
    }
  }

  // ---------------------------------------------------------------- why a request is rejected

  /** Why a request below `depth` wrappers cannot be a link of an admitted chain in this layer. */
  ghost predicate Fails(m: Model, profile: int, r: Request, depth: nat, why: Rejection)
  {
    match RouteAt(m, profile, r)
    case None => why == if depth > 256 then TooDeep else NoRoute
    case Some(route) =>
      match why
      case TooDeep => depth > 256
      case FailClosed => depth <= 256 && (route.request.Reject? || route.request.Unavailable?)
      case NoNestedQuery => Reached(route, depth) && route.wrapper.Some? && r.nested.None?
      case UnsupportedProfile =>
        Reached(route, depth) && Selects(m, profile, r) && r.nested.Some? && r.nestedLayer !in m.profiles
      case UnexpectedNestedQuery => Reached(route, depth) && route.wrapper.None? && r.nested.Some?
      case NoHandler =>
        && Reached(route, depth) && route.wrapper.None? && r.nested.None? && !route.handler
        && !(route.request.Adapter? && route.requestHook != "" && route.result.action.Adapter?)
      case ResultFailClosed =>
        && Reached(route, depth) && route.wrapper.None? && r.nested.None? && route.handler
        && (route.result.action.Reject? || route.result.action.Unavailable?)
      case NoRoute => false
  }

  ghost predicate Reached(route: Route, depth: nat)
  {
    depth <= 256 && (route.request.Direct? || route.request.Adapter?)
  }

  /** The links before `i` are admitted wrappers, and the one at `i` fails. */
  ghost predicate FailsAt(m: Model, profile: int, c: seq<Request>, depth: nat, i: nat, why: Rejection)
  {
    && i < |c| && (forall j :: 0 <= j < i ==> WrapperAt(m, profile, c, j))
    && Fails(m, ProfileAt(m, profile, c, i), c[i], depth + i, why)
  }

  lemma FailsLater(m: Model, profile: int, c: seq<Request>, depth: nat, i: nat, why: Rejection)
    requires |c| >= 2 && WrapperAt(m, profile, c, 0)
    requires FailsAt(m, NextProfile(m, profile, c[0]), c[1..], depth + 1, i, why)
    ensures FailsAt(m, profile, c, depth, i + 1, why)
  {
    ProfileShift(m, profile, c, i);
    forall j | 0 <= j < i + 1 ensures WrapperAt(m, profile, c, j) {
      if j > 0 {
        LinkShift(m, profile, c, j - 1);
        assert WrapperAt(m, profile, c, (j - 1) + 1);
      }
    }
  }

  /** A rejection names the reason of the first link that is not an admitted wrapper. */
  lemma {:induction false} RejectionExplained(m: Model, profile: int, r: Request, depth: nat) returns (i: nat)
    requires Freeze(m, profile, r, depth).Rejected?
    ensures FailsAt(m, profile, Chain(r), depth, i, Freeze(m, profile, r, depth).why)
    decreases r
  {
    var c := Chain(r);
    var why := Freeze(m, profile, r, depth).why;
    i := 0;
    if !Fails(m, profile, r, depth, why) {
      assert c == [r] + Chain(r.nested.value) && c[1..] == Chain(r.nested.value);
      assert WrapperAt(m, profile, c, 0);
      i := RejectionExplained(m, NextProfile(m, profile, r), r.nested.value, depth + 1);
      FailsLater(m, profile, c, depth, i, why);
      i := i + 1;
    }
  }

  lemma FailsOneWay(m: Model, profile: int, r: Request, depth: nat, why: Rejection, why': Rejection)
    requires Fails(m, profile, r, depth, why) && Fails(m, profile, r, depth, why')
    ensures why == why'
  {
  }

  lemma DeepFails(m: Model, profile: int, r: Request, depth: nat, why: Rejection)
    requires Fails(m, profile, r, depth, why)
    ensures depth > 256 <==> why == TooDeep
  {
  }

  lemma WrapperHolds(m: Model, profile: int, r: Request, i: nat, why: Rejection)
    requires FailsAt(m, profile, Chain(r), 0, i, why) && i < |Chain(r)| - 1 && WrapperAt(m, profile, Chain(r), i)
    ensures i > 256
  {
    ChainEnds(r, i);
  }

  /** Two failing links of one chain fail for the same reason, for then both are too deep. */
  lemma SameReason(m: Model, profile: int, r: Request, i: nat, why: Rejection, j: nat, why': Rejection)
    requires FailsAt(m, profile, Chain(r), 0, i, why) && FailsAt(m, profile, Chain(r), 0, j, why') && i <= j
    ensures why == why'
  {
    var c := Chain(r);
    DeepFails(m, ProfileAt(m, profile, c, i), c[i], i, why);
    DeepFails(m, ProfileAt(m, profile, c, j), c[j], j, why');
    if i < j {
      WrapperHolds(m, profile, r, i, why);
    } else {
      FailsOneWay(m, ProfileAt(m, profile, c, i), c[i], i, why, why');
    }
  }

  lemma FailingIsRejected(m: Model, profile: int, r: Request, i: nat, why: Rejection)
    requires FailsAt(m, profile, Chain(r), 0, i, why)
    ensures Freeze(m, profile, r, 0).Rejected?
  {
    var c := Chain(r);
    FreezeIsAdmission(m, profile, r, 0);
    ChainEnds(r, i);
    if Admitted(m, profile, c) && i < |c| - 1 { WrapperHolds(m, profile, r, i, why); }
  }

  /** Some link is the first to fail, and fails for this reason. */
  ghost predicate Stopped(m: Model, profile: int, r: Request, why: Rejection)
  {
    exists i :: FailsAt(m, profile, Chain(r), 0, i, why)
  }

  lemma OneReason(m: Model, profile: int, r: Request, why: Rejection, why': Rejection)
    requires Stopped(m, profile, r, why) && Stopped(m, profile, r, why')
    ensures why == why'
  {
    var i :| FailsAt(m, profile, Chain(r), 0, i, why);
    var j :| FailsAt(m, profile, Chain(r), 0, j, why');
    if i <= j { SameReason(m, profile, r, i, why, j, why'); } else { SameReason(m, profile, r, j, why', i, why); }
  }

  /** A request is rejected with the reason of the first link that is not an admitted wrapper, and for nothing else. */
  lemma RejectionExact(m: Model, profile: int, r: Request, why: Rejection)
    requires profile in m.profiles
    ensures FreezeCall(m, profile, Some(r)) == Rejected(why) <==> Stopped(m, profile, r, why)
  {
    if Freeze(m, profile, r, 0).Rejected? {
      var found := Freeze(m, profile, r, 0).why;
      var i := RejectionExplained(m, profile, r, 0);
      assert Stopped(m, profile, r, found);
      if Stopped(m, profile, r, why) { OneReason(m, profile, r, found, why); }
    } else if Stopped(m, profile, r, why) {
      var j :| FailsAt(m, profile, Chain(r), 0, j, why);
      FailingIsRejected(m, profile, r, j, why);
    }
  }

  /** Every request of a chain but the last has a nested one. */
  lemma {:induction false} ChainEnds(r: Request, i: nat)
    requires i < |Chain(r)|
    ensures Chain(r)[i].nested.Some? <==> i < |Chain(r)| - 1
    decreases r
  {
    if i > 0 { ChainEnds(r.nested.value, i - 1); }
  }

  // ---------------------------------------------------------------- obligations and hooks

  datatype Resolution = Unresolved | ResolveReject | ResolveUnavailable | ResolveOther

  datatype Obligation = Obligation(resolution: Resolution, hook: string)

  ghost predicate Refused(obligations: seq<Obligation>)
  {
    exists i :: 0 <= i < |obligations| && !obligations[i].resolution.ResolveOther?
  }

  function Hooks(obligations: seq<Obligation>): set<string>
  {
    set i | 0 <= i < |obligations| && obligations[i].hook != "" :: obligations[i].hook
  }

  ghost predicate Conflicting(hooks: set<string>)
  {
    exists h, h' :: h in hooks && h' in hooks && h != h'
  }

  /**
    The action of a list of obligations depends only on which obligations and hooks occur:
    a refused one closes the route, two different hooks close it unless they compose, and
    a single hook is used as it is.
   */
  method ClassifyObligations(obligations: seq<Obligation>, composable: bool) returns (action: Action, hook: string)
    ensures action.Direct? <==> obligations == []
    ensures action.Reject? <==> Refused(obligations) || (Conflicting(Hooks(obligations)) && !composable)
    ensures (exists i :: 0 <= i < |obligations| &&
               obligations[i].resolution in {Unresolved, ResolveReject, ResolveUnavailable}) ==> action.Reject?
    ensures action.Direct? || action.Reject? || action.Adapter?
    ensures action.Adapter? ==>
              (hook != "" <==> Hooks(obligations) == {hook}) &&
              (hook == "" <==> Hooks(obligations) == {} || Conflicting(Hooks(obligations)))
    ensures !action.Adapter? ==> hook == ""
  {
    if obligations == [] { return Direct, ""; }
    hook := "";
    var composed := false;
    for i := 0 to |obligations|
      invariant !Refused(obligations[..i])
      invariant composed <==> Conflicting(Hooks(obligations[..i]))
      invariant composed ==> composable && hook == ""
      invariant !composed ==> Hooks(obligations[..i]) == if hook == "" then {} else {hook}
    {
      var o := obligations[i];
      assert obligations[..i + 1] == obligations[..i] + [o];
      HooksGrow(obligations[..i], o);
      if !o.resolution.ResolveOther? {
        assert Refused(obligations);
        return Reject, "";
      }
      if o.hook != "" {
        assert o.hook in Hooks(obligations[..i + 1]);
        if composed { continue; }
        if hook != "" && hook != o.hook {
          assert Conflicting(Hooks(obligations[..i + 1]));
          if composable {
            hook, composed := "", true;
            continue;
          }
          HooksOfPrefix(obligations, i + 1);
          return Reject, "";
        }
        hook := o.hook;
      }
    }
    assert obligations[..|obligations|] == obligations;
    return Adapter, hook;
  }

  lemma HooksGrow(s: seq<Obligation>, o: Obligation)
    ensures Hooks(s + [o]) == Hooks(s) + if o.hook == "" then {} else {o.hook}
  {
    var t := s + [o];
    forall h | h in Hooks(s) ensures h in Hooks(t) {
      var i :| 0 <= i < |s| && s[i].hook == h;
      assert t[i] == s[i];
    }
    assert t[|s|] == o;
  }

  lemma HooksOfPrefix(s: seq<Obligation>, n: nat)
    requires n <= |s|
    ensures Hooks(s[..n]) <= Hooks(s)
  {
    forall h | h in Hooks(s[..n]) ensures h in Hooks(s) {
      var i :| 0 <= i < n && s[..n][i].hook == h;
      assert s[i].hook == h;
    }
  }

  // ---------------------------------------------------------------- wrapper plans

  /** A field of the wrapper with the generic slot its value stands for, if any. */
  datatype FieldPlan = FieldPlan(ordinal: nat, name: string, generic: Option<Slot>)

  datatype WrapperPlan = WrapperPlan(query: FieldPlan, slot: Slot, profileField: Option<nat>)

  datatype Built = NotWrapper | Built(plan: WrapperPlan) | Invalid

  ghost predicate QueryField(fields: seq<FieldPlan>, slot: Slot, i: int)
  {
    0 <= i < |fields| && fields[i].generic == Some(slot)
  }

  /** The first value field called `layer`, as the selector looks for it. */
  ghost predicate LayerField(d: Definition, i: int)
  {
    && 0 <= i < |d.fields| && d.fields[i].kind.FieldValue? && d.fields[i].name == "layer"
    && forall j :: 0 <= j < i ==> !(d.fields[j].kind.FieldValue? && d.fields[j].name == "layer")
  }

  ghost predicate SelectorField(f: FieldShape, query: FieldPlan)
  {
    f.cond.None? && f.ty.kind.TypePrimitive? && f.ty.qname == "int" && f.ordinal < query.ordinal
  }

  /**
    A method is a wrapper when its result is a generic slot carried by exactly one query
    field; only `invokeWithLayer` selects a layer, from an unconditional int before the query.
   */
  method BuildWrapper(d: Definition, slots: map<string, Slot>, fields: seq<FieldPlan>, result: Option<string>)
    returns (r: Built)
    ensures r.NotWrapper? <==> result.None?
    ensures r.Built? ==> result.value in slots && r.plan.slot == slots[result.value]
    ensures r.Built? ==> exists i :: QueryField(fields, r.plan.slot, i) && fields[i] == r.plan.query &&
                                     forall j :: QueryField(fields, r.plan.slot, j) ==> j == i
    ensures r.Built? ==> (r.plan.profileField.Some? <==> d.key.qname == "invokeWithLayer")
    ensures r.Built? && r.plan.profileField.Some? ==>
              exists i :: LayerField(d, i) && SelectorField(d.fields[i], r.plan.query) &&
                r.plan.profileField == Some(d.fields[i].ordinal)
    ensures r.Invalid? ==>
              result.value !in slots ||
              !(exists i :: QueryField(fields, slots[result.value], i) && forall j ::
                  QueryField(fields, slots[result.value], j) ==> j == i) ||
              (d.key.qname == "invokeWithLayer" &&
               forall i, q :: LayerField(d, i) && QueryField(fields, slots[result.value], q) ==>
                   !SelectorField(d.fields[i], fields[q]))
  {
    if result.None? { return NotWrapper; }
    if result.value !in slots { return Invalid; }
    var slot := slots[result.value];
    var query := |fields|;
    for i := 0 to |fields|
      invariant query == |fields| || (query < i && QueryField(fields, slot, query))
      invariant forall j :: 0 <= j < i && QueryField(fields, slot, j) ==> j == query
    {
      if fields[i].generic == Some(slot) {
        if query < |fields| {
          assert QueryField(fields, slot, i);
          return Invalid;
        }
        query := i;
      }
    }
    if query == |fields| { return Invalid; }
    if d.key.qname != "invokeWithLayer" { return Built(WrapperPlan(fields[query], slot, None)); }
    for i := 0 to |d.fields|
      invariant forall j :: 0 <= j < i ==> !(d.fields[j].kind.FieldValue? && d.fields[j].name == "layer")
    {
      var f := d.fields[i];
      if f.kind.FieldValue? && f.name == "layer" {
        assert LayerField(d, i);
        if f.cond.Some? || !f.ty.kind.TypePrimitive? || f.ty.qname != "int" ||
          f.ordinal >= fields[query].ordinal { return Invalid; }
        return Built(WrapperPlan(fields[query], slot, Some(f.ordinal)));
      }
    }
    return Invalid;
  }
}
