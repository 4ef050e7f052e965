/**
 When the gadget shows itself to the host: the data line pullup, asked for by connecting,
 held back while functions are deactivated, a count of which the composite layer keeps.
 */
module Pullup {

  const EOPNOTSUPP: int := -45
  const EINVAL: int := -22
  const FAILURE: int := -5

  /** `line` is the pullup itself; `hasPullup` tells that the controller can switch it. */
  datatype Gadget = Gadget(hasPullup: bool, connected: bool, deactivated: bool, line: bool)

  /** The gadget, and the composite layer's count of functions holding it back. */
  datatype State = State(g: Gadget, count: nat)

  /** The controller's pullup operation, which may fail and then changes nothing. */
  function Pull(g: Gadget, on: bool, fails: bool): (Gadget, int) {
    if fails then (g, FAILURE) else (g.(line := on), 0)
  }

  function OnConnect(g: Gadget, fails: bool): (Gadget, int) {
    if !g.hasPullup then (g, EOPNOTSUPP)
    else if g.deactivated then (g.(connected := true), 0)
    else
      var (g1, ret) := Pull(g, true, fails);
      (if ret == 0 then g1.(connected := true) else g1, ret)
  }

  function OnDisconnect(g: Gadget, fails: bool): (Gadget, int) {
    if !g.hasPullup then (g, EOPNOTSUPP)
    else if g.deactivated then (g.(connected := false), 0)
    else
      var (g1, ret) := Pull(g, false, fails);
      (if ret == 0 then g1.(connected := false) else g1, ret)
  }

  function OnDeactivate(g: Gadget, fails: bool): (Gadget, int) {
    if g.deactivated then (g, 0)
    else if g.connected then
      var (g1, ret) := OnDisconnect(g, fails);
      if ret != 0 then (g1, ret) else (g1.(connected := true, deactivated := true), 0)
    else (g.(deactivated := true), 0)
  }

  function OnActivate(g: Gadget, fails: bool): (Gadget, int) {
    if !g.deactivated then (g, 0)
    else if g.connected then OnConnect(g.(deactivated := false), fails)
    else (g.(deactivated := false), 0)
  }

  function OnFunctionDeactivate(s: State, fails: bool): (State, int) {
    var (g, status) := if s.count == 0 then OnDeactivate(s.g, fails) else (s.g, 0);
    (State(g, if status == 0 then s.count + 1 else s.count), status)
  }

  function OnFunctionActivate(s: State, fails: bool): (State, int) {
    if s.count == 0 then (s, EINVAL)
    else
      var (g, status) := if s.count - 1 == 0 then OnActivate(s.g, fails) else (s.g, 0);
      (State(g, s.count - 1), status)
  }

  // ---------------------------------------------------------------- all sequences of calls

  /** A call, and whether the pullup operation fails if it is reached. */
  datatype Call =
    | Connecting(fails: bool)
    | Disconnecting(fails: bool)
    | Deactivating(fails: bool)
    | Activating(fails: bool)

  function After(s: State, c: Call): State {
    match c
    case Connecting(fails) => s.(g := OnConnect(s.g, fails).0)
    case Disconnecting(fails) => s.(g := OnDisconnect(s.g, fails).0)
    case Deactivating(fails) => OnFunctionDeactivate(s, fails).0
    case Activating(fails) => OnFunctionActivate(s, fails).0
  }

  function AfterAll(s: State, cs: seq<Call>): State
    decreases |cs|
  {
    if cs == [] then s else AfterAll(After(s, cs[0]), cs[1..])
  }

  /** The line is on only when that was asked for and nothing holds the gadget back. */
  predicate Safe(s: State) {
    && (s.g.line ==> s.g.connected && !s.g.deactivated)
    && (s.g.deactivated <==> s.count > 0)
  }

  /** The line is on exactly then. */
  predicate Exact(s: State) {
    s.g.line <==> s.g.connected && !s.g.deactivated
  }

  /** Over every sequence of calls, failing ones included. */
  lemma {:induction false} AlwaysSafe(s: State, cs: seq<Call>)
    requires Safe(s)
    ensures Safe(AfterAll(s, cs))
    decreases |cs|
  {
    if cs != [] {
      AlwaysSafe(After(s, cs[0]), cs[1..]);
    }
  }

  /** The one failure that leaves the line off although the gadget is connected and
      active: the pullup failing when the last function is activated. */
  predicate FailsActivation(s: State, c: Call) {
    c.Activating? && c.fails && s.count == 1 && s.g.connected
  }

  lemma StepExact(s: State, c: Call)
    requires Safe(s) && Exact(s) && s.g.hasPullup
    ensures Exact(After(s, c)) <==> !FailsActivation(s, c)
  {
  }

  /** What the last connect or disconnect call asked for. */
  function Wanted(was: bool, cs: seq<Call>): bool
    decreases |cs|
  {
    if cs == [] then was
    else Wanted(if cs[0].Connecting? then true else if cs[0].Disconnecting? then false else was, cs[1..])
  }

  function Held(was: nat, cs: seq<Call>): nat
    decreases |cs|
  {
    if cs == [] then was
    else
      Held(if cs[0].Deactivating? then was + 1 else if cs[0].Activating? && was > 0 then was - 1 else was, cs[1..])
  }

  /** With no failing call, the line is on exactly when the last connect or disconnect
      asked for it and as many functions were activated as were deactivated. */
  lemma {:induction false} LineFollowsCalls(s: State, cs: seq<Call>)
    requires Safe(s) && Exact(s) && s.g.hasPullup
    requires forall i :: 0 <= i < |cs| ==> !cs[i].fails
    ensures var s' := AfterAll(s, cs);
            && (s'.g.line <==> Wanted(s.g.connected, cs) && Held(s.count, cs) == 0)
            && s'.count == Held(s.count, cs) && s'.g.connected == Wanted(s.g.connected, cs)
            && (s'.g.deactivated <==> s'.count > 0)
    decreases |cs|
  {
    if cs != [] {
      assert !cs[0].fails;
      LineFollowsCalls(After(s, cs[0]), cs[1..]);
    }
  }

  // ---------------------------------------------------------------- the gadget in place

  /** The gadget record, with the controller's pullup operation behind it. */
  class UsbGadget {
    const hasPullup: bool
    var connected: bool
    var deactivated: bool
    var line: bool
    var deactivations: nat

    constructor (hasPullup: bool)
      ensures this.hasPullup == hasPullup && Abs() == State(Gadget(hasPullup, false, false, false), 0)
      ensures Safe(Abs()) && Exact(Abs())
    {
      this.hasPullup := hasPullup;
      connected, deactivated, line, deactivations := false, false, false, 0;
    }

    ghost function Abs(): State
      reads this
    {
      State(Gadget(hasPullup, connected, deactivated, line), deactivations)
    }

    method Op(on: bool, fails: bool) returns (ret: int)
      modifies this`line
      ensures (Abs().g, ret) == Pull(old(Abs().g), on, fails)
    {
      if fails {
        return FAILURE;
      }
      line := on;
      return 0;
    }

    method Connect(fails: bool) returns (ret: int)
      modifies this`line, this`connected
      ensures (Abs().g, ret) == OnConnect(old(Abs().g), fails)
    {
      if !hasPullup {
        return EOPNOTSUPP;
      }
      if deactivated {
        connected := true;
        return 0;
      }
      ret := Op(true, fails);
      if ret == 0 {
        connected := true;
      }
    }

    method Disconnect(fails: bool) returns (ret: int)
      modifies this`line, this`connected
      ensures (Abs().g, ret) == OnDisconnect(old(Abs().g), fails)
    {
      if !hasPullup {
        return EOPNOTSUPP;
      }
      if deactivated {
        connected := false;
        return 0;
      }
      ret := Op(false, fails);
      if ret == 0 {
        connected := false;
      }
    }

    method Deactivate(fails: bool) returns (ret: int)
      modifies this`line, this`connected, this`deactivated
      ensures (Abs().g, ret) == OnDeactivate(old(Abs().g), fails)
    {
      if deactivated {
        return 0;
      }
      if connected {
        ret := Disconnect(fails);
        if ret != 0 {
          return;
        }
        connected := true;
      }
      deactivated := true;
      return 0;
    }

    method Activate(fails: bool) returns (ret: int)
      modifies this`line, this`connected, this`deactivated
      ensures (Abs().g, ret) == OnActivate(old(Abs().g), fails)
    {
      if !deactivated {
        return 0;
      }
      deactivated := false;
      if connected {
        ret := Connect(fails);
        return;
      }
      return 0;
    }

    method FunctionDeactivate(fails: bool) returns (status: int)
      modifies this
      ensures (Abs(), status) == OnFunctionDeactivate(old(Abs()), fails)
    {
      status := 0;
      if deactivations == 0 {
        status := Deactivate(fails);
      }
      if status == 0 {
        deactivations := deactivations + 1;
      }
    }

    method FunctionActivate(fails: bool) returns (status: int)
      modifies this
      ensures (Abs(), status) == OnFunctionActivate(old(Abs()), fails)
    {
      status := 0;
      if deactivations == 0 {
        return EINVAL;
      }
      deactivations := deactivations - 1;
      if deactivations == 0 {
        status := Activate(fails);
      }
    }
  }
}
