/**
 The composite device as it is run: the record the configuration requests update in
 place, with its loops over configurations, functions and interfaces.
 */
module CompositeDevice {
  import opened Wrappers
  import opened Composite

  class CompositeDevice {
    var configs: seq<Config>
    var config: Option<nat>
    var delayedStatus: nat
    /** The gadget state is USB_STATE_CONFIGURED. */
    var configured: bool
    /** The calls made into functions. */
    ghost var calls: seq<Call>

    ghost function Abs(): Cdev
      reads this
    {
      Cdev(configs, config, delayedStatus, configured, calls)
    }

    constructor ()
      ensures Inv(Abs()) && Abs() == Cdev([], None, 0, false, [])
    {
      configs, config, delayedStatus, configured, calls := [], None, 0, false, [];
    }

    method Find(value: nat) returns (k: nat)
      requires Inv(Abs())
      ensures k == Position(configs, value)
    {
      k := 0;
      while k < |configs| && configs[k].value != value
        invariant k <= |configs| && k + Position(configs[k..], value) == Position(configs, value)
      {
        assert configs[k..][1..] == configs[k + 1..];
        k := k + 1;
      }
    }

    /** usb_add_config_only */
    method AddConfigOnly(value: nat) returns (ret: int)
      requires Inv(Abs())
      modifies this`configs
      ensures (Abs(), ret) == AddConfig(old(Abs()), value) && Inv(Abs())
    {
      if value == 0 {
        return EINVAL;
      }
      var k := Find(value);
      if k < |configs| {
        return EBUSY;
      }
      StepKeeps(Abs(), AddingConfig(value));
      configs := configs + [Config(value, [], NO_INTERFACES, 0)];
      return 0;
    }

    /** usb_interface_id */
    method TakeInterfaceId(k: nat, f: Function) returns (id: int)
      requires Inv(Abs()) && k < |configs|
      modifies this`configs
      ensures (Abs(), id) == InterfaceId(old(Abs()), k, f) && Inv(Abs())
    {
      StepKeeps(Abs(), TakingInterface(k, f));
      var c := configs[k];
      id := c.nextInterfaceId;
      if id < MAX_CONFIG_INTERFACES {
        configs := configs[k := c.(interfaces := c.interfaces[id := Some(f)], nextInterfaceId := id + 1)];
        return id;
      }
      return ENODEV;
    }

    /** reset_config */
    method Reset()
      requires config.Some? && config.value < |configs|
      modifies this`config, this`delayedStatus, this`calls
      ensures Abs() == ResetConfig(old(Abs()))
    {
      var fs := configs[config.value].functions;
      var i := 0;
      while i < |fs|
        invariant i <= |fs| && config == old(config) && delayedStatus == old(delayedStatus)
        invariant calls == old(calls) + Disables(fs)[..i]
      {
        calls := calls + [Disable(fs[i])];
        i := i + 1;
      }
      assert Disables(fs)[..i] == Disables(fs);
      config := None;
      delayedStatus := 0;
    }

    /** The interfaces of the configuration just made active, set to altsetting zero. */
    method SetUpInterfaces(k: nat, answers: seq<int>) returns (result: int)
      requires k < |configs| && ConfigOk(configs[k]) && |answers| == MAX_CONFIG_INTERFACES && config == Some(k)
      modifies this`config, this`delayedStatus, this`calls
      ensures var m := Tried(answers, configs[k].nextInterfaceId);
              var s := SetUp(old(Abs()), configs[k], answers, m);
              if m > 0 && answers[m - 1] < 0 then Abs() == ResetConfig(s) && result == answers[m - 1]
              else Abs() == s && result == if m == 0 then 0 else answers[m - 1]
    {
      var c := configs[k];
      result := 0;
      var tmp := 0;
      while tmp < MAX_CONFIG_INTERFACES && c.interfaces[tmp].Some?
        invariant tmp <= c.nextInterfaceId && config == Some(k)
        invariant Tried(answers, tmp) == tmp && (tmp > 0 ==> answers[tmp - 1] >= 0)
        invariant result == if tmp == 0 then 0 else answers[tmp - 1]
        invariant Abs() == SetUp(old(Abs()), c, answers, tmp)
      {
        SetUpStep(old(Abs()), c, answers, tmp);
        result := SetAltZero(c.interfaces[tmp].value, tmp, answers[tmp]);
        if result < 0 {
          assert Tried(answers, c.nextInterfaceId) == tmp + 1 by {
            TriedStops(answers, tmp, c.nextInterfaceId);
          }
          assert Abs() == SetUp(old(Abs()), c, answers, tmp + 1);
          Reset();
          return;
        }
        TriedGoesOn(answers, tmp);
        tmp := tmp + 1;
      }
      assert tmp == c.nextInterfaceId;
    }

    /** One interface, counting a function that asks for a delayed status stage. */
    method SetAltZero(f: Function, intf: nat, answer: int) returns (result: int)
      modifies this`delayedStatus, this`calls
      ensures result == answer
      ensures Abs() == OneSetUp(old(Abs()), f, intf, answer)
    {
      calls := calls + [SetAlt(f, intf, 0)];
      result := answer;
      if result == DELAYED_STATUS {
        delayedStatus := delayedStatus + 1;
      }
    }

    lemma TriedGoesOn(answers: seq<int>, tmp: nat)
      requires tmp < |answers| && Tried(answers, tmp) == tmp && answers[tmp] >= 0
      requires tmp > 0 ==> answers[tmp - 1] >= 0
      ensures Tried(answers, tmp + 1) == tmp + 1
    {
    }

    lemma {:induction false} TriedStops(answers: seq<int>, tmp: nat, n: nat)
      requires tmp < n <= |answers| && Tried(answers, tmp) == tmp && answers[tmp] < 0
      requires tmp > 0 ==> answers[tmp - 1] >= 0
      ensures Tried(answers, n) == tmp + 1
      decreases n
    {
      if n > tmp + 1 {
        TriedStops(answers, tmp, n - 1);
      }
    }

    method ActivateConfiguration(k: nat, answers: seq<int>) returns (result: int)
      requires k < |configs| && ConfigOk(configs[k]) && |answers| == MAX_CONFIG_INTERFACES
      modifies this`configured, this`config, this`delayedStatus, this`calls
      ensures (Abs(), result) == Activated(old(Abs()), k, answers)
    {
      configured := true;
      config := Some(k);
      result := SetUpInterfaces(k, answers);
      if result >= 0 && delayedStatus > 0 {
        result := DELAYED_STATUS;
      }
    }

    /** set_config; answers[i] is what set_alt would return for interface i. */
    method SetConfiguration(number: nat, answers: seq<int>) returns (result: int)
      requires Inv(Abs()) && |answers| == MAX_CONFIG_INTERFACES
      modifies this
      ensures Inv(Abs())
      ensures (Abs(), result) == SetConfig(old(Abs()), number, answers)
    {
      SetConfigKeeps(Abs(), number, answers);
      if configured && config.Some? && configs[config.value].value == number {
        return 0;
      }
      if number == 0 {
        if config.Some? {
          Reset();
        }
        return 0;
      }
      var k := Find(number);
      if k == |configs| {
        return EINVAL;
      }
      if config.Some? {
        Reset();
      }
      result := ActivateConfiguration(k, answers);
    }

    /** usb_composite_setup_continue.  Gives whether the status request is queued. */
    method Continue() returns (queued: bool)
      requires Inv(Abs())
      modifies this`delayedStatus
      ensures (Abs(), queued) == SetupContinue(old(Abs())) && Inv(Abs())
    {
      StepKeeps(Abs(), Continuing);
      if delayedStatus == 0 {
        return false;
      }
      delayedStatus := delayedStatus - 1;
      return delayedStatus == 0;
    }
  }
}
