/**
 Configurations of a composite gadget: how they and their interfaces are registered, and
 how the host switches between them.
 */
module Composite {
  import opened Wrappers

  const MAX_CONFIG_INTERFACES: nat := 4
  const EBUSY: int := -16
  const ENODEV: int := -19
  const EINVAL: int := -22
  const EOPNOTSUPP: int := -45
  /** The positive value a function returns to delay the status stage. */
  const DELAYED_STATUS: int := 0x7fff

  datatype Function = Function(id: nat)

  /** What the composite layer calls in a function, in order. */
  datatype Call = Disable(f: Function) | SetAlt(f: Function, intf: nat, alt: nat)

  datatype Config = Config(value: nat, functions: seq<Function>,
                           interfaces: seq<Option<Function>>, nextInterfaceId: nat)

  /** `active` is the position of the active configuration. */
  datatype Cdev = Cdev(configs: seq<Config>, active: Option<nat>, delayedStatus: nat,
                       configured: bool, calls: seq<Call>)

  /** Interface ids are handed out from 0 up: exactly those below the next id are taken. */
  ghost predicate ConfigOk(c: Config) {
    && c.value != 0
    && |c.interfaces| == MAX_CONFIG_INTERFACES && c.nextInterfaceId <= MAX_CONFIG_INTERFACES
    && forall i :: 0 <= i < MAX_CONFIG_INTERFACES ==> (c.interfaces[i].Some? <==> i < c.nextInterfaceId)
  }

  ghost predicate Inv(s: Cdev) {
    && (forall i :: 0 <= i < |s.configs| ==> ConfigOk(s.configs[i]))
    && (forall i, j :: 0 <= i < j < |s.configs| ==> s.configs[i].value != s.configs[j].value)
    && (s.active.Some? ==> s.active.value < |s.configs|)
    && (s.active.None? ==> s.delayedStatus == 0)
  }

  // ---------------------------------------------------------------- registering

  const NO_INTERFACES: seq<Option<Function>> := [None, None, None, None]

  function AddConfig(s: Cdev, value: nat): (Cdev, int) {
    if value == 0 then (s, EINVAL)
    else if Position(s.configs, value) < |s.configs| then (s, EBUSY)
    else (s.(configs := s.configs + [Config(value, [], NO_INTERFACES, 0)]), 0)
  }

  /** The position of the configuration with this value, or the number of them. */
  function Position(configs: seq<Config>, value: nat): (k: nat)
    ensures k <= |configs|
    ensures k < |configs| ==> configs[k].value == value
    ensures forall j :: 0 <= j < k ==> configs[j].value != value
  {
    if configs == [] then 0
    else if configs[0].value == value then 0
    else 1 + Position(configs[1..], value)
  }

  function AddFunction(s: Cdev, k: nat, f: Function): Cdev
    requires k < |s.configs|
  {
    s.(configs := s.configs[k := s.configs[k].(functions := s.configs[k].functions + [f])])
  }

  function InterfaceId(s: Cdev, k: nat, f: Function): (Cdev, int)
    requires k < |s.configs| && |s.configs[k].interfaces| == MAX_CONFIG_INTERFACES
  {
    var c := s.configs[k];
    if c.nextInterfaceId < MAX_CONFIG_INTERFACES then
      (s.(configs := s.configs[k := c.(interfaces := c.interfaces[c.nextInterfaceId := Some(f)],
                                      nextInterfaceId := c.nextInterfaceId + 1)]), c.nextInterfaceId)
    else (s, ENODEV)
  }

  // ---------------------------------------------------------------- switching

  function Disables(fs: seq<Function>): seq<Call> {
    seq(|fs|, i requires 0 <= i < |fs| => Disable(fs[i]))
  }

  function SetAlts(c: Config, n: nat): seq<Call>
    requires n <= |c.interfaces| && forall i :: 0 <= i < n ==> c.interfaces[i].Some?
  {
    seq(n, i requires 0 <= i < n => SetAlt(c.interfaces[i].value, i, 0))
  }

  function ResetConfig(s: Cdev): Cdev
    requires s.active.Some? && s.active.value < |s.configs|
  {
    s.(active := None, delayedStatus := 0,
       calls := s.calls + Disables(s.configs[s.active.value].functions))
  }

  function ResetIfActive(s: Cdev): Cdev
    requires s.active.Some? ==> s.active.value < |s.configs|
  {
    if s.active.Some? then ResetConfig(s) else s
  }

  /** How many interfaces are set up: up to and including the first that refuses. */
  function Tried(answers: seq<int>, n: nat): (m: nat)
    requires n <= |answers|
    ensures m <= n
    ensures forall i :: 0 <= i < m - 1 ==> answers[i] >= 0
    ensures m < n ==> m > 0 && answers[m - 1] < 0
  {
    if n == 0 then 0
    else
      var m := Tried(answers, n - 1);
      if m < n - 1 || (m > 0 && answers[m - 1] < 0) then m else n
  }

  function Delays(answers: seq<int>, n: nat): nat
    requires n <= |answers|
  {
    if n == 0 then 0 else Delays(answers, n - 1) + if answers[n - 1] == DELAYED_STATUS then 1 else 0
  }

  /** The first m interfaces set up. */
  function SetUp(s: Cdev, c: Config, answers: seq<int>, m: nat): Cdev
    requires m <= |c.interfaces| && m <= |answers| && forall i :: 0 <= i < m ==> c.interfaces[i].Some?
  {
    s.(calls := s.calls + SetAlts(c, m), delayedStatus := s.delayedStatus + Delays(answers, m))
  }

  function OneSetUp(s: Cdev, f: Function, intf: nat, answer: int): Cdev {
    s.(calls := s.calls + [SetAlt(f, intf, 0)],
       delayedStatus := if answer == DELAYED_STATUS then s.delayedStatus + 1 else s.delayedStatus)
  }

  lemma SetUpStep(s: Cdev, c: Config, answers: seq<int>, m: nat)
    requires m < |c.interfaces| && m < |answers| && forall i :: 0 <= i <= m ==> c.interfaces[i].Some?
    ensures SetUp(s, c, answers, m + 1) == OneSetUp(SetUp(s, c, answers, m), c.interfaces[m].value, m, answers[m])
    ensures SetUp(s, c, answers, 0) == s
  {
    assert SetAlts(c, m) + [SetAlt(c.interfaces[m].value, m, 0)] == SetAlts(c, m + 1);
  }

  /** Make a configuration active; answers[i] is what set_alt returns for interface i. */
  function Activated(s: Cdev, k: nat, answers: seq<int>): (Cdev, int)
    requires k < |s.configs| && ConfigOk(s.configs[k]) && |answers| == MAX_CONFIG_INTERFACES
  {
    var c := s.configs[k];
    var n := c.nextInterfaceId;
    var m := Tried(answers, n);
    var s1 := SetUp(s.(configured := true, active := Some(k)), c, answers, m);
    if m > 0 && answers[m - 1] < 0 then (ResetConfig(s1), answers[m - 1])
    else if s1.delayedStatus > 0 then (s1, DELAYED_STATUS)
    else (s1, if m == 0 then 0 else answers[m - 1])
  }

  function SetConfig(s: Cdev, number: nat, answers: seq<int>): (Cdev, int)
    requires Inv(s) && |answers| == MAX_CONFIG_INTERFACES
  {
    if s.configured && s.active.Some? && s.configs[s.active.value].value == number then (s, 0)
    else if number != 0 then
      var k := Position(s.configs, number);
      if k == |s.configs| then (s, EINVAL) else Activated(ResetIfActive(s), k, answers)
    else (ResetIfActive(s), 0)
  }

  /** SET_INTERFACE, with what the function's set_alt returns. */
  function SetInterface(s: Cdev, intf: nat, alt: nat, answer: int): (Cdev, int)
    requires Inv(s)
  {
    if s.active.None? || intf >= MAX_CONFIG_INTERFACES || s.configs[s.active.value].interfaces[intf].None?
    then (s, EOPNOTSUPP)
    else
      (s.(calls := s.calls + [SetAlt(s.configs[s.active.value].interfaces[intf].value, intf, alt)],
          delayedStatus := if answer == DELAYED_STATUS then s.delayedStatus + 1 else s.delayedStatus), answer)
  }

  /** One owed continue call.  Gives whether the status request is queued by it. */
  function SetupContinue(s: Cdev): (Cdev, bool) {
    if s.delayedStatus == 0 then (s, false)
    else (s.(delayedStatus := s.delayedStatus - 1), s.delayedStatus == 1)
  }

  // ---------------------------------------------------------------- what a switch does

  /** The calls that leave the configuration active so far. */
  function LeavingOld(s: Cdev): seq<Call>
    requires s.active.Some? ==> s.active.value < |s.configs|
  {
    if s.active.Some? then Disables(s.configs[s.active.value].functions) else []
  }

  predicate AlreadyActive(s: Cdev, number: nat)
    requires s.active.Some? ==> s.active.value < |s.configs|
  {
    s.configured && s.active.Some? && s.configs[s.active.value].value == number
  }

  /** A number no configuration has changes nothing. */
  lemma UnknownNumberIsIgnored(s: Cdev, number: nat, answers: seq<int>)
    requires Inv(s) && |answers| == MAX_CONFIG_INTERFACES && number != 0
    ensures SetConfig(s, number, answers) == (s, EINVAL)
       <==> forall j :: 0 <= j < |s.configs| ==> s.configs[j].value != number
  {
    var k := Position(s.configs, number);
    if k < |s.configs| && !AlreadyActive(s, number) {
      var m := Tried(answers, s.configs[k].nextInterfaceId);
      assert m > 0 ==> |SetConfig(s, number, answers).0.calls| >= |s.calls| + m;
    }
  }

  /** Number zero leaves the device unconfigured. */
  lemma ZeroUnconfigures(s: Cdev, answers: seq<int>)
    requires Inv(s) && |answers| == MAX_CONFIG_INTERFACES && !AlreadyActive(s, 0)
    ensures var (s', ret) := SetConfig(s, 0, answers);
            s' == s.(active := None, delayedStatus := 0, calls := s.calls + LeavingOld(s)) && ret == 0
  {
  }

  /** A known number disables every function of the old configuration first, then sets
      up the interfaces of the new one in order, each once. */
  lemma SwitchSucceeds(s: Cdev, k: nat, answers: seq<int>)
    requires Inv(s) && |answers| == MAX_CONFIG_INTERFACES && k < |s.configs|
    requires !AlreadyActive(s, s.configs[k].value)
    requires forall i :: 0 <= i < s.configs[k].nextInterfaceId ==> answers[i] >= 0
    ensures var (s', ret) := SetConfig(s, s.configs[k].value, answers);
            var n := s.configs[k].nextInterfaceId;
            && s'.active == Some(k) && s'.configs == s.configs
            && s'.calls == s.calls + LeavingOld(s) + SetAlts(s.configs[k], n)
            && s'.delayedStatus == Delays(answers, n)
            && (ret == DELAYED_STATUS <==> Delays(answers, n) > 0)
  {
    var n := s.configs[k].nextInterfaceId;
    assert Position(s.configs, s.configs[k].value) == k;
    assert Tried(answers, n) == n;
    assert ResetIfActive(s).calls == s.calls + LeavingOld(s);
    assert n > 0 && answers[n - 1] == DELAYED_STATUS ==> Delays(answers, n) > 0;
  }

  /** If an interface refuses, the interfaces before it have been set up, then every
      function of the new configuration is disabled, and none is active. */
  lemma SwitchFails(s: Cdev, k: nat, answers: seq<int>, m: nat)
    requires Inv(s) && |answers| == MAX_CONFIG_INTERFACES && k < |s.configs|
    requires !AlreadyActive(s, s.configs[k].value)
    requires m < s.configs[k].nextInterfaceId && answers[m] < 0
    requires forall i :: 0 <= i < m ==> answers[i] >= 0
    ensures var (s', ret) := SetConfig(s, s.configs[k].value, answers);
            && s'.active == None && s'.configs == s.configs && s'.delayedStatus == 0 && ret == answers[m]
            && s'.calls == s.calls + LeavingOld(s) + SetAlts(s.configs[k], m + 1) + Disables(s.configs[k].functions)
  {
    var n := s.configs[k].nextInterfaceId;
    assert Position(s.configs, s.configs[k].value) == k;
    var t := Tried(answers, n);
    assert t == m + 1;
    assert ResetIfActive(s).calls == s.calls + LeavingOld(s);
  }

  /** A SET_CONFIGURATION succeeds without changing anything, no call of a function included,
      exactly if its configuration is active already, or none is and none is asked for. */
  lemma NothingToDoExactly(s: Cdev, number: nat, answers: seq<int>)
    requires Inv(s) && |answers| == MAX_CONFIG_INTERFACES
    ensures SetConfig(s, number, answers) == (s, 0)
       <==> AlreadyActive(s, number) || (number == 0 && s.active == None)
  {
    if number != 0 && !AlreadyActive(s, number) {
      UnknownNumberIsIgnored(s, number, answers);
      var k := Position(s.configs, number);
      if k < |s.configs| && SetConfig(s, number, answers).0 == s {
        SwitchMarks(s, k, answers);
      }
    }
  }

  /** What is active after a switch is the configuration asked for, and marked so, or none. */
  lemma SwitchMarks(s: Cdev, k: nat, answers: seq<int>)
    requires Inv(s) && |answers| == MAX_CONFIG_INTERFACES && k < |s.configs|
    requires !AlreadyActive(s, s.configs[k].value)
    ensures var (s', ret) := SetConfig(s, s.configs[k].value, answers);
            && s'.configured && s'.configs == s.configs
            && (if ret >= 0 then s'.active == Some(k) else s'.active == None)
  {
    assert Position(s.configs, s.configs[k].value) == k;
  }

  /** So the same SET_CONFIGURATION again, after one that succeeded, does nothing. */
  lemma RepeatIsIgnored(s: Cdev, k: nat, answers: seq<int>, again: seq<int>)
    requires Inv(s) && |answers| == |again| == MAX_CONFIG_INTERFACES && k < |s.configs|
    requires !AlreadyActive(s, s.configs[k].value) && SetConfig(s, s.configs[k].value, answers).1 >= 0
    ensures var s' := SetConfig(s, s.configs[k].value, answers).0;
            Inv(s') && SetConfig(s', s.configs[k].value, again) == (s', 0)
  {
    SwitchMarks(s, k, answers);
    SetConfigKeeps(s, s.configs[k].value, answers);
  }

  /** A SET_INTERFACE reaches exactly the function that took the interface id in the active
      configuration, and owes a continue call exactly if that function asks for a delay; for
      an id nobody took it changes nothing. */
  lemma SetInterfaceReaches(s: Cdev, intf: nat, alt: nat, answer: int)
    requires Inv(s)
    ensures var (s', ret) := SetInterface(s, intf, alt, answer);
            if s.active.Some? && intf < s.configs[s.active.value].nextInterfaceId then
              var f := s.configs[s.active.value].interfaces[intf];
              && f.Some? && s' == s.(calls := s.calls + [SetAlt(f.value, intf, alt)], delayedStatus := s'.delayedStatus)
              && s'.delayedStatus == s.delayedStatus + (if answer == DELAYED_STATUS then 1 else 0) && ret == answer
            else s' == s && ret == EOPNOTSUPP
  {
    if s.active.Some? {
      assert ConfigOk(s.configs[s.active.value]);
    }
  }

  /** Functions added one after the other. */
  function AddFunctions(s: Cdev, k: nat, fs: seq<Function>): (s': Cdev)
    requires k < |s.configs|
    ensures |s'.configs| == |s.configs|
    decreases |fs|
  {
    if fs == [] then s else AddFunctions(AddFunction(s, k, fs[0]), k, fs[1..])
  }

  /** None of them is lost, or left running when their configuration is left. */
  lemma {:induction false} AddedAreDisabled(s: Cdev, k: nat, fs: seq<Function>)
    requires Inv(s) && k < |s.configs|
    ensures var s' := AddFunctions(s, k, fs);
            && s'.configs[k].functions == s.configs[k].functions + fs
            && (forall j :: 0 <= j < |s.configs| && j != k ==> s'.configs[j] == s.configs[j])
            && (s.active == Some(k) ==> s'.active == s.active && LeavingOld(s') == LeavingOld(s) + Disables(fs))
    decreases |fs|
  {
    if fs != [] {
      var s1 := AddFunction(s, k, fs[0]);
      StepKeeps(s, AddingFunction(k, fs[0]));
      AddedAreDisabled(s1, k, fs[1..]);
      assert s1.configs[k].functions == s.configs[k].functions + [fs[0]];
      assert [fs[0]] + fs[1..] == fs;
      assert Disables([fs[0]]) + Disables(fs[1..]) == Disables(fs);
    }
  }

  // ---------------------------------------------------------------- all runs

  datatype Action =
    | AddingConfig(value: nat)
    | AddingFunction(k: nat, f: Function)
    | TakingInterface(k: nat, f: Function)
    | SettingConfig(number: nat, answers: seq<int>)
    | SettingInterface(intf: nat, alt: nat, answer: int)
    | Continuing
    | Disconnecting

  predicate Enabled(s: Cdev, a: Action) {
    match a
    case AddingFunction(k, f) => k < |s.configs|
    case TakingInterface(k, f) => k < |s.configs|
    case SettingConfig(number, answers) => |answers| == MAX_CONFIG_INTERFACES
    case _ => true
  }

  function Step(s: Cdev, a: Action): Cdev
    requires Inv(s) && Enabled(s, a)
  {
    match a
    case AddingConfig(value) => AddConfig(s, value).0
    case AddingFunction(k, f) => AddFunction(s, k, f)
    case TakingInterface(k, f) => InterfaceId(s, k, f).0
    case SettingConfig(number, answers) => SetConfig(s, number, answers).0
    case SettingInterface(intf, alt, answer) => SetInterface(s, intf, alt, answer).0
    case Continuing => SetupContinue(s).0
    case Disconnecting => ResetIfActive(s)
  }

  /** Every step keeps the registry in order, and without an active configuration nobody
      owes a continue call. */
  lemma StepKeeps(s: Cdev, a: Action)
    requires Inv(s) && Enabled(s, a)
    ensures Inv(Step(s, a))
  {
    if a.SettingConfig? {
      SetConfigKeeps(s, a.number, a.answers);
    }
  }

  lemma SetConfigKeeps(s: Cdev, number: nat, answers: seq<int>)
    requires Inv(s) && |answers| == MAX_CONFIG_INTERFACES
    ensures Inv(SetConfig(s, number, answers).0)
  {
  }

  lemma StepsKeep(s: Cdev)
    requires Inv(s)
    ensures forall a :: Enabled(s, a) ==> Inv(Step(s, a))
  {
    forall a | Enabled(s, a)
      ensures Inv(Step(s, a))
    {
      StepKeeps(s, a);
    }
  }

  ghost predicate IsRun(s: Cdev, acts: seq<Action>)
    requires Inv(s)
    decreases |acts|
  {
    StepsKeep(s);
    acts != [] ==> Enabled(s, acts[0]) && IsRun(Step(s, acts[0]), acts[1..])
  }

  ghost function After(s: Cdev, acts: seq<Action>): Cdev
    requires Inv(s) && IsRun(s, acts)
    decreases |acts|
  {
    StepsKeep(s);
    if acts == [] then s else After(Step(s, acts[0]), acts[1..])
  }

  lemma {:induction false} RunKeeps(s: Cdev, acts: seq<Action>)
    requires Inv(s) && IsRun(s, acts)
    ensures Inv(After(s, acts))
    decreases |acts|
  {
    if acts != [] {
      StepKeeps(s, acts[0]);
      RunKeeps(Step(s, acts[0]), acts[1..]);
    }
  }

  /** An interface id, once given, is the function's own: ids are given in order, to one
      function each, until all four are taken. */
  lemma InterfaceIdsAreFresh(s: Cdev, k: nat, f: Function)
    requires Inv(s) && k < |s.configs|
    ensures var (s', id) := InterfaceId(s, k, f);
            var c, c' := s.configs[k], s'.configs[k];
            && (id >= 0 <==> exists i :: 0 <= i < MAX_CONFIG_INTERFACES && c.interfaces[i].None?)
            && (id >= 0 ==>
                  && id < MAX_CONFIG_INTERFACES && c.interfaces[id].None? && c'.interfaces[id] == Some(f)
                  && (forall i :: 0 <= i < id ==> c.interfaces[i].Some?)
                  && forall i :: 0 <= i < MAX_CONFIG_INTERFACES && i != id ==> c'.interfaces[i] == c.interfaces[i])
            && (id < 0 ==> s' == s)
  {
    var c := s.configs[k];
    if c.nextInterfaceId < MAX_CONFIG_INTERFACES {
      assert c.interfaces[c.nextInterfaceId].None?;
    }
  }
}
