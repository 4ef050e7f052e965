/**
 What the endpoint of Endpoint.dfy computes is a run: a disable and a clean-up, whatever
 their completion callbacks call, are steps one after the other.  So the theorems about
 runs hold for it.
 */
module EndpointCallbacks {
  import opened TrbRing
  import opened EndpointModel
  import opened EndpointRing
  import opened EndpointRuns
  import opened EndpointOpened

  lemma {:induction false} LeadsThrough(s: Ep, first: seq<Action>, mid: Ep, second: seq<Action>, s': Ep)
    requires s.ring.Indexable() && mid.ring.Indexable() && Leads(s, first, mid) && Leads(mid, second, s')
    ensures Leads(s, first + second, s')
    decreases |first|
  {
    if first == [] {
      assert first + second == second;
    } else {
      LeadsThrough(Step(s, first[0]), first[1..], mid, second, s');
      assert (first + second)[0] == first[0] && (first + second)[1..] == first[1..] + second;
    }
  }

  lemma StepLeads(s: Ep, a: Action)
    requires s.ring.Indexable() && Enabled(s, a)
    ensures Leads(s, [a], Step(s, a))
  {
    LeadsOn(s, [], s, a);
    assert [] + [a] == [a];
  }

  lemma CallIsRun(s: Ep, c: GadgetCall) returns (acts: seq<Action>)
    requires s.ring.Indexable()
    ensures Leads(s, acts, OneCall(s, c))
  {
    var a := match c
      case Queueing(r, index) => Queue(r, index)
      case Cancelling(id) => Cancel(id)
      case Halting(value) => Halt(value)
      case Wedging => Wedge;
    if Enabled(s, a) {
      StepLeads(s, a);
      acts := [a];
    } else {
      acts := [];
    }
  }

  lemma {:induction false} CallsAreRun(s: Ep, cs: seq<GadgetCall>) returns (acts: seq<Action>)
    requires s.ring.Indexable()
    ensures Leads(s, acts, Calls(s, cs))
    decreases |cs|
  {
    if cs == [] {
      acts := [];
    } else {
      var first := CallIsRun(s, cs[0]);
      var second := CallsAreRun(OneCall(s, cs[0]), cs[1..]);
      LeadsThrough(s, first, OneCall(s, cs[0]), second, Calls(s, cs));
      acts := first + second;
    }
  }

  /** One step and what its callback calls. */
  lemma StepAndCalls(s: Ep, a: Action, css: seq<seq<GadgetCall>>) returns (acts: seq<Action>, s': Ep)
    requires s.ring.Indexable() && Enabled(s, a)
    ensures s' == (if css == [] then Step(s, a) else Calls(Step(s, a), css[0]))
    ensures s'.ring.Indexable() && Leads(s, acts, s')
  {
    StepLeads(s, a);
    var more := CallsAreRun(Step(s, a), if css == [] then [] else css[0]);
    s' := if css == [] then Step(s, a) else Calls(Step(s, a), css[0]);
    LeadsThrough(s, [a], Step(s, a), more, s');
    acts := [a] + more;
  }

  lemma {:induction false} RemovedIsRun(s: Ep, css: seq<seq<GadgetCall>>) returns (acts: seq<Action>)
    requires s.ring.Indexable() && s.removing != []
    ensures Leads(s, acts, Removed(s, css))
    decreases |css|, |s.ring.queued| + |s.ring.pending|
  {
    if !GivesBack(s) {
      StepLeads(s, Remove);
      acts := [Remove];
    } else {
      var first, mid := StepAndCalls(s, Remove, css);
      var second := RemovedIsRun(mid, if css == [] then [] else css[1..]);
      LeadsThrough(s, first, mid, second, Removed(s, css));
      acts := first + second;
    }
  }

  /** Disabling, callbacks and all, is a run. */
  lemma DisableIsRun(s: Ep, css: seq<seq<GadgetCall>>) returns (acts: seq<Action>)
    requires s.ring.Indexable()
    ensures Leads(s, acts, EpDisable(s, css))
  {
    if !s.flags.enabled {
      acts := [];
    } else if !GivesBack(BeginDisable(s)) {
      StepLeads(s, Disable);
      acts := [Disable];
    } else {
      var first, mid := StepAndCalls(s, Disable, css);
      var second := RemovedIsRun(mid, if css == [] then [] else css[1..]);
      LeadsThrough(s, first, mid, second, EpDisable(s, css));
      acts := first + second;
    }
  }

  /** So is clean-up. */
  lemma {:induction false} DrainedIsRun(s: Ep, css: seq<seq<GadgetCall>>) returns (acts: seq<Action>)
    requires s.ring.Indexable() && s.phase.Cleaning?
    ensures Leads(s, acts, Drained(s, css))
    decreases |css|, |s.ring.queued|
  {
    if s.ring.queued == [] {
      StepLeads(s, Clean);
      acts := [Clean];
    } else {
      var first, mid := StepAndCalls(s, Clean, css);
      if mid.phase.Cleaning? {
        var second := DrainedIsRun(mid, if css == [] then [] else css[1..]);
        LeadsThrough(s, first, mid, second, Drained(s, css));
        acts := first + second;
      } else {
        acts := first;
      }
    }
  }
}
