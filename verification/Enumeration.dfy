/**
 Enumerating configurations: the host is told how many there are, and asks for each by
 index.  Two separate loops answer, at the current and at the other speed.
 */
module Enumeration {
  import opened Wrappers

  // enum usb_device_speed
  const HIGH: nat := 3
  const SUPER: nat := 5

  /** At which speeds a configuration works. */
  datatype Config = Config(fullspeed: bool, highspeed: bool, superspeed: bool)

  /** The configuration with OS descriptors, if there is one: a listed one, by position,
      or one that is not on the list. */
  datatype OsDesc = NoOs | Listed(k: nat) | Unlisted(c: Config)

  datatype Gadget = Gadget(speed: nat, maxSpeed: nat, configs: seq<Config>, os: OsDesc)

  datatype Which = AtSuper | AtHigh | AtFull

  function Works(c: Config, w: Which): bool {
    match w
    case AtSuper => c.superspeed
    case AtHigh => c.highspeed
    case AtFull => c.fullspeed
  }

  predicate DualSpeed(g: Gadget) {
    g.maxSpeed >= HIGH
  }

  /** The speed config_desc looks at, for CONFIG or (`other`) OTHER_SPEED_CONFIG. */
  function DescSpeed(g: Gadget, other: bool): Which {
    if g.speed == SUPER then AtSuper
    else if DualSpeed(g) then
      var hs := (g.speed == HIGH) != other;
      if hs then AtHigh else AtFull
    else AtFull
  }

  /** The speed count_configs looks at, for DEVICE or (`other`) DEVICE_QUALIFIER. */
  function CountSpeed(g: Gadget, other: bool): Which {
    var dual := DualSpeed(g);
    var ss := dual && g.speed == SUPER;
    var hs := dual && ((g.speed == HIGH) != other);
    if ss then AtSuper else if hs then AtHigh else AtFull
  }

  /** Both look at the same speed, unless the link runs faster than the controller is
      said to. */
  lemma SameSpeed(g: Gadget, other: bool)
    ensures DescSpeed(g, other) == CountSpeed(g, other) <==> !(g.speed == SUPER && !DualSpeed(g))
  {
  }

  /** Positions of the configurations that work at a speed, in list order. */
  function Usable(configs: seq<Config>, w: Which): (ps: seq<nat>)
    ensures |ps| <= |configs|
    ensures forall i :: 0 <= i < |ps| ==> ps[i] < |configs| && Works(configs[ps[i]], w)
  {
    if configs == [] then []
    else
      var n := |configs| - 1;
      Usable(configs[..n], w) + if Works(configs[n], w) then [n] else []
  }

  /** The list really is all of them: increasing, and complete. */
  lemma {:induction false} UsableIsAll(configs: seq<Config>, w: Which)
    ensures forall p :: 0 <= p < |configs| ==> (Works(configs[p], w) <==> p in Usable(configs, w))
    ensures forall i, j :: 0 <= i < j < |Usable(configs, w)| ==> Usable(configs, w)[i] < Usable(configs, w)[j]
  {
    if configs != [] {
      var n := |configs| - 1;
      UsableIsAll(configs[..n], w);
      assert forall p :: 0 <= p < n ==> configs[..n][p] == configs[p];
      forall p | 0 <= p < |configs|
        ensures Works(configs[p], w) <==> p in Usable(configs, w)
      {
        if p < n {
          assert Works(configs[..n][p], w) <==> p in Usable(configs[..n], w);
        } else {
          assert n !in Usable(configs[..n], w);
        }
      }
    }
  }

  lemma {:induction false} UsablePrefix(configs: seq<Config>, w: Which, p: nat)
    requires p <= |configs|
    ensures Usable(configs[..p], w) <= Usable(configs, w)
    decreases |configs|
  {
    if p == |configs| {
      assert configs[..p] == configs;
    } else {
      var n := |configs| - 1;
      UsablePrefix(configs[..n], w, p);
      assert configs[..n][..p] == configs[..p];
    }
  }

  /** What a lookup selects: the OS-descriptor configuration or a listed one. */
  datatype Selected = Os | At(k: nat)

  /** config_desc up to building the descriptor: the configuration for an index, of which
      only the low byte of wValue counts. */
  method ConfigDesc(g: Gadget, wValue: nat, other: bool) returns (r: Option<Selected>)
    requires g.os.Listed? ==> g.os.k < |g.configs|
    ensures g.os.NoOs? ==>
              var us := Usable(g.configs, DescSpeed(g, other));
              r == if wValue % 256 < |us| then Some(At(us[wValue % 256])) else None
    ensures r.Some? <==> wValue % 256 < Reachable(g, DescSpeed(g, other))
  {
    var w := DescSpeed(g, other);
    var left: nat := wValue % 256;
    if g.os != NoOs {
      var c := if g.os.Unlisted? then g.os.c else g.configs[g.os.k];
      if Works(c, w) {
        if left == 0 {
          OsReachable(g, w);
          return Some(if g.os.Unlisted? then Os else At(g.os.k));
        }
        left := left - 1;
      }
    }
    ghost var start := left;
    var p := 0;
    while p < |g.configs|
      invariant p <= |g.configs|
      invariant left == start - |SkippingOs(g, w, p)|
      invariant g.os.NoOs? ==> SkippingOs(g, w, p) == Usable(g.configs[..p], w)
    {
      ghost var before := SkippingOs(g, w, p);
      assert g.configs[..p + 1][..p] == g.configs[..p];
      if !(g.os.Listed? && g.os.k == p) && Works(g.configs[p], w) {
        if left == 0 {
          assert SkippingOs(g, w, p + 1)[start] == p;
          SkippingPrefix(g, w, p + 1);
          UsablePrefix(g.configs, w, p + 1);
          assert g.configs[..|g.configs|] == g.configs;
          OsReachable(g, w);
          return Some(At(p));
        }
        left := left - 1;
      }
      p := p + 1;
    }
    assert g.configs[..|g.configs|] == g.configs;
    OsReachable(g, w);
    return None;
  }

  /** Usable configurations among the first p that are not the OS-descriptor one. */
  function SkippingOs(g: Gadget, w: Which, p: nat): (ps: seq<nat>)
    requires p <= |g.configs|
  {
    if p == 0 then []
    else
      SkippingOs(g, w, p - 1)
      + if !(g.os.Listed? && g.os.k == p - 1) && Works(g.configs[p - 1], w) then [p - 1] else []
  }

  lemma {:induction false} SkippingPrefix(g: Gadget, w: Which, p: nat)
    requires p <= |g.configs|
    ensures SkippingOs(g, w, p) <= SkippingOs(g, w, |g.configs|)
    decreases |g.configs| - p
  {
    if p < |g.configs| {
      SkippingPrefix(g, w, p + 1);
    }
  }

  /** How many indices a lookup answers. */
  function Reachable(g: Gadget, w: Which): nat
    requires g.os.Listed? ==> g.os.k < |g.configs|
  {
    |Usable(g.configs, w)| + if g.os.Unlisted? && Works(g.os.c, w) then 1 else 0
  }

  lemma {:induction false} SkippedCount(g: Gadget, w: Which, p: nat)
    requires p <= |g.configs|
    ensures |SkippingOs(g, w, p)|
         == |Usable(g.configs[..p], w)| - if g.os.Listed? && g.os.k < p && Works(g.configs[g.os.k], w) then 1 else 0
  {
    if p > 0 {
      SkippedCount(g, w, p - 1);
      assert g.configs[..p][..p - 1] == g.configs[..p - 1];
    } else {
      assert g.configs[..0] == [];
    }
  }

  lemma OsReachable(g: Gadget, w: Which)
    requires g.os.Listed? ==> g.os.k < |g.configs|
    ensures Reachable(g, w) == |SkippingOs(g, w, |g.configs|)|
         + (if g.os.Listed? && Works(g.configs[g.os.k], w) then 1 else 0)
         + (if g.os.Unlisted? && Works(g.os.c, w) then 1 else 0)
  {
    SkippedCount(g, w, |g.configs|);
    assert g.configs[..|g.configs|] == g.configs;
  }

  /** count_configs */
  method CountConfigs(g: Gadget, other: bool) returns (count: nat)
    ensures count == |Usable(g.configs, CountSpeed(g, other))|
  {
    var w := CountSpeed(g, other);
    count := 0;
    var p := 0;
    while p < |g.configs|
      invariant p <= |g.configs| && count == |Usable(g.configs[..p], w)|
    {
      assert g.configs[..p + 1][..p] == g.configs[..p];
      if Works(g.configs[p], w) {
        count := count + 1;
      }
      p := p + 1;
    }
    assert g.configs[..p] == g.configs;
  }

  /** Every index below the count is answered and no other is, exactly unless an
      OS-descriptor configuration that is not on the list works at the speed. */
  lemma CountAgrees(g: Gadget, other: bool)
    requires g.os.Listed? ==> g.os.k < |g.configs|
    requires !(g.speed == SUPER && !DualSpeed(g))
    ensures Reachable(g, DescSpeed(g, other)) == |Usable(g.configs, CountSpeed(g, other))|
       <==> !(g.os.Unlisted? && Works(g.os.c, DescSpeed(g, other)))
  {
    SameSpeed(g, other);
  }

  /** Both loops together: with no OS-descriptor configuration, index i is answered
      exactly if it is below the announced count, by the i-th configuration usable. */
  method Enumerate(g: Gadget, wValue: nat, other: bool) returns (count: nat, r: Option<Selected>)
    requires g.os.NoOs? && !(g.speed == SUPER && !DualSpeed(g))
    ensures count == |Usable(g.configs, CountSpeed(g, other))|
    ensures r.Some? <==> wValue % 256 < count
    ensures r.Some? ==> r.value == At(Usable(g.configs, CountSpeed(g, other))[wValue % 256])
  {
    SameSpeed(g, other);
    count := CountConfigs(g, other);
    r := ConfigDesc(g, wValue, other);
  }
}
