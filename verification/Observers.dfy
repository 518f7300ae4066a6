/** Keeping one accessibility observer per application (src/macos/events.rs): a rescan attaches to
    applications that came, detaches from those that left, and remembers who refused. */
module Observers {

  newtype Pid = n: int | -0x8000_0000 <= n < 0x8000_0000

  datatype ObserverPlan = ObserverPlan(attach: seq<Pid>, detach: seq<Pid>, forget: seq<Pid>)

  /** Every element of `xs` not in `ys`, in order. */
  function Missing(xs: seq<Pid>, ys: seq<Pid>): seq<Pid> {
    if xs == [] then [] else (if xs[0] in ys then [] else [xs[0]]) + Missing(xs[1..], ys)
  }

  ghost predicate Distinct(xs: seq<Pid>) {
    forall i, j :: 0 <= i < j < |xs| ==> xs[i] != xs[j]
  }

  function Elements(xs: seq<Pid>): (s: set<Pid>)
    ensures forall x :: x in s <==> x in xs
  {
    set x | x in xs
  }

  lemma {:induction false} MissingElements(xs: seq<Pid>, ys: seq<Pid>)
    ensures Elements(Missing(xs, ys)) == Elements(xs) - Elements(ys)
  {
    if xs != [] {
      MissingElements(xs[1..], ys);
      var rest := Missing(xs[1..], ys);
      assert forall x :: x in xs <==> x == xs[0] || x in xs[1..];
      assert forall x :: x in rest <==> x in Elements(rest);
    }
  }

  /** Who to attach to, detach from and forget: each pid that is present and not known yet is
      attached to once, however often it is listed. */
  method PlanObservers(attached: seq<Pid>, refused: seq<Pid>, present: seq<Pid>) returns (plan: ObserverPlan)
    ensures Elements(plan.attach) == Elements(present) - Elements(attached) - Elements(refused) && Distinct(plan.attach)
    ensures plan.detach == Missing(attached, present) && plan.forget == Missing(refused, present)
  {
    var attach: seq<Pid> := [];
    for i := 0 to |present|
      invariant Distinct(attach)
      invariant forall p :: p in attach <==> p in present[..i] && p !in attached && p !in refused
    {
      var pid := present[i];
      assert present[..i + 1] == present[..i] + [pid];
      if pid in attached || pid in refused || pid in attach {
        continue;
      }
      attach := attach + [pid];
    }
    assert present[..|present|] == present;
    var detach := KeepMissing(attached, present);
    var forget := KeepMissing(refused, present);
    plan := ObserverPlan(attach, detach, forget);
  }

  method KeepMissing(xs: seq<Pid>, ys: seq<Pid>) returns (kept: seq<Pid>)
    ensures kept == Missing(xs, ys)
  {
    kept := [];
    for i := 0 to |xs|
      invariant kept + Missing(xs[i..], ys) == Missing(xs, ys)
    {
      assert xs[i..][1..] == xs[i + 1..];
      if xs[i] in ys {
        assert [] + Missing(xs[i + 1..], ys) == Missing(xs[i + 1..], ys);
        continue;
      }
      assert kept + ([xs[i]] + Missing(xs[i + 1..], ys)) == (kept + [xs[i]]) + Missing(xs[i + 1..], ys);
      kept := kept + [xs[i]];
    }
    assert kept + [] == kept;
  }

  /** Who is observed and who has refused. */
  datatype Registry = Registry(observed: set<Pid>, refused: set<Pid>)

  /** The applications a rescan tries to attach to. */
  function Tried(r: Registry, present: set<Pid>): set<Pid> {
    present - r.observed - r.refused
  }

  function Accepting(pids: set<Pid>, accepts: Pid -> bool): set<Pid> {
    set p | p in pids && accepts(p)
  }

  function Rescanned(r: Registry, present: set<Pid>, accepts: Pid -> bool): Registry {
    var tried := Tried(r, present);
    Registry((r.observed * present) + Accepting(tried, accepts),
        (r.refused * present) + (tried - Accepting(tried, accepts)))
  }

  class SourceState {
    /** The observers by pid; what a registration holds is outside the model. */
    var observers: set<Pid>
    var refused: set<Pid>

    function Contents(): Registry
      reads this
    {
      Registry(observers, refused)
    }

    constructor ()
      ensures Contents() == Registry({}, {})
    {
      observers, refused := {}, {};
    }

    /** Lists a set in whatever order a hash map happens to give. */
    static method Listed(pids: set<Pid>) returns (list: seq<Pid>)
      ensures Elements(list) == pids
    {
      list := [];
      var rest := pids;
      while |rest| > 0
        invariant rest <= pids && Elements(list) == pids - rest
      {
        var pid :| pid in rest;
        assert Elements(list + [pid]) == Elements(list) + {pid};
        list, rest := list + [pid], rest - {pid};
      }
    }

    /** One rescan; without the accessibility grant it does nothing. */
    method RescanObservers(present: seq<Pid>, trusted: bool, accepts: Pid -> bool)
      modifies this
      ensures Contents() == if trusted then Rescanned(old(Contents()), Elements(present), accepts) else old(Contents())
    {
      if !trusted {
        return;
      }
      var attached := Listed(observers);
      var refusing := Listed(refused);
      var plan := PlanObservers(attached, refusing, present);
      MissingElements(attached, present);
      MissingElements(refusing, present);
      Detach(plan.detach);
      Forget(plan.forget);
      Attach(plan.attach, accepts);
    }

    method Detach(pids: seq<Pid>)
      modifies this`observers
      ensures observers == old(observers) - Elements(pids)
    {
      for i := 0 to |pids|
        invariant observers == old(observers) - Elements(pids[..i])
      {
        assert pids[..i + 1] == pids[..i] + [pids[i]];
        observers := observers - {pids[i]};
      }
      assert pids[..|pids|] == pids;
    }

    method Forget(pids: seq<Pid>)
      modifies this`refused
      ensures refused == old(refused) - Elements(pids)
    {
      for i := 0 to |pids|
        invariant refused == old(refused) - Elements(pids[..i])
      {
        assert pids[..i + 1] == pids[..i] + [pids[i]];
        refused := refused - {pids[i]};
      }
      assert pids[..|pids|] == pids;
    }

    /** Tries each application; one that refuses is remembered as such. */
    method Attach(pids: seq<Pid>, accepts: Pid -> bool)
      modifies this
      ensures observers == old(observers) + Accepting(Elements(pids), accepts)
      ensures refused == old(refused) + (Elements(pids) - Accepting(Elements(pids), accepts))
    {
      for i := 0 to |pids|
        invariant observers == old(observers) + Accepting(Elements(pids[..i]), accepts)
        invariant refused == old(refused) + (Elements(pids[..i]) - Accepting(Elements(pids[..i]), accepts))
      {
        assert pids[..i + 1] == pids[..i] + [pids[i]];
        if !accepts(pids[i]) {
          refused := refused + {pids[i]};
          continue;
        }
        observers := observers + {pids[i]};
      }
      assert pids[..|pids|] == pids;
    }
  }

  /** After a trusted rescan observed and refused split the present applications between them,
      whoever refuses; the next rescan of the same applications tries nobody and changes nothing. */
  lemma {:induction false} RescanSettles(r: Registry, present: set<Pid>, accepts: Pid -> bool, later: Pid -> bool)
    requires r.observed !! r.refused
    ensures var s := Rescanned(r, present, accepts);
            && s.observed !! s.refused && s.observed + s.refused == present
            && Tried(s, present) == {} && Rescanned(s, present, later) == s
  {
    var s := Rescanned(r, present, accepts);
    hide Accepting;
    assert s.observed + s.refused == (r.observed * present) + (r.refused * present) + Tried(r, present) == present by {
      AcceptingSome(Tried(r, present), accepts);
    }
    AcceptingSome(Tried(r, present), accepts);
    AcceptingSome({}, later);
    assert Tried(s, present) == {};
    assert Rescanned(s, present, later).observed == s.observed;
    assert Rescanned(s, present, later).refused == s.refused;
  }

  /** Of the present applications those are observed that were, and of the unknown ones those that
      accept. */
  lemma {:induction false} RescanAccepts(r: Registry, present: set<Pid>, accepts: Pid -> bool, p: Pid)
    requires r.observed !! r.refused
    ensures var s := Rescanned(r, present, accepts);
            && (p in s.observed <==> p in present && (p in r.observed || (p !in r.refused && accepts(p))))
            && (p in s.refused <==> p in present && (p in r.refused || (p !in r.observed && !accepts(p))))
  {
  }

  datatype Window = Window(ownerPid: Pid, layer: int)

  /** The applications to observe: the owners of ordinary windows, each once, as far as they are
      applications. */
  method ApplicationPids(windows: seq<Window>, isApplication: Pid -> bool) returns (pids: seq<Pid>)
    ensures Distinct(pids)
    ensures forall p :: p in pids <==> isApplication(p) && exists w :: w in windows && w.layer == 0 && w.ownerPid == p
  {
    pids := [];
    for i := 0 to |windows|
      invariant Distinct(pids)
      invariant forall p :: p in pids <==>
        isApplication(p) && exists w :: w in windows[..i] && w.layer == 0 && w.ownerPid == p
    {
      var window := windows[i];
      assert windows[..i + 1] == windows[..i] + [window];
      assert forall w :: w in windows[..i + 1] <==> w in windows[..i] || w == window;
      if window.layer != 0 || window.ownerPid in pids || !isApplication(window.ownerPid) {
        continue;
      }
      pids := pids + [window.ownerPid];
    }
    assert windows[..|windows|] == windows;
  }

  lemma {:induction false} AcceptingSome(pids: set<Pid>, accepts: Pid -> bool)
    ensures Accepting(pids, accepts) <= pids
  {
  }

  /** How often an application is tried over a run of rescans. */
  function Tries(r: Registry, scans: seq<(set<Pid>, Pid -> bool)>, pid: Pid): nat
    decreases |scans|
  {
    if scans == [] then 0
    else (if pid in Tried(r, scans[0].0) then 1 else 0) + Tries(Rescanned(r, scans[0].0, scans[0].1), scans[1..], pid)
  }

  /** While an application stays, it is tried at most once, and only if it was not known before. */
  lemma {:induction false} TriedOncePerStay(r: Registry, scans: seq<(set<Pid>, Pid -> bool)>, pid: Pid)
    requires forall i :: 0 <= i < |scans| ==> pid in scans[i].0
    ensures Tries(r, scans, pid) == if scans != [] && pid !in r.observed + r.refused then 1 else 0
    decreases |scans|
  {
    if scans != [] {
      TriedOncePerStay(Rescanned(r, scans[0].0, scans[0].1), scans[1..], pid);
    }
  }
}
