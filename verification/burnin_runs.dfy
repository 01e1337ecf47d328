/** The promises of a burn-in, over every run. */
module BurninRuns {
  import opened Bytes
  import opened Arithmetic
  import opened Scheduler
  import opened StatFile
  import opened Statistics
  import opened Burnin
  import opened BurninInvariant

  // ---- every run ----

  lemma StepKeepsInv(s: State, e: Step)
    requires Enabled(s, e) && Inv(s)
    ensures Inv(Apply(s, e))
  {
    hide AllConserved, ChildrenAreOnly, PidsDiffer, NoneLost, LedSafe, PublishedFair, CollectingFair, Enabled, Apply;
    StepConserves(s, e);
    StepKeepsChildren(s, e);
    StepKeepsPids(s, e);
    StepLosesNone(s, e);
    StepKeepsLed(s, e);
    StepKeepsPublished(s, e);
    StepKeepsCollection(s, e);
  }

  lemma {:induction false} RunKeepsInv(s: State, es: seq<Step>)
    requires Inv(s) && IsRun(s, es)
    ensures Inv(After(s, es))
    decreases |es|
  {
    hide Inv, Enabled, Apply;
    if es != [] {
      StepKeepsInv(s, es[0]);
      RunKeepsInv(Apply(s, es[0]), es[1..]);
    }
  }

  /** Every state of every burn-in satisfies the invariant. */
  lemma Reachable(s0: State, es: seq<Step>)
    requires Init(s0) && IsRun(s0, es)
    ensures Inv(After(s0, es))
  {
    hide IsRun, After;
    RunKeepsInv(s0, es);
  }

  lemma {:induction false} RunKeepsLength(s: State, es: seq<Step>)
    requires IsRun(s, es)
    ensures |After(s, es).scripts| == |s.scripts| && After(s, es).led == s.led && After(s, es).leftover == s.leftover
    ensures TrueTotal(s) <= TrueTotal(After(s, es))
    decreases |es|
  {
    if es != [] {
      StepKeepsCounters(s, es[0]);
      StepTotal(s, es[0]);
      hide TrueTotal;
      RunKeepsLength(Apply(s, es[0]), es[1..]);
    }
  }

  /** Conservation: in every reachable state each launch of each script is accounted for exactly once, and so is
      each stream; and no two awaited scripts share a pid, nor has a script two children. */
  lemma RunsAreAccountedFor(s0: State, es: seq<Step>)
    requires Init(s0) && IsRun(s0, es)
    ensures var s := After(s0, es);
      && |s.tallies| == |s.scripts| == |s0.scripts|
      && (forall i :: 0 <= i < |s.scripts| ==>
        var c, t := s.scripts[i], s.tallies[i];
        && t.launches == c.passCount + c.failCount + t.abnormal + (if c.running == 1 then 1 else 0)
        && Conserved(c, t))
      && (forall i, j :: 0 <= i < j < |s.scripts| && s.scripts[i].Awaited() && s.scripts[j].Awaited() ==>
        s.scripts[i].pid != s.scripts[j].pid)
      && (forall p, q :: p in s.children && HasChild(s, q, s.children[p].script) ==> p == q)
  {
    Reachable(s0, es);
    RunKeepsLength(s0, es);
    hide IsRun, After, Init, LedSafe, NoneLost, PublishedFair, CollectingFair;
    var s := After(s0, es);
    forall p, q | p in s.children && HasChild(s, q, s.children[p].script)
      ensures p == q
    {
      assert IsOnlyChild(s, p);
    }
  }

  /** A script that is disabled or stuck stays so, and its counters stay what they are. */
  lemma {:induction false} ParkedForever(s: State, es: seq<Step>, i: nat)
    requires IsRun(s, es) && i < |s.scripts| && s.scripts[i].IsParked()
    ensures i < |After(s, es).scripts| && After(s, es).scripts[i] == s.scripts[i]
    decreases |es|
  {
    hide Enabled, Apply;
    if es != [] {
      StepKeepsCounters(s, es[0]);
      ParkedForever(Apply(s, es[0]), es[1..], i);
    }
  }

  // ---- the published totals ----

  /** A collection under way remembers the counters it began with. */
  lemma {:induction false} StartIsRemembered(s: State, es: seq<Step>)
    requires IsRun(s, es) && s.collector.Collecting? && Publish !in es
    ensures After(s, es).collector.Collecting? && After(s, es).collector.start == s.collector.start
    ensures After(s, es).published == s.published
    decreases |es|
  {
    if es != [] {
      assert es[0] != Publish;
      StartIsRemembered(Apply(s, es[0]), es[1..]);
    }
  }

  /** However the steps of the other threads fall between, the total that is published lies between the true
      totals when its collection began and when it ended, is at least the sum of the counters published with it,
      and is not below the total published before. */
  lemma TotalIsBetween(s: State, header: seq<Entry>, es: seq<Step>)
    requires Inv(s) && Enabled(s, Begin(header)) && IsRun(Apply(s, Begin(header)), es) && Publish !in es
    requires Enabled(After(Apply(s, Begin(header)), es), Publish)
    ensures var end := After(Apply(s, Begin(header)), es);
      var file := Apply(end, Publish).published;
      && file == s.published + [file[|file| - 1]] && |file[|file| - 1].scripts| == |s.scripts|
      && Sum(FailsOf(s.scripts)) <= file[|file| - 1].total <= Sum(FailsOf(end.scripts))
      && Sum(FailsOf(file[|file| - 1].scripts)) <= file[|file| - 1].total
      && (s.published != [] ==> s.published[|s.published| - 1].total <= file[|file| - 1].total)
  {
    hide AllConserved, ChildrenAreOnly, PidsDiffer, NoneLost, LedSafe, IsRun, After, IsHeader, PublishedFair,
      CollectingFair, Sum;
    var begun := Apply(s, Begin(header));
    var end := After(begun, es);
    StepKeepsInv(s, Begin(header));
    RunKeepsInv(begun, es);
    RunKeepsLength(begun, es);
    StartIsRemembered(begun, es);
    CollectionIsFair(end);
  }

  /** Over a whole burn-in the published totals never go down. */
  lemma TotalsNeverGoDown(s0: State, es: seq<Step>)
    requires Init(s0) && IsRun(s0, es)
    ensures var file := After(s0, es).published;
      && (forall j, k :: 0 <= j < k < |file| ==> file[j].total <= file[k].total)
      && (forall k :: 0 <= k < |file| ==> IsFair(file[k]))
      && (file != [] ==> file[|file| - 1].total <= TrueTotal(After(s0, es)))
  {
    Reachable(s0, es);
  }

  // ---- the fault LED ----

  /** As long as every published file can be read to its end: if no file left over from before can make failid force
      the LED on, it is forced on only when a test has failed; if none is left over that cannot be read to its end,
      failid itself never fails; and if neither is, the LED is forced on only when another test has failed. */
  lemma NoFalseAlarm(s0: State, es: seq<Step>, p: nat)
    requires Init(s0) && IsRun(s0, es) && PublishedLoads(After(s0, es))
    ensures !MayForce(s0.leftover) ==>
      && (Enabled(After(s0, es), LedForce(p)) ==> TrueTotal(After(s0, es)) > 0)
      && (After(s0, es).forces > 0 ==> TrueTotal(After(s0, es)) > 0)
    ensures |After(s0, es).scripts| == |s0.scripts|
    ensures s0.led < |s0.scripts| && LeftoverLoads(s0) ==> After(s0, es).scripts[s0.led].failCount == 0
    ensures !MayForce(s0.leftover) && LeftoverLoads(s0) ==>
      && (Enabled(After(s0, es), LedForce(p)) ==> OthersFailed(After(s0, es)))
      && (After(s0, es).forces > 0 ==> OthersFailed(After(s0, es)))
  {
    Reachable(s0, es);
    RunKeepsLength(s0, es);
    var s := After(s0, es);
    LeftoverSame(s0, s);
    hide IsRun, After, Init, AllConserved, ChildrenAreOnly, PidsDiffer, NoneLost, PublishedFair, CollectingFair,
      TrueTotal, MayForce, PublishedLoads, Source, LeftoverLoads, OthersFailed;
    if Enabled(s, LedForce(p)) {
      assert HasChild(s, p, s.led) && TellsTruth(s, s.children[p].phase);
    }
  }

  /** failid forces the LED on at most once, and once more at most for each of its runs that was lost because
      something else had reaped its child. When that never happens, at most once. */
  lemma ForcedAtMostOnce(s0: State, es: seq<Step>)
    requires Init(s0) && IsRun(s0, es) && s0.led < |s0.scripts|
    ensures var s := After(s0, es);
      && s.led < |s.tallies| && s.forces <= 1 + s.tallies[s.led].lost
      && (s.stolen == 0 ==> s.forces <= 1)
  {
    Reachable(s0, es);
    RunKeepsLength(s0, es);
    hide IsRun, After, Init, ChildrenAreOnly, PidsDiffer, PublishedFair, CollectingFair, LedTrue;
  }

  /** Every failid run under way was launched after a positive total was published. */
  ghost predicate AllArmed(s: State) {
    PublishedPositive(s) && ((exists p :: HasChild(s, p, s.led)) ==> s.ledRun.armed)
  }

  lemma StepKeepsArmed(s: State, e: Step)
    requires Enabled(s, e) && Inv(s) && AllArmed(s)
    ensures AllArmed(Apply(s, e))
  {
    hide AllConserved, PidsDiffer, NoneLost, LedSafe, PublishedFair, CollectingFair, IsHeader, MayLoad;
    StaysPositive(s, e);
    hide PublishedPositive;
    var s' := Apply(s, e);
    if p :| HasChild(s', p, s.led) {
      ChildrenOfNext(s, e, p);
      if e.Poll? && e.script == s.led {
        assert IsOnlyChild(s, p);
      }
    }
  }

  lemma ArmedHasForced(s: State, p: nat)
    requires Inv(s) && AllArmed(s) && PublishedLoads(s)
    requires HasChild(s, p, s.led) && s.children[p].phase.Done?
    ensures s.children[p].phase == Done(255) && s.ledRun.forced && s.forces > 0
  {
    hide AllConserved, ChildrenAreOnly, PidsDiffer, NoneLost, PublishedFair, CollectingFair, PublishedPositive,
      IsWarranted, LeftoverLoads, PublishedLoads;
    assert ForcesOnce(s, s.children[p].phase) && TellsTruth(s, s.children[p].phase);
  }

  /** Once a positive total is published and no earlier failid run is under way, every failid run that completes
      has forced the LED on and exits with 255, as long as every published file can be read to its
      end. */
  lemma {:induction false} LaterRunsForce(s: State, es: seq<Step>, p: nat)
    requires Inv(s) && AllArmed(s) && IsRun(s, es) && PublishedLoads(After(s, es))
    requires HasChild(After(s, es), p, s.led) && After(s, es).children[p].phase.Done?
    ensures After(s, es).children[p].phase == Done(255) && After(s, es).ledRun.forced && After(s, es).forces > 0
    decreases |es|
  {
    hide Enabled, Inv, AllArmed, PublishedLoads;
    RunKeepsLength(s, es);
    if es == [] {
      ArmedHasForced(s, p);
    } else {
      StepKeepsInv(s, es[0]);
      StepKeepsArmed(s, es[0]);
      SameLed(s, es[0]);
      hide Apply;
      LaterRunsForce(Apply(s, es[0]), es[1..], p);
    }
  }

  lemma SameLed(s: State, e: Step)
    requires Enabled(s, e)
    ensures Apply(s, e).led == s.led
  {
  }

  /** In a burn-in: once the published total is positive and failid may be launched again, a failid run that
      completes later has forced the LED on, as long as every published file can be read to its
      end. */
  lemma ForcedOncePublished(s0: State, es: seq<Step>, f: Fork, later: seq<Step>, p: nat)
    requires Init(s0) && IsRun(s0, es) && PublishedPositive(After(s0, es))
    requires Enabled(After(s0, es), Launch(s0.led, f))
    requires IsRun(After(s0, es), later) && PublishedLoads(After(After(s0, es), later))
    ensures var s := After(After(s0, es), later);
      HasChild(s, p, s.led) && s.children[p].phase.Done? ==>
        s.children[p].phase == Done(255) && s.ledRun.forced && s.forces > 0
  {
    var s := After(s0, es);
    Reachable(s0, es);
    RunKeepsLength(s0, es);
    RunKeepsLength(s, later);
    hide IsRun, After, Init, AllConserved, PidsDiffer, NoneLost, LedSafe, PublishedFair, CollectingFair, IsHeader,
      PublishedLoads, PublishedPositive;
    forall q
      ensures !HasChild(s, q, s.led)
    {
      if q in s.children {
        assert IsOnlyChild(s, q);
      }
    }
    var end := After(s, later);
    if HasChild(end, p, s.led) && end.children[p].phase.Done? {
      LaterRunsForce(s, later, p);
    }
  }
}
