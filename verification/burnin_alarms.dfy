/** When the fault LED is a false alarm: exact conditions on a statistics file left over from an earlier burn-in. */
module BurninAlarms {
  import opened Bytes
  import opened Arithmetic
  import opened Scheduler
  import opened StatFile
  import opened StatQuotes
  import opened Statistics
  import opened Burnin
  import opened BurninInvariant
  import opened BurninRuns
  import opened BurninQuotes

  // ---- a total left over ----

  /** With a file left over from before that may make failid do so, its first run can force the LED on although
      nothing has failed and nothing was published. */
  lemma FalseAlarm(s0: State) returns (es: seq<Step>)
    requires Init(s0) && s0.led < |s0.scripts| && MayForce(s0.leftover) && !IsForeign(s0.leftover)
    ensures IsRun(s0, es) && After(s0, es).forces > 0 && TrueTotal(After(s0, es)) == 0
    ensures After(s0, es).published == [] && After(s0, es).stolen == 0 && |After(s0, es).scripts| == |s0.scripts|
  {
    hide Source, TotalIn, IsHeader;
    var t := MayFind(s0.leftover);
    var e0, e1, e2 := Launch(s0.led, Fork(1, Opened)), LedLoad(1, Loaded(Some(t))), LedForce(1);
    es := [e0, e1, e2];
    var s1 := Apply(s0, e0);
    var s2 := Apply(s1, e1);
    var s3 := Apply(s2, e2);
    SumOfZeros(FailsOf(s3.scripts));
    hide Sum;
    assert es[1..] == [e1, e2] && es[1..][1..] == [e2] && es[1..][1..][1..] == [];
    OneStep(s2, e2);
    assert IsRun(s1, [e1, e2]) && After(s1, [e1, e2]) == s3;
  }

  /** MayForce says whether a positive total is among the ways reading the file in may turn out. */
  lemma MayForceIff(file: Option<seq<u8>>)
    requires !IsForeign(file)
    ensures MayForce(file) <==> exists t: nat :: t > 0 && MayLoad(file, Loaded(Some(t)))
  {
    if MayForce(file) {
      var t := MayFind(file);
    }
  }

  lemma MayFind(file: Option<seq<u8>>) returns (t: nat)
    requires MayForce(file) && !IsForeign(file)
    ensures t > 0 && MayLoad(file, Loaded(Some(t)))
  {
    t := TotalIn(Source(file.value).made).value;
  }

  // ---- an open quote left over ----

  /** With a file left over from before that ends in an open quote, the first run of failid can fail. */
  lemma LeftoverFails(s0: State) returns (es: seq<Step>)
    requires Init(s0) && s0.led < |s0.scripts|
    requires s0.leftover.Some? && Source(s0.leftover.value).Unterminated?
    ensures IsRun(s0, es)
    ensures var s, c := After(s0, es), s0.scripts[s0.led];
      && s.scripts == s0.scripts[s0.led := Polled(Launched(c, Fork(1, Opened)), [], Exited(2))]
      && |s.tallies| == |s0.tallies| && s.led == s0.led
      && s.children == map[] && s.collector == Idle && s.published == [] && s.forces == 0 && s.stolen == 0
  {
    hide Source, TotalIn, IsHeader, IsRun, After;
    var p := 1;
    var e0, e1, e2 := Launch(s0.led, Fork(p, Opened)), LedLoad(p, Done(2)), Poll(s0.led, []);
    OneStep(s0, e0);
    RunPlus(s0, [e0], e1);
    RunPlus(s0, [e0] + [e1], e2);
    es := [e0] + [e1] + [e2];
    assert After(s0, es).children == map[];
  }

  /** As long as every published file can be read to its end: failid itself never fails, in any run, if and only if no
      file is left over from before that cannot. */
  lemma NeverFailsIff(s0: State)
    requires Init(s0) && s0.led < |s0.scripts| && !IsForeign(s0.leftover)
    ensures FileLoads(s0.leftover) <==>
            (forall es :: IsRun(s0, es) && PublishedLoads(After(s0, es)) && s0.led < |After(s0, es).scripts| ==>
              After(s0, es).scripts[s0.led].failCount == 0)
  {
    if FileLoads(s0.leftover) {
      forall es | IsRun(s0, es) && PublishedLoads(After(s0, es)) && s0.led < |After(s0, es).scripts|
        ensures After(s0, es).scripts[s0.led].failCount == 0
      {
        NoFalseAlarm(s0, es, 0);
      }
    } else {
      var es := LeftoverFails(s0);
      assert PublishedLoads(After(s0, es));
    }
  }

  /** What is published depends on the texts only as far as it can be read to its end. */
  lemma {:induction false} SameTexts(header: seq<Entry>, a: seq<Script>, b: seq<Script>)
    requires |a| == |b|
    requires forall i :: 0 <= i < |a| ==> a[i].name == b[i].name && a[i].lastMsg == b[i].lastMsg
    ensures TextsFit(header, a, false) == TextsFit(header, b, false)
    ensures QuotesOfTexts(header, a) == QuotesOfTexts(header, b)
  {
    hide TextFits, Quotes;
    if a != [] {
      SameTexts(header, a[..|a| - 1], b[..|b| - 1]);
    }
  }

  lemma {:induction false} SumAtLeast(a: seq<nat>, i: nat)
    requires i < |a|
    ensures Sum(a) >= a[i]
  {
    if i < |a| - 1 {
      SumAtLeast(a[..|a| - 1], i);
    }
  }

  /** And then failid can take its own failure for one of another test: it fails, the total that is published is 1, and
      its next run forces the LED on. */
  lemma OwnFailureAlarm(s0: State, header: seq<Entry>) returns (es: seq<Step>)
    requires Init(s0) && s0.led < |s0.scripts|
    requires s0.leftover.Some? && Source(s0.leftover.value).Unterminated?
    requires IsHeader(header) && TextsFit(header, s0.scripts, false) && QuotesOfTexts(header, s0.scripts) % 2 == 0
    ensures IsRun(s0, es) && PublishedLoads(After(s0, es)) && After(s0, es).forces > 0 && After(s0, es).stolen == 0
    ensures !OthersFailed(After(s0, es))
  {
    hide Source, FileOf, EntriesOf, TextsFit, QuotesOfTexts, IsHeader, IsRun, After, MayLoad, Sum;
    var before := LeftoverFails(s0);
    var s := After(s0, before);
    SameTexts(header, s0.scripts, s.scripts);
    SumAtLeast(FailsOf(s.scripts), s.led);
    var n := SnapshotOf(s, header);
    EvenTextsIff(header, s.scripts, n.total);
    var publish := Collects(s, header);
    RunConcat(s0, before, publish);
    es := Forces(s0, before + publish, n);
    var end := After(s0, es);
    forall i | 0 <= i < |end.scripts| && i != end.led
      ensures end.scripts[i].failCount == 0
    {
      assert FailsOf(end.scripts)[i] == FailsOf(s.scripts)[i];
    }
  }

  /** A failid run that finds a positive total forces the LED on. */
  lemma Forces(s0: State, before: seq<Step>, n: Snapshot) returns (es: seq<Step>)
    requires IsRun(s0, before) && n.Loads() && n.total > 0
    requires var s := After(s0, before);
      && s.published == [n] && s.led < |s.scripts| && s.led < |s.tallies| && s.scripts[s.led].running == 0
      && s.children == map[] && forall i :: 0 <= i < |s.scripts| ==> s.scripts[i].running == 0
    ensures IsRun(s0, es)
    ensures var s, s' := After(s0, before), After(s0, es);
      && s'.published == s.published && s'.forces == s.forces + 1 && s'.stolen == s.stolen && s'.led == s.led
      && FailsOf(s'.scripts) == FailsOf(s.scripts)
  {
    hide IsRun, After, Source, FileOf, EntriesOf, IsHeader, TotalIn;
    var s := After(s0, before);
    var e0, e1, e2 := Launch(s.led, Fork(1, Opened)), LedLoad(1, Loaded(Some(n.total))), LedForce(1);
    SureToLoad(n, Loaded(Some(n.total)));
    hide MayLoad;
    RunPlus(s0, before, e0);
    RunPlus(s0, before + [e0], e1);
    RunPlus(s0, before + [e0] + [e1], e2);
    es := before + [e0] + [e1] + [e2];
  }

  // ---- the exact condition ----

  /** For tests whose names can be published together with header: over the runs in which every published file can be
      read to its end, the LED is forced on only when a test other than failid has failed, if and only if no file is
      left over from before, or one that can be read to its end and gives no positive total. */
  lemma NoFalseAlarmIff(s0: State, header: seq<Entry>)
    requires Init(s0) && s0.led < |s0.scripts| && !IsForeign(s0.leftover)
    requires IsHeader(header) && TextsFit(header, s0.scripts, false) && QuotesOfTexts(header, s0.scripts) % 2 == 0
    ensures FileLoads(s0.leftover) && !MayForce(s0.leftover) <==>
            (forall es :: IsRun(s0, es) && PublishedLoads(After(s0, es)) && After(s0, es).forces > 0 ==>
              OthersFailed(After(s0, es)))
  {
    hide Init, IsHeader, TextsFit, QuotesOfTexts, TrueTotal, IsRun, After;
    if MayForce(s0.leftover) {
      var es := FalseAlarm(s0);
      NoneFailed(After(s0, es));
      assert PublishedLoads(After(s0, es));
    } else if !FileLoads(s0.leftover) {
      var es := OwnFailureAlarm(s0, header);
    } else {
      forall es | IsRun(s0, es) && PublishedLoads(After(s0, es)) && After(s0, es).forces > 0
        ensures OthersFailed(After(s0, es))
      {
        NoFalseAlarm(s0, es, 0);
      }
    }
  }

  lemma NoneFailed(s: State)
    requires TrueTotal(s) == 0
    ensures !OthersFailed(s)
  {
    if i :| 0 <= i < |s.scripts| && i != s.led && s.scripts[i].failCount > 0 {
      SumAtLeast(FailsOf(s.scripts), i);
    }
  }
}
