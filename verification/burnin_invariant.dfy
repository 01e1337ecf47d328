/** What every state of a burn-in satisfies, and that every step keeps it. */
module BurninInvariant {
  import opened Bytes
  import opened Arithmetic
  import opened Scheduler
  import opened StatFile
  import opened Statistics
  import opened Burnin

  // ---- invariants ----

  /** How many exits count as passes: those with code 0 and those with code 255. */
  function Passes(codes: seq<u8>): nat {
    if codes == [] then 0
    else Passes(codes[..|codes| - 1]) + if codes[|codes| - 1] == 0 || codes[|codes| - 1] == 255 then 1 else 0
  }

  /** Every launch of a script ends with an exit code, abnormally, or lost, or is still running. The counters are
      the passes and failures among the codes, a lost run counting as a pass. A script is disabled exactly once a
      child exited with 255 or died. Every stream that was opened is closed, is held by a running script, or was
      dropped where waitpid failed. */
  ghost predicate Conserved(c: Script, t: Tally) {
    && -1 <= c.running <= 1 && t.abnormal <= 1
    && (c.running == -1 <==> t.abnormal == 1 || 255 in t.codes)
    && t.launches == |t.codes| + t.abnormal + t.lost + (if c.running == 1 then 1 else 0)
    && c.passCount == Passes(t.codes) + t.lost
    && c.failCount == |t.codes| - Passes(t.codes)
    && t.opens == t.closes + t.lost + (if c.Awaited() then 1 else 0)
  }

  ghost predicate AllConserved(s: State) {
    |s.tallies| == |s.scripts| && forall i :: 0 <= i < |s.scripts| ==> Conserved(s.scripts[i], s.tallies[i])
  }

  /** A child belongs to a running script, which has no other child and, unless it is stuck, awaits its pid. */
  ghost predicate IsOnlyChild(s: State, p: nat)
    requires p in s.children
  {
    var i := s.children[p].script;
    && i < |s.scripts| && s.scripts[i].running == 1
    && (s.scripts[i].hasStream ==> s.scripts[i].pid == p)
    && (forall q :: HasChild(s, q, i) ==> q == p)
  }

  ghost predicate ChildrenAreOnly(s: State) {
    forall p :: p in s.children ==> IsOnlyChild(s, p)
  }

  /** Scripts that are awaited have different pids, and a child with such a pid is their own. */
  ghost predicate PidsDiffer(s: State) {
    && (forall i, j :: 0 <= i < j < |s.scripts| && s.scripts[i].Awaited() && s.scripts[j].Awaited() ==>
      s.scripts[i].pid != s.scripts[j].pid)
    && (forall i :: 0 <= i < |s.scripts| && s.scripts[i].Awaited() && s.scripts[i].pid in s.children ==>
      s.children[s.scripts[i].pid].script == i)
  }

  /** As long as no other thread has reaped a child, every awaited script has its child and no run is lost. */
  ghost predicate NoneLost(s: State) {
    s.stolen == 0 ==>
      && (forall i :: 0 <= i < |s.scripts| && s.scripts[i].Awaited() ==> s.scripts[i].pid in s.children)
      && (forall i :: 0 <= i < |s.tallies| ==> s.tallies[i].lost == 0)
  }

  /** The fault LED: forces counts how often it was forced on, at most once for each failid run that was lost, and
      once for the last one. */
  ghost predicate LedOnce(s: State) {
    && (s.led < |s.scripts| && |s.tallies| == |s.scripts| ==>
      s.forces <= s.tallies[s.led].lost + (if s.ledRun.forced then 1 else 0))
    && (s.led >= |s.scripts| ==> s.forces == 0)
    && (s.ledRun.forced ==> s.led < |s.scripts| && s.scripts[s.led].running != 0 && s.forces > 0)
    && (forall p :: HasChild(s, p, s.led) ==> ForcesOnce(s, s.children[p].phase))
  }

  /** A child of the failid script has forced the LED on when it is done with that, and then ends with 255. */
  ghost predicate ForcesOnce(s: State, phase: Phase) {
    match phase
    case Working => !s.ledRun.forced
    case Loaded(t) => !s.ledRun.forced
    case Forced => s.ledRun.forced
    case Done(code) => s.ledRun.forced ==> code == 255
    case Dead => true
  }

  /** Every file that was published can be read to its end. */
  ghost predicate PublishedLoads(s: State) {
    forall k :: 0 <= k < |s.published| ==> s.published[k].Loads()
  }

  /** There is no file left over from before, or it can be read to its end. */
  predicate LeftoverLoads(s: State) {
    FileLoads(s.leftover)
  }

  predicate FileLoads(file: Option<seq<u8>>) {
    file.None? || Source(file.value).Complete?
  }

  predicate IsForeign(file: Option<seq<u8>>) {
    file.Some? && Source(file.value).Foreign?
  }

  /** The file may make failid force the LED on. */
  predicate MayForce(file: Option<seq<u8>>) {
    file.Some? &&
    match Source(file.value)
    case Complete(made) => IsPositive(TotalIn(made))
    case Unterminated(made) => IsPositive(TotalIn(made))
    case Foreign => true
  }

  /** Some test other than failid has failed. */
  predicate OthersFailed(s: State) {
    exists i :: 0 <= i < |s.scripts| && i != s.led && s.scripts[i].failCount > 0
  }

  /** A file left over from an earlier burn-in may say that a test has failed, or one has: a test other than failid if
      that file can be read to its end. */
  predicate IsWarranted(s: State) {
    MayForce(s.leftover) || (TrueTotal(s) > 0 && (LeftoverLoads(s) ==> OthersFailed(s)))
  }

  /** What the LED says is true as long as what is published can be read to its end; and then failid itself does not
      fail. */
  ghost predicate LedTrue(s: State) {
    && (s.forces > 0 ==> IsWarranted(s))
    && (s.led < |s.scripts| && LeftoverLoads(s) ==> s.scripts[s.led].failCount == 0)
    && (forall p :: HasChild(s, p, s.led) ==> TellsTruth(s, s.children[p].phase))
  }

  ghost predicate TellsTruth(s: State, phase: Phase) {
    match phase
    case Loaded(t) => (IsPositive(t) ==> IsWarranted(s)) && (s.ledRun.armed ==> IsPositive(t))
    case Done(code) => (LeftoverLoads(s) ==> code == 0 || code == 255) && (s.ledRun.armed ==> s.ledRun.forced)
    case _ => true
  }

  ghost predicate LedSafe(s: State) {
    LedOnce(s) && (s.ledRun.armed ==> PublishedPositive(s)) && (PublishedLoads(s) ==> LedTrue(s))
  }

  /** A snapshot: its total lies between the true totals when its collection began and ended, and is at least
      the sum of the counters it lists. */
  ghost predicate IsFair(n: Snapshot) {
    n.before <= n.total <= n.after && Sum(FailsOf(n.scripts)) <= n.total && IsHeader(n.header)
  }

  ghost predicate PublishedFair(s: State) {
    && (forall k :: 0 <= k < |s.published| ==> IsFair(s.published[k]))
    && (forall j, k :: 0 <= j < k < |s.published| ==> s.published[j].total <= s.published[k].total)
    && (s.published != [] ==> s.published[|s.published| - 1].total <= TrueTotal(s))
  }

  ghost predicate Below(a: seq<nat>, b: seq<nat>) {
    |a| <= |b| && forall i :: 0 <= i < |a| ==> a[i] <= b[i]
  }

  /** A collection under way. */
  ghost predicate CollectingFair(s: State) {
    s.collector.Collecting? ==>
      var c := s.collector;
      && |c.start| == |s.scripts| && Below(c.start, FailsOf(s.scripts))
      && c.added <= |c.scripts| <= |s.scripts|
      && |c.scripts| <= c.added + 1 && IsHeader(c.header)
      && Below(FailsOf(c.scripts), FailsOf(s.scripts)) && Below(c.start[..|c.scripts|], FailsOf(c.scripts))
      && Sum(c.start[..c.added]) <= c.total <= Sum(FailsOf(s.scripts)[..c.added])
      && Sum(FailsOf(c.scripts)[..c.added]) <= c.total
      && (s.published != [] ==> s.published[|s.published| - 1].total <= Sum(c.start))
  }

  ghost predicate Inv(s: State) {
    && AllConserved(s) && ChildrenAreOnly(s) && PidsDiffer(s) && NoneLost(s)
    && LedSafe(s) && PublishedFair(s) && CollectingFair(s)
  }

  // ---- sums ----

  lemma {:induction false} SumBelow(a: seq<nat>, b: seq<nat>)
    requires |a| == |b| && Below(a, b)
    ensures Sum(a) <= Sum(b)
  {
    if a != [] {
      SumBelow(a[..|a| - 1], b[..|b| - 1]);
    }
  }

  // ---- counters and steps ----

  /** No step lowers a failure counter, adds a script, or touches a script that is disabled or stuck. */
  lemma StepKeepsCounters(s: State, e: Step)
    requires Enabled(s, e)
    ensures |Apply(s, e).scripts| == |s.scripts| && Below(FailsOf(s.scripts), FailsOf(Apply(s, e).scripts))
    ensures forall i :: 0 <= i < |s.scripts| && s.scripts[i].IsParked() ==> Apply(s, e).scripts[i] == s.scripts[i]
  {
  }

  lemma StepTotal(s: State, e: Step)
    requires Enabled(s, e)
    ensures TrueTotal(s) <= TrueTotal(Apply(s, e))
  {
    hide Enabled, Apply;
    StepKeepsCounters(s, e);
    SumBelow(FailsOf(s.scripts), FailsOf(Apply(s, e).scripts));
  }

  lemma LaunchConserves(c: Script, t: Tally, f: Fork)
    requires Conserved(c, t) && c.running == 0
    ensures Conserved(Launched(c, f), CountedLaunch(t, f))
  {
  }

  lemma PollConserves(c: Script, t: Tally, raws: seq<seq<u8>>, w: Wait)
    requires Conserved(c, t) && c.Awaited()
    ensures Conserved(Polled(c, raws, w), Reckoned(t, w))
  {
    hide MessageOf, LineOf;
    if w.Exited? {
      assert (t.codes + [w.code])[..|t.codes|] == t.codes;
    }
  }

  lemma StepConserves(s: State, e: Step)
    requires Enabled(s, e) && AllConserved(s)
    ensures AllConserved(Apply(s, e))
  {
    hide Conserved, Launched, Polled, Reckoned, CountedLaunch, WaitFor;
    match e
    case Launch(i, f) => LaunchConserves(s.scripts[i], s.tallies[i], f);
    case Poll(i, raws) => PollConserves(s.scripts[i], s.tallies[i], raws, WaitFor(s, s.scripts[i].pid));
    case _ =>
  }

  /** A child of the next state is either the one just forked, or was there before with the same script. */
  lemma ChildrenOfNext(s: State, e: Step, p: nat)
    requires Enabled(s, e) && p in Apply(s, e).children
    ensures (e.Launch? && p == e.fork.pid && Apply(s, e).children[p].script == e.script) ||
            HasChild(s, p, Apply(s, e).children[p].script)
  {
  }

  lemma StepKeepsChildren(s: State, e: Step)
    requires Enabled(s, e) && AllConserved(s) && ChildrenAreOnly(s) && PidsDiffer(s)
    ensures ChildrenAreOnly(Apply(s, e))
  {
    var s' := Apply(s, e);
    forall p | p in s'.children
      ensures IsOnlyChild(s', p)
    {
      ChildrenOfNext(s, e, p);
      var i := s'.children[p].script;
      forall q | HasChild(s', q, i)
        ensures q == p
      {
        ChildrenOfNext(s, e, q);
      }
    }
  }

  lemma LaunchKeepsPids(s: State, i: nat, f: Fork)
    requires Enabled(s, Launch(i, f)) && ChildrenAreOnly(s) && PidsDiffer(s)
    ensures PidsDiffer(ApplyLaunch(s, i, f))
  {
  }

  lemma PollKeepsPids(s: State, i: nat, raws: seq<seq<u8>>)
    requires Enabled(s, Poll(i, raws)) && ChildrenAreOnly(s) && PidsDiffer(s)
    ensures PidsDiffer(ApplyPoll(s, i, raws))
  {
    hide Polled, ChildrenAreOnly, WaitFor;
    var s' := ApplyPoll(s, i, raws);
    PollKeepsPid(s.scripts[i], raws, WaitFor(s, s.scripts[i].pid));
    assert forall j :: 0 <= j < |s.scripts| && s'.scripts[j].Awaited() ==>
      s.scripts[j].Awaited() && s'.scripts[j].pid == s.scripts[j].pid;
  }

  /** A script that is still awaited after its turn has the pid it had. */
  lemma PollKeepsPid(c: Script, raws: seq<seq<u8>>, w: Wait)
    ensures Polled(c, raws, w).Awaited() ==> c.Awaited() && Polled(c, raws, w).pid == c.pid
  {
  }

  lemma StepKeepsPids(s: State, e: Step)
    requires Enabled(s, e) && AllConserved(s) && ChildrenAreOnly(s) && PidsDiffer(s)
    ensures PidsDiffer(Apply(s, e))
  {
    hide PidsDiffer, AllConserved, ChildrenAreOnly;
    match e
    case Launch(i, f) => LaunchKeepsPids(s, i, f);
    case Poll(i, raws) => PollKeepsPids(s, i, raws);
    case _ => OthersKeepPids(s, e);
  }

  lemma OthersKeepPids(s: State, e: Step)
    requires Enabled(s, e) && !e.Launch? && !e.Poll? && PidsDiffer(s)
    ensures PidsDiffer(Apply(s, e))
  {
    hide IsHeader, MayLoad;
    var s' := Apply(s, e);
    assert s'.scripts == s.scripts;
    forall p | p in s'.children
      ensures HasChild(s, p, s'.children[p].script)
    {
      ChildrenOfNext(s, e, p);
    }
    hide Enabled, Apply;
  }

  lemma StepLosesNone(s: State, e: Step)
    requires Enabled(s, e) && AllConserved(s) && ChildrenAreOnly(s) && PidsDiffer(s) && NoneLost(s)
    ensures NoneLost(Apply(s, e))
  {
    hide Conserved, MessageOf, LineOf;
  }

  /** What a collection that is complete publishes. */
  lemma CollectionIsFair(s: State)
    requires Enabled(s, Publish) && CollectingFair(s)
    ensures var c := s.collector;
      IsFair(Snapshot(c.header, c.scripts, c.total, Sum(c.start), TrueTotal(s)))
    ensures s.published != [] ==> s.published[|s.published| - 1].total <= s.collector.total
  {
    var c := s.collector;
    assert c.start[..c.added] == c.start && FailsOf(c.scripts)[..c.added] == FailsOf(c.scripts);
    assert FailsOf(s.scripts)[..c.added] == FailsOf(s.scripts);
  }

  /** A published total stays positive. */
  lemma StaysPositive(s: State, e: Step)
    requires Enabled(s, e) && CollectingFair(s) && PublishedPositive(s)
    ensures PublishedPositive(Apply(s, e))
  {
    if e.Publish? {
      CollectionIsFair(s);
    }
  }

  // ---- the LED and steps ----

  lemma LaunchForcesOnce(s: State, i: nat, f: Fork)
    requires Enabled(s, Launch(i, f)) && AllConserved(s) && ChildrenAreOnly(s) && LedOnce(s)
    ensures LedOnce(ApplyLaunch(s, i, f))
  {
    var s' := ApplyLaunch(s, i, f);
    assert s'.tallies[i].lost == s.tallies[i].lost;
    forall p | HasChild(s', p, s.led)
      ensures ForcesOnce(s', s'.children[p].phase)
    {
      assert p != f.pid ==> HasChild(s, p, s.led);
    }
  }

  lemma PollForcesOnce(s: State, i: nat, raws: seq<seq<u8>>)
    requires Enabled(s, Poll(i, raws)) && AllConserved(s) && ChildrenAreOnly(s) && PidsDiffer(s) && LedOnce(s)
    ensures LedOnce(ApplyPoll(s, i, raws))
  {
    hide MessageOf, LineOf;
    var s', pid := ApplyPoll(s, i, raws), s.scripts[i].pid;
    if i == s.led && pid in s.children {
      assert HasChild(s, pid, s.led);
    }
    forall p | HasChild(s', p, s.led)
      ensures ForcesOnce(s', s'.children[p].phase)
    {
      assert HasChild(s, p, s.led);
    }
  }

  /** Steps that neither launch nor reap. */
  lemma OthersForceOnce(s: State, e: Step)
    requires Enabled(s, e) && !e.Launch? && !e.Poll? && ChildrenAreOnly(s) && LedOnce(s)
    ensures LedOnce(Apply(s, e))
  {
    hide Source, TotalIn, File, IsHeader;
    var s' := Apply(s, e);
    assert s'.scripts == s.scripts && s'.tallies == s.tallies && s'.led == s.led;
    forall p | HasChild(s', p, s.led)
      ensures ForcesOnce(s', s'.children[p].phase)
    {
      assert HasChild(s, p, s.led) && ForcesOnce(s, s.children[p].phase);
    }
  }

  lemma StepForcesOnce(s: State, e: Step)
    requires Enabled(s, e) && AllConserved(s) && ChildrenAreOnly(s) && PidsDiffer(s) && LedOnce(s)
    ensures LedOnce(Apply(s, e))
  {
    hide LedOnce, AllConserved, ChildrenAreOnly, PidsDiffer;
    match e
    case Launch(i, f) => LaunchForcesOnce(s, i, f);
    case Poll(i, raws) => PollForcesOnce(s, i, raws);
    case _ => OthersForceOnce(s, e);
  }

  lemma LoadsBefore(s: State, e: Step)
    requires Enabled(s, e) && PublishedLoads(Apply(s, e))
    ensures PublishedLoads(s)
  {
    hide Source, FileOf, EntriesOf;
    assert forall k :: 0 <= k < |s.published| ==> s.published[k] == Apply(s, e).published[k];
  }

  /** A published file that can be read to its end can be read in one way only, and gives the total that was
      published, whatever else is in it. */
  lemma SureToLoad(n: Snapshot, r: Phase)
    requires n.Loads()
    ensures MayLoad(Some(FileOf(n.Entries())), r) <==> r == Loaded(Some(n.total))
  {
    hide Source, FileOf, TotalIn, EntriesOf;
    CompleteGivesTotal(n.header, n.scripts, n.total);
  }

  /** If any test has failed and failid has not, another one has. */
  lemma SomeoneFailed(s: State)
    requires TrueTotal(s) > 0
    ensures (s.led < |s.scripts| && s.scripts[s.led].failCount > 0) || OthersFailed(s)
  {
    if forall i :: 0 <= i < |s.scripts| ==> s.scripts[i].failCount == 0 {
      SumOfZeros(FailsOf(s.scripts));
    }
  }

  /** Counters never fall, so a warrant stays one. */
  lemma WarrantStays(s: State, e: Step)
    requires Enabled(s, e) && IsWarranted(s)
    ensures IsWarranted(Apply(s, e))
  {
    var s' := Apply(s, e);
    StepTotal(s, e);
    StepKeepsCounters(s, e);
    assert s'.led == s.led && s'.leftover == s.leftover;
    hide Enabled, Apply, TrueTotal, MayForce, LeftoverLoads;
    if LeftoverLoads(s) && OthersFailed(s) {
      var i :| 0 <= i < |s.scripts| && i != s.led && s.scripts[i].failCount > 0;
      assert FailsOf(s.scripts)[i] <= FailsOf(s'.scripts)[i];
    }
  }

  /** A positive total that failid finds is a warrant. */
  lemma LoadIsWarranted(s: State, r: Phase)
    requires MayLoad(File(s), r) && PublishedFair(s) && PublishedLoads(s) && LedTrue(s) && s.led < |s.scripts|
    ensures r.Loaded? && IsPositive(r.total) ==> IsWarranted(s)
    ensures r.Loaded? || (r.Done? && s.published == [] && !LeftoverLoads(s))
    ensures PublishedPositive(s) ==> r.Loaded? && IsPositive(r.total)
  {
    if s.published != [] {
      var n := s.published[|s.published| - 1];
      assert n.Loads();
      SureToLoad(n, r);
      hide Source, MayLoad, TrueTotal;
      if n.total > 0 {
        SomeoneFailed(s);
      }
    } else {
      hide TotalIn;
    }
  }

  lemma LoadTellsTruth(s: State, p: nat, r: Phase)
    requires Enabled(s, LedLoad(p, r)) && ChildrenAreOnly(s) && PublishedFair(s) && LedSafe(s) && PublishedLoads(s)
    ensures LedTrue(Apply(s, LedLoad(p, r)))
  {
    var e := LedLoad(p, r);
    var s' := Apply(s, e);
    assert IsOnlyChild(s, p);
    LoadIsWarranted(s, r);
    hide Source, TotalIn, File, MayLoad, PublishedFair, PublishedLoads, IsWarranted, PublishedPositive;
    if IsWarranted(s) {
      WarrantStays(s, e);
    }
    assert TellsTruth(s', r);
    forall q | HasChild(s', q, s.led)
      ensures TellsTruth(s', s'.children[q].phase)
    {
      assert HasChild(s, q, s.led) && q == p;
    }
  }

  lemma LaunchTellsTruth(s: State, i: nat, f: Fork)
    requires Enabled(s, Launch(i, f)) && AllConserved(s) && ChildrenAreOnly(s) && LedTrue(s)
    ensures LedTrue(ApplyLaunch(s, i, f))
  {
    hide Source, TotalIn, Conserved, IsWarranted;
    var s' := ApplyLaunch(s, i, f);
    if IsWarranted(s) {
      WarrantStays(s, Launch(i, f));
    }
    forall p | HasChild(s', p, s.led)
      ensures TellsTruth(s', s'.children[p].phase)
    {
      assert p != f.pid ==> HasChild(s, p, s.led);
    }
  }

  lemma PollTellsTruth(s: State, i: nat, raws: seq<seq<u8>>)
    requires Enabled(s, Poll(i, raws)) && ChildrenAreOnly(s) && PidsDiffer(s) && LedTrue(s)
    ensures LedTrue(ApplyPoll(s, i, raws))
  {
    hide Source, TotalIn, MessageOf, LineOf, IsWarranted;
    var s', pid := ApplyPoll(s, i, raws), s.scripts[i].pid;
    if IsWarranted(s) {
      WarrantStays(s, Poll(i, raws));
    }
    if i == s.led && pid in s.children {
      assert HasChild(s, pid, s.led);
    }
    forall p | HasChild(s', p, s.led)
      ensures TellsTruth(s', s'.children[p].phase)
    {
      assert HasChild(s, p, s.led) && TellsTruth(s, s.children[p].phase);
    }
  }

  /** Steps that neither launch, reap nor load. */
  lemma OthersTellTruth(s: State, e: Step)
    requires Enabled(s, e) && !e.Launch? && !e.Poll? && !e.LedLoad?
    requires ChildrenAreOnly(s) && LedOnce(s) && LedTrue(s)
    ensures LedTrue(Apply(s, e))
  {
    hide Source, TotalIn, IsHeader, IsWarranted, LeftoverLoads;
    var s' := Apply(s, e);
    assert s'.scripts == s.scripts && s'.leftover == s.leftover && s'.led == s.led;
    if IsWarranted(s) {
      WarrantStays(s, e);
    }
    LeftoverSame(s, s');
    forall p | HasChild(s', p, s.led)
      ensures TellsTruth(s', s'.children[p].phase)
    {
      assert HasChild(s, p, s.led) && TellsTruth(s, s.children[p].phase) && ForcesOnce(s, s.children[p].phase);
    }
  }

  lemma LeftoverSame(s: State, s': State)
    requires s'.leftover == s.leftover
    ensures LeftoverLoads(s') == LeftoverLoads(s)
  {
  }

  lemma StepTellsTruth(s: State, e: Step)
    requires Enabled(s, e) && AllConserved(s) && ChildrenAreOnly(s) && PidsDiffer(s) && PublishedFair(s)
    requires LedSafe(s) && PublishedLoads(s)
    ensures LedTrue(Apply(s, e))
  {
    hide AllConserved, ChildrenAreOnly, PidsDiffer, PublishedFair, PublishedLoads, LedOnce, LedTrue;
    match e
    case Launch(i, f) => LaunchTellsTruth(s, i, f);
    case Poll(i, raws) => PollTellsTruth(s, i, raws);
    case LedLoad(p, r) => LoadTellsTruth(s, p, r);
    case _ => OthersTellTruth(s, e);
  }

  lemma StepKeepsLed(s: State, e: Step)
    requires Enabled(s, e) && AllConserved(s) && ChildrenAreOnly(s) && PidsDiffer(s) && LedSafe(s)
    requires PublishedFair(s) && CollectingFair(s)
    ensures LedSafe(Apply(s, e))
  {
    hide AllConserved, ChildrenAreOnly, PidsDiffer, PublishedFair, CollectingFair, PublishedLoads, LedOnce, LedTrue,
      PublishedPositive;
    StepForcesOnce(s, e);
    if PublishedLoads(Apply(s, e)) {
      LoadsBefore(s, e);
      StepTellsTruth(s, e);
    }
    if Apply(s, e).ledRun.armed && PublishedPositive(s) {
      StaysPositive(s, e);
    }
  }

  lemma StepKeepsPublished(s: State, e: Step)
    requires Enabled(s, e) && PublishedFair(s) && CollectingFair(s)
    ensures PublishedFair(Apply(s, e))
  {
    hide TrueTotal, IsFair, CollectingFair;
    StepTotal(s, e);
    if e.Publish? {
      CollectionIsFair(s);
    } else {
      PublishedStays(s, e);
    }
  }

  lemma PublishedStays(s: State, e: Step)
    requires Enabled(s, e) && !e.Publish?
    ensures Apply(s, e).published == s.published
  {
  }

  lemma ReadKeepsCollection(s: State)
    requires Enabled(s, ReadScript) && CollectingFair(s)
    ensures CollectingFair(Apply(s, ReadScript))
  {
    hide Sum, IsHeader;
    var c, c' := s.collector, Apply(s, ReadScript).collector;
    assert FailsOf(c'.scripts)[..c.added] == FailsOf(c.scripts)[..c.added];
  }

  lemma AddKeepsCollection(s: State)
    requires Enabled(s, AddFail) && CollectingFair(s)
    ensures CollectingFair(Apply(s, AddFail))
  {
    hide Sum, IsHeader;
    var c := s.collector;
    SumAdd(c.start, c.added);
    SumAdd(FailsOf(c.scripts), c.added);
    SumAdd(FailsOf(s.scripts), c.added);
  }

  /** Steps of the other threads can only raise the counters. */
  lemma OthersKeepCollection(s: State, e: Step)
    requires Enabled(s, e) && PublishedFair(s) && CollectingFair(s)
    requires !e.Begin? && !e.ReadScript? && !e.AddFail? && !e.Publish?
    ensures CollectingFair(Apply(s, e))
  {
    hide Sum, IsHeader, PublishedFair, Launched, Polled;
    var s' := Apply(s, e);
    StepKeepsCounters(s, e);
    assert s'.collector == s.collector && s'.published == s.published;
    hide Enabled, Apply;
    if s.collector.Collecting? {
      SumBelow(FailsOf(s.scripts)[..s.collector.added], FailsOf(s'.scripts)[..s.collector.added]);
    }
  }

  lemma BeginKeepsCollection(s: State, header: seq<Entry>)
    requires Enabled(s, Begin(header)) && PublishedFair(s)
    ensures CollectingFair(Apply(s, Begin(header)))
  {
    var c := Apply(s, Begin(header)).collector;
    assert c.start[..0] == FailsOf(c.scripts) == FailsOf(c.scripts)[..0] == FailsOf(s.scripts)[..0] == [];
  }

  lemma StepKeepsCollection(s: State, e: Step)
    requires Enabled(s, e) && PublishedFair(s) && CollectingFair(s)
    ensures CollectingFair(Apply(s, e))
  {
    match e
    case ReadScript => ReadKeepsCollection(s);
    case AddFail => AddKeepsCollection(s);
    case Publish =>
    case Begin(header) => BeginKeepsCollection(s, header);
    case _ => OthersKeepCollection(s, e);
  }
}
