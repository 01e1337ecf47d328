/** The loops of breakin.c and the failid script, related to the steps of the protocol. */
module BurninLoops {
  import opened Bytes
  import opened Arithmetic
  import opened Scheduler
  import opened StatFile
  import opened Statistics
  import opened Burnin
  import opened BurninInvariant

  // ---- the scheduler's loops as runs ----

  /** The launches run_burnin_tests makes from script i on. */
  function LaunchSteps(scripts: seq<Script>, forks: seq<Fork>, i: nat): seq<Step>
    requires |forks| == |scripts|
    decreases |scripts| - i
  {
    if i >= |scripts| then []
    else (if scripts[i].running == 0 then [Launch(i, forks[i])] else []) + LaunchSteps(scripts, forks, i + 1)
  }

  /** The turns of the main loop from script i on. */
  function PollSteps(scripts: seq<Script>, outputs: seq<seq<seq<u8>>>, i: nat): seq<Step>
    requires |outputs| == |scripts|
    decreases |scripts| - i
  {
    if i >= |scripts| then []
    else (if scripts[i].Awaited() then [Poll(i, outputs[i])] else []) + PollSteps(scripts, outputs, i + 1)
  }

  lemma {:induction false} LaunchesFrom(s: State, scripts: seq<Script>, forks: seq<Fork>, i: nat)
    requires |scripts| == |s.scripts| == |forks| && i <= |scripts| && s.scripts[i..] == scripts[i..]
    requires IsRun(s, LaunchSteps(scripts, forks, i))
    ensures var s' := After(s, LaunchSteps(scripts, forks, i));
      |s'.scripts| == |scripts| && forall j :: 0 <= j < |scripts| ==>
        s'.scripts[j] == if j >= i && scripts[j].running == 0 then Launched(scripts[j], forks[j]) else s.scripts[j]
    decreases |scripts| - i
  {
    if i < |scripts| {
      assert s.scripts[i] == s.scripts[i..][0] == scripts[i..][0];
      var rest := LaunchSteps(scripts, forks, i + 1);
      if scripts[i].running == 0 {
        assert LaunchSteps(scripts, forks, i)[1..] == rest;
        var s1 := Apply(s, Launch(i, forks[i]));
        assert s1.scripts[i + 1..] == s.scripts[i..][1..] == scripts[i..][1..];
        LaunchesFrom(s1, scripts, forks, i + 1);
      } else {
        assert s.scripts[i + 1..] == s.scripts[i..][1..] == scripts[i..][1..];
        assert LaunchSteps(scripts, forks, i) == rest;
        LaunchesFrom(s, scripts, forks, i + 1);
      }
    }
  }

  /** The launches of run_burnin_tests, taken as steps of the protocol, have the effect proved of the method
      RunBurninTests. */
  lemma LaunchRound(s: State, forks: seq<Fork>)
    requires |forks| == |s.scripts| && IsRun(s, LaunchSteps(s.scripts, forks, 0))
    ensures var s' := After(s, LaunchSteps(s.scripts, forks, 0));
      |s'.scripts| == |s.scripts| && forall i :: 0 <= i < |s.scripts| ==>
        s'.scripts[i] == if s.scripts[i].running == 0 then Launched(s.scripts[i], forks[i]) else s.scripts[i]
  {
    LaunchesFrom(s, s.scripts, forks, 0);
  }

  /** The scripts from i on are those of the list, await different pids, and waitpid would say waits of them. */
  ghost predicate Waiting(s: State, scripts: seq<Script>, waits: seq<Wait>, i: nat)
    requires |scripts| == |waits|
  {
    && |s.scripts| == |s.tallies| == |scripts|
    && (forall j :: i <= j < |scripts| ==> s.scripts[j] == scripts[j])
    && (forall j :: i <= j < |scripts| && scripts[j].Awaited() ==> WaitFor(s, scripts[j].pid) == waits[j])
    && (forall j, k :: i <= j < k < |scripts| && scripts[j].Awaited() && scripts[k].Awaited() ==>
      scripts[j].pid != scripts[k].pid)
  }

  lemma WaitingStep(s: State, scripts: seq<Script>, waits: seq<Wait>, i: nat, raws: seq<seq<u8>>)
    requires forall k :: 0 <= k < |raws| ==> |raws[k]| < BUFSIZ
    requires |scripts| == |waits| && i < |scripts| && Waiting(s, scripts, waits, i) && scripts[i].Awaited()
    ensures Enabled(s, Poll(i, raws)) && Waiting(Apply(s, Poll(i, raws)), scripts, waits, i + 1)
    ensures Apply(s, Poll(i, raws)).scripts == s.scripts[i := Polled(scripts[i], raws, waits[i])]
  {
    hide Polled, Reckoned;
  }

  lemma WaitingSame(s: State, scripts: seq<Script>, waits: seq<Wait>, i: nat)
    requires |scripts| == |waits| && Waiting(s, scripts, waits, i)
    ensures |s.scripts| == |scripts| && forall j :: i <= j < |scripts| ==> s.scripts[j] == scripts[j]
  {
  }

  lemma WaitingOn(s: State, scripts: seq<Script>, waits: seq<Wait>, i: nat)
    requires |scripts| == |waits| && i < |scripts| && Waiting(s, scripts, waits, i) && !scripts[i].Awaited()
    ensures Waiting(s, scripts, waits, i + 1)
  {
  }

  lemma {:induction false} PollsFrom(s: State, scripts: seq<Script>, outputs: seq<seq<seq<u8>>>, waits: seq<Wait>,
      i: nat)
    requires |outputs| == |scripts| == |waits| && i <= |scripts| && Waiting(s, scripts, waits, i)
    requires forall j, k :: 0 <= j < |outputs| && 0 <= k < |outputs[j]| ==> |outputs[j][k]| < BUFSIZ
    ensures IsRun(s, PollSteps(scripts, outputs, i))
    ensures var s' := After(s, PollSteps(scripts, outputs, i));
      |s'.scripts| == |scripts| && forall j :: 0 <= j < |scripts| ==>
        s'.scripts[j] == if j >= i then Polled(scripts[j], outputs[j], waits[j]) else s.scripts[j]
    decreases |scripts| - i
  {
    hide Apply, Enabled, Reaped, Drained, WaitFor, Waiting, IsRun, After;
    WaitingSame(s, scripts, waits, i);
    var es := PollSteps(scripts, outputs, i);
    if i == |scripts| {
      NoSteps(s);
    } else {
      var rest := PollSteps(scripts, outputs, i + 1);
      if scripts[i].Awaited() {
        var e := Poll(i, outputs[i]);
        assert es == [e] + rest;
        hide PollSteps, Polled;
        WaitingStep(s, scripts, waits, i, outputs[i]);
        PollsFrom(Apply(s, e), scripts, outputs, waits, i + 1);
        StepFirst(s, e, rest);
      } else {
        assert es == rest && Polled(scripts[i], outputs[i], waits[i]) == s.scripts[i];
        hide PollSteps, Polled;
        WaitingOn(s, scripts, waits, i);
        PollsFrom(s, scripts, outputs, waits, i + 1);
      }
    }
  }

  /** One round of the main loop, taken as steps of the protocol, is always possible in a reachable state and
      has the effect proved of the method DrainAndReap, waitpid answering as it would at the start of the round. */
  lemma PollRound(s: State, outputs: seq<seq<seq<u8>>>)
    requires Inv(s) && |outputs| == |s.scripts|
    requires forall j, k :: 0 <= j < |outputs| && 0 <= k < |outputs[j]| ==> |outputs[j][k]| < BUFSIZ
    ensures IsRun(s, PollSteps(s.scripts, outputs, 0))
    ensures var s' := After(s, PollSteps(s.scripts, outputs, 0));
      |s'.scripts| == |s.scripts| && forall i :: 0 <= i < |s.scripts| ==>
        s'.scripts[i] == Polled(s.scripts[i], outputs[i], WaitFor(s, s.scripts[i].pid))
  {
    var waits := seq(|s.scripts|, i requires 0 <= i < |s.scripts| => WaitFor(s, s.scripts[i].pid));
    PollsFrom(s, s.scripts, outputs, waits, 0);
  }

  /** What becomes of a script in its turn, by what its child has come to. While it is at work nothing is counted. A
      child that has ended is taken off the process table: code 0 is a pass, code 255 a pass after which the script is
      disabled, any other code a failure; and death by a signal disables the script without counting. */
  lemma ChildIsReaped(s: State, i: nat, raws: seq<seq<u8>>)
    requires Inv(s) && Enabled(s, Poll(i, raws)) && s.scripts[i].pid in s.children
    ensures var s', p := Apply(s, Poll(i, raws)), s.scripts[i].pid;
      var c, c', phase := s.scripts[i], s'.scripts[i], s.children[p].phase;
      && (forall j :: 0 <= j < |s.scripts| && j != i ==> s'.scripts[j] == s.scripts[j])
      && s'.children == (if phase.Done? || phase == Dead then s.children - {p} else s.children)
      && match phase
         case Done(code) =>
           && c'.running == (if code == 255 then -1 else 0)
           && c'.passCount == c.passCount + (if code == 0 || code == 255 then 1 else 0)
           && c'.failCount == c.failCount + (if code == 0 || code == 255 then 0 else 1)
         case Dead => c'.running == -1 && c'.passCount == c.passCount && c'.failCount == c.failCount
         case _ => c'.running == c.running && c'.passCount == c.passCount && c'.failCount == c.failCount
  {
    hide MessageOf, LineOf, Inv;
  }

  // ---- dump_stats ----

  /** dump_stats while the other threads take the steps es: it writes the file line by line, reading the scripts where
      the run lets it, and keeps a total of its own. What it has written in the end is the file the protocol
      publishes. */
  method DumpStats(s: State, header: seq<Entry>, es: seq<Step>) returns (file: seq<u8>)
    requires Enabled(s, Begin(header)) && IsRun(Apply(s, Begin(header)), es) && Publish !in es
    requires Enabled(After(Apply(s, Begin(header)), es), Publish)
    ensures Some(file) == File(Apply(After(Apply(s, Begin(header)), es), Publish))
  {
    hide FileOf, ScriptEntries, LineText;
    var now := Apply(s, Begin(header));
    ghost var end := After(now, es);
    var i, total := 0, 0;
    file := FileOf(Opening(header, |now.scripts|));
    assert Opening(header, |now.scripts|) + AllScripts([]) == Opening(header, |now.scripts|);
    for k := 0 to |es|
      invariant IsRun(now, es[k..]) && After(now, es[k..]) == end
      invariant now.collector.Collecting? && now.collector.header == header
      invariant i == now.collector.added && total == now.collector.total
      invariant |now.scripts| == |s.scripts|
      invariant file == FileOf(Opening(header, |now.scripts|) + AllScripts(now.collector.scripts))
    {
      var e := es[k];
      assert es[k..][0] == e && es[k..][1..] == es[k + 1..];
      match e {
        case ReadScript =>
          file := file + FileOf(ScriptEntries(i, now.scripts[i]));
          WritesScript(header, |now.scripts|, now.collector.scripts, now.scripts[i]);
        case AddFail =>
          total := total + now.scripts[i].failCount;
          i := i + 1;
        case _ =>
          OthersDoNotCollect(now, e);
      }
      now := Apply(now, e);
    }
    file := file + FileOf(Closing(total));
    FileConcat(Opening(header, |now.scripts|) + AllScripts(now.collector.scripts), Closing(total));
    assert es[|es|..] == [];
  }

  lemma WritesScript(header: seq<Entry>, count: nat, scripts: seq<Script>, c: Script)
    ensures var front := Opening(header, count);
      FileOf(front + AllScripts(scripts)) + FileOf(ScriptEntries(|scripts|, c)) ==
      FileOf(front + AllScripts(scripts + [c]))
  {
    hide FileOf, ScriptEntries, Opening;
    var front, es := Opening(header, count), ScriptEntries(|scripts|, c);
    FileConcat(front + AllScripts(scripts), es);
    assert (scripts + [c])[..|scripts|] == scripts;
    assert front + AllScripts(scripts) + es == front + AllScripts(scripts + [c]);
  }

  lemma OthersDoNotCollect(s: State, e: Step)
    requires Enabled(s, e) && s.collector.Collecting? && !e.ReadScript? && !e.AddFail? && !e.Publish?
    ensures Apply(s, e).collector == s.collector && |Apply(s, e).scripts| == |s.scripts|
  {
  }

  /** What a step reads for dump_stats: a script for its own lines, or a counter for the total. */
  function Found(s: State, e: Step): (seq<Script>, seq<nat>)
    requires Enabled(s, e)
  {
    match e
    case ReadScript => ([s.scripts[s.collector.added]], [])
    case AddFail => ([], [s.scripts[s.collector.added].failCount])
    case _ => ([], [])
  }

  /** What the first and the second reads of the scripts find along a run. */
  ghost function Reads(s: State, es: seq<Step>): (seq<Script>, seq<nat>)
    requires IsRun(s, es)
    decreases |es|
  {
    if es == [] then ([], [])
    else
      var (first, second) := Found(s, es[0]);
      var (firsts, seconds) := Reads(Apply(s, es[0]), es[1..]);
      (first + firsts, second + seconds)
  }

  lemma StepCollects(s: State, e: Step)
    requires Enabled(s, e) && s.collector.Collecting? && !e.Publish?
    ensures var c, c' := s.collector, Apply(s, e).collector;
      && c'.Collecting? && c'.scripts == c.scripts + Found(s, e).0 && c'.total == c.total + Sum(Found(s, e).1)
      && c'.added == c.added + |Found(s, e).1|
  {
    if !e.ReadScript? && !e.AddFail? {
      OthersDoNotCollect(s, e);
    } else if e.AddFail? {
      assert Found(s, e).1[..0] == [];
    }
  }

  lemma {:induction false} CollectedIsRead(s: State, es: seq<Step>)
    requires IsRun(s, es) && s.collector.Collecting? && Publish !in es
    ensures var c := After(s, es).collector;
      && c.Collecting? && c.scripts == s.collector.scripts + Reads(s, es).0
      && c.total == s.collector.total + Sum(Reads(s, es).1)
      && c.added == s.collector.added + |Reads(s, es).1|
    decreases |es|
  {
    if es != [] {
      hide Enabled, Apply, Found, Sum;
      assert es[0] != Publish;
      StepCollects(s, es[0]);
      CollectedIsRead(Apply(s, es[0]), es[1..]);
      SumConcat(Found(s, es[0]).1, Reads(Apply(s, es[0]), es[1..]).1);
    }
  }

  /** What a collection publishes is what its reads found on the way: the scripts of the first reads, and the sum of
      the counters of the second ones. */
  lemma PublishesWhatWasRead(s: State, header: seq<Entry>, es: seq<Step>)
    requires Enabled(s, Begin(header)) && IsRun(Apply(s, Begin(header)), es) && Publish !in es
    requires Enabled(After(Apply(s, Begin(header)), es), Publish)
    ensures var begun := Apply(s, Begin(header));
      var file := Apply(After(begun, es), Publish).published;
      && file != []
      && file[|file| - 1].scripts == Reads(begun, es).0 && |file[|file| - 1].scripts| == |Reads(begun, es).1|
      && file[|file| - 1].total == Sum(Reads(begun, es).1)
  {
    hide Reads, Sum;
    CollectedIsRead(Apply(s, Begin(header)), es);
  }

  // ---- failid ----

  /** failid: read the statistics file in, if there is one; r is how that turns out. A positive total forces the LED on
      and disables the script, otherwise the LED blinks, if there is one. */
  method FailId(file: Option<seq<u8>>, r: Phase, ipmi: bool) returns (forced: bool, code: u8)
    requires MayLoad(file, r)
    ensures forced <==> r.Loaded? && IsPositive(r.total)
    ensures FileLoads(file) ==> (forced <==> file.Some? && IsPositive(TotalIn(Source(file.value).made)))
    ensures forced ==> code == 255
    ensures r.Loaded? && !forced ==> code == if ipmi then 0 else 255
    ensures r.Done? ==> code == r.code && !FileLoads(file)
  {
    hide Source, TotalIn;
    var total: Option<nat> := None;
    if file.Some? {
      match r {
        case Done(status) => return false, status;
        case Loaded(found) => total := found;
      }
    }
    if total.Some? && total.value > 0 {
      return true, 255;
    }
    if !ipmi {
      return false, 255;
    }
    return false, 0;
  }

  /** A failid child that is left alone and then waited for. Once the file is read in, as r says: a positive total
      forces the LED on and disables the script; no positive total has it launched again, unless there is no LED; and
      where the shell gave up, the script has failed. */
  lemma FailIdSteps(s: State, p: nat, r: Phase, ipmi: bool) returns (es: seq<Step>)
    requires Inv(s) && HasChild(s, p, s.led) && s.children[p].phase == Working && s.scripts[s.led].hasStream
    requires MayLoad(File(s), r)
    ensures IsRun(s, es) && |After(s, es).scripts| == |s.scripts| && p !in After(s, es).children
    ensures var c, c', positive := s.scripts[s.led], After(s, es).scripts[s.led], r.Loaded? && IsPositive(r.total);
      && After(s, es).forces == s.forces + (if positive then 1 else 0)
      && (positive ==> c'.running == -1 && c'.passCount == c.passCount + 1 && c'.failCount == c.failCount)
      && (r.Loaded? && !positive ==>
        c'.running == (if ipmi then 0 else -1) && c'.passCount == c.passCount + 1 && c'.failCount == c.failCount)
      && (r == Done(2) ==> c'.running == 0 && c'.passCount == c.passCount && c'.failCount == c.failCount + 1)
  {
    assert IsOnlyChild(s, p) && s.scripts[s.led].Awaited();
    hide Inv, MayLoad, IsRun, After, Enabled, Apply;
    var before := LedEnds(s, p, r, ipmi);
    es := WaitsForLed(s, before, p);
  }

  /** The script by itself, up to its exit code. */
  lemma LedEnds(s: State, p: nat, r: Phase, ipmi: bool) returns (es: seq<Step>)
    requires HasChild(s, p, s.led) && s.children[p].phase == Working && MayLoad(File(s), r)
    ensures r.Loaded? || r.Done?
    ensures IsRun(s, es)
    ensures var t, positive := After(s, es), r.Loaded? && IsPositive(r.total);
      && t.scripts == s.scripts && t.tallies == s.tallies && t.led == s.led && p in t.children
      && t.forces == s.forces + (if positive then 1 else 0)
      && t.children[p].phase == if r.Done? then r else Done(if positive || !ipmi then 255 else 0)
  {
    LoadsOrEnds(s, r);
    hide MayLoad, File, IsHeader, IsRun, After;
    var e := LedLoad(p, r);
    OneStep(s, e);
    es := [e];
    if r.Loaded? && IsPositive(r.total) {
      RunPlus(s, es, LedForce(p));
      es := es + [LedForce(p)];
      RunPlus(s, es, LedExit(p));
      es := es + [LedExit(p)];
    } else if r.Loaded? {
      RunPlus(s, es, LedBlink(p, ipmi));
      es := es + [LedBlink(p, ipmi)];
    }
  }

  /** The turn of the main loop in which failid has ended. */
  lemma WaitsForLed(s: State, before: seq<Step>, p: nat) returns (es: seq<Step>)
    requires IsRun(s, before)
    requires var t := After(s, before);
      && t.led < |t.scripts| && t.led < |t.tallies| && t.scripts[t.led].Awaited() && t.scripts[t.led].pid == p
      && p in t.children && t.children[p].phase.Done?
    ensures IsRun(s, es)
    ensures var t, s' := After(s, before), After(s, es);
      && s'.scripts == t.scripts[t.led := Polled(t.scripts[t.led], [], Exited(t.children[p].phase.code))]
      && s'.forces == t.forces && p !in s'.children
  {
    hide IsRun, After, Polled;
    RunPlus(s, before, Poll(After(s, before).led, []));
    es := before + [Poll(After(s, before).led, [])];
  }

  lemma LoadsOrEnds(s: State, r: Phase)
    requires MayLoad(File(s), r)
    ensures r.Loaded? || r.Done?
  {
    hide Source, File, TotalIn;
  }
}
