/** The burn-in protocol: the scheduler thread, the thread that publishes statistics, the children and the
    fault-LED test, as one state machine over interleaved atomic steps. */
module Burnin {
  import opened Bytes
  import opened Arithmetic
  import opened Scheduler
  import opened StatFile
  import opened Statistics

  // ---- state ----

  /** How far a child has come. Loaded and Forced are stations of the failid script only. */
  datatype Phase = Working | Loaded(total: Option<nat>) | Forced | Done(code: u8) | Dead

  /** A process of the burn-in: which script it runs, and its phase. It stays until it is waited for. */
  datatype Child = Child(script: nat, phase: Phase)

  /** What happened to the runs and streams of one script so far: how often it was launched, with what codes its
      children exited, how many died otherwise or were lost, and how many streams were opened and closed. */
  datatype Tally = Tally(launches: nat, codes: seq<u8>, abnormal: nat, lost: nat, opens: nat, closes: nat)

  /** One published file: its lines on the hardware, the scripts as they were read, and the total; and the true
      totals when its collection began and ended. */
  datatype Snapshot = Snapshot(header: seq<Entry>, scripts: seq<Script>, total: nat, before: nat, after: nat)
  {
    function Entries(): seq<Entry> {
      EntriesOf(header, scripts, total)
    }

    /** A shell can read the file to its end. */
    predicate Loads() {
      Source(FileOf(Entries())).Complete?
    }
  }

  /** dump_stats on its way: each script's counter is read twice, once for its own lines and once for the total. */
  datatype Collector =
    | Idle
    | Collecting(start: seq<nat>, header: seq<Entry>, scripts: seq<Script>, added: nat, total: nat)

  /** The failid run under way: was it launched after a positive total was published, has it forced the LED on? */
  datatype LedRun = LedRun(armed: bool, forced: bool)

  datatype State = State(
    scripts: seq<Script>,
    tallies: seq<Tally>,
    children: map<nat, Child>,
    collector: Collector,
    published: seq<Snapshot>,
    leftover: Option<seq<u8>>,
    led: nat,
    ledRun: LedRun,
    forces: nat,
    stolen: nat)

  /** The atomic steps. */
  datatype Step =
    | Launch(script: nat, fork: Fork)
    | Poll(script: nat, raws: seq<seq<u8>>)
    | Exit(pid: nat, code: u8)
    | Kill(pid: nat)
    | Steal(pid: nat)
    | LedLoad(pid: nat, load: Phase)
    | LedForce(pid: nat)
    | LedExit(pid: nat)
    | LedBlink(pid: nat, found: bool)
    | Begin(header: seq<Entry>)
    | ReadScript
    | AddFail
    | Publish

  function FailsOf(scripts: seq<Script>): (r: seq<nat>)
    ensures |r| == |scripts| && forall i :: 0 <= i < |scripts| ==> r[i] == scripts[i].failCount
  {
    seq(|scripts|, i requires 0 <= i < |scripts| => scripts[i].failCount)
  }

  /** The failures so far, over all scripts. */
  function TrueTotal(s: State): nat {
    Sum(FailsOf(s.scripts))
  }

  /** The statistics file: the last one published, or one left over from before. */
  function File(s: State): Option<seq<u8>> {
    if s.published == [] then s.leftover else Some(FileOf(s.published[|s.published| - 1].Entries()))
  }

  /** How reading the file in may turn out for failid. At a quote that is never closed one shell gives up with status
      2, another one goes on with what it has. Text beyond the model may do anything. */
  predicate MayLoad(file: Option<seq<u8>>, r: Phase) {
    if file.None? then r == Loaded(None)
    else
      match Source(file.value)
      case Complete(made) => r == Loaded(TotalIn(made))
      case Unterminated(made) => r == Done(2) || r == Loaded(TotalIn(made))
      case Foreign => r.Loaded? || r.Done?
  }

  /** Some total published by this run is positive. */
  predicate PublishedPositive(s: State) {
    s.published != [] && s.published[|s.published| - 1].total > 0
  }

  /** What waitpid reports for a pid. */
  function WaitFor(s: State, pid: nat): Wait {
    if pid !in s.children then Failed
    else
      match s.children[pid].phase
      case Done(code) => Exited(code)
      case Dead => Killed
      case _ => NotYet
  }

  predicate HasChild(s: State, pid: nat, script: nat) {
    pid in s.children && s.children[pid].script == script
  }

  // ---- steps ----

  predicate Enabled(s: State, e: Step) {
    match e
    case Launch(i, f) =>
      && i < |s.scripts| && i < |s.tallies| && s.scripts[i].running == 0
      && f.pid !in s.children
      && forall j :: 0 <= j < |s.scripts| && s.scripts[j].Awaited() ==> s.scripts[j].pid != f.pid
    case Poll(i, raws) =>
      && i < |s.scripts| && i < |s.tallies| && s.scripts[i].Awaited()
      && forall k :: 0 <= k < |raws| ==> |raws[k]| < BUFSIZ
    case Exit(p, code) => p in s.children && s.children[p].phase == Working && s.children[p].script != s.led
    case Kill(p) => p in s.children && !s.children[p].phase.Done? && s.children[p].phase != Dead
    case Steal(p) => p in s.children && (s.children[p].phase.Done? || s.children[p].phase == Dead)
    case LedLoad(p, r) => HasChild(s, p, s.led) && s.children[p].phase == Working && MayLoad(File(s), r)
    case LedForce(p) =>
      HasChild(s, p, s.led) && s.children[p].phase.Loaded? && IsPositive(s.children[p].phase.total)
    case LedExit(p) => HasChild(s, p, s.led) && s.children[p].phase == Forced
    case LedBlink(p, found) =>
      HasChild(s, p, s.led) && s.children[p].phase.Loaded? && !IsPositive(s.children[p].phase.total)
    case Begin(header) => s.collector == Idle && IsHeader(header)
    case ReadScript =>
      s.collector.Collecting? && s.collector.added == |s.collector.scripts| < |s.scripts|
    case AddFail =>
      s.collector.Collecting? && s.collector.added < |s.collector.scripts| && s.collector.added < |s.scripts|
    case Publish =>
      s.collector.Collecting? && s.collector.added == |s.collector.scripts| == |s.scripts|
  }

  predicate IsPositive(t: Option<nat>) {
    t.Some? && t.value > 0
  }

  function SetPhase(s: State, p: nat, phase: Phase): State
    requires p in s.children
  {
    s.(children := s.children[p := s.children[p].(phase := phase)])
  }

  function Apply(s: State, e: Step): State
    requires Enabled(s, e)
  {
    match e
    case Launch(i, f) => ApplyLaunch(s, i, f)
    case Poll(i, raws) => ApplyPoll(s, i, raws)
    case Exit(p, code) => SetPhase(s, p, Done(code))
    case Kill(p) => SetPhase(s, p, Dead)
    case Steal(p) => s.(children := s.children - {p}, stolen := s.stolen + 1)
    case LedLoad(p, r) => SetPhase(s, p, r)
    case LedForce(p) => SetPhase(s, p, Forced).(forces := s.forces + 1, ledRun := s.ledRun.(forced := true))
    case LedExit(p) => SetPhase(s, p, Done(255))
    case LedBlink(p, found) => SetPhase(s, p, Done(if found then 0 else 255))
    case Begin(header) => s.(collector := Collecting(FailsOf(s.scripts), header, [], 0, 0))
    case ReadScript =>
      var c := s.collector;
      s.(collector := c.(scripts := c.scripts + [s.scripts[c.added]]))
    case AddFail =>
      var c := s.collector;
      s.(collector := c.(total := c.total + s.scripts[c.added].failCount, added := c.added + 1))
    case Publish =>
      var c := s.collector;
      var n := Snapshot(c.header, c.scripts, c.total, Sum(c.start), TrueTotal(s));
      s.(collector := Idle, published := s.published + [n])
  }

  function ApplyLaunch(s: State, i: nat, f: Fork): State
    requires Enabled(s, Launch(i, f))
  {
    s.(scripts := s.scripts[i := Launched(s.scripts[i], f)],
       tallies := s.tallies[i := CountedLaunch(s.tallies[i], f)],
       children := s.children[f.pid := Child(i, Working)],
       ledRun := if i == s.led then LedRun(PublishedPositive(s), false) else s.ledRun)
  }

  function CountedLaunch(t: Tally, f: Fork): Tally {
    t.(launches := t.launches + 1, opens := t.opens + if f.stream == Opened then 1 else 0)
  }

  /** A turn of the main loop. A child that has ended is taken off the process table. */
  function ApplyPoll(s: State, i: nat, raws: seq<seq<u8>>): State
    requires Enabled(s, Poll(i, raws))
  {
    var pid := s.scripts[i].pid;
    var w := WaitFor(s, pid);
    s.(scripts := s.scripts[i := Polled(s.scripts[i], raws, w)],
       tallies := s.tallies[i := Reckoned(s.tallies[i], w)],
       children := if w == NotYet then s.children else s.children - {pid},
       ledRun := if i == s.led && w == Failed then LedRun(false, false) else s.ledRun)
  }

  /** The stream is closed unless waitpid failed. */
  function Reckoned(t: Tally, w: Wait): Tally {
    match w
    case NotYet => t
    case Failed => t.(lost := t.lost + 1)
    case Killed => t.(abnormal := t.abnormal + 1, closes := t.closes + 1)
    case Exited(code) => t.(codes := t.codes + [code], closes := t.closes + 1)
  }

  // ---- runs ----

  /** The start of a burn-in: nothing launched, nothing counted, nothing published. A statistics file of an
      earlier burn-in may still lie about. */
  ghost predicate Init(s: State) {
    && |s.tallies| == |s.scripts|
    && (forall i :: 0 <= i < |s.scripts| ==>
      s.scripts[i].running == s.scripts[i].passCount == s.scripts[i].failCount == 0 && s.scripts[i].lastMsg == [])
    && (forall i :: 0 <= i < |s.tallies| ==> s.tallies[i] == Tally(0, [], 0, 0, 0, 0))
    && s.children == map[] && s.collector == Idle && s.published == []
    && s.ledRun == LedRun(false, false) && s.forces == 0 && s.stolen == 0
  }

  ghost predicate IsRun(s: State, es: seq<Step>)
    decreases |es|
  {
    es == [] || (Enabled(s, es[0]) && IsRun(Apply(s, es[0]), es[1..]))
  }

  ghost function After(s: State, es: seq<Step>): State
    requires IsRun(s, es)
    decreases |es|
  {
    if es == [] then s else After(Apply(s, es[0]), es[1..])
  }

  lemma NoSteps(s: State)
    ensures IsRun(s, []) && After(s, []) == s
  {
  }

  lemma StepFirst(s: State, e: Step, rest: seq<Step>)
    requires Enabled(s, e) && IsRun(Apply(s, e), rest)
    ensures IsRun(s, [e] + rest) && After(s, [e] + rest) == After(Apply(s, e), rest)
  {
    hide Enabled, Apply;
    assert ([e] + rest)[1..] == rest;
  }

  lemma OneStep(s: State, e: Step)
    requires Enabled(s, e)
    ensures IsRun(s, [e]) && After(s, [e]) == Apply(s, e)
  {
    hide Enabled, Apply;
    NoSteps(Apply(s, e));
    StepFirst(s, e, []);
    assert [e] + [] == [e];
  }

  lemma {:induction false} RunConcat(s: State, a: seq<Step>, b: seq<Step>)
    requires IsRun(s, a) && IsRun(After(s, a), b)
    ensures IsRun(s, a + b) && After(s, a + b) == After(After(s, a), b)
    decreases |a|
  {
    hide Enabled, Apply;
    if a == [] {
      assert a + b == b;
    } else {
      assert (a + b)[1..] == a[1..] + b;
      RunConcat(Apply(s, a[0]), a[1..], b);
    }
  }

  lemma RunPlus(s: State, a: seq<Step>, e: Step)
    requires IsRun(s, a) && Enabled(After(s, a), e)
    ensures IsRun(s, a + [e]) && After(s, a + [e]) == Apply(After(s, a), e)
  {
    hide Enabled, Apply;
    OneStep(After(s, a), e);
    RunConcat(s, a, [e]);
  }
}
