/** breakin.c: the scheduler of the burn-in tests. run_burnin_tests launches them; the main loop drains
    their output and reaps them. */
module Scheduler {
  import opened Bytes
  import opened Trimming
  import opened Selection

  /** The size of a stdio buffer, of a line buffer and of a name or message field. */
  const BUFSIZ := 8192

  /** struct burnin_scripts_t. running is 1 while a child is out, 0 while one may be launched, and -1 once
      the script is disabled. */
  datatype Script = Script(
    name: seq<u8>,
    path: seq<u8>,
    lastMsg: seq<u8>,
    lastResult: int,
    running: int,
    pid: nat,
    hasStream: bool,
    passCount: nat,
    failCount: nat)
  {
    /** The scheduler waits for this script's pid. */
    predicate Awaited() {
      running > 0 && hasStream
    }

    /** The scheduler will never launch or reap it again. */
    predicate IsParked() {
      running == -1 || (running > 0 && !hasStream)
    }
  }

  /** How fork_cmd ends: with a stream; without one, the pid not handed over; or without one, but with the pid. */
  datatype Stream = Opened | NoFlags | NoFile

  /** A forked child and the stream fork_cmd made of its output. */
  datatype Fork = Fork(pid: nat, stream: Stream)

  /** What waitpid reports: an error, nothing yet, an exit status, or death by a signal. */
  datatype Wait = Failed | NotYet | Exited(code: u8) | Killed

  // ---- one script ----

  function Launched(s: Script, f: Fork): Script {
    s.(running := 1, hasStream := f.stream == Opened, pid := if f.stream == NoFlags then s.pid else f.pid)
  }

  const MSG := Ascii("MSG: ")

  /** A line of output as the main loop sees it: up to its first NUL, trimmed. */
  function LineOf(raw: seq<u8>): seq<u8> {
    Trimmed(CStr(raw, 0))
  }

  predicate IsMessage(line: seq<u8>) {
    MSG <= line
  }

  /** What a line leaves in last_msg. */
  function MessageOf(line: seq<u8>): seq<u8> {
    if IsMessage(line) then line[|MSG|..] else line
  }

  /** The text a line that is no message is logged as: snprintf("%s - %s") into a stdio buffer. */
  function ErrorOf(name: seq<u8>, line: seq<u8>): seq<u8> {
    var text := name + Ascii(" - ") + line;
    if |text| < BUFSIZ then text else text[..BUFSIZ - 1]
  }

  /** What draining lines logs: one error for every line that is no message, in order. */
  function ErrorsOf(name: seq<u8>, raws: seq<seq<u8>>): seq<seq<u8>> {
    if raws == [] then []
    else
      var rest, line := raws[..|raws| - 1], LineOf(raws[|raws| - 1]);
      ErrorsOf(name, rest) + if IsMessage(line) then [] else [ErrorOf(name, line)]
  }

  /** Draining lines leaves the last of them in last_msg. */
  function Drained(s: Script, raws: seq<seq<u8>>): Script {
    if raws == [] then s else s.(lastMsg := MessageOf(LineOf(raws[|raws| - 1])))
  }

  function Reaped(s: Script, w: Wait): Script {
    match w
    case Failed => s.(running := 0, lastResult := 0, passCount := s.passCount + 1)
    case NotYet => s
    case Killed => s.(running := -1)
    case Exited(code) =>
      if code == 255 then s.(running := -1, lastResult := 0, passCount := s.passCount + 1)
      else if code == 0 then s.(running := 0, lastResult := 0, passCount := s.passCount + 1)
      else s.(running := 0, lastResult := 1, failCount := s.failCount + 1)
  }

  /** One script's turn in the main loop. A script without a stream is stuck: it is passed over for good. */
  function Polled(s: Script, raws: seq<seq<u8>>, w: Wait): Script {
    if s.Awaited() then Reaped(Drained(s, raws), w) else s
  }

  /** A trimmed line that is a message has something behind the prefix: "MSG: " alone would end in a blank.
      So the length test of the main loop never decides. */
  lemma MessageIsLonger(raw: seq<u8>)
    requires IsMessage(LineOf(raw))
    ensures |LineOf(raw)| > |MSG|
  {
    TrimmedIdempotent(CStr(raw, 0));
    assert MSG[|MSG| - 1] == SPACE;
  }

  // ---- what a turn does, byte for byte ----

  /** A line of output, trimmed, starts with "MSG: ". */
  ghost predicate SaysMessage(raw: seq<u8>) {
    var line := Trimmed(CStr(raw, 0));
    |line| >= 5 && IsText(line[..5], "MSG: ")
  }

  /** name, " - " and line one behind the other, as far as a stdio buffer holds them with a NUL. */
  function ErrorText(name: seq<u8>, line: seq<u8>): seq<u8> {
    var n := |name|;
    seq(if n + 3 + |line| < 8192 then n + 3 + |line| else 8191, i requires 0 <= i < n + 3 + |line| =>
      if i < n then name[i] else if i < n + 3 then [' ' as int, '-' as int, ' ' as int][i - n] else line[i - n - 3])
  }

  /** The errors logged for lines of output: one for each line that is no message, in their order, and nothing else. */
  ghost predicate IsErrorLog(name: seq<u8>, raws: seq<seq<u8>>, errors: seq<seq<u8>>) {
    IsSelection(ErrorTexts(name, raws), Silent(raws), errors)
  }

  function ErrorTexts(name: seq<u8>, raws: seq<seq<u8>>): seq<seq<u8>> {
    seq(|raws|, k requires 0 <= k < |raws| => ErrorText(name, Trimmed(CStr(raws[k], 0))))
  }

  /** Which lines are no messages. */
  ghost function Silent(raws: seq<seq<u8>>): seq<bool> {
    seq(|raws|, k requires 0 <= k < |raws| => !SaysMessage(raws[k]))
  }

  /** The last line of output is what last_msg holds, without the prefix if it is a message. */
  ghost predicate HoldsLast(before: seq<u8>, raws: seq<seq<u8>>, msg: seq<u8>) {
    if raws == [] then msg == before
    else
      var last := raws[|raws| - 1];
      var line := Trimmed(CStr(last, 0));
      msg == if SaysMessage(last) then line[5..] else line
  }

  /** What a script's turn makes of it, field by field. */
  ghost predicate IsTurn(s: Script, raws: seq<seq<u8>>, w: Wait, s': Script) {
    if s.running <= 0 || !s.hasStream then s' == s
    else
      && s'.name == s.name && s'.path == s.path && s'.pid == s.pid && s'.hasStream
      && HoldsLast(s.lastMsg, raws, s'.lastMsg)
      && match w
         case NotYet =>
           s'.running == s.running && s'.lastResult == s.lastResult
           && s'.passCount == s.passCount && s'.failCount == s.failCount
         case Failed =>
           s'.running == 0 && s'.lastResult == 0 && s'.passCount == s.passCount + 1 && s'.failCount == s.failCount
         case Killed =>
           s'.running == -1 && s'.lastResult == s.lastResult
           && s'.passCount == s.passCount && s'.failCount == s.failCount
         case Exited(code) =>
           && s'.running == (if code == 255 then -1 else 0)
           && s'.lastResult == (if code == 0 || code == 255 then 0 else 1)
           && s'.passCount == s.passCount + (if code == 0 || code == 255 then 1 else 0)
           && s'.failCount == s.failCount + (if code == 0 || code == 255 then 0 else 1)
  }

  /** And what it logs. */
  ghost predicate IsTurnLog(s: Script, raws: seq<seq<u8>>, log: seq<seq<u8>>) {
    if s.running <= 0 || !s.hasStream then log == [] else IsErrorLog(s.name, raws, log)
  }

  /** Part number i of the errors of a round is what the turn of a script logs. */
  ghost predicate IsPart(errors: seq<seq<u8>>, ends: seq<nat>, i: nat, s: Script, raws: seq<seq<u8>>) {
    && i + 1 < |ends| && ends[i] <= ends[i + 1] <= |errors|
    && IsTurnLog(s, raws, errors[ends[i]..ends[i + 1]])
  }

  lemma PartStays(errors: seq<seq<u8>>, more: seq<seq<u8>>, ends: seq<nat>, i: nat, s: Script, raws: seq<seq<u8>>)
    requires IsPart(errors, ends, i, s, raws)
    ensures IsPart(errors + more, ends + [|errors + more|], i, s, raws)
  {
    hide IsTurnLog;
    assert (errors + more)[ends[i]..ends[i + 1]] == errors[ends[i]..ends[i + 1]];
  }

  lemma NewPart(errors: seq<seq<u8>>, more: seq<seq<u8>>, ends: seq<nat>, s: Script, raws: seq<seq<u8>>)
    requires ends != [] && ends[|ends| - 1] == |errors| && IsTurnLog(s, raws, more)
    ensures IsPart(errors + more, ends + [|errors + more|], |ends| - 1, s, raws)
  {
    hide IsTurnLog;
    assert (errors + more)[|errors|..|errors + more|] == more;
  }

  lemma PrefixIs(line: seq<u8>)
    ensures |MSG| == 5
    ensures IsMessage(line) <==> |line| >= 5 && IsText(line[..5], "MSG: ")
  {
    AsciiIsText("MSG: ");
    hide Ascii;
    assert |line| >= 5 && IsText(line[..5], "MSG: ") ==> line[..5] == MSG;
  }

  lemma ErrorTextIs(name: seq<u8>, line: seq<u8>)
    ensures ErrorOf(name, line) == ErrorText(name, line)
  {
    var dash := Ascii(" - ");
    assert dash == [' ' as int, '-' as int, ' ' as int];
    hide Ascii;
    var text := name + dash + line;
    assert forall i :: 0 <= i < |ErrorText(name, line)| ==> ErrorText(name, line)[i] == text[i];
  }

  lemma {:induction false} ErrorsAre(name: seq<u8>, raws: seq<seq<u8>>)
    ensures IsErrorLog(name, raws, ErrorsOf(name, raws))
  {
    hide ErrorText, ErrorOf, Trimmed, CStr, IsMessage, SaysMessage, IsSelection;
    if raws == [] {
      NoneSelected<seq<u8>>();
      assert Silent(raws) == [] && ErrorTexts(name, raws) == [];
    } else {
      var n := |raws| - 1;
      var rest, raw := raws[..n], raws[n];
      var line := Trimmed(CStr(raw, 0));
      ErrorsAre(name, rest);
      SilentIs(raw);
      ErrorTextIs(name, line);
      Extended(ErrorTexts(name, rest), Silent(rest), ErrorsOf(name, rest), ErrorText(name, line), !SaysMessage(raw));
      assert ErrorsOf(name, raws) == ErrorsOf(name, rest) + if SaysMessage(raw) then [] else [ErrorText(name, line)];
      assert ErrorsOf(name, rest) + [] == ErrorsOf(name, rest);
      assert Silent(raws) == Silent(rest) + [!SaysMessage(raw)];
      assert ErrorTexts(name, raws) == ErrorTexts(name, rest) + [ErrorText(name, line)];
    }
  }

  lemma SilentIs(raw: seq<u8>)
    ensures IsMessage(LineOf(raw)) == SaysMessage(raw)
  {
    hide Trimmed, CStr, IsMessage;
    PrefixIs(LineOf(raw));
  }

  lemma LastIs(before: seq<u8>, raws: seq<seq<u8>>)
    ensures HoldsLast(before, raws,
      if raws == [] then before else MessageOf(LineOf(raws[|raws| - 1])))
  {
    if raws != [] {
      PrefixIs(LineOf(raws[|raws| - 1]));
    }
  }

  lemma PolledIsTurn(s: Script, raws: seq<seq<u8>>, w: Wait)
    ensures IsTurn(s, raws, w, Polled(s, raws, w)) && IsTurnLog(s, raws, TurnErrors(s, raws))
  {
    hide HoldsLast, IsErrorLog, ErrorsOf, MessageOf, LineOf;
    LastIs(s.lastMsg, raws);
    ErrorsAre(s.name, raws);
  }

  // ---- draining, with the line buffer ----

  /** The inner while loop: fgets puts each line into the buffer, trim works on it there. buffer[0] is the
      byte before the C array. */
  method Drain(buffer: array<u8>, s: Script, raws: seq<seq<u8>>) returns (s': Script, errors: seq<seq<u8>>)
    requires buffer.Length == 1 + BUFSIZ && !IsBlank(buffer[0])
    requires forall k :: 0 <= k < |raws| ==> |raws[k]| < BUFSIZ
    modifies buffer
    ensures !IsBlank(buffer[0])
    ensures s' == Drained(s, raws) && errors == ErrorsOf(s.name, raws)
    ensures IsErrorLog(s.name, raws, errors)
    ensures s' == s.(lastMsg := s'.lastMsg) && HoldsLast(s.lastMsg, raws, s'.lastMsg)
  {
    hide IsErrorLog, HoldsLast, Trimmed, CStr, ErrorOf, Ascii;
    s', errors := s, [];
    for k := 0 to |raws|
      invariant !IsBlank(buffer[0])
      invariant s' == Drained(s, raws[..k]) && errors == ErrorsOf(s.name, raws[..k])
    {
      var line := ReadLine(buffer, raws[k]);
      assert raws[..k + 1][..k] == raws[..k];
      if |line| >= |MSG| && line[..|MSG|] == MSG && |line| > |MSG| {
        s' := s'.(lastMsg := line[|MSG|..]);
      } else {
        if IsMessage(line) {
          MessageIsLonger(raws[k]);
        }
        s' := s'.(lastMsg := line);
        errors := errors + [ErrorOf(s.name, line)];
      }
    }
    assert raws[..|raws|] == raws;
    ErrorsAre(s.name, raws);
    LastIs(s.lastMsg, raws);
  }

  /** One line: fgets fills the buffer and trim trims it there. */
  method ReadLine(buffer: array<u8>, raw: seq<u8>) returns (line: seq<u8>)
    requires buffer.Length == 1 + BUFSIZ && !IsBlank(buffer[0]) && |raw| < BUFSIZ
    modifies buffer
    ensures buffer[0] == old(buffer[0]) && line == LineOf(raw)
  {
    Fill(buffer, raw);
    hide StrLen, CStr, Trimmed, TrimMemory;
    ghost var m := buffer[..];
    LineInBuffer(m, raw);
    TrimStaysInsideIff(m, 1);
    assert ZeroedFrom(m, 1) > 0;
    hide ZeroedFrom;
    Trim(buffer, 1);
    TrimMemoryText(m, 1);
    line := CStr(buffer[..], 1);
  }

  /** fgets: the bytes of the line and a NUL behind them. */
  method Fill(buffer: array<u8>, raw: seq<u8>)
    requires 1 + |raw| < buffer.Length
    modifies buffer
    ensures buffer[0] == old(buffer[0]) && buffer[1..1 + |raw|] == raw && buffer[1 + |raw|] == NUL
  {
    forall k | 0 <= k < |raw| {
      buffer[1 + k] := raw[k];
    }
    buffer[1 + |raw|] := NUL;
  }

  /** The C string in the buffer is the line up to its first NUL. */
  lemma LineInBuffer(m: seq<u8>, raw: seq<u8>)
    requires |m| > 1 + |raw| && m[1..1 + |raw|] == raw && m[1 + |raw|] == NUL
    ensures 1 + StrLen(m, 1) < |m| && CStr(m, 1) == CStr(raw, 0)
  {
    var n := StrLen(raw, 0);
    assert forall k :: 1 <= k < 1 + |raw| ==> m[k] == m[1..1 + |raw|][k - 1];
    assert m[1 + n] == NUL;
    StrLenIs(m, 1, n);
  }

  // ---- the loops over all scripts ----

  class Scheduler {
    /** burnin_scripts[0..burnin_script_count) */
    const scripts: array<Script>
    /** the line buffer of the main loop, and the byte before it */
    const buffer: array<u8>

    ghost predicate Valid()
      reads buffer
    {
      buffer.Length == 1 + BUFSIZ && !IsBlank(buffer[0])
    }

    constructor (found: seq<Script>)
      ensures Valid() && fresh(scripts) && fresh(buffer) && scripts[..] == found
    {
      scripts := new Script[|found|](i requires 0 <= i < |found| => found[i]);
      buffer := new u8[1 + BUFSIZ](_ => NUL);
    }

    /** run_burnin_tests: every script that is not running and not disabled is launched. */
    method RunBurninTests(forks: seq<Fork>)
      requires |forks| == scripts.Length
      modifies scripts
      ensures forall i :: 0 <= i < scripts.Length ==>
        scripts[i] == if old(scripts[i]).running == 0 then Launched(old(scripts[i]), forks[i]) else old(scripts[i])
      ensures forall i :: 0 <= i < scripts.Length && old(scripts[i]).running == 0 ==>
        scripts[i] == old(scripts[i]).(running := 1, hasStream := forks[i].stream == Opened,
          pid := if forks[i].stream == NoFlags then old(scripts[i]).pid else forks[i].pid)
    {
      for i := 0 to scripts.Length
        invariant forall j :: 0 <= j < scripts.Length ==>
          scripts[j] ==
            if j < i && old(scripts[j]).running == 0 then Launched(old(scripts[j]), forks[j]) else old(scripts[j])
      {
        if scripts[i].running == 0 {
          match forks[i].stream {
            case Opened => scripts[i] := scripts[i].(pid := forks[i].pid, hasStream := true);
            case NoFlags => scripts[i] := scripts[i].(hasStream := false);
            case NoFile => scripts[i] := scripts[i].(pid := forks[i].pid, hasStream := false);
          }
          scripts[i] := scripts[i].(running := 1);
        }
      }
    }

    /** The body of the main loop's for loop: one script's turn. */
    method Poll(i: nat, raws: seq<seq<u8>>, w: Wait) returns (errors: seq<seq<u8>>, stuck: bool)
      requires Valid() && i < scripts.Length
      requires forall k :: 0 <= k < |raws| ==> |raws[k]| < BUFSIZ
      modifies scripts, buffer
      ensures Valid() && scripts[..] == old(scripts[..])[i := Polled(old(scripts[i]), raws, w)]
      ensures errors == TurnErrors(old(scripts[i]), raws)
      ensures stuck <==> old(scripts[i]).running > 0 && !old(scripts[i]).hasStream
      ensures IsTurn(old(scripts[i]), raws, w, scripts[i]) && IsTurnLog(old(scripts[i]), raws, errors)
    {
      hide Drained, ErrorsOf, IsTurn, IsTurnLog, IsErrorLog, HoldsLast;
      PolledIsTurn(scripts[i], raws, w);
      if scripts[i].running <= 0 {
        return [], false;
      }
      if !scripts[i].hasStream {
        return [], true;
      }
      var s, found := Drain(buffer, scripts[i], raws);
      match w {
        case Failed =>
          s := s.(running := 0, lastResult := 0, passCount := s.passCount + 1);
        case NotYet =>
        case Killed =>
          s := s.(running := -1);
        case Exited(code) =>
          if code == 255 {
            s := s.(running := -1, lastResult := 0, passCount := s.passCount + 1);
          } else if code == 0 {
            s := s.(running := 0, lastResult := 0, passCount := s.passCount + 1);
          } else {
            s := s.(running := 0, lastResult := 1, failCount := s.failCount + 1);
          }
      }
      scripts[i] := s;
      return found, false;
    }

    /** One round of the main loop behind the launches: drain and reap every script that is running. outputs
        are the lines each script has ready, waits what waitpid says of each. */
    method DrainAndReap(outputs: seq<seq<seq<u8>>>, waits: seq<Wait>)
      returns (errors: seq<seq<u8>>, stuck: seq<nat>, ghost ends: seq<nat>)
      requires Valid() && |outputs| == |waits| == scripts.Length
      requires forall i, k :: 0 <= i < |outputs| && 0 <= k < |outputs[i]| ==> |outputs[i][k]| < BUFSIZ
      modifies scripts, buffer
      ensures Valid()
      ensures forall i :: 0 <= i < scripts.Length ==> scripts[i] == Polled(old(scripts[i]), outputs[i], waits[i])
      ensures errors == RoundErrors(old(scripts[..]), outputs)
      ensures forall i :: i in stuck <==>
        0 <= i < scripts.Length && old(scripts[i]).running > 0 && !old(scripts[i]).hasStream
      ensures forall i :: 0 <= i < scripts.Length ==> IsTurn(old(scripts[i]), outputs[i], waits[i], scripts[i])
      ensures |ends| == scripts.Length + 1 && ends[0] == 0 && ends[scripts.Length] == |errors|
      ensures forall i :: 0 <= i < scripts.Length ==> IsPart(errors, ends, i, old(scripts[i]), outputs[i])
    {
      hide Polled, TurnErrors, IsTurn, IsTurnLog, IsPart;
      errors, stuck := [], [];
      ghost var before := scripts[..];
      for i := 0 to scripts.Length
        invariant Valid()
        invariant forall j :: 0 <= j < scripts.Length ==>
          scripts[j] == if j < i then Polled(before[j], outputs[j], waits[j]) else before[j]
        invariant errors == RoundErrors(before[..i], outputs[..i])
        invariant forall j :: j in stuck <==> 0 <= j < i && before[j].running > 0 && !before[j].hasStream
      {
        assert before[..i + 1][..i] == before[..i] && outputs[..i + 1][..i] == outputs[..i];
        ghost var m := scripts[..];
        var found, isStuck := Poll(i, outputs[i], waits[i]);
        assert forall j :: 0 <= j < scripts.Length && j != i ==> scripts[..][j] == m[j];
        errors := errors + found;
        if isStuck {
          stuck := stuck + [i];
        }
      }
      assert before[..scripts.Length] == before && outputs[..scripts.Length] == outputs;
      forall j | 0 <= j < scripts.Length
        ensures IsTurn(before[j], outputs[j], waits[j], scripts[j])
      {
        PolledIsTurn(before[j], outputs[j], waits[j]);
      }
      ends := PartsOf(before, outputs);
    }
  }

  /** The errors a script's turn logs. */
  function TurnErrors(s: Script, raws: seq<seq<u8>>): seq<seq<u8>> {
    if s.Awaited() then ErrorsOf(s.name, raws) else []
  }

  /** The errors of a round, script by script. */
  function RoundErrors(scripts: seq<Script>, outputs: seq<seq<seq<u8>>>): seq<seq<u8>>
    requires |scripts| == |outputs|
  {
    if scripts == [] then []
    else
      var n := |scripts| - 1;
      RoundErrors(scripts[..n], outputs[..n]) + TurnErrors(scripts[n], outputs[n])
  }

  /** The errors of a round are those of the turns, in the order of the scripts. */
  lemma {:induction false} PartsOf(scripts: seq<Script>, outputs: seq<seq<seq<u8>>>) returns (ends: seq<nat>)
    requires |scripts| == |outputs|
    ensures |ends| == |scripts| + 1 && ends[0] == 0 && ends[|scripts|] == |RoundErrors(scripts, outputs)|
    ensures forall i :: 0 <= i < |scripts| ==> IsPart(RoundErrors(scripts, outputs), ends, i, scripts[i], outputs[i])
    decreases |scripts|
  {
    hide IsPart, TurnErrors, IsTurnLog, Polled, IsTurn;
    ends := [0];
    if scripts != [] {
      var n := |scripts| - 1;
      var front, found := RoundErrors(scripts[..n], outputs[..n]), TurnErrors(scripts[n], outputs[n]);
      var before := PartsOf(scripts[..n], outputs[..n]);
      ends := before + [|front + found|];
      PolledIsTurn(scripts[n], outputs[n], NotYet);
      forall j | 0 <= j < n
        ensures IsPart(front + found, ends, j, scripts[j], outputs[j])
      {
        PartStays(front, found, before, j, scripts[..n][j], outputs[..n][j]);
      }
      NewPart(front, found, before, scripts[n], outputs[n]);
    }
  }
}
