/** breakin.c: the pipe between a child and the main loop. fork_cmd makes its reading end non-blocking, so a round
    reads what is there; the stream is closed when the child has been waited for. */
module ChildOutput {
  import opened Bytes
  import opened Scheduler
  import opened LogTail

  /** Where the main loop is with the stream: fgets still finds something, waitpid is next, or it is closed. */
  datatype Station = Draining | Waiting | Closed

  /** What the child has written, the chunks the main loop has taken, and whether the child has ended. */
  datatype Pipe = Pipe(written: seq<u8>, chunks: seq<seq<u8>>, ended: bool, station: Station)
  {
    function Taken(): seq<u8> {
      Concat(chunks)
    }
  }

  /** The child writes or ends; the main loop calls fgets or waitpid. */
  datatype Event = Write(bytes: seq<u8>) | End | Fgets | WaitPid

  const Fresh := Pipe([], [], false, Draining)

  predicate Possible(p: Pipe, e: Event) {
    match e
    case Write(bytes) => !p.ended && bytes != []
    case End => !p.ended
    case Fgets => p.station == Draining && |p.Taken()| <= |p.written|
    case WaitPid => p.station == Waiting
  }

  function Next(p: Pipe, e: Event): Pipe
    requires Possible(p, e)
  {
    match e
    case Write(bytes) => p.(written := p.written + bytes)
    case End => p.(ended := true)
    case Fgets =>
      var at := |p.Taken()|;
      if at == |p.written| then p.(station := Waiting)
      else p.(chunks := p.chunks + [p.written[at..FgetsEnd(p.written, at, BUFSIZ - 1)]])
    case WaitPid => p.(station := if p.ended then Closed else Draining)
  }

  ghost predicate IsHistory(es: seq<Event>)
    decreases |es|, 0
  {
    es == [] || (IsHistory(es[..|es| - 1]) && Possible(PipeAfter(es[..|es| - 1]), es[|es| - 1]))
  }

  ghost function PipeAfter(es: seq<Event>): Pipe
    requires IsHistory(es)
    decreases |es|, 1
  {
    if es == [] then Fresh else Next(PipeAfter(es[..|es| - 1]), es[|es| - 1])
  }

  /** What the child wrote behind the last call of fgets. */
  function Late(es: seq<Event>): seq<u8> {
    if es == [] || es[|es| - 1].Fgets? then []
    else Late(es[..|es| - 1]) + if es[|es| - 1].Write? then es[|es| - 1].bytes else []
  }

  /** Whatever way the steps of both sides interleave: what the main loop has taken is a prefix of what the child
      has written, in chunks that fit the line buffer. */
  lemma {:induction false} TakenIsPrefix(es: seq<Event>)
    requires IsHistory(es)
    ensures PipeAfter(es).Taken() <= PipeAfter(es).written
    ensures forall k :: 0 <= k < |PipeAfter(es).chunks| ==> 0 < |PipeAfter(es).chunks[k]| < BUFSIZ
  {
    hide FgetsEnd;
    if es != [] {
      var p, e := PipeAfter(es[..|es| - 1]), es[|es| - 1];
      TakenIsPrefix(es[..|es| - 1]);
      if e.Fgets? && |p.Taken()| < |p.written| {
        ChunkTaken(p);
      }
    }
  }

  lemma ChunkTaken(p: Pipe)
    requires p.Taken() <= p.written && Possible(p, Fgets) && |p.Taken()| < |p.written|
    ensures Next(p, Fgets).Taken() <= p.written
  {
    var at := |p.Taken()|;
    var e := FgetsEnd(p.written, at, BUFSIZ - 1);
    assert Next(p, Fgets).chunks[..|p.chunks|] == p.chunks;
    assert p.written[..e] == p.written[..at] + p.written[at..e];
  }

  /** What one call of fgets takes is a line: a newline may only be its last byte, and it ends there, where the buffer
      is full, or where the child has written no more. */
  lemma ChunkIsLine(p: Pipe)
    requires Possible(p, Fgets) && |p.Taken()| < |p.written|
    ensures var at, chunks := |p.Taken()|, Next(p, Fgets).chunks;
      var chunk := chunks[|chunks| - 1];
      && chunks == p.chunks + [chunk] && chunk != [] && at + |chunk| <= |p.written|
      && chunk == p.written[at..at + |chunk|]
      && (forall k :: 0 <= k < |chunk| - 1 ==> chunk[k] as int != '\n' as int)
      && (chunk[|chunk| - 1] as int == '\n' as int || |chunk| == 8191 || at + |chunk| == |p.written|)
  {
    hide FgetsEnd;
    var at := |p.Taken()|;
    var e := FgetsEnd(p.written, at, BUFSIZ - 1);
    assert forall k :: 0 <= k < e - at ==> p.written[at..e][k] == p.written[at + k];
  }

  /** Once fgets has found nothing, what is missing is what the child wrote since. */
  lemma {:induction false} MissingIsLate(es: seq<Event>)
    requires IsHistory(es) && PipeAfter(es).station != Draining
    ensures PipeAfter(es).written == PipeAfter(es).Taken() + Late(es)
  {
    hide IsHistory, PipeAfter, FgetsEnd, Concat;
    LastEvent(es);
    var front, e := es[..|es| - 1], es[|es| - 1];
    var p, late := PipeAfter(front), Late(front);
    TakenIsPrefix(front);
    if e.Fgets? {
      assert p.Taken() == p.written;
    } else {
      MissingIsLate(front);
      hide Late;
      assert e.Write? ==> p.written + e.bytes == p.Taken() + (late + e.bytes);
    }
  }

  lemma LastEvent(es: seq<Event>)
    requires IsHistory(es)
    ensures es == [] ==> PipeAfter(es) == Fresh
    ensures es != [] ==>
      var front, e := es[..|es| - 1], es[|es| - 1];
      IsHistory(front) && Possible(PipeAfter(front), e) && PipeAfter(es) == Next(PipeAfter(front), e)
  {
    hide Possible, Next;
  }

  /** All output of a child is delivered if and only if it wrote nothing between the last call of fgets, which found
      nothing, and the call of waitpid that reaped it. What it did write then is lost. */
  lemma AllDeliveredIff(es: seq<Event>)
    requires IsHistory(es) && PipeAfter(es).station == Closed
    ensures PipeAfter(es).Taken() == PipeAfter(es).written <==> Late(es) == []
    ensures PipeAfter(es).written == PipeAfter(es).Taken() + Late(es)
  {
    MissingIsLate(es);
  }

  /** Output can be lost: the child writes its last line and ends between the two calls. */
  lemma LastLineLost(line: seq<u8>)
    requires line != []
    ensures var es := [Fgets, Write(line), End, WaitPid];
      IsHistory(es) && PipeAfter(es) == Pipe(line, [], true, Closed)
  {
    var es := [Fgets, Write(line), End, WaitPid];
    assert es[..3] == [Fgets, Write(line), End] && es[..3][..2] == [Fgets, Write(line)];
    assert [Fgets, Write(line)][..1] == [Fgets] && [Fgets][..0] == [];
    assert PipeAfter([Fgets]) == Fresh.(station := Waiting);
    assert PipeAfter([Fgets, Write(line)]) == Pipe([] + line, [], false, Waiting);
  }
}
