/** Output of a session: console text is buffered until a flush, and the end of
    a command is acknowledged by an event that runs later. */
module SessionOutput {

  /** A message to the client. `buffered` tells text that came from the buffer
      from an error message sent at once. */
  datatype Message =
    | Results(text: string, isError: bool, queryId: int, buffered: bool)
    | ExecComplete(queryId: int, expectShowOutput: bool)
    | ShowOutput(fileId: int)

  /** ExecCompleteArgs: the query id and the file are captured when the
      acknowledgement is scheduled; file 0 stands for none. */
  datatype Ack = Ack(queryId: int, fileId: int)

  datatype State = State(
    connected: bool, buffer: string, captured: string, sent: seq<Message>, scheduled: seq<Ack>,
    currentQueryId: int, ignoreOutput: bool, captureStdOut: bool)

  datatype Action =
    | Begin(queryId: int)
    | End
    | Console(text: string, isError: bool, visible: bool)
    | Flush(asError: bool)
    | Schedule(fileId: int)
    | Fire(which: nat)
    | SetIgnore(ignore: bool)
    | SetCapture(capture: bool)

  // sendJsonToClientSource
  function Send(s: State, m: Message): State {
    if s.connected then s.(sent := s.sent + [m]) else s
  }

  /** consoleCallback, outside file sourcing. */
  function Write(s: State, text: string, isError: bool, visible: bool): State {
    if s.captureStdOut then s.(captured := s.captured + text)
    else if s.ignoreOutput then s
    else if isError then
      if text == "" then s else Send(s, Results(text, true, s.currentQueryId, false))
    else if visible then s.(buffer := s.buffer + text)
    else s
  }

  /** sendOutputBufferToClient */
  function Flushed(s: State, asError: bool): State {
    if s.buffer == "" then s
    else Send(s, Results(s.buffer, asError, s.currentQueryId, true)).(buffer := "")
  }

  // What one acknowledgement sends.
  function AckMessages(a: Ack): seq<Message> {
    [ExecComplete(a.queryId, a.fileId > 0)] + if a.fileId > 0 then [ShowOutput(a.fileId)] else []
  }

  /** handleExecComplete for the event at position k. */
  function Fired(s: State, k: nat): State
    requires k < |s.scheduled|
  {
    var a := s.scheduled[k];
    var done := Send(s, ExecComplete(a.queryId, a.fileId > 0));
    (if a.fileId > 0 then Send(done, ShowOutput(a.fileId)) else done)
      .(scheduled := s.scheduled[..k] + s.scheduled[k + 1..])
  }

  predicate Enabled(s: State, a: Action) { a.Fire? ==> a.which < |s.scheduled| }

  function Do(s: State, a: Action): State
    requires Enabled(s, a)
  {
    match a
    case Begin(id) => s.(currentQueryId := id)
    case End => s.(currentQueryId := 0)
    case Console(text, isError, visible) => Write(s, text, isError, visible)
    case Flush(asError) => Flushed(s, asError)
    case Schedule(fileId) => s.(scheduled := s.scheduled + [Ack(s.currentQueryId, fileId)])
    case Fire(k) => Fired(s, k)
    case SetIgnore(b) => s.(ignoreOutput := b)
    case SetCapture(b) => s.(captureStdOut := b)
  }

  ghost predicate CanRun(s: State, run: seq<Action>)
    decreases |run|
  {
    run == [] || (Enabled(s, run[0]) && CanRun(Do(s, run[0]), run[1..]))
  }

  ghost function After(s: State, run: seq<Action>): State
    requires CanRun(s, run)
    decreases |run|
  {
    if run == [] then s else After(Do(s, run[0]), run[1..])
  }

  // The text that reached the client from the buffer, in order.
  function FromBuffer(sent: seq<Message>): string {
    if sent == [] then ""
    else
      var last := sent[|sent| - 1];
      FromBuffer(sent[..|sent| - 1]) + if last.Results? && last.buffered then last.text else ""
  }

  // The non-error text R wrote in a run while output was wanted, in order.
  ghost function Accepted(s: State, run: seq<Action>): string
    requires CanRun(s, run)
    decreases |run|
  {
    if run == [] then "" else Adds(s, run[0]) + Accepted(Do(s, run[0]), run[1..])
  }

  lemma FromBufferSend(s: State, m: Message)
    ensures FromBuffer(Send(s, m).sent)
         == FromBuffer(s.sent) + if s.connected && m.Results? && m.buffered then m.text else ""
  {
    assert (s.sent + [m])[..|s.sent|] == s.sent;
  }

  // The non-error text one step adds.
  function Adds(s: State, a: Action): string {
    if a.Console? && !a.isError && a.visible && !s.captureStdOut && !s.ignoreOutput then a.text else ""
  }

  lemma StepConserves(s: State, a: Action)
    requires Enabled(s, a) && s.connected
    ensures Do(s, a).connected
    ensures FromBuffer(Do(s, a).sent) + Do(s, a).buffer == FromBuffer(s.sent) + s.buffer + Adds(s, a)
  {
    match a
    case Console(text, isError, visible) => WriteConserves(s, text, isError, visible);
    case Flush(asError) => FlushConserves(s, asError);
    case Fire(k) => FireConserves(s, k);
    case _ =>
  }

  lemma WriteConserves(s: State, text: string, isError: bool, visible: bool)
    requires s.connected
    ensures var s' := Write(s, text, isError, visible);
      s'.connected
      && FromBuffer(s'.sent) + s'.buffer == FromBuffer(s.sent) + s.buffer + Adds(s, Console(text, isError, visible))
  {
    FromBufferSend(s, Results(text, true, s.currentQueryId, false));
    assert FromBuffer(s.sent) + (s.buffer + text) == FromBuffer(s.sent) + s.buffer + text;
  }

  lemma FlushConserves(s: State, asError: bool)
    requires s.connected
    ensures var s' := Flushed(s, asError);
      s'.connected && s'.buffer == "" && FromBuffer(s'.sent) == FromBuffer(s.sent) + s.buffer
  {
    FromBufferSend(s, Results(s.buffer, asError, s.currentQueryId, true));
    assert FromBuffer(s.sent) + "" == FromBuffer(s.sent);
  }

  lemma FireConserves(s: State, k: nat)
    requires s.connected && k < |s.scheduled|
    ensures var s' := Fired(s, k);
      s'.connected && s'.buffer == s.buffer && FromBuffer(s'.sent) == FromBuffer(s.sent)
  {
    var ack := s.scheduled[k];
    var done := Send(s, ExecComplete(ack.queryId, ack.fileId > 0));
    FromBufferSend(s, ExecComplete(ack.queryId, ack.fileId > 0));
    FromBufferSend(done, ShowOutput(ack.fileId));
  }

  /** Output is conserved: over any run, what was sent from the buffer followed
      by what is still in it is the accepted text, in order, nothing twice. */
  lemma {:induction false} OutputConserved(s: State, run: seq<Action>)
    requires CanRun(s, run) && s.connected
    ensures FromBuffer(After(s, run).sent) + After(s, run).buffer
         == FromBuffer(s.sent) + s.buffer + Accepted(s, run)
    decreases |run|
  {
    if run == [] {
    } else {
      StepConserves(s, run[0]);
      OutputConserved(Do(s, run[0]), run[1..]);
    }
  }

  // The messages sent at once and not from the buffer, in order.
  function AtOnce(sent: seq<Message>): seq<Message> {
    if sent == [] then []
    else
      var last := sent[|sent| - 1];
      AtOnce(sent[..|sent| - 1]) + if last.Results? && !last.buffered then [last] else []
  }

  /** What a listener has to know of a run to tell what becomes of a text: the query
      at work, and whether output is ignored or captured. */
  datatype Ear = Ear(queryId: int, ignoring: bool, capturing: bool)

  function EarOf(s: State): Ear { Ear(s.currentQueryId, s.ignoreOutput, s.captureStdOut) }

  function Hear(e: Ear, a: Action): Ear {
    match a
    case Begin(id) => e.(queryId := id)
    case End => e.(queryId := 0)
    case SetIgnore(b) => e.(ignoring := b)
    case SetCapture(b) => e.(capturing := b)
    case _ => e
  }

  // An error that R writes while it is neither captured nor ignored: marked as an
  // error, with the query at work.
  function ErrorIn(e: Ear, a: Action): seq<Message> {
    if a.Console? && a.isError && a.text != "" && !e.capturing && !e.ignoring then
      [Results(a.text, true, e.queryId, false)]
    else []
  }

  function ErrorsIn(e: Ear, run: seq<Action>): seq<Message>
    decreases |run|
  {
    if run == [] then [] else ErrorIn(e, run[0]) + ErrorsIn(Hear(e, run[0]), run[1..])
  }

  // The text R writes while it is captured, errors included.
  function CapturedIn(e: Ear, run: seq<Action>): string
    decreases |run|
  {
    if run == [] then ""
    else (if run[0].Console? && e.capturing then run[0].text else "") + CapturedIn(Hear(e, run[0]), run[1..])
  }

  lemma AtOnceSend(s: State, m: Message)
    ensures AtOnce(Send(s, m).sent)
         == AtOnce(s.sent) + if s.connected && m.Results? && !m.buffered then [m] else []
  {
    assert (s.sent + [m])[..|s.sent|] == s.sent;
  }

  // One step sends at once exactly the error it writes, and captures exactly the
  // text it captures.
  lemma StepHeard(s: State, a: Action)
    requires Enabled(s, a) && s.connected
    ensures var s' := Do(s, a);
      && s'.connected && EarOf(s') == Hear(EarOf(s), a)
      && AtOnce(s'.sent) == AtOnce(s.sent) + ErrorIn(EarOf(s), a)
      && s'.captured == s.captured + if a.Console? && s.captureStdOut then a.text else ""
  {
    match a
    case Console(text, isError, visible) => WriteHeard(s, text, isError, visible);
    case Flush(asError) => AtOnceSend(s, Results(s.buffer, asError, s.currentQueryId, true));
    case Fire(k) => FireHeard(s, k);
    case _ =>
  }

  lemma WriteHeard(s: State, text: string, isError: bool, visible: bool)
    requires s.connected
    ensures var s' := Write(s, text, isError, visible);
      && AtOnce(s'.sent) == AtOnce(s.sent) + ErrorIn(EarOf(s), Console(text, isError, visible))
      && s'.captured == s.captured + if s.captureStdOut then text else ""
  {
    AtOnceSend(s, Results(text, true, s.currentQueryId, false));
  }

  lemma FireHeard(s: State, k: nat)
    requires s.connected && k < |s.scheduled|
    ensures AtOnce(Fired(s, k).sent) == AtOnce(s.sent)
  {
    var ack := s.scheduled[k];
    AtOnceSend(s, ExecComplete(ack.queryId, ack.fileId > 0));
    AtOnceSend(Send(s, ExecComplete(ack.queryId, ack.fileId > 0)), ShowOutput(ack.fileId));
  }

  lemma Regroup<T>(a: seq<T>, b: seq<T>, c: seq<T>)
    ensures a + b + c == a + (b + c)
  {
  }

  /** Errors reach the client: over any run, what is sent at once grows by exactly
      the non-empty error text written while neither captured nor ignored, in order,
      marked as error, with the query that was at work when it was written. */
  lemma {:induction false} ErrorsReach(s: State, run: seq<Action>)
    requires CanRun(s, run) && s.connected
    ensures AtOnce(After(s, run).sent) == AtOnce(s.sent) + ErrorsIn(EarOf(s), run)
    decreases |run|
  {
    if run == [] {
    } else {
      var s' := Do(s, run[0]);
      StepHeard(s, run[0]);
      ErrorsReach(s', run[1..]);
      Regroup(AtOnce(s.sent), ErrorIn(EarOf(s), run[0]), ErrorsIn(EarOf(s'), run[1..]));
    }
  }

  /** And captured text is captured, in order, errors included. */
  lemma {:induction false} CaptureConserved(s: State, run: seq<Action>)
    requires CanRun(s, run) && s.connected
    ensures After(s, run).captured == s.captured + CapturedIn(EarOf(s), run)
    decreases |run|
  {
    if run == [] {
    } else {
      var s' := Do(s, run[0]);
      StepHeard(s, run[0]);
      CaptureConserved(s', run[1..]);
      Regroup(s.captured, if run[0].Console? && s.captureStdOut then run[0].text else "",
              CapturedIn(EarOf(s'), run[1..]));
    }
  }

  // The messages sent from the buffer, in order.
  function Flushes(sent: seq<Message>): seq<Message> {
    if sent == [] then []
    else
      var last := sent[|sent| - 1];
      Flushes(sent[..|sent| - 1]) + if last.Results? && last.buffered then [last] else []
  }

  lemma FlushesSend(s: State, m: Message)
    ensures Flushes(Send(s, m).sent)
         == Flushes(s.sent) + if s.connected && m.Results? && m.buffered then [m] else []
  {
    assert (s.sent + [m])[..|s.sent|] == s.sent;
  }

  // What the flushes of a run send: each the text accepted since the one before it,
  // with its error mark and the query at work.
  function FlushesIn(e: Ear, pending: string, run: seq<Action>): seq<Message>
    decreases |run|
  {
    if run == [] then []
    else
      var a := run[0];
      if a.Flush? then
        (if pending == "" then [] else [Results(pending, a.asError, e.queryId, true)]) + FlushesIn(e, "", run[1..])
      else
        var more := if a.Console? && !a.isError && a.visible && !e.capturing && !e.ignoring then a.text else "";
        FlushesIn(Hear(e, a), pending + more, run[1..])
  }

  lemma StepFlushes(s: State, a: Action)
    requires Enabled(s, a) && s.connected
    ensures var s' := Do(s, a);
      if a.Flush? then
        s'.buffer == "" && Flushes(s'.sent)
          == Flushes(s.sent) + if s.buffer == "" then [] else [Results(s.buffer, a.asError, s.currentQueryId, true)]
      else
        Flushes(s'.sent) == Flushes(s.sent) && s'.buffer == s.buffer + Adds(s, a)
  {
    match a
    case Console(text, _, _) => FlushesSend(s, Results(text, true, s.currentQueryId, false));
    case Flush(asError) => FlushesSend(s, Results(s.buffer, asError, s.currentQueryId, true));
    case Fire(k) => FireFlushes(s, k);
    case _ =>
  }

  lemma FireFlushes(s: State, k: nat)
    requires s.connected && k < |s.scheduled|
    ensures Flushes(Fired(s, k).sent) == Flushes(s.sent) && Fired(s, k).buffer == s.buffer
  {
    var ack := s.scheduled[k];
    FlushesSend(s, ExecComplete(ack.queryId, ack.fileId > 0));
    FlushesSend(Send(s, ExecComplete(ack.queryId, ack.fileId > 0)), ShowOutput(ack.fileId));
  }

  /** Every flush sends the text accepted since the one before it, as one message
      with its error mark and the query at work. */
  lemma {:induction false} FlushesExact(s: State, run: seq<Action>)
    requires CanRun(s, run) && s.connected
    ensures Flushes(After(s, run).sent) == Flushes(s.sent) + FlushesIn(EarOf(s), s.buffer, run)
    decreases |run|
  {
    if run == [] {
    } else {
      var a, s' := run[0], Do(s, run[0]);
      StepHeard(s, a);
      StepFlushes(s, a);
      FlushesExact(s', run[1..]);
      if a.Flush? {
        Regroup(Flushes(s.sent), if s.buffer == "" then [] else [Results(s.buffer, a.asError, s.currentQueryId, true)],
                FlushesIn(EarOf(s'), "", run[1..]));
      }
    }
  }

  /** Without a socket nothing is sent. */
  lemma {:induction false} Unconnected(s: State, run: seq<Action>)
    requires CanRun(s, run) && !s.connected
    ensures After(s, run).sent == s.sent && !After(s, run).connected
    decreases |run|
  {
    if run == [] {
    } else {
      Unconnected(Do(s, run[0]), run[1..]);
    }
  }

  // The acknowledgements of a run, with the query ids current when they were scheduled.
  ghost function ScheduledIn(s: State, run: seq<Action>): multiset<Ack>
    requires CanRun(s, run)
    decreases |run|
  {
    if run == [] then multiset{}
    else NewAcks(s, run[0]) + ScheduledIn(Do(s, run[0]), run[1..])
  }

  // The acknowledgements sent, read off the messages: a completion that
  // announces a file is followed by the message that shows it.
  function AcksSent(sent: seq<Message>): multiset<Ack> {
    if sent == [] then multiset{}
    else
      var n := |sent| - 1;
      match sent[n]
      case ExecComplete(id, announced) =>
        if announced then AcksSent(sent[..n]) else AcksSent(sent[..n]) + multiset{Ack(id, 0)}
      case ShowOutput(file) =>
        if n > 0 && sent[n - 1].ExecComplete? && sent[n - 1].expectShowOutput
        then AcksSent(sent[..n]) + multiset{Ack(sent[n - 1].queryId, file)} else AcksSent(sent[..n])
      case Results(_, _, _, _) => AcksSent(sent[..n])
  }

  lemma AcksSentOne(sent: seq<Message>, m: Message)
    ensures m.Results? ==> AcksSent(sent + [m]) == AcksSent(sent)
  {
    assert (sent + [m])[..|sent|] == sent;
  }

  // No file has a negative id; 0 stands for none.
  predicate FilesKnown(acks: seq<Ack>) { forall i :: 0 <= i < |acks| ==> acks[i].fileId >= 0 }

  lemma AcksSentFired(sent: seq<Message>, a: Ack)
    requires a.fileId >= 0
    ensures AcksSent(sent + AckMessages(a)) == AcksSent(sent) + multiset{a}
  {
    var one := sent + [ExecComplete(a.queryId, a.fileId > 0)];
    assert one[..|sent|] == sent;
    if a.fileId > 0 {
      var two := one + [ShowOutput(a.fileId)];
      assert two[..|one|] == one && sent + AckMessages(a) == two;
    } else {
      assert sent + AckMessages(a) == one;
    }
  }

  lemma RemoveOne(acks: seq<Ack>, k: nat)
    requires k < |acks|
    ensures multiset(acks) == multiset(acks[..k] + acks[k + 1..]) + multiset{acks[k]}
  {
    assert acks == acks[..k] + [acks[k]] + acks[k + 1..];
  }

  // The acknowledgements sent and those still to come.
  function Acks(s: State): multiset<Ack> { AcksSent(s.sent) + multiset(s.scheduled) }

  // The acknowledgement one step schedules.
  function NewAcks(s: State, a: Action): multiset<Ack> {
    if a.Schedule? then multiset{Ack(s.currentQueryId, a.fileId)} else multiset{}
  }

  lemma MoveOne(sent: multiset<Ack>, left: multiset<Ack>, a: Ack)
    ensures (sent + multiset{a}) + left == sent + (left + multiset{a}) == sent + left + multiset{a}
  {
  }

  lemma StepAcks(s: State, a: Action)
    requires Enabled(s, a) && s.connected && FilesKnown(s.scheduled) && (a.Schedule? ==> a.fileId >= 0)
    ensures FilesKnown(Do(s, a).scheduled)
    ensures Acks(Do(s, a)) == Acks(s) + NewAcks(s, a)
  {
    match a
    case Schedule(fileId) => ScheduleAcks(s, Ack(s.currentQueryId, fileId));
    case Console(text, isError, visible) => WriteAcks(s, text, isError, visible);
    case Flush(asError) => FlushAcks(s, asError);
    case Fire(k) => FireAcks(s, k);
    case Begin(_) =>
    case End =>
    case SetIgnore(_) =>
    case SetCapture(_) =>
  }

  lemma ScheduleAcks(s: State, a: Ack)
    requires FilesKnown(s.scheduled) && a.fileId >= 0
    ensures var s' := s.(scheduled := s.scheduled + [a]);
      FilesKnown(s'.scheduled) && Acks(s') == Acks(s) + multiset{a}
  {
    assert multiset(s.scheduled + [a]) == multiset(s.scheduled) + multiset{a};
    MoveOne(AcksSent(s.sent), multiset(s.scheduled), a);
  }

  lemma WriteAcks(s: State, text: string, isError: bool, visible: bool)
    requires s.connected
    ensures var s' := Write(s, text, isError, visible);
      s'.scheduled == s.scheduled && Acks(s') == Acks(s)
  {
    AcksSentOne(s.sent, Results(text, true, s.currentQueryId, false));
  }

  lemma FlushAcks(s: State, asError: bool)
    requires s.connected
    ensures var s' := Flushed(s, asError);
      s'.scheduled == s.scheduled && Acks(s') == Acks(s)
  {
    AcksSentOne(s.sent, Results(s.buffer, asError, s.currentQueryId, true));
  }

  lemma FiredState(s: State, k: nat)
    requires s.connected && k < |s.scheduled|
    ensures Fired(s, k).sent == s.sent + AckMessages(s.scheduled[k])
    ensures Fired(s, k).scheduled == s.scheduled[..k] + s.scheduled[k + 1..]
  {
    assert s.sent + [ExecComplete(s.scheduled[k].queryId, s.scheduled[k].fileId > 0)]
      + [ShowOutput(s.scheduled[k].fileId)]
        == s.sent + [ExecComplete(s.scheduled[k].queryId, s.scheduled[k].fileId > 0),
                     ShowOutput(s.scheduled[k].fileId)];
  }

  lemma FilesKnownRest(acks: seq<Ack>, k: nat)
    requires k < |acks| && FilesKnown(acks)
    ensures FilesKnown(acks[..k] + acks[k + 1..])
  {
  }

  lemma FireAcks(s: State, k: nat)
    requires s.connected && k < |s.scheduled| && FilesKnown(s.scheduled)
    ensures FilesKnown(Fired(s, k).scheduled) && Acks(Fired(s, k)) == Acks(s)
  {
    FiredState(s, k);
    FilesKnownRest(s.scheduled, k);
    AcksSentFired(s.sent, s.scheduled[k]);
    RemoveOne(s.scheduled, k);
    MoveOne(AcksSent(s.sent), multiset(s.scheduled[..k] + s.scheduled[k + 1..]), s.scheduled[k]);
  }

  /** Each scheduled completion is sent exactly once, or is still scheduled, and
      with the query id that was current when it was scheduled, whatever
      commands ran in between. */
  lemma {:induction false} AcksConserved(s: State, run: seq<Action>)
    requires CanRun(s, run) && s.connected && FilesKnown(s.scheduled)
    requires forall i :: 0 <= i < |run| && run[i].Schedule? ==> run[i].fileId >= 0
    ensures Acks(After(s, run)) == Acks(s) + ScheduledIn(s, run)
    decreases |run|
  {
    if run == [] {
    } else {
      StepAcks(s, run[0]);
      StepConserves(s, run[0]);
      assert forall i :: 0 <= i < |run[1..]| ==> run[1..][i] == run[i + 1];
      AcksConserved(Do(s, run[0]), run[1..]);
    }
  }

  class RSession {
    const socket: int
    var consoleOutBuffer: string
    var stdOutCapture: string
    var sent: seq<Message>
    var scheduled: seq<Ack>
    var currentQueryId: int
    var ignoreOutput: bool
    var captureStdOut: bool

    constructor (socket: int)
      ensures Now() == State(socket > 0, "", "", [], [], 0, false, false)
    {
      this.socket, consoleOutBuffer, stdOutCapture, sent, scheduled := socket, "", "", [], [];
      currentQueryId, ignoreOutput, captureStdOut := 0, false, false;
    }

    function Now(): State
      reads this
    {
      State(socket > 0, consoleOutBuffer, stdOutCapture, sent, scheduled,
            currentQueryId, ignoreOutput, captureStdOut)
    }

    method SendToClient(m: Message)
      modifies this`sent
      ensures Now() == Send(old(Now()), m)
    {
      if socket > 0 { sent := sent + [m]; }
    }

    method ConsoleCallback(text: string, isError: bool, visible: bool)
      modifies this
      ensures Now() == Write(old(Now()), text, isError, visible)
      ensures socket > 0 ==>
        FromBuffer(sent) + consoleOutBuffer
        == old(FromBuffer(sent) + consoleOutBuffer) + Adds(old(Now()), Console(text, isError, visible))
      ensures socket > 0 ==>
        AtOnce(sent) == old(AtOnce(sent)) + ErrorIn(old(EarOf(Now())), Console(text, isError, visible))
      ensures stdOutCapture == old(stdOutCapture) + if captureStdOut then text else ""
    {
      if socket > 0 {
        WriteConserves(Now(), text, isError, visible);
        StepHeard(Now(), Console(text, isError, visible));
      }
      if captureStdOut {
        stdOutCapture := stdOutCapture + text;
        return;
      }
      if ignoreOutput { return; }
      if isError {
        if |text| > 0 { SendToClient(Results(text, true, currentQueryId, false)); }
      } else if visible {
        consoleOutBuffer := consoleOutBuffer + text;
      }
    }

    method SendOutputBufferToClient(isError: bool)
      modifies this
      ensures Now() == Flushed(old(Now()), isError)
      ensures consoleOutBuffer == "" && (socket > 0 ==> FromBuffer(sent) == old(FromBuffer(sent) + consoleOutBuffer))
      ensures socket > 0 && old(consoleOutBuffer) != "" ==>
        sent == old(sent) + [Results(old(consoleOutBuffer), isError, currentQueryId, true)]
    {
      if socket > 0 { FlushConserves(Now(), isError); }
      if |consoleOutBuffer| > 0 {
        SendToClient(Results(consoleOutBuffer, isError, currentQueryId, true));
        consoleOutBuffer := "";
      }
    }

    // What the graphics device prints while it is closed is dropped.
    method FlushOutputBuffer(deviceOutput: seq<string>)
      requires !captureStdOut
      modifies this
      ensures Now() == Flushed(old(Now()), false).(ignoreOutput := false)
    {
      ghost var before := Now();
      ignoreOutput := true;
      for i := 0 to |deviceOutput|
        invariant Now() == before.(ignoreOutput := true)
      {
        ConsoleCallback(deviceOutput[i], false, true);
      }
      ignoreOutput := false;
      SendOutputBufferToClient(false);
    }

    method ScheduleExecComplete(queryId: int, fileId: int)
      modifies this`scheduled
      ensures Now() == old(Now()).(scheduled := old(scheduled) + [Ack(queryId, fileId)])
      ensures Acks(Now()) == old(Acks(Now())) + multiset{Ack(queryId, fileId)}
    {
      scheduled := scheduled + [Ack(queryId, fileId)];
    }

    method HandleExecComplete(k: nat)
      requires k < |scheduled|
      modifies this
      ensures Now() == Fired(old(Now()), k)
      ensures socket > 0 && old(FilesKnown(scheduled)) ==> Acks(Now()) == old(Acks(Now()))
      ensures socket > 0 ==>
        var a := old(scheduled)[k];
        sent == old(sent) + if a.fileId > 0 then [ExecComplete(a.queryId, true), ShowOutput(a.fileId)]
                            else [ExecComplete(a.queryId, false)]
    {
      if socket > 0 && FilesKnown(scheduled) { FireAcks(Now(), k); }
      var args := scheduled[k];
      var gotFileInfo := args.fileId > 0;
      SendToClient(ExecComplete(args.queryId, gotFileInfo));
      if gotFileInfo { SendToClient(ShowOutput(args.fileId)); }
      scheduled := scheduled[..k] + scheduled[k + 1..];
    }
  }
}
