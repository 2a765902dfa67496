/**
 The stop-and-wait protocol of Code/Ch10-networking/UDPACKclient.c and UDPACKserver.c: a client
 that sends one line at a time and waits for an acknowledgement, a server that prints and
 acknowledges whatever arrives, and the network between them.
 */
module StopAndWait {
  import opened Options

  /** Resends before the client gives up. */
  const NRETRIES: nat := 10

  /** `htonl` keeps 32 bits of the sequence number. */
  const SEQN_MOD: nat := 0x1_0000_0000

  /** A data frame; `id` is the client's unbounded message number, a history variable not on the wire. */
  datatype Data = Data(id: nat, mseqn: nat, payload: string)

  datatype Ack = Ack(id: nat, mseqn: nat)

  function Frame(lines: seq<string>, seqno: nat): Data
    requires 1 <= seqno <= |lines|
  {
    Data(seqno, seqno % SEQN_MOD, lines[seqno - 1])
  }

  /** The server echoes the sequence number. */
  function Reply(frame: Data): Ack { Ack(frame.id, frame.mseqn) }

  // ---------------------------------------------------------------------------------------------
  // The client
  // ---------------------------------------------------------------------------------------------

  /** Ready: about to read a line.  Waiting(r): in `select`, with r passes of the retry loop left. */
  datatype Phase = Ready | Waiting(remaining: nat) | GaveUp

  datatype Client = Client(seqno: nat, msg: Data, phase: Phase) {
    /** Messages the client has moved past. */
    function Completed(): nat { if phase.Ready? || seqno == 0 then seqno else seqno - 1 }
  }

  const START := Client(0, Data(0, 0, ""), Ready)

  function SendNext(lines: seq<string>, c: Client): Client
    requires c.phase.Ready? && c.seqno < |lines|
  {
    Client(c.seqno + 1, Frame(lines, c.seqno + 1), Waiting(NRETRIES))
  }

  /** `select` timed out: the message is sent again. */
  function TimedOut(c: Client): Client
    requires c.phase.Waiting? && 0 < c.phase.remaining
  {
    c.(phase := if c.phase.remaining == 1 then GaveUp else Waiting(c.phase.remaining - 1))
  }

  /** The program as written takes any acknowledgement; a checking client compares `mseqn`. */
  predicate Accepts(check: bool, c: Client, ack: Ack) {
    check ==> ack.mseqn == c.msg.mseqn
  }

  function Received(check: bool, c: Client, ack: Ack): Client
    requires c.phase.Waiting?
  {
    if Accepts(check, c, ack) then c.(phase := Ready) else c
  }

  /** Client state and the frames it has sent. */
  datatype Progress = Progress(client: Client, sent: seq<Data>)

  function Advance(lines: seq<string>, p: Progress): Progress {
    if p.client.phase.Ready? && p.client.seqno < |lines| then
      var c := SendNext(lines, p.client);
      Progress(c, p.sent + [c.msg])
    else p
  }

  /** The client after its successive calls of `select`: None for a timeout, else the frame received. */
  function ClientRun(lines: seq<string>, outcomes: seq<Option<Ack>>): Progress {
    if outcomes == [] then Advance(lines, Progress(START, []))
    else
      var p := ClientRun(lines, outcomes[..|outcomes| - 1]);
      var outcome := outcomes[|outcomes| - 1];
      if !p.client.phase.Waiting? || p.client.phase.remaining == 0 then p
      else if outcome.None? then Progress(TimedOut(p.client), p.sent + [p.client.msg])
      else Advance(lines, Progress(Received(false, p.client, outcome.value), p.sent))
  }

  lemma {:induction false} StoppedClientStays(lines: seq<string>, outcomes: seq<Option<Ack>>, k: nat)
    requires k <= |outcomes| && !ClientRun(lines, outcomes[..k]).client.phase.Waiting?
    ensures ClientRun(lines, outcomes) == ClientRun(lines, outcomes[..k])
  {
    if k == |outcomes| {
      assert outcomes[..k] == outcomes;
    } else {
      var init := outcomes[..|outcomes| - 1];
      assert init[..k] == outcomes[..k];
      StoppedClientStays(lines, init, k);
    }
  }

  /** The frames `sent` are those of the lines 1 to `seqno`, in order, each perhaps several times. */
  predicate SendsInOrder(lines: seq<string>, seqno: nat, sent: seq<Data>) {
    && (forall i :: 0 <= i < |sent| ==>
          1 <= sent[i].id <= |lines| && sent[i] == Data(sent[i].id, sent[i].id % 0x1_0000_0000, lines[sent[i].id - 1]))
    && (forall i :: 0 <= i < |sent| - 1 ==> sent[i + 1].id == sent[i].id || sent[i + 1].id == sent[i].id + 1)
    && if sent == [] then seqno == 0 else sent[0].id == 1 && sent[|sent| - 1].id == seqno
  }

  /** Copies of the last frame at the end of `sent`. */
  function LastCopies(sent: seq<Data>): nat {
    if |sent| < 2 then |sent|
    else if sent[|sent| - 1] == sent[|sent| - 2] then 1 + LastCopies(sent[..|sent| - 1]) else 1
  }

  /** Eleven copies of a line and the client gives up; while it waits, one for each pass begun. */
  predicate RetriesCounted(p: Progress) {
    var c := p.client;
    && (c.phase.Waiting? ==> 1 <= c.phase.remaining <= 10 && LastCopies(p.sent) == 11 - c.phase.remaining)
    && (c.phase.GaveUp? ==> LastCopies(p.sent) == 11)
    && (!c.phase.Ready? ==> p.sent != [] && p.sent[|p.sent| - 1] == c.msg)
    && (c.phase.Ready? ==> LastCopies(p.sent) <= 10)
  }

  lemma NextLineIsInOrder(lines: seq<string>, seqno: nat, sent: seq<Data>)
    requires seqno < |lines| && SendsInOrder(lines, seqno, sent)
    ensures SendsInOrder(lines, seqno + 1, sent + [Frame(lines, seqno + 1)])
    ensures LastCopies(sent + [Frame(lines, seqno + 1)]) == 1
  {
  }

  lemma AdvanceKeepsCount(lines: seq<string>, p: Progress)
    requires SendsInOrder(lines, p.client.seqno, p.sent) && RetriesCounted(p)
    ensures var r := Advance(lines, p); SendsInOrder(lines, r.client.seqno, r.sent) && RetriesCounted(r)
  {
    if p.client.phase.Ready? && p.client.seqno < |lines| {
      NextLineIsInOrder(lines, p.client.seqno, p.sent);
    }
  }

  lemma ResendKeepsCount(lines: seq<string>, c: Client, sent: seq<Data>)
    requires c.phase.Waiting? && SendsInOrder(lines, c.seqno, sent) && RetriesCounted(Progress(c, sent))
    ensures SendsInOrder(lines, c.seqno, sent + [c.msg]) && RetriesCounted(Progress(TimedOut(c), sent + [c.msg]))
  {
    assert (sent + [c.msg])[..|sent|] == sent;
  }

  /** Whatever `select` gives, the client sends its lines in order, and gives up after eleven copies of one. */
  lemma {:induction false} ClientSendsAndRetries(lines: seq<string>, outcomes: seq<Option<Ack>>)
    ensures var p := ClientRun(lines, outcomes);
            SendsInOrder(lines, p.client.seqno, p.sent) && RetriesCounted(p)
  {
    if outcomes == [] {
      AdvanceKeepsCount(lines, Progress(START, []));
    } else {
      ClientSendsAndRetries(lines, outcomes[..|outcomes| - 1]);
      var p, outcome := ClientRun(lines, outcomes[..|outcomes| - 1]), outcomes[|outcomes| - 1];
      if p.client.phase.Waiting? {
        if outcome.None? {
          ResendKeepsCount(lines, p.client, p.sent);
        } else {
          AdvanceKeepsCount(lines, Progress(Received(false, p.client, outcome.value), p.sent));
        }
      }
    }
  }

  /** The nested loops of the client's `main`, run until the outcomes of `select` are used up. */
  method ClientMain(lines: seq<string>, outcomes: seq<Option<Ack>>) returns (final: Client, sent: seq<Data>)
    ensures Progress(final, sent) == ClientRun(lines, outcomes)
    ensures SendsInOrder(lines, final.seqno, sent) && RetriesCounted(Progress(final, sent))
  {
    ClientSendsAndRetries(lines, outcomes);
    sent := [];
    var seqno, msg, k := 0, START.msg, 0;
    while seqno < |lines|
      invariant 0 <= seqno <= |lines| && 0 <= k <= |outcomes|
      invariant ClientRun(lines, outcomes[..k]) == Advance(lines, Progress(Client(seqno, msg, Ready), sent))
    {
      seqno := seqno + 1;
      msg := Frame(lines, seqno);
      sent := sent + [msg];
      var remaining := NRETRIES;
      while remaining > 0
        invariant 0 <= remaining && 0 <= k <= |outcomes|
        invariant ClientRun(lines, outcomes[..k]) ==
          Progress(Client(seqno, msg, if remaining == 0 then GaveUp else Waiting(remaining)), sent)
      {
        if k == |outcomes| {
          assert outcomes[..k] == outcomes;
          return Client(seqno, msg, Waiting(remaining)), sent;
        }
        k := k + 1;
        assert outcomes[..k][..k - 1] == outcomes[..k - 1];
        if outcomes[k - 1].Some? {
          break;
        }
        sent := sent + [msg];
        remaining := remaining - 1;
      }
      if remaining <= 0 {
        StoppedClientStays(lines, outcomes, k);
        return Client(seqno, msg, GaveUp), sent;
      }
    }
    StoppedClientStays(lines, outcomes, k);
    return Client(seqno, msg, Ready), sent;
  }

  /** The server's loop: print every frame received and acknowledge it. */
  method ServerMain(received: seq<Data>) returns (output: seq<string>, acks: seq<Ack>)
    ensures |output| == |acks| == |received|
    ensures forall i :: 0 <= i < |received| ==> output[i] == received[i].payload && acks[i] == Reply(received[i])
    ensures forall i :: 0 <= i < |received| ==> acks[i].mseqn == received[i].mseqn
  {
    output, acks := [], [];
    for i := 0 to |received|
      invariant |output| == |acks| == i
      invariant forall j :: 0 <= j < i ==> output[j] == received[j].payload && acks[j] == Reply(received[j])
    {
      output := output + [received[i].payload];
      acks := acks + [Reply(received[i])];
    }
  }

  // ---------------------------------------------------------------------------------------------
  // Client, server and network
  // ---------------------------------------------------------------------------------------------

  /**
   check: the client compares sequence numbers.  duplicates: the network may copy frames.
   timely: a timeout fires only when nothing is in flight.  Every network may lose, delay and reorder.
   */
  datatype Config = Config(check: bool, duplicates: bool, timely: bool)

  /** `data` and `acks` are in flight; `printed` is the server's output; the rest records history. */
  datatype State = State(client: Client, data: multiset<Data>, acks: multiset<Ack>, printed: seq<Data>,
                         sent: multiset<Data>, lostData: multiset<Data>,
                         acked: multiset<Ack>, lostAcks: multiset<Ack>, taken: multiset<Ack>)

  const INIT := State(START, multiset{}, multiset{}, [], multiset{}, multiset{}, multiset{}, multiset{}, multiset{})

  datatype Step =
    | Send
    | Timeout
    | TakeAck(ack: Ack)
    | Serve(frame: Data)
    | LoseData(frame: Data)
    | LoseAck(ack: Ack)
    | CopyData(frame: Data)
    | CopyAck(ack: Ack)

  predicate Enabled(cfg: Config, lines: seq<string>, s: State, step: Step) {
    match step
    case Send => s.client.phase.Ready? && s.client.seqno < |lines|
    case Timeout =>
      && s.client.phase.Waiting? && 0 < s.client.phase.remaining
      && (cfg.timely ==> s.data == multiset{} && s.acks == multiset{})
    case TakeAck(ack) => s.client.phase.Waiting? && 0 < s.client.phase.remaining && ack in s.acks
    case Serve(frame) => frame in s.data
    case LoseData(frame) => frame in s.data
    case LoseAck(ack) => ack in s.acks
    case CopyData(frame) => cfg.duplicates && frame in s.data
    case CopyAck(ack) => cfg.duplicates && ack in s.acks
  }

  function Apply(cfg: Config, lines: seq<string>, s: State, step: Step): State
    requires Enabled(cfg, lines, s, step)
  {
    match step
    case Send =>
      var c := SendNext(lines, s.client);
      s.(client := c, data := s.data + multiset{c.msg}, sent := s.sent + multiset{c.msg})
    case Timeout =>
      var msg := s.client.msg;
      s.(client := TimedOut(s.client), data := s.data + multiset{msg}, sent := s.sent + multiset{msg})
    case TakeAck(ack) =>
      s.(client := Received(cfg.check, s.client, ack), acks := s.acks - multiset{ack},
         taken := s.taken + multiset{ack})
    case Serve(frame) =>
      s.(data := s.data - multiset{frame}, printed := s.printed + [frame],
         acks := s.acks + multiset{Reply(frame)}, acked := s.acked + multiset{Reply(frame)})
    case LoseData(frame) =>
      s.(data := s.data - multiset{frame}, lostData := s.lostData + multiset{frame})
    case LoseAck(ack) =>
      s.(acks := s.acks - multiset{ack}, lostAcks := s.lostAcks + multiset{ack})
    case CopyData(frame) => s.(data := s.data + multiset{frame})
    case CopyAck(ack) => s.(acks := s.acks + multiset{ack})
  }

  /**
   The network is free to do with a frame in flight what it likes: deliver it, in any order, or lose
   it, or copy it if it duplicates; unless timeouts are timely, they come at any time.
   */
  lemma NetworkIsFree(cfg: Config, lines: seq<string>, s: State, frame: Data, ack: Ack)
    requires frame in s.data && ack in s.acks
    ensures Enabled(cfg, lines, s, Serve(frame)) && Enabled(cfg, lines, s, LoseData(frame))
    ensures Enabled(cfg, lines, s, LoseAck(ack))
    ensures cfg.duplicates ==> Enabled(cfg, lines, s, CopyData(frame)) && Enabled(cfg, lines, s, CopyAck(ack))
    ensures s.client.phase.Waiting? && 1 <= s.client.phase.remaining ==>
      Enabled(cfg, lines, s, TakeAck(ack)) && (!cfg.timely ==> Enabled(cfg, lines, s, Timeout))
    ensures var r := Apply(cfg, lines, s, LoseData(frame));
            multiset{frame} + r.data == s.data && r.acks == s.acks && r.printed == s.printed && r.client == s.client
    ensures var r := Apply(cfg, lines, s, LoseAck(ack));
            multiset{ack} + r.acks == s.acks && r.data == s.data && r.printed == s.printed && r.client == s.client
    ensures var r := Apply(cfg, lines, s, Serve(frame));
            && multiset{frame} + r.data == s.data && r.printed == s.printed + [frame] && r.client == s.client
            && r.acks == s.acks + multiset{Ack(frame.id, frame.mseqn)}
  {
  }

  /** The state after `steps`, if each of them is enabled. */
  function Exec(cfg: Config, lines: seq<string>, steps: seq<Step>): Option<State> {
    if steps == [] then Some(INIT)
    else
      var before := Exec(cfg, lines, steps[..|steps| - 1]);
      var step := steps[|steps| - 1];
      if before.Some? && Enabled(cfg, lines, before.value, step)
      then Some(Apply(cfg, lines, before.value, step)) else None
  }

  /** What the calls of `select` in `steps` gave the client. */
  function Outcomes(steps: seq<Step>): seq<Option<Ack>> {
    if steps == [] then [] else Outcomes(steps[..|steps| - 1]) + OutcomeOf(steps[|steps| - 1])
  }

  lemma OutcomesAppend(lines: seq<string>, outcomes: seq<Option<Ack>>, outcome: Option<Ack>, p: Progress)
    requires ClientRun(lines, outcomes) == p && p.client.phase.Waiting? && 0 < p.client.phase.remaining
    ensures ClientRun(lines, outcomes + [outcome]) ==
              if outcome.None? then Progress(TimedOut(p.client), p.sent + [p.client.msg])
              else Advance(lines, Progress(Received(false, p.client, outcome.value), p.sent))
  {
  }

  /** The client of `s` is where its program is after `outcomes`, about to read a line or waiting. */
  predicate FollowsProgram(lines: seq<string>, s: State, outcomes: seq<Option<Ack>>, sent: seq<Data>) {
    && multiset(sent) == s.sent
    && ClientRun(lines, outcomes) == Advance(lines, Progress(s.client, sent))
  }

  function OutcomeOf(step: Step): seq<Option<Ack>> {
    match step
    case Timeout => [None]
    case TakeAck(ack) => [Some(ack)]
    case _ => []
  }

  lemma StepFollowsProgram(cfg: Config, lines: seq<string>, s: State, step: Step,
                           outcomes: seq<Option<Ack>>, sent: seq<Data>)
    returns (sent': seq<Data>)
    requires !cfg.check && Enabled(cfg, lines, s, step) && FollowsProgram(lines, s, outcomes, sent)
    ensures FollowsProgram(lines, Apply(cfg, lines, s, step), outcomes + OutcomeOf(step), sent')
  {
    var p := Progress(s.client, sent);
    sent' := sent;
    assert outcomes + [] == outcomes;
    match step {
      case Send =>
        sent' := sent + [SendNext(lines, s.client).msg];
      case Timeout =>
        OutcomesAppend(lines, outcomes, None, p);
        sent' := sent + [s.client.msg];
      case TakeAck(ack) =>
        OutcomesAppend(lines, outcomes, Some(ack), p);
      case _ =>
    }
  }

  /** In every run the unchecking client does what its program does for the same calls of `select`. */
  lemma {:induction false} ClientFollowsItsProgram(cfg: Config, lines: seq<string>, steps: seq<Step>)
    returns (sent: seq<Data>)
    requires !cfg.check && Exec(cfg, lines, steps).Some?
    ensures FollowsProgram(lines, Exec(cfg, lines, steps).value, Outcomes(steps), sent)
  {
    if steps == [] {
      sent := [];
    } else {
      var init := steps[..|steps| - 1];
      sent := ClientFollowsItsProgram(cfg, lines, init);
      sent := StepFollowsProgram(cfg, lines, Exec(cfg, lines, init).value, steps[|steps| - 1], Outcomes(init), sent);
    }
  }

  // ---------------------------------------------------------------------------------------------
  // What every step keeps
  // ---------------------------------------------------------------------------------------------

  /** A frame that the client has sent for one of its first `seqno` lines. */
  predicate Genuine(lines: seq<string>, seqno: nat, frame: Data) {
    seqno <= |lines| && 1 <= frame.id <= seqno && frame == Frame(lines, frame.id)
  }

  ghost predicate Printed(printed: seq<Data>, id: nat) {
    exists i :: 0 <= i < |printed| && printed[i].id == id
  }

  ghost predicate AckedFramePrinted(s: State, ack: Ack) {
    1 <= ack.id <= s.client.seqno && ack.mseqn == ack.id % SEQN_MOD && Printed(s.printed, ack.id)
  }

  /** Only frames of the client are around, and only printed frames are acknowledged. */
  ghost predicate Authentic(lines: seq<string>, s: State) {
    var seqno := s.client.seqno;
    && seqno <= |lines|
    && (seqno == 0 ==> s.client.phase.Ready?)
    && (0 < seqno ==> s.client.msg == Frame(lines, seqno))
    && (forall f :: f in s.data ==> Genuine(lines, seqno, f))
    && (forall i :: 0 <= i < |s.printed| ==> Genuine(lines, seqno, s.printed[i]))
    && (forall a :: a in s.acks ==> AckedFramePrinted(s, a))
  }

  lemma ClientMessageStaysGenuine(cfg: Config, lines: seq<string>, s: State, step: Step)
    requires Enabled(cfg, lines, s, step) && Authentic(lines, s)
    ensures var c := Apply(cfg, lines, s, step).client;
            && s.client.seqno <= c.seqno <= |lines|
            && (c.seqno == 0 ==> c.phase.Ready?)
            && (0 < c.seqno ==> Genuine(lines, c.seqno, c.msg) && c.msg.id == c.seqno)
  {
    match step
    case Send =>
      assert Apply(cfg, lines, s, step).client == SendNext(lines, s.client);
    case Timeout =>
      assert Apply(cfg, lines, s, step).client == TimedOut(s.client);
    case TakeAck(ack) =>
      assert Apply(cfg, lines, s, step).client == Received(cfg.check, s.client, ack);
    case _ =>
      assert Apply(cfg, lines, s, step).client == s.client;
  }

  lemma StepKeepsFramesGenuine(cfg: Config, lines: seq<string>, s: State, step: Step)
    requires Enabled(cfg, lines, s, step) && Authentic(lines, s)
    ensures var s' := Apply(cfg, lines, s, step);
            && (forall f :: f in s'.data ==> Genuine(lines, s'.client.seqno, f))
            && (forall i :: 0 <= i < |s'.printed| ==> Genuine(lines, s'.client.seqno, s'.printed[i]))
  {
    ClientMessageStaysGenuine(cfg, lines, s, step);
    var s' := Apply(cfg, lines, s, step);
    forall f | f in s'.data
      ensures Genuine(lines, s'.client.seqno, f)
    {
      if f !in s.data {
        assert f == s'.client.msg;
      }
    }
    forall i | 0 <= i < |s'.printed|
      ensures Genuine(lines, s'.client.seqno, s'.printed[i])
    {
      if i < |s.printed| {
        assert s'.printed[i] == s.printed[i];
      }
    }
  }

  lemma StepKeepsAcksPrinted(cfg: Config, lines: seq<string>, s: State, step: Step)
    requires Enabled(cfg, lines, s, step) && Authentic(lines, s)
    ensures var s' := Apply(cfg, lines, s, step);
            forall a :: a in s'.acks ==> AckedFramePrinted(s', a)
  {
    var s' := Apply(cfg, lines, s, step);
    forall a | a in s'.acks
      ensures AckedFramePrinted(s', a)
    {
      if a in s.acks {
        var i :| 0 <= i < |s.printed| && s.printed[i].id == a.id;
        assert s'.printed[i] == s.printed[i];
      } else {
        assert step.Serve? && s'.printed[|s.printed|] == step.frame;
      }
    }
  }

  lemma StepKeepsAuthentic(cfg: Config, lines: seq<string>, s: State, step: Step)
    requires Enabled(cfg, lines, s, step) && Authentic(lines, s)
    ensures Authentic(lines, Apply(cfg, lines, s, step))
  {
    ClientMessageStaysGenuine(cfg, lines, s, step);
    StepKeepsFramesGenuine(cfg, lines, s, step);
    StepKeepsAcksPrinted(cfg, lines, s, step);
  }

  /** At most one frame in flight, carrying the current number, and none between two lines. */
  predicate OneInFlight(s: State) {
    && |s.data| + |s.acks| <= 1
    && (s.client.phase.Ready? ==> |s.data| + |s.acks| == 0)
    && (forall f :: f in s.data ==> f.id == s.client.seqno)
    && (forall a :: a in s.acks ==> a.id == s.client.seqno)
  }

  lemma SendKeepsOneInFlight(cfg: Config, lines: seq<string>, s: State, step: Step)
    requires (step.Send? || step.Timeout?) && Enabled(cfg, lines, s, step) && cfg.timely && OneInFlight(s)
    requires step.Timeout? ==> s.client.msg.id == s.client.seqno
    ensures OneInFlight(Apply(cfg, lines, s, step))
  {
    assert s.data == multiset{} && s.acks == multiset{};
  }

  lemma ServeKeepsOneInFlight(cfg: Config, lines: seq<string>, s: State, step: Step)
    requires step.Serve? && Enabled(cfg, lines, s, step) && OneInFlight(s)
    ensures OneInFlight(Apply(cfg, lines, s, step))
  {
    assert |s.data - multiset{step.frame}| == |s.data| - 1;
  }

  lemma TakeAckKeepsOneInFlight(cfg: Config, lines: seq<string>, s: State, step: Step)
    requires step.TakeAck? && Enabled(cfg, lines, s, step) && OneInFlight(s)
    ensures OneInFlight(Apply(cfg, lines, s, step))
  {
    assert |s.acks - multiset{step.ack}| == |s.acks| - 1;
  }

  lemma LoseDataKeepsOneInFlight(cfg: Config, lines: seq<string>, s: State, step: Step)
    requires step.LoseData? && Enabled(cfg, lines, s, step) && OneInFlight(s)
    ensures OneInFlight(Apply(cfg, lines, s, step))
  {
    assert |s.data - multiset{step.frame}| == |s.data| - 1;
  }

  lemma LoseAckKeepsOneInFlight(cfg: Config, lines: seq<string>, s: State, step: Step)
    requires step.LoseAck? && Enabled(cfg, lines, s, step) && OneInFlight(s)
    ensures OneInFlight(Apply(cfg, lines, s, step))
  {
    assert |s.acks - multiset{step.ack}| == |s.acks| - 1;
  }

  lemma StepKeepsOneInFlight(cfg: Config, lines: seq<string>, s: State, step: Step)
    requires cfg.timely && !cfg.duplicates
    requires Enabled(cfg, lines, s, step) && Authentic(lines, s) && OneInFlight(s)
    ensures OneInFlight(Apply(cfg, lines, s, step))
  {
    match step
    case Send => SendKeepsOneInFlight(cfg, lines, s, step);
    case Timeout => SendKeepsOneInFlight(cfg, lines, s, step);
    case Serve(_) => ServeKeepsOneInFlight(cfg, lines, s, step);
    case TakeAck(_) => TakeAckKeepsOneInFlight(cfg, lines, s, step);
    case LoseData(_) => LoseDataKeepsOneInFlight(cfg, lines, s, step);
    case LoseAck(_) => LoseAckKeepsOneInFlight(cfg, lines, s, step);
  }

  /** How many lines a client can tell apart by the sequence numbers it looks at. */
  function Window(cfg: Config): nat { if cfg.check then SEQN_MOD else 1 }

  /** What makes every acknowledgement taken belong to the current line. */
  predicate Sound(cfg: Config, lines: seq<string>) {
    |lines| <= Window(cfg) || (cfg.timely && !cfg.duplicates)
  }

  lemma AcceptedAckIsCurrent(cfg: Config, lines: seq<string>, s: State, ack: Ack)
    requires Sound(cfg, lines) && Authentic(lines, s) && ack in s.acks
    requires cfg.timely && !cfg.duplicates ==> OneInFlight(s)
    requires Accepts(cfg.check, s.client, ack)
    ensures ack.id == s.client.seqno
  {
  }

  // ---------------------------------------------------------------------------------------------
  // First occurrences in the output
  // ---------------------------------------------------------------------------------------------

  function Key(bySeqn: bool, f: Data): nat { if bySeqn then f.mseqn else f.id }

  predicate Seen(bySeqn: bool, frames: seq<Data>, key: nat) {
    exists i :: 0 <= i < |frames| && Key(bySeqn, frames[i]) == key
  }

  /** The frames whose key has not occurred before. */
  function Firsts(bySeqn: bool, frames: seq<Data>): seq<Data> {
    if frames == [] then []
    else
      var init, last := frames[..|frames| - 1], frames[|frames| - 1];
      if Seen(bySeqn, init, Key(bySeqn, last)) then Firsts(bySeqn, init) else Firsts(bySeqn, init) + [last]
  }

  lemma {:induction false} FirstsHaveTheSameKeys(bySeqn: bool, frames: seq<Data>, key: nat)
    ensures Seen(bySeqn, Firsts(bySeqn, frames), key) <==> Seen(bySeqn, frames, key)
  {
    if frames == [] {
    } else {
      var init, last := frames[..|frames| - 1], frames[|frames| - 1];
      var firsts := Firsts(bySeqn, init);
      FirstsHaveTheSameKeys(bySeqn, init, key);
      FirstsHaveTheSameKeys(bySeqn, init, Key(bySeqn, last));
      assert frames == init + [last];
      SeenInConcatenation(bySeqn, init, last, key);
      SeenInConcatenation(bySeqn, firsts, last, key);
    }
  }

  /** No frame before position `i` has its key. */
  predicate IsFirst(bySeqn: bool, frames: seq<Data>, i: nat)
    requires i < |frames|
  {
    forall h :: 0 <= h < i ==> Key(bySeqn, frames[h]) != Key(bySeqn, frames[i])
  }

  lemma FirstsOfPrefix(bySeqn: bool, frames: seq<Data>, n: nat)
    requires n + 1 == |frames|
    ensures forall i :: 0 <= i < n ==> (IsFirst(bySeqn, frames[..n], i) <==> IsFirst(bySeqn, frames, i))
    ensures IsFirst(bySeqn, frames, n) <==> !Seen(bySeqn, frames[..n], Key(bySeqn, frames[n]))
  {
    var init := frames[..n];
    forall i | 0 <= i < n
      ensures IsFirst(bySeqn, init, i) <==> IsFirst(bySeqn, frames, i)
    {
      assert forall h :: 0 <= h <= i ==> init[h] == frames[h];
    }
    assert forall h :: 0 <= h < n ==> init[h] == frames[h];
  }

  /** `Firsts` lists, in order, the frames at the positions whose key has not occurred before. */
  lemma {:induction false} FirstsAreFirstOccurrences(bySeqn: bool, frames: seq<Data>) returns (at: seq<nat>)
    ensures |at| == |Firsts(bySeqn, frames)|
    ensures forall j :: 0 <= j < |at| ==> at[j] < |frames| && frames[at[j]] == Firsts(bySeqn, frames)[j]
    ensures forall j, k :: 0 <= j < k < |at| ==> at[j] < at[k]
    ensures forall i :: 0 <= i < |frames| ==> (i in at <==> IsFirst(bySeqn, frames, i))
  {
    if frames == [] {
      at := [];
    } else {
      var n := |frames| - 1;
      var before := FirstsAreFirstOccurrences(bySeqn, frames[..n]);
      FirstsOfPrefix(bySeqn, frames, n);
      if Seen(bySeqn, frames[..n], Key(bySeqn, frames[n])) {
        at := before;
      } else {
        at := before + [n];
      }
    }
  }

  lemma SeenInConcatenation(bySeqn: bool, frames: seq<Data>, f: Data, key: nat)
    ensures Seen(bySeqn, frames + [f], key) <==> Seen(bySeqn, frames, key) || Key(bySeqn, f) == key
  {
    var all := frames + [f];
    assert all[|frames|] == f;
    assert forall i :: 0 <= i < |frames| ==> all[i] == frames[i];
  }

  lemma SeenBySeqnOrById(lines: seq<string>, frames: seq<Data>, f: Data)
    requires |lines| <= SEQN_MOD && Genuine(lines, |lines|, f)
    requires forall i :: 0 <= i < |frames| ==> Genuine(lines, |lines|, frames[i])
    ensures Seen(true, frames, Key(true, f)) <==> Seen(false, frames, Key(false, f))
  {
  }

  /** While sequence numbers do not wrap, they tell the client's frames apart as well as `id` does. */
  lemma {:induction false} FirstsBySeqnAreFirstsById(lines: seq<string>, frames: seq<Data>)
    requires |lines| <= SEQN_MOD
    requires forall i :: 0 <= i < |frames| ==> Genuine(lines, |lines|, frames[i])
    ensures Firsts(true, frames) == Firsts(false, frames)
  {
    if frames == [] {
    } else {
      var init, last := frames[..|frames| - 1], frames[|frames| - 1];
      assert forall i :: 0 <= i < |init| ==> init[i] == frames[i];
      FirstsBySeqnAreFirstsById(lines, init);
      SeenBySeqnOrById(lines, init, last);
    }
  }

  /** The frames of the first `n` lines. */
  function Frames(lines: seq<string>, n: nat): seq<Data>
    requires n <= |lines|
  {
    seq(n, i requires 0 <= i < n => Frame(lines, i + 1))
  }

  /**
   First occurrences in the output are the frames of a prefix of the lines, in order, which covers
   every message the client has moved past and none that it has not sent.
   */
  predicate Delivered(lines: seq<string>, s: State) {
    var firsts := Firsts(false, s.printed);
    && s.client.Completed() <= |firsts| <= s.client.seqno <= |lines|
    && firsts == Frames(lines, |firsts|)
  }

  /** Printing a frame that is no more than one line ahead of the prefix. */
  lemma PrintingExtendsPrefix(lines: seq<string>, printed: seq<Data>, frame: Data, n: nat)
    requires n <= |lines| && Firsts(false, printed) == Frames(lines, n)
    requires Genuine(lines, |lines|, frame) && frame.id <= n + 1
    ensures Firsts(false, printed + [frame]) == Frames(lines, if frame.id <= n then n else n + 1)
  {
    var firsts := Firsts(false, printed);
    assert (printed + [frame])[..|printed|] == printed;
    FirstsHaveTheSameKeys(false, printed, frame.id);
    if frame.id <= n {
      assert Key(false, firsts[frame.id - 1]) == frame.id;
    } else {
      assert !Seen(false, firsts, frame.id);
      assert Frames(lines, n + 1) == Frames(lines, n) + [frame];
    }
  }

  lemma PrintedIdIsAmongFirsts(lines: seq<string>, printed: seq<Data>, id: nat)
    requires Printed(printed, id)
    requires |Firsts(false, printed)| <= |lines| && Firsts(false, printed) == Frames(lines, |Firsts(false, printed)|)
    ensures id <= |Firsts(false, printed)|
  {
    var i :| 0 <= i < |printed| && printed[i].id == id;
    assert Key(false, printed[i]) == id;
    FirstsHaveTheSameKeys(false, printed, id);
  }

  /** All that holds in every reachable state. */
  ghost predicate Invariant(cfg: Config, lines: seq<string>, s: State) {
    && Authentic(lines, s)
    && Delivered(lines, s)
    && (cfg.timely && !cfg.duplicates ==> OneInFlight(s))
  }

  lemma StepKeepsDelivered(cfg: Config, lines: seq<string>, s: State, step: Step)
    requires Enabled(cfg, lines, s, step) && Delivered(lines, s)
    requires step.Serve? ==> Genuine(lines, s.client.seqno, step.frame)
    requires step.TakeAck? && Accepts(cfg.check, s.client, step.ack) ==>
      s.client.seqno <= |Firsts(false, s.printed)|
    ensures Delivered(lines, Apply(cfg, lines, s, step))
  {
    if step.Serve? {
      PrintingExtendsPrefix(lines, s.printed, step.frame, |Firsts(false, s.printed)|);
    }
  }

  lemma StepKeepsInvariant(cfg: Config, lines: seq<string>, s: State, step: Step)
    requires Sound(cfg, lines) && Enabled(cfg, lines, s, step) && Invariant(cfg, lines, s)
    ensures Invariant(cfg, lines, Apply(cfg, lines, s, step))
  {
    StepKeepsAuthentic(cfg, lines, s, step);
    if cfg.timely && !cfg.duplicates {
      StepKeepsOneInFlight(cfg, lines, s, step);
    }
    if step.TakeAck? && Accepts(cfg.check, s.client, step.ack) {
      AcceptedAckIsCurrent(cfg, lines, s, step.ack);
      PrintedIdIsAmongFirsts(lines, s.printed, step.ack.id);
    }
    StepKeepsDelivered(cfg, lines, s, step);
  }

  /** Safety over whole runs, for every network that `cfg` allows. */
  lemma {:induction false} ReachableInvariant(cfg: Config, lines: seq<string>, steps: seq<Step>)
    requires Sound(cfg, lines) && Exec(cfg, lines, steps).Some?
    ensures Invariant(cfg, lines, Exec(cfg, lines, steps).value)
  {
    if steps == [] {
    } else {
      var init := steps[..|steps| - 1];
      ReachableInvariant(cfg, lines, init);
      StepKeepsInvariant(cfg, lines, Exec(cfg, lines, init).value, steps[|steps| - 1]);
    }
  }

  lemma DeliveredBySeqn(lines: seq<string>, s: State)
    requires |lines| <= SEQN_MOD && Delivered(lines, s)
    requires forall i :: 0 <= i < |s.printed| ==> Genuine(lines, s.client.seqno, s.printed[i])
    ensures var firsts := Firsts(true, s.printed);
            && s.client.Completed() <= |firsts| <= |lines|
            && (forall i :: 0 <= i < |firsts| ==> firsts[i].payload == lines[i])
  {
    FirstsBySeqnAreFirstsById(lines, s.printed);
  }

  /**
   A checking client on an arbitrary network: by sequence number, the first occurrences in the
   server's output are a prefix of the lines, in order, covering all that the client moved past.
   */
  lemma CheckingClientDeliversInOrder(cfg: Config, lines: seq<string>, steps: seq<Step>)
    requires cfg.check && |lines| <= 0x1_0000_0000 && Exec(cfg, lines, steps).Some?
    ensures var s := Exec(cfg, lines, steps).value;
            var firsts := Firsts(true, s.printed);
            && s.client.Completed() <= |firsts| <= |lines|
            && (forall i :: 0 <= i < |firsts| ==> firsts[i].payload == lines[i])
  {
    ReachableInvariant(cfg, lines, steps);
    DeliveredBySeqn(lines, Exec(cfg, lines, steps).value);
  }

  /**
   The client as written, when a timeout fires only with nothing in flight: every acknowledgement
   it can take is for the current message, and every message it moves past has been printed.
   */
  lemma TimelyClientNeedsNoCheck(cfg: Config, lines: seq<string>, steps: seq<Step>)
    requires !cfg.check && cfg.timely && !cfg.duplicates && Exec(cfg, lines, steps).Some?
    ensures var s := Exec(cfg, lines, steps).value;
            && |s.data| + |s.acks| <= 1
            && (forall f :: f in s.data ==> f == s.client.msg)
            && (forall a :: a in s.acks ==> a == Reply(s.client.msg))
            && (forall k :: 1 <= k <= s.client.Completed() ==> Printed(s.printed, k))
  {
    ReachableInvariant(cfg, lines, steps);
    DeliveredMeansPrinted(lines, Exec(cfg, lines, steps).value);
  }

  lemma DeliveredMeansPrinted(lines: seq<string>, s: State)
    requires Delivered(lines, s)
    ensures forall k :: 1 <= k <= s.client.Completed() ==> Printed(s.printed, k)
  {
    var firsts := Firsts(false, s.printed);
    forall k: nat | 1 <= k <= s.client.Completed()
      ensures Printed(s.printed, k)
    {
      assert Key(false, firsts[k - 1]) == k;
      FirstsHaveTheSameKeys(false, s.printed, k);
      var i :| 0 <= i < |s.printed| && Key(false, s.printed[i]) == k;
    }
  }

  // ---------------------------------------------------------------------------------------------
  // Exactly when it works
  // ---------------------------------------------------------------------------------------------

  ghost predicate Reachable(cfg: Config, lines: seq<string>, s: State) {
    exists steps :: Exec(cfg, lines, steps) == Some(s)
  }

  /** Whatever happens, every message the client has moved past has been printed. */
  ghost predicate AlwaysCovered(cfg: Config, lines: seq<string>) {
    forall s, k: nat :: Reachable(cfg, lines, s) && 1 <= k <= s.client.Completed() ==> Printed(s.printed, k)
  }

  lemma ReachStep(cfg: Config, lines: seq<string>, s: State, step: Step) returns (s': State)
    requires Reachable(cfg, lines, s) && Enabled(cfg, lines, s, step)
    ensures s' == Apply(cfg, lines, s, step) && Reachable(cfg, lines, s')
  {
    s' := Apply(cfg, lines, s, step);
    var steps :| Exec(cfg, lines, steps) == Some(s);
    assert (steps + [step])[..|steps|] == steps;
    assert Exec(cfg, lines, steps + [step]) == Some(s');
  }

  lemma ReachBySending(cfg: Config, lines: seq<string>, s: State) returns (s': State)
    requires Reachable(cfg, lines, s) && s.client.phase.Ready? && s.client.seqno < |lines|
    ensures Reachable(cfg, lines, s') && s'.printed == s.printed && s'.acks == s.acks
    ensures s'.client == SendNext(lines, s.client) && s'.data == s.data + multiset{s'.client.msg}
  {
    s' := ReachStep(cfg, lines, s, Send);
  }

  lemma ReachByServing(cfg: Config, lines: seq<string>, s: State, frame: Data) returns (s': State)
    requires Reachable(cfg, lines, s) && frame in s.data
    ensures Reachable(cfg, lines, s') && s'.printed == s.printed + [frame] && s'.client == s.client
    ensures s'.data == s.data - multiset{frame} && s'.acks == s.acks + multiset{Reply(frame)}
  {
    s' := ReachStep(cfg, lines, s, Serve(frame));
  }

  lemma ReachByTaking(cfg: Config, lines: seq<string>, s: State, ack: Ack) returns (s': State)
    requires Reachable(cfg, lines, s) && ack in s.acks && Accepts(cfg.check, s.client, ack)
    requires s.client.phase.Waiting? && 0 < s.client.phase.remaining
    ensures Reachable(cfg, lines, s') && s'.printed == s.printed && s'.data == s.data
    ensures s'.client == s.client.(phase := Ready) && s'.acks == s.acks - multiset{ack}
  {
    s' := ReachStep(cfg, lines, s, TakeAck(ack));
  }

  /** A second copy of the only frame in flight, made by the network or by an early timeout. */
  lemma ReachByCopying(cfg: Config, lines: seq<string>, s: State) returns (s': State)
    requires Reachable(cfg, lines, s) && (!cfg.timely || cfg.duplicates)
    requires s.client.phase == Waiting(NRETRIES) && s.client.msg in s.data
    ensures Reachable(cfg, lines, s') && s'.printed == s.printed && s'.acks == s.acks
    ensures s'.data == s.data + multiset{s.client.msg}
    ensures s'.client.phase.Waiting? && 0 < s'.client.phase.remaining
    ensures s'.client == s.client.(phase := s'.client.phase)
  {
    s' := ReachStep(cfg, lines, s, if cfg.duplicates then CopyData(s.client.msg) else Timeout);
  }

  /** At the end of line `k`, with only `acks` in flight and nothing later printed. */
  ghost predicate EndOfLine(lines: seq<string>, s: State, k: nat, acks: multiset<Ack>) {
    && s.client.phase == Ready && s.client.seqno == k && s.data == multiset{} && s.acks == acks
    && forall i :: 0 <= i < |s.printed| ==> s.printed[i].id <= k
  }

  /** Line `k` is sent, printed and acknowledged, and the client moves on. */
  lemma LineGoesThrough(cfg: Config, lines: seq<string>, s: State, k: nat, acks: multiset<Ack>)
    returns (s': State)
    requires 1 <= k <= |lines| && Reachable(cfg, lines, s) && EndOfLine(lines, s, k - 1, acks)
    ensures Reachable(cfg, lines, s') && EndOfLine(lines, s', k, acks)
  {
    var s1 := ReachBySending(cfg, lines, s);
    var s2 := ReachByServing(cfg, lines, s1, s1.client.msg);
    s' := ReachByTaking(cfg, lines, s2, Reply(s1.client.msg));
  }

  /** Line 1 is printed and acknowledged twice, and one acknowledgement stays under way. */
  lemma FirstLineAckedTwice(cfg: Config, lines: seq<string>) returns (s: State)
    requires 1 <= |lines| && (!cfg.timely || cfg.duplicates)
    ensures Reachable(cfg, lines, s) && EndOfLine(lines, s, 1, multiset{Reply(Frame(lines, 1))})
  {
    assert Exec(cfg, lines, []) == Some(INIT);
    var s1 := ReachBySending(cfg, lines, INIT);
    var s2 := ReachByCopying(cfg, lines, s1);
    s := TwoCopiesGoThrough(cfg, lines, s2, s2.client.msg);
  }

  lemma TwoCopiesGoThrough(cfg: Config, lines: seq<string>, s: State, frame: Data) returns (s': State)
    requires Reachable(cfg, lines, s) && s.printed == [] && s.client.msg == frame
    requires s.data == multiset{frame, frame} && s.acks == multiset{}
    requires s.client.phase.Waiting? && 0 < s.client.phase.remaining
    ensures Reachable(cfg, lines, s') && s'.client == s.client.(phase := Ready)
    ensures s'.data == multiset{} && s'.acks == multiset{Reply(frame)} && s'.printed == [frame, frame]
  {
    var s1 := ReachByServing(cfg, lines, s, frame);
    var s2 := ReachByServing(cfg, lines, s1, frame);
    s' := ReachByTaking(cfg, lines, s2, Reply(frame));
  }

  lemma {:induction false} StaleAckSurvives(cfg: Config, lines: seq<string>, k: nat) returns (s: State)
    requires 1 <= k <= |lines| && (!cfg.timely || cfg.duplicates)
    ensures Reachable(cfg, lines, s) && EndOfLine(lines, s, k, multiset{Reply(Frame(lines, 1))})
  {
    if k == 1 {
      s := FirstLineAckedTwice(cfg, lines);
    } else {
      s := StaleAckSurvives(cfg, lines, k - 1);
      s := LineGoesThrough(cfg, lines, s, k, multiset{Reply(Frame(lines, 1))});
    }
  }

  /** The first sequence number comes round again after `Window(cfg)` lines. */
  lemma WindowWraps(cfg: Config, lines: seq<string>, c: Client)
    requires Window(cfg) < |lines| && c.msg == Frame(lines, Window(cfg) + 1)
    ensures Accepts(cfg.check, c, Reply(Frame(lines, 1)))
  {
  }

  /** The stale acknowledgement is taken for line `Window(cfg) + 1`, which was never printed. */
  lemma StaleAckTakenForAnotherLine(cfg: Config, lines: seq<string>, k: nat) returns (s: State)
    requires !Sound(cfg, lines) && k == Window(cfg)
    ensures Reachable(cfg, lines, s)
    ensures s.client.Completed() == k + 1 && !Printed(s.printed, k + 1)
  {
    assert 1 <= k < |lines| && (!cfg.timely || cfg.duplicates);
    var stale := Reply(Frame(lines, 1));
    var s1 := StaleAckSurvives(cfg, lines, k);
    var s2 := ReachBySending(cfg, lines, s1);
    assert Accepts(cfg.check, s2.client, stale) by {
      WindowWraps(cfg, lines, s2.client);
    }
    s := ReachByTaking(cfg, lines, s2, stale);
  }

  /**
   The protocol covers every line the client moves past exactly when the lines do not outnumber the
   sequence numbers that the client looks at, or timeouts are timely and nothing is duplicated.
   */
  lemma CoveredExactlyWhenSound(cfg: Config, lines: seq<string>)
    ensures AlwaysCovered(cfg, lines) <==>
              |lines| <= (if cfg.check then 0x1_0000_0000 else 1) || (cfg.timely && !cfg.duplicates)
  {
    if Sound(cfg, lines) {
      forall s, k: nat | Reachable(cfg, lines, s) && 1 <= k <= s.client.Completed()
        ensures Printed(s.printed, k)
      {
        var steps :| Exec(cfg, lines, steps) == Some(s);
        ReachableInvariant(cfg, lines, steps);
        DeliveredMeansPrinted(lines, s);
      }
    } else {
      var s := StaleAckTakenForAnotherLine(cfg, lines, Window(cfg));
    }
  }

  // ---------------------------------------------------------------------------------------------
  // Conservation of frames
  // ---------------------------------------------------------------------------------------------

  /** Copies of a message sent so far, for each state of the retry loop. */
  function CopiesSent(phase: Phase): nat {
    match phase
    case Ready => 1 + NRETRIES
    case Waiting(remaining) => if remaining <= NRETRIES then 1 + NRETRIES - remaining else 0
    case GaveUp => 1 + NRETRIES
  }

  /** No message is sent more than 1 + NRETRIES times, on any network. */
  ghost predicate RetriesBounded(lines: seq<string>, s: State) {
    var c := s.client;
    && c.seqno <= |lines|
    && (c.phase.Waiting? ==> 0 < c.phase.remaining <= NRETRIES)
    && (c.seqno == 0 ==> c.phase.Ready?)
    && (0 < c.seqno ==> c.msg.id == c.seqno && s.sent[c.msg] <= CopiesSent(c.phase))
    && (forall f :: f in s.sent ==> 1 <= f.id <= c.seqno && s.sent[f] <= 1 + NRETRIES)
  }

  lemma StepKeepsRetriesBounded(cfg: Config, lines: seq<string>, s: State, step: Step)
    requires Enabled(cfg, lines, s, step) && RetriesBounded(lines, s)
    ensures RetriesBounded(lines, Apply(cfg, lines, s, step))
  {
    var s' := Apply(cfg, lines, s, step);
    assert forall f :: f in s'.sent ==> f in s.sent || f == s'.client.msg;
    assert forall f :: f != s'.client.msg ==> s'.sent[f] == s.sent[f];
  }

  lemma {:induction false} CopiesAreBounded(cfg: Config, lines: seq<string>, steps: seq<Step>)
    requires Exec(cfg, lines, steps).Some?
    ensures RetriesBounded(lines, Exec(cfg, lines, steps).value)
  {
    if steps == [] {
    } else {
      var init := steps[..|steps| - 1];
      CopiesAreBounded(cfg, lines, init);
      StepKeepsRetriesBounded(cfg, lines, Exec(cfg, lines, init).value, steps[|steps| - 1]);
    }
  }

  /**
   How many copies of the current message are out: one for its start and one for each of the timeouts
   so far.  The client gives up after eleven, and never completes a message after more than ten.
   */
  ghost predicate CopiesCounted(s: State) {
    var c := s.client;
    && (forall f :: f in s.sent ==> 1 <= f.id <= c.seqno)
    && (c.seqno == 0 ==> c.phase.Ready?)
    && (0 < c.seqno ==> c.msg.id == c.seqno)
    && (c.phase.Waiting? ==> 1 <= c.phase.remaining <= 10 && s.sent[c.msg] == 11 - c.phase.remaining)
    && (c.phase.GaveUp? ==> s.sent[c.msg] == 11)
    && (c.phase.Ready? && 0 < c.seqno ==> 1 <= s.sent[c.msg] <= 10)
  }

  lemma StepKeepsCopiesCounted(cfg: Config, lines: seq<string>, s: State, step: Step)
    requires Enabled(cfg, lines, s, step) && CopiesCounted(s)
    ensures CopiesCounted(Apply(cfg, lines, s, step))
  {
    var s' := Apply(cfg, lines, s, step);
    if step.Send? {
      assert s'.client.msg !in s.sent;
    }
    assert forall f :: f in s'.sent ==> f in s.sent || f == s'.client.msg;
  }

  /** In every run, on any network, the client sends a message again after each of ten timeouts, and then gives up. */
  lemma {:induction false} CopiesAreExact(cfg: Config, lines: seq<string>, steps: seq<Step>)
    requires Exec(cfg, lines, steps).Some?
    ensures CopiesCounted(Exec(cfg, lines, steps).value)
  {
    if steps == [] {
    } else {
      var init := steps[..|steps| - 1];
      CopiesAreExact(cfg, lines, init);
      StepKeepsCopiesCounted(cfg, lines, Exec(cfg, lines, init).value, steps[|steps| - 1]);
    }
  }

  function Replies(printed: seq<Data>): seq<Ack> {
    seq(|printed|, i requires 0 <= i < |printed| => Reply(printed[i]))
  }

  predicate DataConserved(s: State) {
    s.sent == multiset(s.printed) + s.data + s.lostData
  }

  predicate AcksConserved(s: State) {
    && s.acked == multiset(Replies(s.printed))
    && s.acked == s.acks + s.lostAcks + s.taken
  }

  predicate Conserved(cfg: Config, s: State) {
    && DataConserved(s)
    && AcksConserved(s)
    && (s.client.seqno == 0 ==> s.client.phase.Ready?)
    && (!cfg.check ==> |s.taken| == s.client.Completed())
  }

  lemma StepKeepsDataConserved(cfg: Config, lines: seq<string>, s: State, step: Step)
    requires Enabled(cfg, lines, s, step) && !cfg.duplicates && DataConserved(s)
    ensures DataConserved(Apply(cfg, lines, s, step))
  {
  }

  lemma ServeKeepsAcksConserved(cfg: Config, lines: seq<string>, s: State, frame: Data)
    requires frame in s.data && AcksConserved(s)
    ensures AcksConserved(Apply(cfg, lines, s, Serve(frame)))
  {
    assert Replies(s.printed + [frame]) == Replies(s.printed) + [Reply(frame)];
    assert s.acked + multiset{Reply(frame)} == (s.acks + multiset{Reply(frame)}) + s.lostAcks + s.taken;
  }

  lemma MovingAckKeepsSum(acks: multiset<Ack>, others: multiset<Ack>, ack: Ack)
    requires ack in acks
    ensures (acks - multiset{ack}) + (others + multiset{ack}) == acks + others
  {
  }

  lemma StepKeepsAcksConserved(cfg: Config, lines: seq<string>, s: State, step: Step)
    requires Enabled(cfg, lines, s, step) && !cfg.duplicates && AcksConserved(s)
    ensures AcksConserved(Apply(cfg, lines, s, step))
  {
    match step
    case Serve(frame) =>
      ServeKeepsAcksConserved(cfg, lines, s, frame);
    case TakeAck(ack) =>
      MovingAckKeepsSum(s.acks, s.lostAcks + s.taken, ack);
    case LoseAck(ack) =>
      MovingAckKeepsSum(s.acks, s.lostAcks + s.taken, ack);
    case _ =>
  }

  lemma StepKeepsConserved(cfg: Config, lines: seq<string>, s: State, step: Step)
    requires Enabled(cfg, lines, s, step) && !cfg.duplicates && Conserved(cfg, s)
    ensures Conserved(cfg, Apply(cfg, lines, s, step))
  {
    StepKeepsDataConserved(cfg, lines, s, step);
    StepKeepsAcksConserved(cfg, lines, s, step);
  }

  /**
   On a network that does not duplicate, every copy sent is printed, in flight or lost, every
   printed frame is acknowledged once, every acknowledgement is taken, in flight or lost, and the
   client as written completes one message for each acknowledgement it takes.
   */
  lemma {:induction false} FramesAreConserved(cfg: Config, lines: seq<string>, steps: seq<Step>)
    requires !cfg.duplicates && Exec(cfg, lines, steps).Some?
    ensures Conserved(cfg, Exec(cfg, lines, steps).value)
  {
    if steps == [] {
      assert Replies([]) == [];
    } else {
      var init := steps[..|steps| - 1];
      FramesAreConserved(cfg, lines, init);
      StepKeepsConserved(cfg, lines, Exec(cfg, lines, init).value, steps[|steps| - 1]);
    }
  }

  /** Every printed frame carries the input line of its number, on any network and with any client. */
  lemma {:induction false} PrintedFramesAreInputLines(cfg: Config, lines: seq<string>, steps: seq<Step>)
    requires Exec(cfg, lines, steps).Some?
    ensures Authentic(lines, Exec(cfg, lines, steps).value)
    ensures var s := Exec(cfg, lines, steps).value;
            forall i :: 0 <= i < |s.printed| ==> s.printed[i].payload == lines[s.printed[i].id - 1]
  {
    if steps == [] {
    } else {
      var init := steps[..|steps| - 1];
      PrintedFramesAreInputLines(cfg, lines, init);
      StepKeepsAuthentic(cfg, lines, Exec(cfg, lines, init).value, steps[|steps| - 1]);
    }
  }
}
