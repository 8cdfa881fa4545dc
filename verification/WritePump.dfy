/**
 The write side of src/core/comm/TcpComm.cpp as a state machine: posted tasks run one at a time in order, a queue
 of frames, and completions of asynchronous writes.  The class in TcpComm.dfy implements these steps.
 */
module WritePump {
  import opened Options

  /** Work posted to the connection's executor. */
  datatype Task<F> = SendTask(frame: F) | CloseTask | FlushTask

  /**
   `inFlight` lists the asynchronous writes that have been started and not completed.  `posted`, `written`,
   `started`, `errors` and `mark` are history: every frame handed to send, every frame whose write succeeded, the
   number of writes ever started, of writes that failed, and how many frames had been handed to send when
   flushAndDisconnect was first called.
   */
  datatype Wire<F> = Wire(
    tasks: seq<Task<F>>, queue: seq<F>, inFlight: seq<F>, shuttingDown: bool, open: bool,
    posted: seq<F>, written: seq<F>, started: nat, errors: nat, mark: Option<nat>)

  function Initial<F>(): Wire<F> {
    Wire([], [], [], false, true, [], [], 0, 0, None)
  }

  datatype Event<F> =
    | Send(frame: F)
    | Disconnect
    | FlushAndDisconnect
    | RunTask
    | WriteDone(ok: bool)

  /** writePump: start writing the front of the queue. */
  function Pump<F>(w: Wire<F>): Wire<F>
    requires w.queue != []
  {
    w.(inFlight := w.inFlight + [w.queue[0]], started := w.started + 1)
  }

  function RunFirst<F>(w: Wire<F>): Wire<F>
    requires w.tasks != []
  {
    var v := w.(tasks := w.tasks[1..]);
    match w.tasks[0]
    case SendTask(frame) =>
      var q := v.(queue := v.queue + [frame]);
      if v.queue == [] then Pump(q) else q
    case CloseTask => v.(open := false)
    case FlushTask => v.(shuttingDown := true, open := v.open && v.queue != [])
  }

  /** Completion of the oldest outstanding write. */
  function Complete<F>(w: Wire<F>, ok: bool): Wire<F>
    requires w.inFlight != []
  {
    var v := w.(inFlight := w.inFlight[1..]);
    if !ok then v.(errors := v.errors + 1)
    else
      var u := v.(written := v.written + [w.inFlight[0]], queue := if v.queue == [] then [] else v.queue[1..]);
      if u.queue != [] then Pump(u)
      else if u.shuttingDown then u.(open := false)
      else u
  }

  function Step<F>(w: Wire<F>, e: Event<F>): Wire<F> {
    match e
    case Send(frame) => w.(tasks := w.tasks + [SendTask(frame)], posted := w.posted + [frame])
    case Disconnect => w.(tasks := w.tasks + [CloseTask])
    case FlushAndDisconnect =>
      w.(tasks := w.tasks + [FlushTask], mark := if w.mark.None? then Some(|w.posted|) else w.mark)
    case RunTask => if w.tasks == [] then w else RunFirst(w)
    case WriteDone(ok) => if w.inFlight == [] then w else Complete(w, ok)
  }

  function Run<F>(w: Wire<F>, es: seq<Event<F>>): Wire<F>
    decreases |es|
  {
    if es == [] then w else Run(Step(w, es[0]), es[1..])
  }

  /** The frames still waiting in the executor's task list. */
  function TaskFrames<F>(tasks: seq<Task<F>>): seq<F> {
    if tasks == [] then []
    else (if tasks[0].SendTask? then [tasks[0].frame] else []) + TaskFrames(tasks[1..])
  }

  lemma {:induction false} TaskFramesSnoc<F>(tasks: seq<Task<F>>, t: Task<F>)
    ensures TaskFrames(tasks + [t]) == TaskFrames(tasks) + if t.SendTask? then [t.frame] else []
  {
    if tasks != [] {
      assert (tasks + [t])[1..] == tasks[1..] + [t];
      TaskFramesSnoc(tasks[1..], t);
    }
  }

  // ---------------------------------------------------------------- what every run keeps

  /** Nothing is lost, duplicated or reordered: written, then queued, then not yet run, is what was posted. */
  ghost predicate Conserved<F>(w: Wire<F>) {
    w.written + w.queue + TaskFrames(w.tasks) == w.posted
  }

  /** At most one write is outstanding, and it is of the front of the queue; before any error one is, unless idle. */
  ghost predicate SingleWriter<F>(w: Wire<F>) {
    && |w.inFlight| <= 1
    && (w.inFlight != [] ==> w.queue != [] && w.inFlight[0] == w.queue[0])
    && (w.errors == 0 ==> (w.inFlight == [] <==> w.queue == []))
    && (w.errors > 0 ==> w.inFlight == [] && w.queue != [] && w.errors == 1)
  }

  lemma Regroup<T>(a: seq<T>, b: seq<T>, x: T, c: seq<T>)
    ensures (a + b) + ([x] + c) == (a + (b + [x])) + c
    ensures (a + [x]) + b == a + ([x] + b)
    ensures (a + b) + (c + [x]) == ((a + b) + c) + [x]
  {
  }

  lemma PostKeepsPump<F>(w: Wire<F>, e: Event<F>)
    requires Conserved(w) && SingleWriter(w)
    requires e.Send? || e.Disconnect? || e.FlushAndDisconnect?
    ensures Conserved(Step(w, e)) && SingleWriter(Step(w, e))
  {
    match e
    case Send(frame) =>
      TaskFramesSnoc(w.tasks, SendTask(frame));
      Regroup(w.written, w.queue, frame, TaskFrames(w.tasks));
    case Disconnect => TaskFramesSnoc(w.tasks, CloseTask);
    case FlushAndDisconnect => TaskFramesSnoc(w.tasks, FlushTask);
  }

  lemma TaskKeepsPump<F>(w: Wire<F>)
    requires Conserved(w) && SingleWriter(w) && w.tasks != []
    ensures Conserved(RunFirst(w)) && SingleWriter(RunFirst(w))
  {
    if w.tasks[0].SendTask? {
      SendTaskKeepsPump(w);
    }
  }

  lemma SendTaskKeepsPump<F>(w: Wire<F>)
    requires Conserved(w) && SingleWriter(w) && w.tasks != [] && w.tasks[0].SendTask?
    ensures Conserved(RunFirst(w)) && SingleWriter(RunFirst(w))
  {
    var rest := TaskFrames(w.tasks[1..]);
    assert TaskFrames(w.tasks) == [w.tasks[0].frame] + rest;
    hide TaskFrames;
    Regroup(w.written, w.queue, w.tasks[0].frame, rest);
  }

  lemma CompletionKeepsPump<F>(w: Wire<F>, ok: bool)
    requires Conserved(w) && SingleWriter(w) && w.inFlight != []
    ensures Conserved(Complete(w, ok)) && SingleWriter(Complete(w, ok))
  {
    assert w.queue == [w.queue[0]] + w.queue[1..];
    Regroup(w.written, w.queue[1..], w.queue[0], []);
  }

  lemma StepKeepsPump<F>(w: Wire<F>, e: Event<F>)
    requires Conserved(w) && SingleWriter(w)
    ensures Conserved(Step(w, e)) && SingleWriter(Step(w, e))
  {
    hide Conserved, SingleWriter, RunFirst, Complete;
    match e
    case RunTask => if w.tasks != [] { TaskKeepsPump(w); }
    case WriteDone(ok) => if w.inFlight != [] { CompletionKeepsPump(w, ok); }
    case _ => PostKeepsPump(w, e);
  }

  lemma {:induction false} RunKeepsPump<F>(w: Wire<F>, es: seq<Event<F>>)
    requires Conserved(w) && SingleWriter(w)
    ensures Conserved(Run(w, es)) && SingleWriter(Run(w, es))
    decreases |es|
  {
    if es != [] {
      StepKeepsPump(w, es[0]);
      RunKeepsPump(Step(w, es[0]), es[1..]);
    }
  }

  /**
   Write pump, over every run of a connection: frames written followed by frames queued followed by frames whose
   task has not run are the frames posted, in order; never two writes are outstanding; and as long as no write has
   failed, one is outstanding exactly when the queue is not empty.
   */
  lemma PumpTheorem<F>(es: seq<Event<F>>)
    ensures var w := Run(Initial<F>(), es);
            && w.written + w.queue + TaskFrames(w.tasks) == w.posted
            && |w.inFlight| <= 1
            && (w.errors == 0 ==> (w.inFlight != [] <==> w.queue != []))
  {
    RunKeepsPump(Initial<F>(), es);
  }

  lemma {:induction false} StalledForever<F>(w: Wire<F>, es: seq<Event<F>>)
    requires Conserved(w) && SingleWriter(w) && w.errors > 0
    ensures var v := Run(w, es); v.started == w.started && v.written == w.written && w.queue <= v.queue
    decreases |es|
  {
    if es != [] {
      StepKeepsPump(w, es[0]);
      StalledForever(Step(w, es[0]), es[1..]);
    }
  }

  /** After a write error no write is ever started again: in every continuation nothing more is written. */
  lemma NoWriteAfterError<F>(es: seq<Event<F>>, more: seq<Event<F>>)
    requires Run(Initial<F>(), es).errors > 0
    ensures var w := Run(Initial<F>(), es);
            var v := Run(w, more);
            v.started == w.started && v.written == w.written && w.queue <= v.queue
  {
    hide Run;
    RunKeepsPump(Initial<F>(), es);
    StalledForever(Run(Initial<F>(), es), more);
  }

  // ---------------------------------------------------------------- closing

  lemma {:induction false} ClosedStaysClosed<F>(w: Wire<F>, es: seq<Event<F>>)
    requires !w.open
    ensures !Run(w, es).open
    decreases |es|
  {
    if es != [] {
      ClosedStaysClosed(Step(w, es[0]), es[1..]);
    }
  }

  /** The socket is closed, or will be when the posted tasks have run. */
  ghost predicate Closing<F>(w: Wire<F>) {
    !w.open || CloseTask in w.tasks
  }

  lemma StepKeepsClosing<F>(w: Wire<F>, e: Event<F>)
    requires Closing(w) || e.Disconnect?
    ensures Closing(Step(w, e))
  {
    if e.RunTask? && w.open {
      assert w.tasks == [w.tasks[0]] + w.tasks[1..];
    }
  }

  lemma {:induction false} RunCloses<F>(w: Wire<F>, es: seq<Event<F>>)
    requires Closing(w) || Disconnect in es
    ensures Closing(Run(w, es))
    decreases |es|
  {
    hide Step, Closing;
    if es != [] {
      if Closing(w) || es[0].Disconnect? {
        StepKeepsClosing(w, es[0]);
      }
      RunCloses(Step(w, es[0]), es[1..]);
    }
  }

  /**
   Disconnect closes: in every run with a disconnect, whatever else happens, the socket is closed or the close is
   among the posted tasks; so once these have run it is closed, and it stays closed.
   */
  lemma DisconnectCloses<F>(es: seq<Event<F>>, more: seq<Event<F>>)
    requires Disconnect in es
    ensures var w := Run(Initial<F>(), es);
            && (!w.open || CloseTask in w.tasks)
            && (w.tasks == [] ==> !w.open && !Run(w, more).open)
  {
    hide Run;
    RunCloses(Initial<F>(), es);
    var w := Run(Initial<F>(), es);
    if !w.open {
      ClosedStaysClosed(w, more);
    }
  }

  /** Nobody has asked for the socket to be closed. */
  ghost predicate Unasked<F>(w: Wire<F>) {
    w.open && !w.shuttingDown && forall t :: t in w.tasks ==> t.SendTask?
  }

  /** And it is closed for no other reason: without disconnect and flush it stays open, write errors included. */
  lemma {:induction false} OpenUnlessAsked<F>(w: Wire<F>, es: seq<Event<F>>)
    requires Unasked(w) && forall e :: e in es ==> !e.Disconnect? && !e.FlushAndDisconnect?
    ensures Unasked(Run(w, es))
    decreases |es|
  {
    if es != [] {
      OpenUnlessAsked(Step(w, es[0]), es[1..]);
    }
  }

  // ---------------------------------------------------------------- graceful shutdown

  ghost predicate NoAbruptClose<F>(es: seq<Event<F>>) {
    forall e :: e in es ==> !e.Disconnect?
  }

  /** A flush task still waiting stands behind every frame posted before the first flush. */
  ghost predicate Marked<F>(w: Wire<F>) {
    && (forall t :: t in w.tasks ==> !t.CloseTask?)
    && (w.mark.Some? ==> w.mark.value <= |w.posted|)
    && (w.shuttingDown ==> w.mark.Some? && w.mark.value <= |w.written| + |w.queue|)
    && (forall i :: 0 <= i < |w.tasks| && w.tasks[i].FlushTask? ==>
          w.mark.Some? && w.mark.value <= |w.written| + |w.queue| + |TaskFrames(w.tasks[..i])|)
    && (!w.open ==> w.shuttingDown && w.mark.value <= |w.written|)
    && (w.shuttingDown && w.queue == [] ==> !w.open)
    && (w.mark.Some? && !w.shuttingDown ==> (exists i :: 0 <= i < |w.tasks| && w.tasks[i].FlushTask?))
  }

  lemma TaskFramesHead<F>(tasks: seq<Task<F>>, i: nat)
    requires 0 < i <= |tasks|
    ensures |TaskFrames(tasks[..i])| == (if tasks[0].SendTask? then 1 else 0) + |TaskFrames(tasks[1..][..i - 1])|
  {
    assert tasks[..i][1..] == tasks[1..][..i - 1];
  }

  lemma PostKeepsMarked<F>(w: Wire<F>, e: Event<F>)
    requires Conserved(w) && Marked(w) && (e.Send? || e.FlushAndDisconnect?)
    ensures Marked(Step(w, e))
  {
    var v := Step(w, e);
    assert |w.posted| == |w.written| + |w.queue| + |TaskFrames(w.tasks)|;
    forall i | 0 <= i < |v.tasks| && v.tasks[i].FlushTask?
      ensures v.mark.Some? && v.mark.value <= |v.written| + |v.queue| + |TaskFrames(v.tasks[..i])|
    {
      assert v.tasks[..i] == if i < |w.tasks| then w.tasks[..i] else w.tasks;
    }
    if e.Send? && v.mark.Some? && !v.shuttingDown {
      var i :| 0 <= i < |w.tasks| && w.tasks[i].FlushTask?;
      assert v.tasks[i].FlushTask?;
    } else if e.FlushAndDisconnect? {
      assert v.tasks[|w.tasks|].FlushTask?;
    }
  }

  lemma RunTaskKeepsMarked<F>(w: Wire<F>)
    requires Marked(w) && SingleWriter(w) && w.tasks != []
    ensures Marked(RunFirst(w))
  {
    var v := RunFirst(w);
    assert TaskFrames(w.tasks[..0]) == [];
    forall i | 0 <= i < |v.tasks| && v.tasks[i].FlushTask?
      ensures v.mark.Some? && v.mark.value <= |v.written| + |v.queue| + |TaskFrames(v.tasks[..i])|
    {
      assert w.tasks[i + 1].FlushTask?;
      TaskFramesHead(w.tasks, i + 1);
    }
    if v.mark.Some? && !v.shuttingDown {
      var j :| 0 <= j < |w.tasks| && w.tasks[j].FlushTask?;
      assert v.tasks[j - 1].FlushTask?;
    }
  }

  lemma StepKeepsMarked<F>(w: Wire<F>, e: Event<F>)
    requires Conserved(w) && SingleWriter(w) && Marked(w)
    requires !e.Disconnect? && Step(w, e).errors == 0
    ensures Marked(Step(w, e))
  {
    match e
    case Send(_) => PostKeepsMarked(w, e);
    case FlushAndDisconnect => PostKeepsMarked(w, e);
    case RunTask => if w.tasks != [] { RunTaskKeepsMarked(w); }
    case WriteDone(ok) =>
    case Disconnect =>
  }

  lemma {:induction false} ErrorsGrow<F>(w: Wire<F>, es: seq<Event<F>>)
    ensures w.errors <= Run(w, es).errors
    decreases |es|
  {
    if es != [] {
      ErrorsGrow(Step(w, es[0]), es[1..]);
    }
  }

  lemma {:induction false} RunKeepsMarked<F>(w: Wire<F>, es: seq<Event<F>>)
    requires Conserved(w) && SingleWriter(w) && Marked(w)
    requires NoAbruptClose(es) && Run(w, es).errors == 0
    ensures Marked(Run(w, es))
    decreases |es|
  {
    if es != [] {
      ErrorsGrow(Step(w, es[0]), es[1..]);
      StepKeepsPump(w, es[0]);
      StepKeepsMarked(w, es[0]);
      RunKeepsMarked(Step(w, es[0]), es[1..]);
    }
  }

  /**
   Graceful shutdown, over every run without write errors and abrupt disconnects: the socket is closed only once
   every frame posted before the first flush has been written, and once all posted work has been done after a
   flush, the socket is closed.
   */
  lemma GracefulShutdown<F>(es: seq<Event<F>>)
    requires NoAbruptClose(es) && Run(Initial<F>(), es).errors == 0
    ensures var w := Run(Initial<F>(), es);
            && (!w.open ==> w.mark.Some? && w.mark.value <= |w.posted| && w.posted[..w.mark.value] <= w.written)
            && (w.mark.Some? && w.tasks == [] && w.inFlight == [] ==> !w.open && w.written == w.posted)
  {
    hide Run, Step;
    var w := Run(Initial<F>(), es);
    RunKeepsPump(Initial<F>(), es);
    RunKeepsMarked(Initial<F>(), es);
    assert w.posted == w.written + (w.queue + TaskFrames(w.tasks));
    if w.mark.Some? && w.mark.value <= |w.written| {
      assert w.posted[..w.mark.value] == w.written[..w.mark.value];
    }
  }

  // ---------------------------------------------------------------- a session's flush

  function Sends<F>(frames: seq<F>): (r: seq<Event<F>>)
    ensures |r| == |frames| && forall i :: 0 <= i < |r| ==> r[i] == Send(frames[i])
  {
    seq(|frames|, i requires 0 <= i < |frames| => Send(frames[i]))
  }

  lemma {:induction false} RunConcat<F>(w: Wire<F>, a: seq<Event<F>>, b: seq<Event<F>>)
    ensures Run(w, a + b) == Run(Run(w, a), b)
    decreases |a|
  {
    hide Step;
    if a == [] {
      assert a + b == b;
    } else {
      assert (a + b)[1..] == a[1..] + b;
      RunConcat(Step(w, a[0]), a[1..], b);
    }
  }

  lemma {:induction false} RunSends<F>(w: Wire<F>, frames: seq<F>)
    ensures Run(w, Sends(frames)).posted == w.posted + frames && Run(w, Sends(frames)).mark == w.mark
    decreases |frames|
  {
    if frames != [] {
      assert Sends(frames)[1..] == Sends(frames[1..]);
      RunSends(Step(w, Send(frames[0])), frames[1..]);
      assert (w.posted + [frames[0]]) + frames[1..] == w.posted + frames;
    }
  }

  lemma {:induction false} MarkAndPosted<F>(w: Wire<F>, es: seq<Event<F>>)
    ensures var v := Run(w, es);
            && w.posted <= v.posted
            && (w.mark.Some? ==> v.mark == w.mark)
            && (w.mark.None? && (forall e :: e in es ==> !e.FlushAndDisconnect?) ==> v.mark.None?)
    decreases |es|
  {
    if es != [] {
      MarkAndPosted(Step(w, es[0]), es[1..]);
    }
  }

  /**
   What a session's flushPendingCommands achieves: after any run `es` of a connection, sending `frames` and then
   asking for flush-and-disconnect; whatever happens next, absent write errors and abrupt disconnects, the socket is
   closed only after everything posted before and all of `frames` has been written.
   */
  lemma FlushIsWritten<F>(es: seq<Event<F>>, frames: seq<F>, more: seq<Event<F>>)
    requires NoAbruptClose(es) && NoAbruptClose(more)
    requires forall e :: e in es ==> !e.FlushAndDisconnect?
    requires Run(Initial<F>(), es + Sends(frames) + [FlushAndDisconnect] + more).errors == 0
    ensures var w := Run(Initial<F>(), es + Sends(frames) + [FlushAndDisconnect] + more);
            !w.open ==> Run(Initial<F>(), es).posted + frames <= w.written
  {
    hide Run, Step;
    var all := es + Sends(frames) + [FlushAndDisconnect] + more;
    var w1 := Run(Initial<F>(), es);
    var w2 := Run(w1, Sends(frames));
    var w3 := Run(w2, [FlushAndDisconnect]);
    RunConcat(Initial<F>(), es + Sends(frames) + [FlushAndDisconnect], more);
    RunConcat(Initial<F>(), es + Sends(frames), [FlushAndDisconnect]);
    RunConcat(Initial<F>(), es, Sends(frames));
    MarkAndPosted(Initial<F>(), es);
    RunSends(w1, frames);
    FlushMarks(w2);
    MarkAndPosted(w3, more);
    assert NoAbruptClose(all);
    GracefulShutdown(all);
    assert w3.posted == Run(Initial<F>(), all).posted[..|w3.posted|];
  }

  lemma FlushMarks<F>(w: Wire<F>)
    requires w.mark.None?
    ensures var v := Run(w, [FlushAndDisconnect]); v.mark == Some(|w.posted|) && v.posted == w.posted
  {
    var es: seq<Event<F>> := [FlushAndDisconnect];
    assert es[1..] == [];
    assert Run(w, es) == Run(Step(w, es[0]), es[1..]);
  }
}
