/** src/logger.c: a bounded ring queue with several producers, one consumer thread, a condition variable
    and a stop flag. Critical sections are steps; any interleaving of steps is a run. */
module Logger {
  type Msg = string

  const MAX_LOGS: nat := 1024

  // ---- the ring ----

  datatype Ring = Ring(queue: seq<Msg>, head: nat, tail: nat, count: nat)

  ghost predicate RingOk(r: Ring) {
    && |r.queue| == MAX_LOGS && r.head < MAX_LOGS && r.tail < MAX_LOGS && r.count <= MAX_LOGS
    && r.head == (r.tail + r.count) % MAX_LOGS
  }

  function Place(tail: nat, k: nat): (i: nat)
    ensures i < MAX_LOGS
  {
    (tail + k) % MAX_LOGS
  }

  /** The queued messages, oldest first. */
  function Pending(r: Ring): (p: seq<Msg>)
    requires |r.queue| == MAX_LOGS
    ensures |p| == r.count
  {
    seq(r.count, k requires 0 <= k < r.count => r.queue[Place(r.tail, k)])
  }

  /** fs_log, lines 90-93, when the queue is not full. */
  function Push(r: Ring, msg: Msg): Ring
    requires RingOk(r)
  {
    Ring(r.queue[r.head := msg], (r.head + 1) % MAX_LOGS, r.tail, r.count + 1)
  }

  /** Lines 39-40. */
  function Pop(r: Ring): Ring
    requires r.count > 0
  {
    Ring(r.queue, r.head, (r.tail + 1) % MAX_LOGS, r.count - 1)
  }

  /** A push appends to the queue. */
  lemma PushAppends(r: Ring, msg: Msg)
    requires RingOk(r) && r.count < MAX_LOGS
    ensures RingOk(Push(r, msg)) && Pending(Push(r, msg)) == Pending(r) + [msg]
  {
    assert forall k :: 0 <= k < r.count ==> Place(r.tail, k) != r.head;
    assert Place(r.tail, r.count) == r.head;
  }

  /** A pop removes the oldest. */
  lemma PopRemovesFirst(r: Ring)
    requires RingOk(r) && r.count > 0
    ensures RingOk(Pop(r)) && Pending(r) == [r.queue[r.tail]] + Pending(Pop(r))
  {
    PoppedHead(r.tail, r.count);
    var p := Pending(Pop(r));
    forall k | 0 <= k < |p|
      ensures p[k] == Pending(r)[k + 1]
    {
      PlaceShift(r.tail, k);
    }
    assert Place(r.tail, 0) == r.tail;
  }

  /** Below twice the size, wrapping is one subtraction. */
  lemma Around(x: nat)
    requires x < 2 * MAX_LOGS
    ensures x % MAX_LOGS == if x < MAX_LOGS then x else x - MAX_LOGS
  {
  }

  lemma PoppedHead(tail: nat, count: nat)
    requires tail < MAX_LOGS && 0 < count <= MAX_LOGS
    ensures (tail + count) % MAX_LOGS == ((tail + 1) % MAX_LOGS + (count - 1)) % MAX_LOGS
  {
    Around(tail + 1);
    Around(tail + count);
    Around((tail + 1) % MAX_LOGS + (count - 1));
  }

  lemma PlaceShift(tail: nat, k: nat)
    requires tail < MAX_LOGS && k < MAX_LOGS
    ensures Place((tail + 1) % MAX_LOGS, k) == Place(tail, k + 1)
  {
    PoppedHead(tail, k + 1);
  }

  // ---- the protocol ----

  /** Where the consumer thread is. Waiting is pthread_cond_wait; while Draining it holds the mutex,
      so producers and stop cannot run. */
  datatype Consumer = Ready | Waiting | Draining | Exited

  /** A session that is over: what it wrote, and what logger_init found queued after its consumer had gone. */
  datatype Session = Session(written: seq<Msg>, discarded: seq<Msg>)

  datatype State = State(
    past: seq<Session>,
    ring: Ring,
    stop: bool,
    consumer: Consumer,
    written: seq<Msg>,      // what has gone to the log file in this session
    accepted: seq<Msg>,     // every message a producer has queued in this session
    dropped: nat)

  datatype Event =
    | Log(msg: Msg)         // the critical section of one fs_log call, by any thread
    | Stop                  // the critical section of logger_cleanup
    | Consume               // the consumer's next move
    | SpuriousWake          // pthread_cond_wait returns without a signal
    | Restart               // logger_init, after logger_cleanup has joined the thread

  function Start(past: seq<Session>, queue: seq<Msg>): State {
    State(past, Ring(queue, 0, 0, 0), false, Ready, [], [], 0)
  }

  predicate Enabled(s: State, e: Event) {
    match e
    case Log(_) => s.consumer != Draining
    case Stop => s.consumer != Draining
    case Consume => s.consumer == Ready || s.consumer == Draining
    case SpuriousWake => s.consumer == Waiting
    case Restart => s.consumer == Exited
  }

  /** pthread_cond_signal: wakes the consumer if it waits, and is lost otherwise. */
  function Signal(c: Consumer): Consumer { if c == Waiting then Ready else c }

  function Step(s: State, e: Event): State
    requires RingOk(s.ring) && Enabled(s, e)
  {
    match e
    case Log(msg) =>
      if s.ring.count < MAX_LOGS then
        s.(ring := Push(s.ring, msg), consumer := Signal(s.consumer), accepted := s.accepted + [msg])
      else s.(dropped := s.dropped + 1)
    case Stop => s.(stop := true, consumer := Signal(s.consumer))
    case Consume =>
      if s.consumer == Ready then
        if s.ring.count == 0 && !s.stop then s.(consumer := Waiting)
        else if s.stop && s.ring.count == 0 then s.(consumer := Exited)
        else s.(consumer := Draining)
      else if s.ring.count > 0 then
        s.(ring := Pop(s.ring), written := s.written + [s.ring.queue[s.ring.tail]])
      else s.(consumer := Ready)
    case SpuriousWake => s.(consumer := Ready)
    case Restart => Start(s.past + [Session(s.written, Pending(s.ring))], s.ring.queue)
  }

  ghost predicate Inv(s: State) {
    && RingOk(s.ring)
    && s.accepted == s.written + Pending(s.ring)
    && (s.consumer == Waiting ==> s.ring.count == 0 && !s.stop)
    && (s.consumer == Exited ==> s.stop)
  }

  lemma StartInv(past: seq<Session>, queue: seq<Msg>)
    requires |queue| == MAX_LOGS
    ensures Inv(Start(past, queue))
  {
  }

  /** One step of anyone keeps the invariant. The consumer is never asleep while there is something to
      do; only a full queue drops; nothing is lost, repeated or reordered; and at the moment the consumer
      exits the log holds every message accepted so far. */
  lemma StepInv(s: State, e: Event)
    requires Inv(s) && Enabled(s, e)
    ensures Inv(Step(s, e))
    ensures Step(s, e).dropped != s.dropped ==> e == Restart || (e.Log? && s.ring.count == 1024)
    ensures e.Log? && s.ring.count < 1024 ==> Step(s, e).accepted == s.accepted + [e.msg]
    ensures s.consumer != Exited && Step(s, e).consumer == Exited ==> Step(s, e).written == Step(s, e).accepted
    ensures e != Restart ==> s.written <= Step(s, e).written && s.accepted <= Step(s, e).accepted
  {
    if e.Log? && s.ring.count < MAX_LOGS {
      PushAppends(s.ring, e.msg);
    }
    if e == Consume && s.ring.count > 0 {
      PopRemovesFirst(s.ring);
    }
  }

  ghost predicate RunEnabled(s: State, events: seq<Event>)
    requires Inv(s)
    decreases |events|
  {
    events == [] ||
    (Enabled(s, events[0]) && (StepInv(s, events[0]); RunEnabled(Step(s, events[0]), events[1..])))
  }

  ghost function Run(s: State, events: seq<Event>): State
    requires Inv(s) && RunEnabled(s, events)
    decreases |events|
  {
    if events == [] then s else
      StepInv(s, events[0]);
      Run(Step(s, events[0]), events[1..])
  }

  /** The messages of a run that found room, in the order their producers got the mutex. */
  ghost function AcceptedIn(s: State, events: seq<Event>): seq<Msg>
    requires Inv(s) && RunEnabled(s, events)
    decreases |events|
  {
    if events == [] then [] else
      StepInv(s, events[0]);
      (if events[0].Log? && s.ring.count < MAX_LOGS then [events[0].msg] else [])
      + AcceptedIn(Step(s, events[0]), events[1..])
  }

  /** Everything past sessions have taken in, in order. */
  function Total(past: seq<Session>): seq<Msg> {
    if past == [] then [] else
      var n := |past| - 1;
      Total(past[..n]) + (past[n].written + past[n].discarded)
  }

  lemma TotalMore(past: seq<Session>, x: Session)
    ensures Total(past + [x]) == Total(past) + (x.written + x.discarded)
  {
    assert (past + [x])[..|past|] == past;
  }

  /** A step adds the message it accepts, and none other, to what has been taken in. */
  lemma StepTotal(s: State, e: Event)
    requires Inv(s) && Enabled(s, e)
    ensures Total(Step(s, e).past) + Step(s, e).accepted
            == Total(s.past) + s.accepted + if e.Log? && s.ring.count < MAX_LOGS then [e.msg] else []
  {
    match e
    case Log(msg) => Associates(Total(s.past), s.accepted, if s.ring.count < MAX_LOGS then [msg] else []);
    case Stop =>
    case Consume =>
    case SpuriousWake =>
    case Restart => TotalMore(s.past, Session(s.written, Pending(s.ring)));
  }

  lemma Associates(a: seq<Msg>, b: seq<Msg>, c: seq<Msg>)
    ensures (a + b) + c == a + (b + c)
  {
  }

  lemma {:induction false} RunTotal(s: State, events: seq<Event>)
    requires Inv(s) && RunEnabled(s, events)
    ensures Inv(Run(s, events))
    ensures Total(Run(s, events).past) + Run(s, events).accepted == Total(s.past) + s.accepted + AcceptedIn(s, events)
    decreases |events|
  {
    if events != [] {
      StepInv(s, events[0]);
      StepTotal(s, events[0]);
      RunTotal(Step(s, events[0]), events[1..]);
      Associates(Total(s.past) + s.accepted,
                 if events[0].Log? && s.ring.count < MAX_LOGS then [events[0].msg] else [],
                 AcceptedIn(Step(s, events[0]), events[1..]));
    }
  }

  /** Over any interleaving, restarts included: what each session wrote and what each restart found queued, then
      the log of the running session and its queue, are exactly the accepted messages, in order, each once. */
  lemma RunSafe(s: State, events: seq<Event>)
    requires Inv(s) && RunEnabled(s, events)
    ensures Inv(Run(s, events))
    ensures var t := Run(s, events);
            Total(t.past) + (t.written + Pending(t.ring)) == Total(s.past) + s.accepted + AcceptedIn(s, events)
  {
    RunTotal(s, events);
  }

  ghost predicate NoRestart(events: seq<Event>) {
    forall i :: 0 <= i < |events| ==> events[i] != Restart
  }

  /** What a restart finds queued is what was queued after the consumer had gone: from the exit on, with its empty
      queue, nothing is written and the queue is the messages accepted since. */
  lemma {:induction false} GoneConsumer(s: State, events: seq<Event>)
    requires Inv(s) && s.consumer == Exited && RunEnabled(s, events) && NoRestart(events)
    ensures var t := Run(s, events);
            && Inv(t) && t.consumer == Exited && t.past == s.past && t.written == s.written
            && Pending(t.ring) == Pending(s.ring) + AcceptedIn(s, events)
    decreases |events|
  {
    if events != [] {
      var e := events[0];
      StepInv(s, e);
      if e.Log? && s.ring.count < MAX_LOGS {
        PushAppends(s.ring, e.msg);
      }
      assert forall i :: 0 <= i < |events| - 1 ==> events[1..][i] == events[i + 1];
      GoneConsumer(Step(s, e), events[1..]);
    }
  }

  // ---- progress ----

  /** n moves of the consumer, by itself. */
  ghost function ConsumeTimes(s: State, n: nat): State
    requires Inv(s)
    decreases n
  {
    if n == 0 || !Enabled(s, Consume) then s else
      StepInv(s, Consume);
      ConsumeTimes(Step(s, Consume), n - 1)
  }

  lemma {:induction false} ConsumeMore(s: State, n: nat)
    requires Inv(s) && Inv(ConsumeTimes(s, n)) && Enabled(ConsumeTimes(s, n), Consume)
    ensures ConsumeTimes(s, n + 1) == Step(ConsumeTimes(s, n), Consume)
    decreases n
  {
    if n == 0 {
      StepInv(s, Consume);
      assert ConsumeTimes(Step(s, Consume), 0) == Step(s, Consume);
    } else {
      assert Enabled(s, Consume);
      StepInv(s, Consume);
      ConsumeMore(Step(s, Consume), n - 1);
    }
  }

  /** The moves left before the consumer sleeps or exits. */
  function MovesLeft(s: State): nat {
    match s.consumer
    case Waiting => 0
    case Exited => 0
    case Ready => if s.ring.count == 0 then 1 else s.ring.count + 3
    case Draining => s.ring.count + 2
  }

  /** The consumer's moves in a run. */
  function Moves(events: seq<Event>): nat
    decreases |events|
  {
    if events == [] then 0 else (if events[0] == Consume then 1 else 0) + Moves(events[1..])
  }

  lemma {:induction false} WrittenGrows(s: State, events: seq<Event>)
    requires Inv(s) && RunEnabled(s, events) && NoRestart(events)
    ensures Inv(Run(s, events)) && s.written <= Run(s, events).written
    decreases |events|
  {
    if events != [] {
      StepInv(s, events[0]);
      assert forall i :: 0 <= i < |events| - 1 ==> events[1..][i] == events[i + 1];
      WrittenGrows(Step(s, events[0]), events[1..]);
    }
  }

  /** While the first n accepted messages are not all written, only the consumer's own moves count, and each of
      them but the first brings one more into the log. */
  lemma StepCloser(s: State, e: Event, n: nat)
    requires Inv(s) && Enabled(s, e) && e != Restart && s.consumer != Exited && |s.written| < n <= |s.accepted|
    ensures var t := Step(s, e);
            && Inv(t) && t.consumer != Exited && s.accepted <= t.accepted
            && (e != Consume ==> t.written == s.written && (t.consumer == Ready) == (s.consumer == Ready))
            && (e == Consume ==> t.consumer == Draining
                                 && |t.written| == |s.written| + if s.consumer == Ready then 0 else 1)
  {
    StepInv(s, e);
  }

  /** Whatever else runs in between: once the consumer has made as many moves as there were messages queued, and
      one more to take the mutex, everything accepted before is in the log. */
  lemma {:induction false} WrittenInTime(s: State, events: seq<Event>, n: nat)
    requires Inv(s) && s.consumer != Exited && RunEnabled(s, events) && NoRestart(events) && n <= |s.accepted|
    requires Moves(events) + |s.written| >= n + if s.consumer == Ready then 1 else 0
    ensures Inv(Run(s, events)) && s.accepted[..n] <= Run(s, events).written
    decreases |events|
  {
    if n <= |s.written| {
      WrittenGrows(s, events);
      assert s.accepted[..n] == s.written[..n];
    } else {
      var e := events[0];
      StepCloser(s, e, n);
      assert forall i :: 0 <= i < |events| - 1 ==> events[1..][i] == events[i + 1];
      WrittenInTime(Step(s, e), events[1..], n);
      assert Step(s, e).accepted[..n] == s.accepted[..n];
    }
  }

  /** Left to itself the consumer empties the queue and then sleeps or, once stopped, exits: it neither
      hangs at shutdown nor exits with messages unwritten. */
  lemma {:induction false} ConsumerFinishes(s: State)
    requires Inv(s)
    ensures var t := ConsumeTimes(s, MovesLeft(s));
            && Inv(t) && t.accepted == s.accepted && t.stop == s.stop
            && (s.stop ==> t.consumer == Exited)
            && (!s.stop ==> t.consumer == Waiting)
            && (s.consumer != Exited ==> t.written == t.accepted)
    decreases MovesLeft(s)
  {
    if Enabled(s, Consume) {
      StepInv(s, Consume);
      ConsumerFinishes(Step(s, Consume));
    }
  }

  // ---- shutdown ----

  /** The flag is set by logger_cleanup and by nothing else, and only logger_init takes it back. */
  lemma {:induction false} StopStays(s: State, events: seq<Event>)
    requires Inv(s) && RunEnabled(s, events) && NoRestart(events)
    ensures Inv(Run(s, events)) && (Run(s, events).stop <==> s.stop || Stop in events)
    decreases |events|
  {
    if events != [] {
      StepInv(s, events[0]);
      assert forall i :: 0 <= i < |events| - 1 ==> events[1..][i] == events[i + 1];
      assert events == [events[0]] + events[1..];
      StopStays(Step(s, events[0]), events[1..]);
    }
  }

  /** A thread's turn: it makes its step, or is held up by the mutex, asleep or gone. */
  function Turn(s: State, e: Event): State
    requires RingOk(s.ring)
  {
    if Enabled(s, e) then Step(s, e) else s
  }

  lemma TurnInv(s: State, e: Event)
    requires Inv(s)
    ensures Inv(Turn(s, e))
  {
    if Enabled(s, e) {
      StepInv(s, e);
    }
  }

  /** The threads take turns in any order. */
  ghost function Turns(s: State, events: seq<Event>): State
    requires Inv(s)
    decreases |events|
  {
    if events == [] then s else
      TurnInv(s, events[0]);
      Turns(Turn(s, events[0]), events[1..])
  }

  /** The producers' turns. */
  function Logs(events: seq<Event>): nat
    decreases |events|
  {
    if events == [] then 0 else (if events[0].Log? then 1 else 0) + Logs(events[1..])
  }

  /** What a turn does to the work left before the exit, once the flag is set. */
  lemma TurnCloser(s: State, e: Event)
    requires Inv(s) && s.stop && e != Restart
    ensures var t := Turn(s, e);
            && Inv(t) && t.stop && s.written <= t.written && s.accepted <= t.accepted
            && (s.consumer == Exited ==> t.consumer == Exited && t.written == s.written)
            && (s.consumer != Exited && t.consumer == Exited ==> t.written == t.accepted)
            && MovesLeft(t) <= MovesLeft(s) + 3 * (if e.Log? then 1 else 0)
                               - (if e == Consume && s.consumer != Exited then 1 else 0)
  {
    TurnInv(s, e);
    if Enabled(s, e) {
      StepInv(s, e);
    }
  }

  /** Once the flag is set, the consumer exits when it has had enough turns for what is queued and what producers
      still add; it leaves at a moment when everything accepted is written, and writes nothing after. */
  lemma {:induction false} ExitsInTime(s: State, events: seq<Event>) returns (k: nat)
    requires Inv(s) && s.stop && s.consumer != Exited && NoRestart(events)
    requires Moves(events) >= MovesLeft(s) + 3 * Logs(events)
    ensures k <= |events| && Inv(Turns(s, events[..k])) && Inv(Turns(s, events))
    ensures var (t, u) := (Turns(s, events[..k]), Turns(s, events));
            && t.consumer == Exited && t.written == t.accepted && s.accepted <= t.accepted
            && u.consumer == Exited && u.stop && u.written == t.written
    decreases |events|
  {
    assert events != [];
    var (e, rest) := (events[0], events[1..]);
    TurnCloser(s, e);
    assert forall i :: 0 <= i < |rest| ==> rest[i] == events[i + 1];
    var m := Turn(s, e);
    if m.consumer == Exited {
      k := 1;
      StaysExited(m, rest);
      assert events[..1][0] == e && events[..1][1..] == [];
      assert Turns(s, events[..1]) == Turns(m, []);
    } else {
      k := ExitsInTime(m, rest);
      k := k + 1;
      assert events[..k][0] == e && events[..k][1..] == rest[..k - 1];
    }
  }

  lemma {:induction false} StaysExited(s: State, events: seq<Event>)
    requires Inv(s) && s.stop && s.consumer == Exited && NoRestart(events)
    ensures var u := Turns(s, events); Inv(u) && u.consumer == Exited && u.stop && u.written == s.written
    decreases |events|
  {
    if events != [] {
      TurnCloser(s, events[0]);
      assert forall i :: 0 <= i < |events| - 1 ==> events[1..][i] == events[i + 1];
      StaysExited(Turn(s, events[0]), events[1..]);
    }
  }

  /** logger_cleanup, from any state: whoever runs in between, the consumer exits after as many turns as messages
      were queued, three more, and three for each producer's turn. Everything accepted before the exit is in the
      log, so everything accepted before the call is. */
  lemma CleanupEnds(s: State, events: seq<Event>) returns (k: nat)
    requires Inv(s) && s.consumer != Exited && Enabled(s, Stop) && NoRestart(events)
    requires Moves(events) >= s.ring.count + 3 + 3 * Logs(events)
    ensures Inv(Step(s, Stop)) && k <= |events|
    ensures var (t, u) := (Turns(Step(s, Stop), events[..k]), Turns(Step(s, Stop), events));
            && t.consumer == Exited && t.written == t.accepted && s.accepted <= t.accepted
            && u.consumer == Exited && u.stop && u.written == t.written
  {
    StepInv(s, Stop);
    k := ExitsInTime(Step(s, Stop), events);
  }

  // ---- the code ----

  class LogQueue {
    var queue: array<Msg>
    var head: nat
    var tail: nat
    var count: nat
    var stop: bool
    ghost var state: State   // the protocol's state, threads included

    ghost predicate Valid()
      reads this, queue
    {
      && queue.Length == MAX_LOGS && RingOk(Contents())
      && Inv(state) && state.ring == Contents() && state.stop == stop
    }

    ghost function Contents(): Ring
      reads this, queue
    {
      Ring(queue[..], head, tail, count)
    }

    /** logger_init, without the thread creation, after those sessions */
    method Init(ghost past: seq<Session>)
      requires queue.Length == MAX_LOGS
      modifies this`head, this`tail, this`count, this`stop, this`state
      ensures Valid() && !stop && state == Start(past, queue[..]) && Pending(Contents()) == []
      ensures queue[..] == old(queue[..])
    {
      stop := false;
      head := 0;
      tail := 0;
      count := 0;
      state := Start(past, queue[..]);
    }

    /** The critical section of logger_cleanup. What pthread_join then waits for is CleanupEnds. */
    method Cleanup()
      requires Valid() && Enabled(state, Stop)
      modifies this`stop, this`state
      ensures Valid() && stop && state == Step(old(state), Stop)
    {
      StepInv(state, Stop);
      stop := true;
      state := Step(state, Stop);
    }

    /** The critical section of fs_log. */
    method Enqueue(msg: Msg) returns (accepted: bool)
      requires Valid() && Enabled(state, Log(msg))
      modifies this`head, this`count, this`state, queue
      ensures Valid() && accepted == (old(count) < 1024)
      ensures state == Step(old(state), Log(msg))
      ensures Pending(Contents()) == old(Pending(Contents())) + (if accepted then [msg] else [])
    {
      StepInv(state, Log(msg));
      state := Step(state, Log(msg));
      if count < MAX_LOGS {
        PushAppends(Contents(), msg);
        queue[head] := msg;
        head := (head + 1) % MAX_LOGS;
        count := count + 1;
        return true;
      }
      return false;
    }

    /** Lines 37-40: one message leaves the ring for the log file. */
    method WriteOldest() returns (msg: Msg)
      requires Valid() && state.consumer == Draining && count > 0
      modifies this`tail, this`count, this`state
      ensures Valid() && state == Step(old(state), Consume)
      ensures old(Pending(Contents())) == [msg] + Pending(Contents()) && count == old(count) - 1
      ensures queue[..] == old(queue[..])
    {
      StepInv(state, Consume);
      state := Step(state, Consume);
      PopRemovesFirst(Contents());
      msg := queue[tail];
      tail := (tail + 1) % MAX_LOGS;
      count := count - 1;
    }

    /** The inner loop of the consumer, lines 36-41: returns what it writes. */
    method Drain() returns (output: seq<Msg>)
      requires Valid() && state.consumer == Draining
      modifies this`tail, this`count, this`state
      ensures Valid() && count == 0 && output == old(Pending(Contents()))
      ensures head == old(head) && queue[..] == old(queue[..])
      ensures state == ConsumeTimes(old(state), old(count)) && state.consumer == Draining
    {
      output := [];
      ghost var all := Pending(Contents());
      while count > 0
        invariant Valid() && queue[..] == old(queue[..]) && state.consumer == Draining
        invariant output + Pending(Contents()) == all
        invariant ConsumeTimes(state, count) == ConsumeTimes(old(state), old(count))
        decreases count
      {
        var msg := WriteOldest();
        Associates(output, [msg], Pending(Contents()));
        output := output + [msg];
      }
    }

    /** The consumer takes or gives up the mutex, sleeps or leaves. */
    ghost method Move()
      requires Valid() && (state.consumer == Ready || (state.consumer == Draining && count == 0))
      modifies this`state
      ensures Valid() && state == Step(old(state), Consume)
    {
      StepInv(state, Consume);
      state := Step(state, Consume);
    }

    /** One pass of the consumer's loop once it has the mutex: sleep, leave, or write everything. */
    method Pass() returns (next: Consumer, output: seq<Msg>)
      requires Valid() && state.consumer == Ready
      modifies this`tail, this`count, this`state
      ensures Valid() && output == old(Pending(Contents())) && count == 0 && state.consumer == next
      ensures next == if old(count) > 0 then Ready else if stop then Exited else Waiting
      ensures state == ConsumeTimes(old(state), if old(count) == 0 then 1 else old(count) + 2)
    {
      ghost var s, n := state, count;
      Move();
      if count == 0 && !stop {
        return Waiting, [];
      }
      if stop && count == 0 {
        return Exited, [];
      }
      ghost var drained := state;
      output := Drain();
      next := Ready;
      Move();
      ConsumeMore(drained, n);
    }
  }
}
