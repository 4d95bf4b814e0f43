/** The download reporter: rows sent in batches by a throttled timer, a heartbeat and explicit
    flushes, one send at a time. */
module Downloads {
  import opened Wrappers

  datatype DownloadState = Queued | Downloading | Paused | Installing | Done | Failed | Cancelled

  /** One row object: `ref` tells two objects with the same fields apart, as `===` does. */
  datatype Row = Row(externalId: string, ref: nat, state: DownloadState, doneBytes: nat)

  predicate Live(s: DownloadState) {
    s == Queued || s == Downloading || s == Installing
  }

  predicate Terminal(s: DownloadState) {
    s == Done || s == Failed || s == Cancelled
  }

  /** How a send ends: `ok`, `unsupported`, `failed`; `Rejects` is a promise that rejects. */
  datatype SendResult = Taken | Unsupported | NotSent | Rejects

  /** A send under way; `answered` once its handler has run and only the clean-up is left. */
  datatype Flight = Flight(batch: seq<Row>, answered: bool)

  /** The closure's variables. `rows` is in insertion order; `timer` is when it is due. */
  datatype State = State(
    rows: seq<Row>,
    supported: Option<bool>,
    lastSent: nat,
    timer: Option<nat>,
    inFlight: Option<Flight>,
    again: bool,
    closed: bool)

  // ---- The row map

  function FindRow(rows: seq<Row>, id: string): Option<Row> {
    if rows == [] then None
    else if rows[0].externalId == id then Some(rows[0])
    else FindRow(rows[1..], id)
  }

  /** `Map.set`: a known key keeps its place. */
  function PutRow(rows: seq<Row>, row: Row): seq<Row> {
    if rows == [] then [row]
    else if rows[0].externalId == row.externalId then [row] + rows[1..]
    else [rows[0]] + PutRow(rows[1..], row)
  }

  function DropRow(rows: seq<Row>, id: string): seq<Row> {
    if rows == [] then []
    else if rows[0].externalId == id then rows[1..]
    else [rows[0]] + DropRow(rows[1..], id)
  }

  ghost predicate Keyed(rows: seq<Row>) {
    forall i, j | 0 <= i < j < |rows| :: rows[i].externalId != rows[j].externalId
  }

  predicate AnyLive(rows: seq<Row>) {
    exists i | 0 <= i < |rows| :: Live(rows[i].state)
  }

  /** An acknowledged batch: each terminal row that is still the title's own is done with. */
  function DropSent(rows: seq<Row>, batch: seq<Row>): seq<Row>
    decreases |batch|
  {
    if batch == [] then rows
    else
      var sent := batch[0];
      var gone := Terminal(sent.state) && FindRow(rows, sent.externalId) == Some(sent);
      DropSent(if gone then DropRow(rows, sent.externalId) else rows, batch[1..])
  }

  // ---- The events

  predicate Sends(s: State) {
    s.inFlight == None && !s.closed && s.supported != Some(false) && s.rows != []
  }

  function Flush(s: State, now: nat): State {
    if s.inFlight.Some? then s.(again := true)
    else if !Sends(s) then s
    else s.(lastSent := now, inFlight := Some(Flight(s.rows, false)))
  }

  function Max(a: nat, b: nat): nat {
    if a < b then b else a
  }

  function Schedule(s: State, now: nat, throttle: nat): State {
    if s.timer.Some? || s.closed then s else s.(timer := Some(Max(now, s.lastSent + throttle)))
  }

  function SetRow(s: State, row: Row, now: nat, throttle: nat): State {
    if s.closed || s.supported == Some(false) then s
    else Schedule(s.(rows := PutRow(s.rows, row)), now, throttle)
  }

  function TimerFires(s: State, now: nat): State {
    Flush(s.(timer := None), now)
  }

  function Heartbeat(s: State, now: nat): State {
    if AnyLive(s.rows) then Flush(s, now) else s
  }

  /** The handler of an answer. */
  function Answer(s: State, result: SendResult): State
    requires s.inFlight.Some?
  {
    var t := s.(inFlight := Some(s.inFlight.value.(answered := true)));
    match result
    case Unsupported => t.(supported := Some(false), rows := [])
    case Taken => t.(supported := Some(true), rows := DropSent(s.rows, s.inFlight.value.batch))
    case NotSent => t
    case Rejects => t
  }

  /** The clean-up behind the awaited send. */
  function Settle(s: State, now: nat, throttle: nat): State {
    var t := s.(inFlight := None);
    if s.again then Schedule(t.(again := false), now, throttle) else t
  }

  function Close(s: State): State {
    s.(closed := true)
  }

  // ---- The reporter itself

  class Reporter {
    const throttle: nat
    var rows: seq<Row>
    var supported: Option<bool>
    var lastSent: nat
    var timer: Option<nat>
    var inFlight: Option<Flight>
    var again: bool
    var closed: bool

    ghost function Abs(): State
      reads this
    {
      State(rows, supported, lastSent, timer, inFlight, again, closed)
    }

    constructor (throttle: nat)
      ensures this.throttle == throttle
      ensures Abs() == State([], None, 0, None, None, false, false)
    {
      this.throttle := throttle;
      rows, supported, lastSent, timer := [], None, 0, None;
      inFlight, again, closed := None, false, false;
    }

    method FlushNow(now: nat) returns (batch: Option<seq<Row>>)
      modifies this
      ensures Abs() == Flush(old(Abs()), now)
      ensures batch == if Sends(old(Abs())) then Some(old(rows)) else None
    {
      if inFlight.Some? {
        again := true;
        return None;
      }
      if closed || supported == Some(false) || |rows| == 0 {
        return None;
      }
      batch := Some(rows);
      lastSent := now;
      inFlight := Some(Flight(rows, false));
    }

    method ScheduleTimer(now: nat)
      modifies this
      ensures Abs() == Schedule(old(Abs()), now, throttle)
    {
      if timer.Some? || closed {
        return;
      }
      timer := Some(Max(now, lastSent + throttle));
    }

    method Set(row: Row, now: nat)
      modifies this
      ensures Abs() == SetRow(old(Abs()), row, now, throttle)
    {
      if closed || supported == Some(false) {
        return;
      }
      rows := PutRow(rows, row);
      ScheduleTimer(now);
    }

    method OnTimer(now: nat) returns (batch: Option<seq<Row>>)
      modifies this
      ensures Abs() == TimerFires(old(Abs()), now)
    {
      timer := None;
      batch := FlushNow(now);
    }

    method OnHeartbeat(now: nat) returns (batch: Option<seq<Row>>)
      modifies this
      ensures Abs() == Heartbeat(old(Abs()), now)
    {
      batch := None;
      if AnyLive(rows) {
        batch := FlushNow(now);
      }
    }

    /** The handler's loop over the batch. */
    method OnAnswer(result: SendResult)
      requires inFlight.Some?
      modifies this
      ensures Abs() == Answer(old(Abs()), result)
    {
      var batch := inFlight.value.batch;
      inFlight := Some(Flight(batch, true));
      if result == Unsupported {
        supported := Some(false);
        rows := [];
        return;
      }
      if result != Taken {
        return;
      }
      supported := Some(true);
      for i := 0 to |batch|
        invariant DropSent(rows, batch[i..]) == DropSent(old(rows), batch)
        invariant Abs() == old(Abs()).(rows := rows, supported := Some(true), inFlight := Some(Flight(batch, true)))
      {
        assert batch[i..][0] == batch[i] && batch[i..][1..] == batch[i + 1..];
        if Terminal(batch[i].state) && FindRow(rows, batch[i].externalId) == Some(batch[i]) {
          rows := DropRow(rows, batch[i].externalId);
        }
      }
    }

    method OnSettled(now: nat)
      modifies this
      ensures Abs() == Settle(old(Abs()), now, throttle)
    {
      inFlight := None;
      if again {
        again := false;
        ScheduleTimer(now);
      }
    }

    method Shut()
      modifies this
      ensures Abs() == Close(old(Abs()))
    {
      closed := true;
    }
  }

  // ---- Runs

  datatype Event =
    | Sets(row: Row)
    | Flushes
    | Fires
    | Beats
    | Answers(result: SendResult)
    | Settles
    | Closes
    | Tick(elapsed: nat)

  /** A run so far: the clock, every row object put in a started batch, when sends began, when those
      the timer drove did, and whether the armed timer was armed before the latest send began. */
  datatype World = World(s: State, now: nat, placed: set<Row>, sends: seq<nat>, timerSends: seq<nat>, early: bool)

  function Init(now: nat): World {
    World(State([], None, 0, None, None, false, false), now, {}, [], [], false)
  }

  /** The reporter after `e`, which the event loop delivers only when it can happen: a cleared
      timer does not fire, nor an interval after `close`; a send is answered once, then settles. */
  function Step(s: State, e: Event, now: nat, throttle: nat): Option<State> {
    match e
    case Sets(row) => Some(SetRow(s, row, now, throttle))
    case Flushes => Some(Flush(s, now))
    case Fires => if s.closed || s.timer == None || now < s.timer.value then None else Some(TimerFires(s, now))
    case Beats => if s.closed then None else Some(Heartbeat(s, now))
    case Answers(result) =>
      if s.inFlight == None || s.inFlight.value.answered then None else Some(Answer(s, result))
    case Settles =>
      if s.inFlight == None || !s.inFlight.value.answered then None else Some(Settle(s, now, throttle))
    case Closes => Some(Close(s))
    case Tick(_) => Some(s)
  }

  /** A send begins in this step. */
  predicate Begins(s: State, t: State) {
    s.inFlight == None && t.inFlight.Some?
  }

  function Next(w: World, e: Event, throttle: nat): Option<World> {
    match Step(w.s, e, w.now, throttle)
    case None => None
    case Some(t) =>
      var begins := Begins(w.s, t);
      Some(World(t, if e.Tick? then w.now + e.elapsed else w.now,
                 if begins then w.placed + (set r | r in t.inFlight.value.batch) else w.placed,
                 if begins then w.sends + [w.now] else w.sends,
                 if begins && e.Fires? then w.timerSends + [w.now] else w.timerSends,
                 t.timer.Some? && w.s.timer.Some? && (begins || w.early)))
  }

  function RunFrom(w: World, events: seq<Event>, throttle: nat): Option<World> {
    if events == [] then Some(w)
    else
      match RunFrom(w, events[..|events| - 1], throttle)
      case None => None
      case Some(v) => Next(v, events[|events| - 1], throttle)
  }

  function Run(now: nat, events: seq<Event>, throttle: nat): Option<World> {
    RunFrom(Init(now), events, throttle)
  }

  // ---- What the row map keeps

  lemma {:induction false} PutRowHas(rows: seq<Row>, row: Row, r: Row)
    requires Keyed(rows)
    ensures Keyed(PutRow(rows, row))
    ensures r in PutRow(rows, row) <==> r == row || (r in rows && r.externalId != row.externalId)
  {
    if rows != [] {
      if rows[0].externalId == row.externalId {
        assert r in rows <==> r == rows[0] || r in rows[1..];
      } else {
        PutRowHas(rows[1..], row, r);
        PutRowKeys(rows[1..], row);
        assert r in rows <==> r == rows[0] || r in rows[1..];
      }
    }
  }

  /** A row stands in its title's place, or behind all others when the title is new. */
  lemma {:induction false} PutRowIs(rows: seq<Row>, row: Row, i: nat)
    requires Keyed(rows) && i <= |rows|
    requires i < |rows| ==> rows[i].externalId == row.externalId
    requires i == |rows| ==> forall k | 0 <= k < |rows| :: rows[k].externalId != row.externalId
    ensures PutRow(rows, row) == if i < |rows| then rows[i := row] else rows + [row]
  {
    if i > 0 {
      assert rows[0].externalId != row.externalId;
      PutRowIs(rows[1..], row, i - 1);
    }
  }

  lemma {:induction false} PutRowKeys(rows: seq<Row>, row: Row)
    ensures forall i | 0 <= i < |PutRow(rows, row)| ::
              PutRow(rows, row)[i] == row || PutRow(rows, row)[i] in rows
  {
    if rows != [] {
      PutRowKeys(rows[1..], row);
    }
  }

  lemma {:induction false} DropRowHas(rows: seq<Row>, id: string, r: Row)
    requires Keyed(rows)
    ensures Keyed(DropRow(rows, id))
    ensures r in DropRow(rows, id) <==> r in rows && r.externalId != id
  {
    if rows != [] {
      assert r in rows <==> r == rows[0] || r in rows[1..];
      if rows[0].externalId != id {
        DropRowHas(rows[1..], id, r);
        DropRowKeys(rows[1..], id);
      }
    }
  }

  lemma {:induction false} DropRowKeys(rows: seq<Row>, id: string)
    ensures forall i | 0 <= i < |DropRow(rows, id)| :: DropRow(rows, id)[i] in rows
  {
    if rows != [] {
      DropRowKeys(rows[1..], id);
    }
  }

  lemma {:induction false} FindRowIs(rows: seq<Row>, r: Row)
    requires Keyed(rows)
    ensures FindRow(rows, r.externalId) == Some(r) <==> r in rows
  {
    if rows != [] {
      assert r in rows <==> r == rows[0] || r in rows[1..];
      FindRowIs(rows[1..], r);
    }
  }

  /** A row leaves an acknowledged map exactly when that very object, terminal, was in the batch:
      a newer value set during the send survives it. */
  lemma {:induction false} DropSentIs(rows: seq<Row>, batch: seq<Row>, r: Row)
    requires Keyed(rows)
    ensures Keyed(DropSent(rows, batch))
    ensures r in DropSent(rows, batch) <==> r in rows && !(r in batch && r.state in {Done, Failed, Cancelled})
    decreases |batch|
  {
    if batch != [] {
      var sent := batch[0];
      FindRowIs(rows, sent);
      DropRowHas(rows, sent.externalId, r);
      var gone := Terminal(sent.state) && FindRow(rows, sent.externalId) == Some(sent);
      DropSentIs(if gone then DropRow(rows, sent.externalId) else rows, batch[1..], r);
      assert r in batch <==> r == sent || r in batch[1..];
      if r in rows && r.externalId == sent.externalId && sent in rows {
        SameRow(rows, r, sent);
      }
    }
  }

  lemma {:induction false} SameRow(rows: seq<Row>, a: Row, b: Row)
    requires Keyed(rows) && a in rows && b in rows && a.externalId == b.externalId
    ensures a == b
  {
  }

  // ---- What every step keeps

  /** A value no started batch holds has a timer coming, or a send that will arm one. */
  ghost predicate Coming(w: World) {
    w.s.closed || w.s.supported == Some(false)
    || (forall r | r in w.s.rows :: r in w.placed)
    || w.s.timer.Some? || (w.s.inFlight.Some? && w.s.again)
  }

  /** Each at least a throttle after the one before. */
  ghost predicate Spaced(times: seq<nat>, throttle: nat) {
    forall i | 0 < i < |times| :: times[i - 1] + throttle <= times[i]
  }

  ghost predicate TimerSpaced(w: World, throttle: nat) {
    && Spaced(w.timerSends, throttle)
    && (w.timerSends != [] ==>
          var last := w.timerSends[|w.timerSends| - 1];
          && last <= w.s.lastSent
          && (w.s.timer.Some? ==> last + throttle <= w.s.timer.value))
  }

  /** `lastSent` is the latest send, and a timer armed since is due a throttle after it. */
  ghost predicate TimerWaits(w: World, throttle: nat) {
    && w.s.lastSent <= w.now
    && (w.sends != [] ==>
          && w.sends[|w.sends| - 1] == w.s.lastSent
          && (w.s.timer.Some? && !w.early ==> w.s.lastSent + throttle <= w.s.timer.value))
  }

  /** A host known not to take reports is left alone: no row, and no send still to be answered. */
  ghost predicate RefusalHolds(s: State) {
    s.supported == Some(false) ==> s.rows == [] && (s.inFlight == None || s.inFlight.value.answered)
  }

  ghost predicate Inv(w: World, throttle: nat) {
    && Keyed(w.s.rows) && Coming(w) && TimerSpaced(w, throttle) && TimerWaits(w, throttle)
    && (w.s.again ==> w.s.inFlight.Some?)
    && RefusalHolds(w.s)
  }

  lemma {:induction false} RowsKeep(w: World, e: Event, throttle: nat)
    requires Inv(w, throttle) && Next(w, e, throttle).Some?
    ensures var t := Next(w, e, throttle).value;
            Keyed(t.s.rows) && (t.s.again ==> t.s.inFlight.Some?) && RefusalHolds(t.s)
  {
    match e
    case Sets(row) =>
      PutRowHas(w.s.rows, row, row);
    case Answers(result) =>
      forall r {
        DropSentIs(w.s.rows, w.s.inFlight.value.batch, r);
      }
    case _ =>
  }

  lemma {:induction false} ComingKeeps(w: World, e: Event, throttle: nat)
    requires Inv(w, throttle) && Next(w, e, throttle).Some?
    ensures Coming(Next(w, e, throttle).value)
  {
    match e
    case Answers(result) =>
      forall r {
        DropSentIs(w.s.rows, w.s.inFlight.value.batch, r);
      }
    case _ =>
  }

  lemma {:induction false} SpacedMore(times: seq<nat>, throttle: nat, t: nat)
    ensures Spaced(times + [t], throttle)
       <==> Spaced(times, throttle) && (times != [] ==> times[|times| - 1] + throttle <= t)
  {
    var more := times + [t];
    if Spaced(more, throttle) {
      forall i | 0 < i < |times|
        ensures times[i - 1] + throttle <= times[i]
      {
        assert more[i - 1] == times[i - 1] && more[i] == times[i];
      }
      if times != [] {
        assert more[|times| - 1] + throttle <= more[|times|];
      }
    }
  }

  lemma {:induction false} FiringKeeps(w: World, throttle: nat)
    requires TimerSpaced(w, throttle) && w.s.lastSent <= w.now && Next(w, Fires, throttle).Some?
    ensures TimerSpaced(Next(w, Fires, throttle).value, throttle)
  {
    SpacedMore(w.timerSends, throttle, w.now);
  }

  lemma {:induction false} SpacingKeeps(w: World, e: Event, throttle: nat)
    requires TimerSpaced(w, throttle) && w.s.lastSent <= w.now && Next(w, e, throttle).Some?
    ensures TimerSpaced(Next(w, e, throttle).value, throttle)
  {
    if e.Fires? {
      FiringKeeps(w, throttle);
    } else {
      assert Next(w, e, throttle).value.timerSends == w.timerSends;
    }
  }

  lemma {:induction false} WaitsKeep(w: World, e: Event, throttle: nat)
    requires TimerWaits(w, throttle) && Next(w, e, throttle).Some?
    ensures TimerWaits(Next(w, e, throttle).value, throttle)
  {
  }

  /** Every event keeps the invariant. */
  lemma {:induction false} NextKeeps(w: World, e: Event, throttle: nat)
    requires Inv(w, throttle) && Next(w, e, throttle).Some?
    ensures Inv(Next(w, e, throttle).value, throttle)
  {
    RowsKeep(w, e, throttle);
    ComingKeeps(w, e, throttle);
    SpacingKeeps(w, e, throttle);
    WaitsKeep(w, e, throttle);
  }

  lemma {:induction false} RunFromKeeps(w: World, events: seq<Event>, throttle: nat)
    requires Inv(w, throttle) && RunFrom(w, events, throttle).Some?
    ensures Inv(RunFrom(w, events, throttle).value, throttle)
  {
    if events != [] {
      RunFromKeeps(w, events[..|events| - 1], throttle);
      NextKeeps(RunFrom(w, events[..|events| - 1], throttle).value, events[|events| - 1], throttle);
    }
  }

  lemma {:induction false} RunKeeps(now: nat, events: seq<Event>, throttle: nat)
    requires Run(now, events, throttle).Some?
    ensures Inv(Run(now, events, throttle).value, throttle)
  {
    RunFromKeeps(Init(now), events, throttle);
  }

  // ---- Over whole runs

  /** Every update is kept: in every reachable state that is neither closed nor unsupported, a row
      value not yet placed in any started batch has a timer armed, or a send in flight with
      `again` set. */
  lemma {:induction false} UpdatesAreKept(now: nat, events: seq<Event>, throttle: nat, row: Row)
    requires Run(now, events, throttle).Some?
    ensures var w := Run(now, events, throttle).value;
            !w.s.closed && w.s.supported != Some(false) && row in w.s.rows && row !in w.placed ==>
              w.s.timer.Some? || (w.s.inFlight.Some? && w.s.again)
  {
    RunKeeps(now, events, throttle);
  }

  /** A row leaves only in one of three ways: its title is set anew, the very object, terminal, was
      in the batch just acknowledged, or the host answered that it knows no downloads. */
  lemma {:induction false} RowsLeaveOnlyWhenDone(w: World, e: Event, throttle: nat, row: Row)
    requires Inv(w, throttle) && Next(w, e, throttle).Some? && row in w.s.rows
    ensures row !in Next(w, e, throttle).value.s.rows <==>
              match e
              case Sets(next) =>
                !w.s.closed && w.s.supported != Some(false) && next.externalId == row.externalId && next != row
              case Answers(Unsupported) => true
              case Answers(Taken) => row in w.s.inFlight.value.batch && row.state in {Done, Failed, Cancelled}
              case _ => false
  {
    match e
    case Sets(next) =>
      PutRowHas(w.s.rows, next, row);
    case Answers(Taken) =>
      DropSentIs(w.s.rows, w.s.inFlight.value.batch, row);
    case _ =>
  }

  lemma {:induction false} RunPrefix(now: nat, events: seq<Event>, throttle: nat, n: nat)
    requires n <= |events| && Run(now, events, throttle).Some?
    ensures Run(now, events[..n], throttle).Some?
    decreases |events|
  {
    if n == |events| {
      assert events[..n] == events;
    } else {
      RunPrefix(now, events[..|events| - 1], throttle, n);
      assert events[..|events| - 1][..n] == events[..n];
    }
  }

  function Settled(events: seq<Event>): nat {
    if events == [] then 0
    else Settled(events[..|events| - 1]) + if events[|events| - 1].Settles? then 1 else 0
  }

  /** Sends never overlap: at every point of a run each send begun has settled, but for the one in
      flight. */
  lemma {:induction false} SendsNeverOverlap(now: nat, events: seq<Event>, throttle: nat)
    requires Run(now, events, throttle).Some?
    ensures var w := Run(now, events, throttle).value;
            |w.sends| == Settled(events) + if w.s.inFlight.Some? then 1 else 0
  {
    if events != [] {
      SendsNeverOverlap(now, events[..|events| - 1], throttle);
    }
  }

  /** Nothing more is to be sent: closed, or the host is known not to take reports. */
  predicate Gone(s: State) {
    s.closed || s.supported == Some(false)
  }

  lemma {:induction false} GoneStays(w: World, e: Event, throttle: nat)
    requires Inv(w, throttle) && Next(w, e, throttle).Some? && Gone(w.s)
    ensures var t := Next(w, e, throttle).value;
            && t.sends == w.sends
            && (w.s.closed ==> t.s.closed)
            && (w.s.supported == Some(false) ==> t.s.supported == Some(false))
  {
  }

  /** A close and an answer that the host knows no downloads end the sending, for good: whatever
      follows, no send begins, and neither is taken back. */
  lemma {:induction false} NoSendOnceGone(now: nat, events: seq<Event>, throttle: nat, n: nat)
    requires n <= |events| && Run(now, events, throttle).Some?
    ensures Run(now, events[..n], throttle).Some?
    ensures var w, t := Run(now, events[..n], throttle).value, Run(now, events, throttle).value;
            && (n > 0 && events[n - 1] in {Closes, Answers(Unsupported)} ==> Gone(w.s))
            && (Gone(w.s) ==> t.sends == w.sends)
            && (w.s.closed ==> t.s.closed)
            && (w.s.supported == Some(false) ==> t.s.supported == Some(false))
    decreases |events|
  {
    RunPrefix(now, events, throttle, n);
    if n == |events| {
      assert events[..n] == events;
    } else {
      var before := events[..|events| - 1];
      assert before[..n] == events[..n];
      NoSendOnceGone(now, before, throttle, n);
      RunKeeps(now, before, throttle);
      if Gone(Run(now, before, throttle).value.s) {
        GoneStays(Run(now, before, throttle).value, events[|events| - 1], throttle);
      }
    }
  }

  // ---- How far apart sends are

  lemma {:induction false} SpacedApart(times: seq<nat>, throttle: nat, i: nat, j: nat)
    requires Spaced(times, throttle) && i <= j < |times|
    ensures times[i] + (j - i) * throttle <= times[j]
    decreases j - i
  {
    if i < j {
      SpacedApart(times, throttle, i, j - 1);
      assert (j - i) * throttle == (j - 1 - i) * throttle + throttle;
    }
  }

  /** Timer-driven sends `n` apart in order are at least `n` throttles apart in time. */
  lemma {:induction false} TimerIsThrottled(now: nat, events: seq<Event>, throttle: nat, i: nat, j: nat)
    requires Run(now, events, throttle).Some?
    requires i <= j < |Run(now, events, throttle).value.timerSends|
    ensures var times := Run(now, events, throttle).value.timerSends;
            times[i] + (j - i) * throttle <= times[j]
  {
    RunKeeps(now, events, throttle);
    SpacedApart(Run(now, events, throttle).value.timerSends, throttle, i, j);
  }

  /** Some title is queued, downloading or installing. */
  predicate InProgress(rows: seq<Row>) {
    exists i | 0 <= i < |rows| :: rows[i].state in {Queued, Downloading, Installing}
  }

  /** `e` would begin a send too soon: within a throttle of the latest send, a flush, a heartbeat
      that finds a live row, or a timer armed before that send. */
  predicate Hasty(w: World, e: Event, throttle: nat) {
    && Sends(w.s) && w.sends != [] && w.now < w.s.lastSent + throttle
    && match e
       case Flushes => true
       case Beats => InProgress(w.s.rows)
       case Fires => w.early
       case _ => false
  }

  ghost predicate HastyAt(now: nat, events: seq<Event>, throttle: nat, n: nat)
    requires n < |events|
  {
    Run(now, events[..n], throttle).Some? && Hasty(Run(now, events[..n], throttle).value, events[n], throttle)
  }

  ghost predicate Calm(now: nat, events: seq<Event>, throttle: nat) {
    forall n | 0 <= n < |events| :: !HastyAt(now, events, throttle, n)
  }

  /** One step spoils the spacing exactly when it is hasty. */
  lemma {:induction false} HastySpoils(w: World, e: Event, throttle: nat)
    requires Inv(w, throttle) && Next(w, e, throttle).Some? && Spaced(w.sends, throttle)
    ensures Spaced(Next(w, e, throttle).value.sends, throttle) <==> !Hasty(w, e, throttle)
  {
    SpacedMore(w.sends, throttle, w.now);
  }

  lemma {:induction false} SpacedBefore(w: World, e: Event, throttle: nat)
    requires Next(w, e, throttle).Some? && Spaced(Next(w, e, throttle).value.sends, throttle)
    ensures Spaced(w.sends, throttle)
  {
    SpacedMore(w.sends, throttle, w.now);
  }

  lemma {:induction false} CalmMore(now: nat, events: seq<Event>, throttle: nat)
    requires events != [] && Run(now, events, throttle).Some?
    ensures var before := events[..|events| - 1];
            && Run(now, before, throttle).Some?
            && (Calm(now, events, throttle) <==>
                  Calm(now, before, throttle)
                  && !Hasty(Run(now, before, throttle).value, events[|events| - 1], throttle))
  {
    var before := events[..|events| - 1];
    forall n | 0 <= n < |before|
      ensures HastyAt(now, before, throttle, n) == HastyAt(now, events, throttle, n)
    {
      assert before[..n] == events[..n];
    }
    assert HastyAt(now, events, throttle, |before|)
        == Hasty(Run(now, before, throttle).value, events[|before|], throttle);
  }

  /** Sends are a throttle apart on exactly the runs none of whose events is hasty. */
  lemma {:induction false} SpacedIffCalm(now: nat, events: seq<Event>, throttle: nat)
    requires Run(now, events, throttle).Some?
    ensures Spaced(Run(now, events, throttle).value.sends, throttle) <==> Calm(now, events, throttle)
    decreases |events|
  {
    if events != [] {
      var before, e := events[..|events| - 1], events[|events| - 1];
      CalmMore(now, events, throttle);
      SpacedIffCalm(now, before, throttle);
      RunKeeps(now, before, throttle);
      var w := Run(now, before, throttle).value;
      if Spaced(w.sends, throttle) {
        HastySpoils(w, e, throttle);
      } else if Spaced(Next(w, e, throttle).value.sends, throttle) {
        SpacedBefore(w, e, throttle);
      }
    }
  }

  /** A heartbeat or a flush that begins a send. */
  predicate Direct(w: World, e: Event) {
    Sends(w.s) && (e == Flushes || (e == Beats && InProgress(w.s.rows)))
  }

  ghost predicate DirectAt(now: nat, events: seq<Event>, throttle: nat, n: nat)
    requires n < |events|
  {
    Run(now, events[..n], throttle).Some? && Direct(Run(now, events[..n], throttle).value, events[n])
  }

  /** No heartbeat and no flush begins a send. */
  ghost predicate TimerOnly(now: nat, events: seq<Event>, throttle: nat) {
    forall n | 0 <= n < |events| :: !DirectAt(now, events, throttle, n)
  }

  lemma {:induction false} TimerOnlyMore(now: nat, events: seq<Event>, throttle: nat)
    requires events != [] && Run(now, events, throttle).Some? && TimerOnly(now, events, throttle)
    ensures var before := events[..|events| - 1];
            && Run(now, before, throttle).Some? && TimerOnly(now, before, throttle)
            && !Direct(Run(now, before, throttle).value, events[|events| - 1])
  {
    var before := events[..|events| - 1];
    forall n | 0 <= n < |before|
      ensures !DirectAt(now, before, throttle, n)
    {
      assert before[..n] == events[..n];
      assert !DirectAt(now, events, throttle, n);
    }
    assert !DirectAt(now, events, throttle, |before|);
  }

  /** When only the timer begins sends, all sends are a throttle apart. */
  lemma {:induction false} TimerAloneIsCalm(now: nat, events: seq<Event>, throttle: nat)
    requires Run(now, events, throttle).Some? && TimerOnly(now, events, throttle)
    ensures Spaced(Run(now, events, throttle).value.sends, throttle) && !Run(now, events, throttle).value.early
    decreases |events|
  {
    if events != [] {
      var before, e := events[..|events| - 1], events[|events| - 1];
      TimerOnlyMore(now, events, throttle);
      TimerAloneIsCalm(now, before, throttle);
      RunKeeps(now, before, throttle);
      HastySpoils(Run(now, before, throttle).value, e, throttle);
    }
  }

  /** Open, and not refused: rows are to be sent. */
  predicate Open(s: State) {
    !s.closed && s.supported != Some(false)
  }

  // ---- When the timer is due

  /** A timer that is armed is due at the least time that is not past and a throttle after the latest
      send. */
  lemma {:induction false} ArmedForTheLeast(w: World, e: Event, throttle: nat)
    requires Inv(w, throttle) && Next(w, e, throttle).Some?
    requires w.s.timer == None && Next(w, e, throttle).value.s.timer.Some?
    ensures var due := Next(w, e, throttle).value.s.timer.value;
            && w.now <= due && w.s.lastSent + throttle <= due
            && (due == w.now || due == w.s.lastSent + throttle)
  {
  }

  /** A row set on an open reporter at rest is sent by the timer as soon as a throttle has passed since
      the latest send, at once if it has, and not before. */
  lemma {:induction false} SetRowIsSentInTime(w: World, row: Row, wait: nat, throttle: nat)
    requires Inv(w, throttle) && Open(w.s) && w.s.inFlight == None && w.s.timer == None
    ensures var armed := Next(w, Sets(row), throttle);
            && armed.Some?
            && var later := Next(armed.value, Tick(wait), throttle);
            && later.Some?
            && var sent := Next(later.value, Fires, throttle);
            && (sent.Some? <==> w.s.lastSent + throttle <= w.now + wait)
            && (sent.Some? ==>
                  && sent.value.sends == w.sends + [w.now + wait]
                  && sent.value.s.inFlight.Some? && row in sent.value.s.inFlight.value.batch)
  {
    PutRowHas(w.s.rows, row, row);
  }

  // ---- What is sent without a caller

  lemma {:induction false} RunOn(w: World, events: seq<Event>, e: Event, throttle: nat) returns (more: seq<Event>)
    requires RunFrom(w, events, throttle).Some? && Next(RunFrom(w, events, throttle).value, e, throttle).Some?
    ensures more == events + [e]
    ensures RunFrom(w, more, throttle) == Next(RunFrom(w, events, throttle).value, e, throttle)
  {
    more := events + [e];
    assert more[..|events|] == events;
  }

  /** Events no caller makes. */
  predicate Unprompted(events: seq<Event>) {
    forall e <- events :: !e.Sets? && !e.Flushes?
  }

  /** The last of `events` begins a send that holds `row`. */
  predicate Pushes(w: World, events: seq<Event>, row: Row, throttle: nat) {
    events != [] &&
    match RunFrom(w, events[..|events| - 1], throttle)
    case None => false
    case Some(v) =>
      match Next(v, events[|events| - 1], throttle)
      case None => false
      case Some(t) => Begins(v.s, t.s) && row in t.s.inFlight.value.batch
  }

  /** A reporter nothing but a caller can move to send: no timer, no flush that came during a send,
      no live row. */
  predicate Quiet(w: World) {
    w.s.timer == None && !w.s.again && !InProgress(w.s.rows)
  }

  lemma {:induction false} DropSentFrom(rows: seq<Row>, batch: seq<Row>)
    ensures forall r | r in DropSent(rows, batch) :: r in rows
    decreases |batch|
  {
    if batch != [] {
      var sent := batch[0];
      var gone := Terminal(sent.state) && FindRow(rows, sent.externalId) == Some(sent);
      DropSentFrom(if gone then DropRow(rows, sent.externalId) else rows, batch[1..]);
      DropRowKeys(rows, sent.externalId);
    }
  }

  lemma {:induction false} QuietStaysQuiet(w: World, e: Event, throttle: nat)
    requires Quiet(w) && !e.Sets? && !e.Flushes? && Next(w, e, throttle).Some?
    ensures Quiet(Next(w, e, throttle).value) && Next(w, e, throttle).value.sends == w.sends
  {
    if e.Answers? {
      var rows := w.s.rows;
      DropSentFrom(rows, w.s.inFlight.value.batch);
      assert forall r | r in rows :: r.state !in {Queued, Downloading, Installing};
    }
  }

  lemma {:induction false} QuietRuns(w: World, events: seq<Event>, throttle: nat)
    requires Quiet(w) && Unprompted(events) && RunFrom(w, events, throttle).Some?
    ensures Quiet(RunFrom(w, events, throttle).value) && RunFrom(w, events, throttle).value.sends == w.sends
  {
    if events != [] {
      QuietRuns(w, events[..|events| - 1], throttle);
      QuietStaysQuiet(RunFrom(w, events[..|events| - 1], throttle).value, events[|events| - 1], throttle);
    }
  }

  lemma {:induction false} QuietNeverPushes(w: World, events: seq<Event>, row: Row, throttle: nat)
    requires Quiet(w) && Unprompted(events)
    ensures !Pushes(w, events, row, throttle)
  {
    if Pushes(w, events, row, throttle) {
      QuietRuns(w, events[..|events| - 1], throttle);
      QuietStaysQuiet(RunFrom(w, events[..|events| - 1], throttle).value, events[|events| - 1], throttle);
    }
  }

  /** The send in flight can fail, which keeps the rows and frees the slot. */
  lemma {:induction false} SlotFrees(w: World, throttle: nat) returns (events: seq<Event>)
    requires Open(w.s) && (w.s.again ==> w.s.inFlight.Some?)
    ensures Unprompted(events) && RunFrom(w, events, throttle).Some?
    ensures var t := RunFrom(w, events, throttle).value.s;
            && Open(t) && t.inFlight == None && t.rows == w.s.rows
            && (w.s.timer.Some? || w.s.again ==> t.timer.Some?)
  {
    events := [];
    if w.s.inFlight.Some? {
      if !w.s.inFlight.value.answered {
        events := RunOn(w, events, Answers(NotSent), throttle);
      }
      events := RunOn(w, events, Settles, throttle);
    }
  }

  /** A free slot and a timer or a live row: a send of every row begins. */
  lemma {:induction false} FreeSlotPushes(w: World, events: seq<Event>, row: Row, throttle: nat)
    returns (more: seq<Event>)
    requires Unprompted(events) && RunFrom(w, events, throttle).Some?
    requires var t := RunFrom(w, events, throttle).value.s;
             && Open(t) && t.inFlight == None && row in t.rows && (t.timer.Some? || InProgress(t.rows))
    ensures Unprompted(more) && Pushes(w, more, row, throttle)
  {
    var t := RunFrom(w, events, throttle).value;
    if t.s.timer.Some? {
      more := RunOn(w, events, Tick(t.s.timer.value), throttle);
      more := RunOn(w, more, Fires, throttle);
    } else {
      more := RunOn(w, events, Beats, throttle);
    }
  }

  /** Exactly when a row still in the map is sent without a caller: some run without `set` and
      `flush` begins a send that holds it if and only if the reporter is not quiet. */
  lemma {:induction false} SentUnpromptedIff(w: World, row: Row, throttle: nat)
    requires Inv(w, throttle) && Open(w.s) && row in w.s.rows
    ensures (exists events :: Unprompted(events) && Pushes(w, events, row, throttle)) <==> !Quiet(w)
  {
    if Quiet(w) {
      forall events | Unprompted(events)
        ensures !Pushes(w, events, row, throttle)
      {
        QuietNeverPushes(w, events, row, throttle);
      }
    } else {
      var events := SlotFrees(w, throttle);
      events := FreeSlotPushes(w, events, row, throttle);
    }
  }

  // ---- What the reporter does not promise

  /** One row set at time `throttle`, when the timer is due at once. */
  function OneRow(row: Row, throttle: nat): World {
    World(State([row], None, 0, Some(throttle), None, false, false), throttle, {}, [], [], false)
  }

  lemma {:induction false} SetOneRow(row: Row, throttle: nat) returns (events: seq<Event>)
    ensures Run(throttle, events, throttle) == Some(OneRow(row, throttle))
  {
    events := RunOn(Init(throttle), [], Sets(row), throttle);
    assert PutRow([], row) == [row];
  }

  /** That row's send, begun by the timer or by a heartbeat, which leaves the timer armed. */
  function Sending(row: Row, byTimer: bool, throttle: nat): World {
    var timer: Option<nat> := if byTimer then None else Some(throttle);
    World(State([row], None, throttle, timer, Some(Flight([row], false)), false, false),
          throttle, {row}, [throttle], if byTimer then [throttle] else [], !byTimer)
  }

  lemma {:induction false} SendStarts(row: Row, e: Event, throttle: nat)
    requires throttle > 0 && (e == Fires || (e == Beats && row.state in {Queued, Downloading, Installing}))
    ensures Next(OneRow(row, throttle), e, throttle) == Some(Sending(row, e == Fires, throttle))
  {
    var rows := [row];
    assert (set r | r in rows) == {row};
    assert Live(row.state) ==> Live(rows[0].state) && AnyLive(rows);
    assert [] + [throttle] == [throttle];
    var w := Next(OneRow(row, throttle), e, throttle).value;
    assert w.placed == {row} && w.s.rows == rows;
  }

  /** The same row's send has failed and settled. */
  lemma {:induction false} FailSend(row: Row, e: Event, throttle: nat) returns (events: seq<Event>)
    requires throttle > 0 && (e == Fires || (e == Beats && row.state in {Queued, Downloading, Installing}))
    ensures var w := Sending(row, e == Fires, throttle);
            Run(throttle, events, throttle) == Some(w.(s := w.s.(inFlight := None)))
  {
    events := SetOneRow(row, throttle);
    SendStarts(row, e, throttle);
    events := RunOn(Init(throttle), events, e, throttle);
    var w := Sending(row, e == Fires, throttle);
    events := RunOn(Init(throttle), events, Answers(NotSent), throttle);
    assert Run(throttle, events, throttle).value == w.(s := Answer(w.s, NotSent));
    events := RunOn(Init(throttle), events, Settles, throttle);
  }

  /** A timer armed before a heartbeat's send is not put off by it: the two may send in the same
      millisecond. */
  lemma {:induction false} HeartbeatBeatsThrottle(throttle: nat, row: Row) returns (events: seq<Event>)
    requires throttle > 0 && row.state in {Queued, Downloading, Installing}
    ensures Run(throttle, events, throttle).Some?
    ensures Run(throttle, events, throttle).value.sends == [throttle, throttle]
  {
    events := FailSend(row, Beats, throttle);
    events := RunOn(Init(throttle), events, Fires, throttle);
  }

  /** A terminal row whose one send failed stays in the map, and no run without a caller sends it
      again. */
  lemma {:induction false} FailedTerminalWaits(throttle: nat, row: Row) returns (events: seq<Event>)
    requires throttle > 0 && row.state in {Done, Failed, Cancelled}
    ensures Run(throttle, events, throttle).Some?
    ensures var w := Run(throttle, events, throttle).value;
            && w.s.rows == [row] && Open(w.s) && w.s.inFlight == None
            && forall more | Unprompted(more) :: !Pushes(w, more, row, throttle)
  {
    events := FailSend(row, Fires, throttle);
    forall more | Unprompted(more)
      ensures !Pushes(Run(throttle, events, throttle).value, more, row, throttle)
    {
      QuietNeverPushes(Run(throttle, events, throttle).value, more, row, throttle);
    }
  }
}
