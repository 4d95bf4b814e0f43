/** The sync engine: a single-flight guard with a pending bit and a detached re-fire, over every
    interleaving of callers, passes and interruptions. */
module SyncEngine {
  import opened Wrappers

  datatype Reason = Startup | Poll | FsChange | ConfigChange | Manual | Coalesced | LibraryChange

  type Fingerprint = string

  /** The two reasons with a person waiting on the answer. */
  predicate AlwaysApply(reason: Reason) {
    reason == Startup || reason == Manual
  }

  /** Where a pass stands between taking the guard and giving it back. */
  datatype Stage =
    | Computing
    | Reported(fp: Fingerprint)
    | Compared(fp: Fingerprint, prev: Option<Fingerprint>)
    | Applying(fp: Fingerprint)
    | Unrecorded(fp: Fingerprint)
    | Ending(outcome: Outcome)

  datatype Outcome = Applied(fp: Fingerprint) | Unchanged(fp: Fingerprint) | Failed | Interrupted

  datatype Pass = Pass(reason: Reason, began: nat, stage: Stage, computed: bool, attempted: bool)

  /** A finaliser that has freed the guard: the pass it ends, whether it owes a re-fire, and whether
      its report of the engine's status is out. */
  datatype Finaliser = Finaliser(id: nat, owes: bool, published: bool)

  /** The engine and its fibres. `syncing`, `pending` and `stored` are the engine's own; `passes`
      are the fibres holding the guard, by name; `finishing` are those past it whose finaliser has
      yet to end; `detached` counts coalesced fibres forked and not yet run. The rest is history:
      `clock` counts steps, `refused` holds when requests were answered `AlreadyRunning`, `lastBegan`
      when the latest pass began, `applied` what the latest successful apply pushed, `recorded`
      whether that was stored, `log` how passes ended. */
  datatype State = State(
    syncing: bool,
    pending: bool,
    stored: Option<Fingerprint>,
    passes: map<nat, Pass>,
    finishing: seq<Finaliser>,
    detached: nat,
    clock: nat,
    refused: set<nat>,
    lastBegan: Option<nat>,
    applied: Option<Fingerprint>,
    recorded: bool,
    log: seq<Pass>)

  /** One atomic step, with what the environment decides. */
  datatype Event =
    | Request(reason: Reason)
    | RunDetached
    | Computes(id: nat, result: Fingerprint)
    | ComputeFails(id: nat)
    | ReadsLast(id: nat)
    | Decides(id: nat)
    | Applies(id: nat)
    | ApplyFails(id: nat)
    | Records(id: nat)
    | Interrupts(id: nat)
    | Clears(id: nat)
    | Publishes(k: nat)
    | Dies(k: nat)
    | Forks(k: nat)

  /** Before the first request; the durable store holds what the last process applied. */
  function Init(stored: Option<Fingerprint>): State {
    State(false, false, stored, map[], [], 0, 0, {}, None, stored, true, [])
  }

  /** `sync`: take the guard, or leave a pending mark and go. A pass is named by when it began. */
  function Ask(s: State, reason: Reason): State {
    if s.syncing then s.(pending := true, refused := s.refused + {s.clock})
    else
      s.(syncing := true,
         passes := s.passes[s.clock := Pass(reason, s.clock, Computing, false, false)],
         lastBegan := Some(s.clock))
  }

  /** The pass's finaliser frees the guard and takes the pending mark with it. */
  function Clear(s: State, id: nat): State
    requires id in s.passes
  {
    s.(syncing := false, pending := false, passes := s.passes - {id},
       finishing := s.finishing + [Finaliser(id, s.pending, false)],
       log := s.log + [s.passes[id]])
  }

  function Without<T>(xs: seq<T>, k: nat): seq<T>
    requires k < |xs|
  {
    xs[..k] + xs[k + 1..]
  }

  /** The finaliser's last step: a mark it took becomes a detached fibre. */
  function Fork(s: State, k: nat): State
    requires k < |s.finishing|
  {
    s.(finishing := Without(s.finishing, k),
       detached := if s.finishing[k].owes then s.detached + 1 else s.detached)
  }

  function Move(s: State, id: nat, stage: Stage): State
    requires id in s.passes
  {
    s.(passes := s.passes[id := s.passes[id].(stage := stage)])
  }

  /** The state after `e`; `None` when `e` cannot happen. */
  function Effect(s: State, e: Event): Option<State> {
    match e
    case Request(reason) => Some(Ask(s, reason))
    case RunDetached =>
      if s.detached == 0 then None else Some(Ask(s.(detached := s.detached - 1), Coalesced))
    case Computes(id, fp) =>
      if id !in s.passes || s.passes[id].stage != Computing then None
      else Some(s.(passes := s.passes[id := s.passes[id].(stage := Reported(fp), computed := true)]))
    case ComputeFails(id) =>
      if id !in s.passes || s.passes[id].stage != Computing then None else Some(Move(s, id, Ending(Failed)))
    case ReadsLast(id) =>
      if id !in s.passes || !s.passes[id].stage.Reported? then None
      else Some(Move(s, id, Compared(s.passes[id].stage.fp, s.stored)))
    case Decides(id) =>
      if id !in s.passes || !s.passes[id].stage.Compared? then None
      else
        var pass := s.passes[id];
        if !AlwaysApply(pass.reason) && pass.stage.prev == Some(pass.stage.fp) then
          Some(Move(s, id, Ending(Unchanged(pass.stage.fp))))
        else Some(s.(passes := s.passes[id := pass.(stage := Applying(pass.stage.fp), attempted := true)]))
    case Applies(id) =>
      if id !in s.passes || !s.passes[id].stage.Applying? then None
      else
        var fp := s.passes[id].stage.fp;
        Some(Move(s, id, Unrecorded(fp)).(applied := Some(fp), recorded := false))
    case ApplyFails(id) =>
      if id !in s.passes || !s.passes[id].stage.Applying? then None else Some(Move(s, id, Ending(Failed)))
    case Records(id) =>
      if id !in s.passes || !s.passes[id].stage.Unrecorded? then None
      else
        var fp := s.passes[id].stage.fp;
        Some(Move(s, id, Ending(Applied(fp))).(stored := Some(fp), recorded := true))
    case Interrupts(id) =>
      if id !in s.passes || s.passes[id].stage.Ending? then None else Some(Move(s, id, Ending(Interrupted)))
    case Clears(id) =>
      if id !in s.passes || !s.passes[id].stage.Ending? then None else Some(Clear(s, id))
    case Publishes(k) =>
      if k >= |s.finishing| || s.finishing[k].published then None
      else Some(s.(finishing := s.finishing[k := s.finishing[k].(published := true)]))
    case Dies(k) =>
      if k >= |s.finishing| || s.finishing[k].published then None
      else Some(s.(finishing := Without(s.finishing, k)))
    case Forks(k) =>
      if k >= |s.finishing| || !s.finishing[k].published then None else Some(Fork(s, k))
  }

  function Next(s: State, e: Event): Option<State> {
    match Effect(s, e)
    case None => None
    case Some(t) => Some(t.(clock := s.clock + 1))
  }

  /** The state after a whole run; `None` when one of its steps cannot happen. */
  function Run(s: State, events: seq<Event>): Option<State> {
    if events == [] then Some(s)
    else
      match Run(s, events[..|events| - 1])
      case None => None
      case Some(t) => Next(t, events[|events| - 1])
  }

  // ---- What every step keeps

  /** At most one pass runs, and it holds the guard. */
  ghost predicate SingleFlight(s: State) {
    && (forall a, b | a in s.passes && b in s.passes :: a == b)
    && (s.syncing <==> s.passes != map[])
    && (s.pending ==> s.syncing)
    && (forall id | id in s.passes :: id < s.clock && s.passes[id].began == id && s.lastBegan == Some(id))
  }

  /** A request answered `AlreadyRunning` that no pass began after. */
  ghost predicate Waits(s: State, asked: nat) {
    asked in s.refused && s.lastBegan.Some? && s.lastBegan.value <= asked
  }

  ghost predicate Waiting(s: State) {
    exists asked :: Waits(s, asked)
  }

  /** The finaliser of the latest pass still owes a re-fire. */
  ghost predicate Owed(s: State) {
    exists k | 0 <= k < |s.finishing| :: s.finishing[k].owes && s.lastBegan == Some(s.finishing[k].id)
  }

  /** A waiting request is marked pending, owed by a detached fibre, or by a finaliser to be. */
  ghost predicate NothingLost(s: State) {
    Waiting(s) ==> s.pending || s.detached > 0 || Owed(s)
  }

  /** A mark is made by a request that waits, and stays with the pass it was made under. */
  ghost predicate MarksTrue(s: State) {
    && (s.lastBegan.Some? ==> s.lastBegan.value < s.clock)
    && (forall asked | asked in s.refused :: asked < s.clock && s.lastBegan.Some?)
    && (s.pending || Owed(s) ==> Waiting(s))
    && (forall f | f in s.finishing :: f.id !in s.passes && f.id < s.clock)
    && Apart(s.finishing)
  }

  ghost predicate Apart(fs: seq<Finaliser>) {
    forall j, k | 0 <= j < k < |fs| :: fs[j].id != fs[k].id
  }

  /** What a pass knows of the store is still so: nobody else writes while it holds the guard. */
  ghost predicate PassTrue(s: State, pass: Pass) {
    match pass.stage
    case Compared(_, prev) => prev == s.stored
    case Unrecorded(fp) => s.applied == Some(fp)
    case Ending(Unchanged(fp)) => s.stored == Some(fp) && pass.reason !in {Startup, Manual}
    case _ => true
  }

  ghost predicate StoreTrue(s: State) {
    && (s.recorded ==> s.stored == s.applied)
    && forall id | id in s.passes :: PassTrue(s, s.passes[id])
  }

  /** A pass nobody interrupts attempts the apply once it has computed, unless it may skip. */
  ghost predicate Honest(pass: Pass) {
    pass.stage.Ending? ==>
      match pass.stage.outcome
      case Applied(_) => pass.computed && pass.attempted
      case Unchanged(_) => pass.computed && !pass.attempted && pass.reason !in {Startup, Manual}
      case Failed => pass.computed == pass.attempted
      case Interrupted => true
  }

  ghost predicate StageTrue(pass: Pass) {
    match pass.stage
    case Computing => !pass.computed && !pass.attempted
    case Reported(_) => pass.computed && !pass.attempted
    case Compared(_, _) => pass.computed && !pass.attempted
    case Applying(_) => pass.computed && pass.attempted
    case Unrecorded(_) => pass.computed && pass.attempted
    case Ending(_) => Honest(pass)
  }

  ghost predicate AllHonest(s: State) {
    && (forall id | id in s.passes :: StageTrue(s.passes[id]))
    && forall pass | pass in s.log :: pass.stage.Ending? && Honest(pass)
  }

  ghost predicate Inv(s: State) {
    SingleFlight(s) && MarksTrue(s) && StoreTrue(s) && AllHonest(s)
  }

  /** A step of a pass that holds the guard, and keeps it. */
  predicate OfPass(e: Event) {
    !e.Request? && !e.RunDetached? && !e.Clears? && !OfFinaliser(e)
  }

  predicate OfFinaliser(e: Event) {
    e.Publishes? || e.Dies? || e.Forks?
  }

  lemma {:induction false} PassFrame(s: State, e: Event)
    requires OfPass(e) && Next(s, e).Some?
    ensures var t := Next(s, e).value;
            && t.syncing == s.syncing && t.pending == s.pending
            && t.finishing == s.finishing && t.detached == s.detached && t.clock == s.clock + 1
            && t.refused == s.refused && t.lastBegan == s.lastBegan && t.log == s.log
  {
  }

  /** A step of a pass changes that pass alone, and never its reason or when it began. */
  lemma {:induction false} PassOnly(s: State, e: Event)
    requires OfPass(e) && Next(s, e).Some?
    ensures var t := Next(s, e).value;
            && e.id in s.passes && e.id in t.passes && t.passes == s.passes[e.id := t.passes[e.id]]
            && t.passes[e.id].began == s.passes[e.id].began && t.passes[e.id].reason == s.passes[e.id].reason
  {
  }

  /** Each of `gs` was in `fs`, published or not. */
  ghost predicate Among(gs: seq<Finaliser>, fs: seq<Finaliser>) {
    forall g | g in gs :: exists f :: f in fs && f.id == g.id && f.owes == g.owes
  }

  lemma {:induction false} WithoutApart(fs: seq<Finaliser>, k: nat)
    requires k < |fs| && Apart(fs)
    ensures Apart(Without(fs, k)) && Among(Without(fs, k), fs)
  {
    var gs := Without(fs, k);
    forall i, j | 0 <= i < j < |gs|
      ensures gs[i].id != gs[j].id
    {
      assert gs[i] == fs[if i < k then i else i + 1] && gs[j] == fs[if j < k then j else j + 1];
    }
    forall g | g in gs
      ensures g in fs
    {
    }
  }

  lemma {:induction false} PublishedApart(fs: seq<Finaliser>, k: nat)
    requires k < |fs| && Apart(fs)
    ensures var gs := fs[k := fs[k].(published := true)]; Apart(gs) && Among(gs, fs)
  {
    var gs := fs[k := fs[k].(published := true)];
    forall g | g in gs
      ensures exists f :: f in fs && f.id == g.id && f.owes == g.owes
    {
      var i :| 0 <= i < |gs| && gs[i] == g;
      assert fs[i] in fs;
    }
  }

  lemma {:induction false} FinaliserFrame(s: State, e: Event)
    requires OfFinaliser(e) && Next(s, e).Some?
    ensures var t := Next(s, e).value;
            && t == s.(finishing := t.finishing, detached := t.detached, clock := s.clock + 1)
            && (Apart(s.finishing) ==> Apart(t.finishing) && Among(t.finishing, s.finishing))
  {
    if Apart(s.finishing) {
      if e.Publishes? {
        PublishedApart(s.finishing, e.k);
      } else {
        WithoutApart(s.finishing, e.k);
      }
    }
  }

  lemma {:induction false} FlightKeeps(s: State, e: Event)
    requires Inv(s) && Next(s, e).Some?
    ensures SingleFlight(Next(s, e).value)
  {
    if OfPass(e) {
      PassFrame(s, e);
      PassOnly(s, e);
    } else if e.Clears? {
      assert Next(s, e).value.passes == map[];
    }
  }

  lemma {:induction false} PassStores(s: State, e: Event)
    requires Inv(s) && OfPass(e) && Next(s, e).Some?
    ensures StoreTrue(Next(s, e).value)
  {
    PassOnly(s, e);
  }

  lemma {:induction false} StoreKeeps(s: State, e: Event)
    requires Inv(s) && Next(s, e).Some?
    ensures StoreTrue(Next(s, e).value)
  {
    if OfPass(e) {
      PassStores(s, e);
    }
  }

  lemma {:induction false} PassHonest(s: State, e: Event)
    requires Inv(s) && OfPass(e) && Next(s, e).Some?
    ensures StageTrue(Next(s, e).value.passes[e.id])
  {
    assert e.id in s.passes;
  }

  lemma {:induction false} HonestKeeps(s: State, e: Event)
    requires Inv(s) && Next(s, e).Some?
    ensures AllHonest(Next(s, e).value)
  {
    if OfPass(e) {
      PassFrame(s, e);
      PassOnly(s, e);
      PassHonest(s, e);
    }
  }

  lemma {:induction false} NewPassMarks(s: State, reason: Reason)
    requires SingleFlight(s) && MarksTrue(s) && !s.syncing
    ensures var t := Ask(s, reason).(clock := s.clock + 1);
            MarksTrue(t) && !Waiting(t)
  {
  }

  lemma {:induction false} RefusedMarks(s: State, reason: Reason)
    requires SingleFlight(s) && MarksTrue(s) && s.syncing
    ensures var t := Ask(s, reason).(clock := s.clock + 1);
            MarksTrue(t) && Owed(t) == Owed(s)
  {
    var t := Ask(s, reason).(clock := s.clock + 1);
    var id :| id in s.passes;
    assert Waits(t, s.clock);
  }

  lemma {:induction false} ClearMarks(s: State, id: nat)
    requires SingleFlight(s) && MarksTrue(s) && id in s.passes
    ensures var t := Clear(s, id).(clock := s.clock + 1);
            MarksTrue(t) && Waiting(t) == Waiting(s) && (Owed(t) <==> s.pending)
  {
    var t := Clear(s, id).(clock := s.clock + 1);
    var n := |s.finishing|;
    assert t.finishing[n] == Finaliser(id, s.pending, false);
    assert forall k | 0 <= k < n :: t.finishing[k] == s.finishing[k];
    assert forall asked :: Waits(t, asked) == Waits(s, asked);
  }

  lemma {:induction false} FewerMarks(s: State, t: State)
    requires MarksTrue(s) && Apart(t.finishing) && Among(t.finishing, s.finishing)
    requires t == s.(finishing := t.finishing, detached := t.detached, clock := s.clock + 1)
    ensures MarksTrue(t) && Waiting(t) == Waiting(s) && (Owed(t) ==> Owed(s))
  {
    assert forall asked :: Waits(t, asked) == Waits(s, asked);
    if Owed(t) {
      var k :| 0 <= k < |t.finishing| && t.finishing[k].owes && t.lastBegan == Some(t.finishing[k].id);
      var f :| f in s.finishing && f.id == t.finishing[k].id && f.owes;
      var j :| 0 <= j < |s.finishing| && s.finishing[j] == f;
    }
  }

  lemma {:induction false} FinaliserMarks(s: State, e: Event)
    requires MarksTrue(s) && OfFinaliser(e) && Next(s, e).Some?
    ensures var t := Next(s, e).value;
            MarksTrue(t) && Waiting(t) == Waiting(s) && (Owed(t) ==> Owed(s))
  {
    FinaliserFrame(s, e);
    FewerMarks(s, Next(s, e).value);
  }

  lemma {:induction false} PassMarks(s: State, e: Event)
    requires MarksTrue(s) && OfPass(e) && Next(s, e).Some?
    ensures var t := Next(s, e).value;
            MarksTrue(t) && Waiting(t) == Waiting(s) && Owed(t) == Owed(s)
  {
    var t := Next(s, e).value;
    PassFrame(s, e);
    PassOnly(s, e);
    assert forall asked :: Waits(t, asked) == Waits(s, asked);
  }

  lemma {:induction false} AskMarks(s: State, reason: Reason)
    requires SingleFlight(s) && MarksTrue(s)
    ensures var t := Ask(s, reason).(clock := s.clock + 1);
            && MarksTrue(t)
            && (if s.syncing then t.pending && t.detached == s.detached else !Waiting(t))
  {
    if s.syncing {
      RefusedMarks(s, reason);
    } else {
      NewPassMarks(s, reason);
    }
  }

  lemma {:induction false} DetachedMarks(s: State)
    requires SingleFlight(s) && MarksTrue(s) && s.detached > 0
    ensures var t := Next(s, RunDetached).value;
            MarksTrue(t) && if s.syncing then t.pending else !Waiting(t)
  {
    var s1 := s.(detached := s.detached - 1);
    assert forall asked :: Waits(s1, asked) == Waits(s, asked);
    AskMarks(s1, Coalesced);
  }

  lemma {:induction false} MarksKeep(s: State, e: Event)
    requires Inv(s) && Next(s, e).Some?
    ensures MarksTrue(Next(s, e).value)
  {
    match e
    case Request(reason) =>
      AskMarks(s, reason);
    case RunDetached =>
      DetachedMarks(s);
    case Clears(id) =>
      ClearMarks(s, id);
    case _ =>
      if OfFinaliser(e) {
        FinaliserMarks(s, e);
      } else {
        PassMarks(s, e);
      }
  }

  /** Every step of every fibre keeps the invariant: single flight, true marks, a true picture of the
      store and honest outcomes. */
  lemma {:induction false} NextKeeps(s: State, e: Event)
    requires Inv(s) && Next(s, e).Some?
    ensures Inv(Next(s, e).value)
  {
    FlightKeeps(s, e);
    MarksKeep(s, e);
    StoreKeeps(s, e);
    HonestKeeps(s, e);
  }

  lemma {:induction false} RunFromKeeps(s: State, events: seq<Event>)
    requires Inv(s) && Run(s, events).Some?
    ensures Inv(Run(s, events).value)
  {
    if events != [] {
      RunFromKeeps(s, events[..|events| - 1]);
      NextKeeps(Run(s, events[..|events| - 1]).value, events[|events| - 1]);
    }
  }

  /** Every reachable state satisfies the invariant, from any store. */
  lemma {:induction false} RunKeeps(stored: Option<Fingerprint>, events: seq<Event>)
    requires Run(Init(stored), events).Some?
    ensures Inv(Run(Init(stored), events).value)
  {
    RunFromKeeps(Init(stored), events);
  }

  // ---- No trigger is lost

  /** The latest pass's finaliser dies publishing while it owes the only re-fire. */
  predicate Loses(s: State, e: Event) {
    e.Dies? && e.k < |s.finishing| && s.finishing[e.k].owes
    && s.lastBegan == Some(s.finishing[e.k].id) && s.detached == 0
  }

  lemma {:induction false} DyingLoses(s: State, k: nat)
    requires Inv(s) && NothingLost(s) && Next(s, Dies(k)).Some?
    ensures NothingLost(Next(s, Dies(k)).value) <==> !Loses(s, Dies(k))
  {
    var t := Next(s, Dies(k)).value;
    FinaliserMarks(s, Dies(k));
    if s.finishing[k].owes && s.lastBegan == Some(s.finishing[k].id) {
      assert Owed(s);
      NoneRuns(s, k);
      forall j | 0 <= j < |t.finishing|
        ensures t.finishing[j].id != s.finishing[k].id
      {
        assert t.finishing[j] == s.finishing[if j < k then j else j + 1];
      }
    } else if Owed(s) {
      OwedStays(s, k);
    }
  }

  lemma {:induction false} NoneRuns(s: State, k: nat)
    requires Inv(s) && k < |s.finishing| && s.lastBegan == Some(s.finishing[k].id)
    ensures !s.syncing
  {
  }

  lemma {:induction false} OwedStays(s: State, k: nat)
    requires k < |s.finishing| && Owed(s)
    requires !(s.finishing[k].owes && s.lastBegan == Some(s.finishing[k].id))
    ensures Owed(s.(finishing := Without(s.finishing, k)))
  {
    var j :| 0 <= j < |s.finishing| && s.finishing[j].owes && s.lastBegan == Some(s.finishing[j].id);
    assert Without(s.finishing, k)[if j < k then j else j - 1] == s.finishing[j];
  }

  lemma {:induction false} FinaliserOwes(s: State, e: Event)
    requires Inv(s) && NothingLost(s) && Next(s, e).Some? && (e.Publishes? || e.Forks?)
    ensures NothingLost(Next(s, e).value)
  {
    var t, k := Next(s, e).value, e.k;
    FinaliserMarks(s, e);
    if Owed(s) {
      if e.Publishes? {
        var j :| 0 <= j < |s.finishing| && s.finishing[j].owes && s.lastBegan == Some(s.finishing[j].id);
        assert t.finishing[j].owes && t.finishing[j].id == s.finishing[j].id;
      } else if !s.finishing[k].owes {
        OwedStays(s, k);
        assert t.finishing == Without(s.finishing, k);
      }
    }
  }

  lemma {:induction false} NoneOwes(s: State, id: nat)
    requires Inv(s) && id in s.passes
    ensures !Owed(s)
  {
  }

  lemma {:induction false} PassOwes(s: State, e: Event)
    requires Inv(s) && NothingLost(s) && Next(s, e).Some? && OfPass(e)
    ensures NothingLost(Next(s, e).value)
  {
    PassFrame(s, e);
    PassMarks(s, e);
  }

  /** One step loses a trigger exactly when it is such a death. */
  lemma {:induction false} LossIsDeath(s: State, e: Event)
    requires Inv(s) && NothingLost(s) && Next(s, e).Some?
    ensures NothingLost(Next(s, e).value) <==> !Loses(s, e)
  {
    match e
    case Request(reason) =>
      AskMarks(s, reason);
    case RunDetached =>
      DetachedMarks(s);
    case Clears(id) =>
      ClearMarks(s, id);
      NoneOwes(s, id);
    case Dies(k) =>
      DyingLoses(s, k);
    case Publishes(_) =>
      FinaliserOwes(s, e);
    case Forks(_) =>
      FinaliserOwes(s, e);
    case _ =>
      PassOwes(s, e);
  }

  ghost predicate LosesAt(stored: Option<Fingerprint>, events: seq<Event>, n: nat)
    requires n < |events|
  {
    Run(Init(stored), events[..n]).Some? && Loses(Run(Init(stored), events[..n]).value, events[n])
  }

  ghost predicate Lossless(stored: Option<Fingerprint>, events: seq<Event>) {
    forall n | 0 <= n < |events| :: !LosesAt(stored, events, n)
  }

  ghost predicate KeptAt(stored: Option<Fingerprint>, events: seq<Event>, n: nat)
    requires n <= |events|
  {
    Run(Init(stored), events[..n]).Some? ==> NothingLost(Run(Init(stored), events[..n]).value)
  }

  ghost predicate AlwaysKept(stored: Option<Fingerprint>, events: seq<Event>) {
    forall n | 0 <= n <= |events| :: KeptAt(stored, events, n)
  }

  lemma {:induction false} LosesBefore(stored: Option<Fingerprint>, events: seq<Event>, n: nat)
    requires n + 1 < |events|
    ensures LosesAt(stored, events[..|events| - 1], n) == LosesAt(stored, events, n)
  {
    assert events[..|events| - 1][..n] == events[..n];
  }

  lemma {:induction false} LosslessMore(stored: Option<Fingerprint>, events: seq<Event>)
    requires events != []
    ensures var before := events[..|events| - 1];
            Lossless(stored, events) <==> Lossless(stored, before) && !LosesAt(stored, events, |events| - 1)
  {
    var before := events[..|events| - 1];
    forall n | 0 <= n < |before|
      ensures LosesAt(stored, before, n) == LosesAt(stored, events, n)
    {
      LosesBefore(stored, events, n);
    }
  }

  lemma {:induction false} KeptBefore(stored: Option<Fingerprint>, events: seq<Event>, n: nat)
    requires n < |events|
    ensures KeptAt(stored, events[..|events| - 1], n) == KeptAt(stored, events, n)
  {
    assert events[..|events| - 1][..n] == events[..n];
  }

  lemma {:induction false} KeptMore(stored: Option<Fingerprint>, events: seq<Event>)
    requires events != []
    ensures var before := events[..|events| - 1];
            AlwaysKept(stored, events) <==> AlwaysKept(stored, before) && KeptAt(stored, events, |events|)
  {
    var before := events[..|events| - 1];
    forall n | 0 <= n <= |before|
      ensures KeptAt(stored, before, n) == KeptAt(stored, events, n)
    {
      KeptBefore(stored, events, n);
    }
  }

  lemma {:induction false} KeptAtEnd(stored: Option<Fingerprint>, events: seq<Event>)
    requires Run(Init(stored), events).Some?
    ensures KeptAt(stored, events, |events|) == NothingLost(Run(Init(stored), events).value)
  {
    assert events[..|events|] == events;
  }

  /** Exactly when no trigger is lost: at every point of a run each waiting request is marked pending
      or owed by a fibre, if and only if no finaliser dies publishing its status while it owes the
      only re-fire. */
  lemma {:induction false} KeptIffPublished(stored: Option<Fingerprint>, events: seq<Event>)
    requires Run(Init(stored), events).Some?
    ensures AlwaysKept(stored, events) <==> Lossless(stored, events)
    decreases |events|
  {
    KeptAtEnd(stored, events);
    if events != [] {
      var before := events[..|events| - 1];
      LosslessMore(stored, events);
      KeptMore(stored, events);
      KeptIffPublished(stored, before);
      RunKeeps(stored, before);
      KeptAtEnd(stored, before);
      if KeptAt(stored, before, |before|) {
        LossIsDeath(Run(Init(stored), before).value, events[|before|]);
      }
    }
  }

  /** A request answered `AlreadyRunning` is marked pending, or owed by a detached fibre, or by the
      finaliser of the pass it came under, or covered: a pass began after it. */
  ghost predicate Accounted(s: State, asked: nat) {
    s.pending || s.detached > 0 || Owed(s) || (s.lastBegan.Some? && asked < s.lastBegan.value)
  }

  /** Nothing runs and nothing is owed. */
  predicate Idle(s: State) {
    s.passes == map[] && s.finishing == [] && s.detached == 0
  }

  lemma {:induction false} KeptIsAccounted(s: State, asked: nat)
    requires Inv(s) && NothingLost(s) && asked in s.refused
    ensures Accounted(s, asked)
    ensures Idle(s) ==> s.lastBegan.Some? && asked < s.lastBegan.value
  {
    if !(asked < s.lastBegan.value) {
      assert Waits(s, asked);
    }
  }

  /** No trigger is lost, on any run whose finalisers get past their publish. At most one pass runs;
      a pending mark needs a running pass; every request ever refused is marked, owed or covered.
      Once nothing runs and nothing is owed, a pass began after each. */
  lemma {:induction false} NoTriggerIsLost(stored: Option<Fingerprint>, events: seq<Event>, asked: nat)
    requires Run(Init(stored), events).Some?
    ensures var s := Run(Init(stored), events).value;
            && |s.passes| <= 1
            && (s.pending ==> s.syncing)
            && (Lossless(stored, events) && asked in s.refused ==>
                  && Accounted(s, asked)
                  && (Idle(s) ==> s.lastBegan.Some? && asked < s.lastBegan.value))
  {
    RunKeeps(stored, events);
    var s := Run(Init(stored), events).value;
    if id :| id in s.passes {
      assert s.passes.Keys == {id};
    }
    if Lossless(stored, events) && asked in s.refused {
      KeptIffPublished(stored, events);
      KeptAtEnd(stored, events);
      KeptIsAccounted(s, asked);
    }
  }

  // ---- What is owed is served

  /** How many steps a stage is from its end, its finaliser's included. */
  function StageWork(stage: Stage): nat {
    match stage
    case Computing => 9
    case Reported(_) => 8
    case Compared(_, _) => 7
    case Applying(_) => 6
    case Unrecorded(_) => 5
    case Ending(_) => 4
  }

  function EndWork(f: Finaliser): nat {
    (if f.published then 2 else 3) + if f.owes then 9 else 0
  }

  function EndsWork(fs: seq<Finaliser>): nat {
    if fs == [] then 0 else EndsWork(fs[..|fs| - 1]) + EndWork(fs[|fs| - 1])
  }

  function PassWork(s: State): nat {
    if s.lastBegan.Some? && s.lastBegan.value in s.passes then StageWork(s.passes[s.lastBegan.value].stage) else 0
  }

  /** What is left to do when no one asks for more. */
  function Work(s: State): nat {
    10 * s.detached + (if s.pending then 9 else 0) + PassWork(s) + EndsWork(s.finishing)
  }

  lemma {:induction false} EndsWorkWithout(fs: seq<Finaliser>, k: nat)
    requires k < |fs|
    ensures EndsWork(Without(fs, k)) + EndWork(fs[k]) == EndsWork(fs)
  {
    var n := |fs| - 1;
    if k < n {
      EndsWorkWithout(fs[..n], k);
      assert Without(fs, k)[..n - 1] == Without(fs[..n], k);
    } else {
      assert Without(fs, k) == fs[..n];
    }
  }

  lemma {:induction false} EndsWorkUpdate(fs: seq<Finaliser>, k: nat, f: Finaliser)
    requires k < |fs|
    ensures EndsWork(fs[k := f]) + EndWork(fs[k]) == EndsWork(fs) + EndWork(f)
  {
    var n := |fs| - 1;
    if k < n {
      EndsWorkUpdate(fs[..n], k, f);
      assert fs[k := f][..n] == fs[..n][k := f];
    } else {
      assert fs[k := f][..n] == fs[..n];
    }
  }

  lemma {:induction false} FinaliserWorks(s: State, e: Event)
    requires OfFinaliser(e) && Next(s, e).Some?
    ensures Work(Next(s, e).value) < Work(s)
  {
    FinaliserFrame(s, e);
    if e.Publishes? {
      EndsWorkUpdate(s.finishing, e.k, s.finishing[e.k].(published := true));
    } else {
      EndsWorkWithout(s.finishing, e.k);
    }
  }

  lemma {:induction false} PassWorks(s: State, e: Event)
    requires SingleFlight(s) && OfPass(e) && Next(s, e).Some?
    ensures Work(Next(s, e).value) < Work(s)
  {
    PassFrame(s, e);
    PassOnly(s, e);
  }

  lemma {:induction false} ClearWorks(s: State, id: nat)
    requires SingleFlight(s) && Next(s, Clears(id)).Some?
    ensures Work(Next(s, Clears(id)).value) < Work(s)
  {
    var f := Finaliser(id, s.pending, false);
    assert (s.finishing + [f])[..|s.finishing|] == s.finishing;
  }

  /** Every step but a new request brings the engine nearer to rest. */
  lemma {:induction false} WorkShrinks(s: State, e: Event)
    requires Inv(s) && !e.Request? && Next(s, e).Some?
    ensures Work(Next(s, e).value) < Work(s)
  {
    if OfPass(e) {
      PassWorks(s, e);
    } else if OfFinaliser(e) {
      FinaliserWorks(s, e);
    } else if e.Clears? {
      ClearWorks(s, e.id);
    }
  }

  /** A step the engine takes by itself, no one asking, interrupting or dying. */
  predicate OfItself(e: Event) {
    !e.Request? && !e.Interrupts? && !e.Dies?
  }

  function PassStep(id: nat, stage: Stage): Event {
    match stage
    case Computing => ComputeFails(id)
    case Reported(_) => ReadsLast(id)
    case Compared(_, _) => Decides(id)
    case Applying(_) => ApplyFails(id)
    case Unrecorded(_) => Records(id)
    case Ending(_) => Clears(id)
  }

  /** Until it rests, some step is possible. */
  lemma {:induction false} SomeStep(s: State) returns (e: Event)
    requires Inv(s) && !Idle(s)
    ensures OfItself(e) && Next(s, e).Some?
  {
    if id :| id in s.passes {
      e := PassStep(id, s.passes[id].stage);
    } else if s.finishing != [] {
      e := if s.finishing[0].published then Forks(0) else Publishes(0);
    } else {
      e := RunDetached;
    }
  }

  lemma {:induction false} IdleIsStuck(s: State)
    requires Inv(s)
    ensures Idle(s) <==> forall e | OfItself(e) :: Next(s, e) == None
  {
    if !Idle(s) {
      var e := SomeStep(s);
    }
  }

  lemma {:induction false} OwnSteps(s: State, more: seq<Event>)
    requires Inv(s) && NothingLost(s) && Run(s, more).Some? && forall e <- more :: !e.Request? && !e.Dies?
    ensures var t := Run(s, more).value;
            Inv(t) && NothingLost(t) && |more| + Work(t) <= Work(s)
    decreases |more|
  {
    if more != [] {
      var before, e := more[..|more| - 1], more[|more| - 1];
      OwnSteps(s, before);
      NextKeeps(Run(s, before).value, e);
      LossIsDeath(Run(s, before).value, e);
      WorkShrinks(Run(s, before).value, e);
    }
  }

  /** What is owed is served: whatever order its own steps come in, the engine rests after at most
      `Work` of them, and by then a pass began after every request ever refused. */
  lemma {:induction false} OwedIsServed(s: State, more: seq<Event>)
    requires Inv(s) && NothingLost(s) && Run(s, more).Some? && forall e <- more :: !e.Request? && !e.Dies?
    ensures var t := Run(s, more).value;
            && |more| + Work(t) <= Work(s)
            && (Idle(t) <==> forall e | OfItself(e) :: Next(t, e) == None)
            && (Idle(t) ==> forall asked | asked in t.refused :: t.lastBegan.Some? && asked < t.lastBegan.value)
  {
    var t := Run(s, more).value;
    OwnSteps(s, more);
    IdleIsStuck(t);
    if Idle(t) {
      forall asked | asked in t.refused
        ensures t.lastBegan.Some? && asked < t.lastBegan.value
      {
        KeptIsAccounted(t, asked);
      }
    }
  }

  lemma {:induction false} ClearsAndDies(s: State, events: seq<Event>) returns (more: seq<Event>)
    requires Run(s, events).Some?
    requires var t := Run(s, events).value; t.passes.Keys == {0} && t.passes[0].stage.Ending? && t.finishing == []
    ensures Run(s, more).Some?
    ensures var t, u := Run(s, events).value, Run(s, more).value;
            && u.passes == map[] && u.finishing == [] && u.detached == t.detached
            && u.lastBegan == t.lastBegan && u.refused == t.refused
  {
    more := RunOn(s, events, Clears(0));
    more := RunOn(s, more, Dies(0));
    assert Run(s, more).value.passes == map[];
  }

  /** A finaliser that dies publishing does lose one: a request refused under its pass is left to
      itself in an engine at rest. */
  lemma {:induction false} DeathLoses() returns (events: seq<Event>)
    ensures Run(Init(None), events).Some?
    ensures var s := Run(Init(None), events).value;
            1 in s.refused && Idle(s) && s.lastBegan == Some(0)
  {
    events := PollBegins(Init(None), []);
    events := RunOn(Init(None), events, Request(Manual));
    events := RunOn(Init(None), events, ComputeFails(0));
    var t := Run(Init(None), events).value;
    assert t.passes.Keys == {0};
    events := ClearsAndDies(Init(None), events);
  }

  // ---- Skipping

  /** An event that stops a pass between a successful apply and its record. */
  ghost predicate Cuts(s: State, e: Event) {
    e.Interrupts? && e.id in s.passes && s.passes[e.id].stage.Unrecorded?
  }

  ghost predicate Uncut(stored: Option<Fingerprint>, events: seq<Event>) {
    forall n | 0 <= n < |events| ::
      Run(Init(stored), events[..n]).Some? ==> !Cuts(Run(Init(stored), events[..n]).value, events[n])
  }

  /** The latest successful apply is stored, or its pass is about to store it. */
  ghost predicate InHand(s: State) {
    s.recorded || exists id :: id in s.passes && s.passes[id].stage.Unrecorded?
  }

  lemma {:induction false} UncutStep(s: State, e: Event)
    requires Inv(s) && Next(s, e).Some? && !Cuts(s, e) && InHand(s)
    ensures InHand(Next(s, e).value)
  {
    var t := Next(s, e).value;
    if !s.recorded && !t.recorded {
      var id :| id in s.passes && s.passes[id].stage.Unrecorded?;
      assert id in t.passes && t.passes[id].stage.Unrecorded?;
    }
  }

  lemma {:induction false} UncutBefore(stored: Option<Fingerprint>, events: seq<Event>, n: nat)
    requires n <= |events| && Uncut(stored, events)
    ensures Uncut(stored, events[..n])
  {
    forall k | 0 <= k < n
      ensures events[..n][..k] == events[..k] && events[..n][k] == events[k]
    {
    }
  }

  lemma {:induction false} UncutRecorded(stored: Option<Fingerprint>, events: seq<Event>)
    requires Run(Init(stored), events).Some? && Uncut(stored, events)
    ensures InHand(Run(Init(stored), events).value)
  {
    if events != [] {
      var n := |events| - 1;
      UncutBefore(stored, events, n);
      UncutRecorded(stored, events[..n]);
      RunKeeps(stored, events[..n]);
      UncutStep(Run(Init(stored), events[..n]).value, events[n]);
    }
  }

  /** Skipping is sound: on a run no pass of which is cut between apply and record, a pass that
      answers `Unchanged` has the fingerprint of the latest successful apply. Cut runs included,
      it has it whenever that apply was recorded. */
  lemma {:induction false} SkipIsSound(stored: Option<Fingerprint>, events: seq<Event>, id: nat)
    requires Run(Init(stored), events).Some?
    requires var s := Run(Init(stored), events).value;
             id in s.passes && s.passes[id].stage.Ending? && s.passes[id].stage.outcome.Unchanged?
    ensures var s := Run(Init(stored), events).value;
            var fp := s.passes[id].stage.outcome.fp;
            && s.passes[id].reason !in {Startup, Manual}
            && (s.applied == Some(fp) <==> s.stored == s.applied)
            && (Uncut(stored, events) || s.recorded ==> s.applied == Some(fp))
  {
    RunKeeps(stored, events);
    if Uncut(stored, events) {
      UncutRecorded(stored, events);
    }
  }

  lemma {:induction false} RunMore(s: State, events: seq<Event>, e: Event)
    ensures Run(s, events + [e]) == if Run(s, events).Some? then Next(Run(s, events).value, e) else None
  {
    assert (events + [e])[..|events|] == events;
  }

  lemma {:induction false} RunConcat(s: State, a: seq<Event>, b: seq<Event>)
    ensures Run(s, a + b) == if Run(s, a).Some? then Run(Run(s, a).value, b) else None
    decreases |b|
  {
    if b == [] {
      assert a + b == a;
    } else {
      assert (a + b)[..|a + b| - 1] == a + b[..|b| - 1];
      RunConcat(s, a, b[..|b| - 1]);
    }
  }

  lemma {:induction false} RunOn(s: State, events: seq<Event>, e: Event) returns (more: seq<Event>)
    requires Run(s, events).Some? && Next(Run(s, events).value, e).Some?
    ensures more == events + [e] && Run(s, more) == Next(Run(s, events).value, e)
  {
    RunMore(s, events, e);
    more := events + [e];
  }

  // ---- A pass left alone up to its decision

  function Reading(id: nat, fp: Fingerprint): seq<Event> {
    [Computes(id, fp), ReadsLast(id), Decides(id)]
  }

  predicate Skips(s: State, id: nat, fp: Fingerprint)
    requires id in s.passes
  {
    !AlwaysApply(s.passes[id].reason) && s.stored == Some(fp)
  }

  /** The state once a computing pass has decided. */
  function Decided(s: State, id: nat, fp: Fingerprint): State
    requires id in s.passes
  {
    var stage := if Skips(s, id, fp) then Ending(Unchanged(fp)) else Applying(fp);
    s.(clock := s.clock + 3,
       passes := s.passes[id := s.passes[id].(stage := stage, computed := true,
                                              attempted := s.passes[id].attempted || !Skips(s, id, fp))])
  }

  lemma {:induction false} RunThree(s: State, a: Event, b: Event, c: Event, s1: State, s2: State)
    requires Next(s, a) == Some(s1) && Next(s1, b) == Some(s2)
    ensures Run(s, [a, b, c]) == Next(s2, c)
  {
    RunMore(s, [], a);
    RunMore(s, [a], b);
    RunMore(s, [a, b], c);
    assert [] + [a] == [a] && [a] + [b] == [a, b] && [a, b] + [c] == [a, b, c];
  }

  /** The state with one pass moved on, some steps later. */
  function Moved(s: State, id: nat, stage: Stage, attempted: bool, steps: nat): State
    requires id in s.passes
  {
    s.(clock := s.clock + steps,
       passes := s.passes[id := s.passes[id].(stage := stage, computed := true, attempted := attempted)])
  }

  lemma {:induction false} ReadingComputes(s: State, id: nat, fp: Fingerprint)
    requires id in s.passes && s.passes[id].stage == Computing
    ensures Next(s, Computes(id, fp)) == Some(Moved(s, id, Reported(fp), s.passes[id].attempted, 1))
  {
  }

  lemma {:induction false} ReadingReads(s: State, id: nat, fp: Fingerprint, attempted: bool)
    requires id in s.passes
    ensures Next(Moved(s, id, Reported(fp), attempted, 1), ReadsLast(id))
         == Some(Moved(s, id, Compared(fp, s.stored), attempted, 2))
  {
    var t := Moved(s, id, Reported(fp), attempted, 1);
    assert Next(t, ReadsLast(id)).value.passes == Moved(s, id, Compared(fp, s.stored), attempted, 2).passes;
  }

  lemma {:induction false} ReadingEnds(s: State, id: nat, fp: Fingerprint)
    requires id in s.passes
    ensures Next(Moved(s, id, Compared(fp, s.stored), s.passes[id].attempted, 2), Decides(id))
         == Some(Decided(s, id, fp))
  {
    var t := Moved(s, id, Compared(fp, s.stored), s.passes[id].attempted, 2);
    assert Next(t, Decides(id)).value.passes == Decided(s, id, fp).passes;
  }

  lemma {:induction false} ReadingDecides(s: State, id: nat, fp: Fingerprint)
    requires id in s.passes && s.passes[id].stage == Computing
    ensures Run(s, Reading(id, fp)) == Some(Decided(s, id, fp))
  {
    var was := s.passes[id].attempted;
    ReadingComputes(s, id, fp);
    ReadingReads(s, id, fp, was);
    ReadingEnds(s, id, fp);
    RunThree(s, Computes(id, fp), ReadsLast(id), Decides(id),
             Moved(s, id, Reported(fp), was, 1), Moved(s, id, Compared(fp, s.stored), was, 2));
  }

  lemma {:induction false} RunReading(s: State, events: seq<Event>, id: nat, fp: Fingerprint)
    returns (more: seq<Event>)
    requires Run(s, events).Some? && id in Run(s, events).value.passes
    requires Run(s, events).value.passes[id].stage == Computing
    ensures more == events + Reading(id, fp) && Run(s, more) == Some(Decided(Run(s, events).value, id, fp))
  {
    more := events + Reading(id, fp);
    RunConcat(s, events, Reading(id, fp));
    ReadingDecides(Run(s, events).value, id, fp);
  }

  /** A pass that goes on to apply, and is cut, or fails, or records. */
  /** The last two steps of a pass that applies, behind those before. */
  lemma {:induction false} ApplyingRecords(s: State, steps: seq<Event>, id: nat)
    requires Run(s, steps).Some?
    requires id in Run(s, steps).value.passes && Run(s, steps).value.passes[id].stage.Applying?
    ensures Run(s, steps + [Applies(id), Records(id)]).Some?
    ensures var was, t := Run(s, steps).value, Run(s, steps + [Applies(id), Records(id)]).value;
            var fp := was.passes[id].stage.fp;
            && t.(passes := was.passes, clock := was.clock, stored := was.stored, applied := was.applied,
                  recorded := was.recorded) == was
            && t.stored == Some(fp)
            && id in t.passes && t.passes[id].stage == Ending(Applied(fp))
  {
    ApplyingEnds(Run(s, steps).value, id, Records(id));
    RunConcat(s, steps, [Applies(id), Records(id)]);
  }

  lemma {:induction false} ApplyingEnds(s: State, id: nat, end: Event)
    requires id in s.passes && s.passes[id].stage.Applying?
    requires end in [Interrupts(id), Records(id)]
    ensures Run(s, [Applies(id), end]).Some?
    ensures var fp, t := s.passes[id].stage.fp, Run(s, [Applies(id), end]).value;
            && t.(passes := s.passes, clock := s.clock, stored := s.stored, applied := s.applied,
                  recorded := s.recorded) == s
            && t.passes.Keys == s.passes.Keys && t.clock == s.clock + 2 && t.applied == Some(fp)
            && t.stored == (if end.Records? then Some(fp) else s.stored)
            && t.passes[id].stage == Ending(if end.Records? then Applied(fp) else Interrupted)
  {
    RunMore(s, [], Applies(id));
    RunMore(s, [Applies(id)], end);
    assert [] + [Applies(id)] == [Applies(id)];
    assert [Applies(id)] + [end] == [Applies(id), end];
  }

  /** A poll begins on an idle engine. */
  function Polling(s: State): State {
    s.(syncing := true, clock := s.clock + 1, lastBegan := Some(s.clock),
       passes := map[s.clock := Pass(Poll, s.clock, Computing, false, false)])
  }

  lemma {:induction false} PollBegins(s: State, events: seq<Event>) returns (more: seq<Event>)
    requires Run(s, events).Some? && !Run(s, events).value.syncing && Run(s, events).value.passes == map[]
    ensures more == events + [Request(Poll)] && Run(s, more) == Some(Polling(Run(s, events).value))
  {
    more := RunOn(s, events, Request(Poll));
    var t := Run(s, events).value;
    assert Run(s, more).value.passes == Polling(t).passes;
  }

  lemma {:induction false} PollDecides(s: State, fp: Fingerprint) returns (events: seq<Event>)
    requires !s.syncing && s.passes == map[]
    ensures Run(s, events) == Some(Decided(Polling(s), s.clock, fp))
  {
    events := PollBegins(s, []);
    events := RunReading(s, events, s.clock, fp);
  }

  lemma {:induction false} CutAndCleared(s: State, id: nat) returns (events: seq<Event>)
    requires s.passes.Keys == {id} && s.passes[id].stage.Applying?
    ensures Run(s, events).Some?
    ensures var t := Run(s, events).value;
            && !t.syncing && t.passes == map[] && t.clock == s.clock + 3
            && t.stored == s.stored && t.applied == Some(s.passes[id].stage.fp)
  {
    ApplyingEnds(s, id, Interrupts(id));
    events := RunOn(s, [Applies(id), Interrupts(id)], Clears(id));
  }

  /** A first poll that applies `b` and is cut before it records it. */
  lemma {:induction false} CutPass(a: Fingerprint, b: Fingerprint) returns (events: seq<Event>)
    requires a != b
    ensures Run(Init(Some(a)), events).Some?
    ensures var s := Run(Init(Some(a)), events).value;
            !s.syncing && s.clock == 7 && s.stored == Some(a) && s.applied == Some(b) && s.passes == map[]
  {
    var first := PollDecides(Init(Some(a)), b);
    var d := Decided(Polling(Init(Some(a))), 0, b);
    assert d.passes.Keys == {0};
    var second := CutAndCleared(d, 0);
    RunConcat(Init(Some(a)), first, second);
    events := first + second;
  }

  /** Cutting a pass there does break the skip: content that came back to what was stored is
      skipped although the host holds the cut pass's entries. */
  lemma {:induction false} CutBreaksSkip(a: Fingerprint, b: Fingerprint) returns (events: seq<Event>)
    requires a != b
    ensures Run(Init(Some(a)), events).Some?
    ensures var s := Run(Init(Some(a)), events).value;
            7 in s.passes && s.passes[7].stage == Ending(Unchanged(a)) && s.applied == Some(b)
  {
    events := CutPass(a, b);
    events := PollBegins(Init(Some(a)), events);
    events := RunReading(Init(Some(a)), events, 7, a);
  }

  /** A startup or manual pass that computes and is left alone always attempts the apply. */
  lemma {:induction false} PersonIsServed(stored: Option<Fingerprint>, events: seq<Event>, pass: Pass)
    requires Run(Init(stored), events).Some? && pass in Run(Init(stored), events).value.log
    requires pass.reason in {Startup, Manual} && pass.computed && pass.stage != Ending(Interrupted)
    ensures pass.attempted && pass.stage.Ending? && !pass.stage.outcome.Unchanged?
  {
    RunKeeps(stored, events);
  }

  /** Exactly when a pass skips: left to itself it reads the store, and ends `Unchanged` without an
      apply if what it computed is stored and no person asked; otherwise it attempts the apply. */
  lemma {:induction false} SkipsIffStored(stored: Option<Fingerprint>, events: seq<Event>, id: nat, fp: Fingerprint)
    requires Run(Init(stored), events).Some?
    requires var s := Run(Init(stored), events).value; id in s.passes && s.passes[id].stage == Computing
    ensures var s := Run(Init(stored), events).value;
            var after := Run(s, [Computes(id, fp), ReadsLast(id), Decides(id)]);
            && after.Some? && id in after.value.passes
            && var pass := after.value.passes[id];
            if s.stored == Some(fp) && s.passes[id].reason !in {Startup, Manual} then
              pass.stage == Ending(Unchanged(fp)) && !pass.attempted
            else pass.stage == Applying(fp) && pass.attempted
  {
    RunKeeps(stored, events);
    var s := Run(Init(stored), events).value;
    assert StageTrue(s.passes[id]);
    ReadingDecides(s, id, fp);
  }

  /** A pass that skipped attempted nothing and was asked for by no person. */
  lemma {:induction false} SkippersAreRoutine(stored: Option<Fingerprint>, events: seq<Event>, pass: Pass)
    requires Run(Init(stored), events).Some? && pass in Run(Init(stored), events).value.log
    requires pass.stage.Ending? && pass.stage.outcome.Unchanged?
    ensures pass.computed && !pass.attempted
    ensures pass.reason !in {Startup, Manual}
  {
    RunKeeps(stored, events);
  }

  /** A pass that has ended gives back the guard, publishes and forks what it owes. */
  lemma {:induction false} Finishes(s: State, events: seq<Event>, id: nat) returns (more: seq<Event>)
    requires Run(s, events).Some?
    requires var t := Run(s, events).value;
             t.passes.Keys == {id} && t.passes[id].stage.Ending? && t.finishing == []
    ensures more == events + [Clears(id), Publishes(0), Forks(0)] && Run(s, more).Some?
    ensures var t, u := Run(s, events).value, Run(s, more).value;
            && !u.syncing && !u.pending && u.passes == map[] && u.finishing == [] && u.stored == t.stored
            && u.detached == t.detached + (if t.pending then 1 else 0) && u.log == t.log + [t.passes[id]]
  {
    more := RunOn(s, events, Clears(id));
    more := RunOn(s, more, Publishes(0));
    more := RunOn(s, more, Forks(0));
    assert Run(s, more).value.passes == map[];
  }

  /** A poll that skips while a manual request comes and is refused. */
  lemma {:induction false} RefusedManual(a: Fingerprint) returns (events: seq<Event>, skipped: Pass)
    ensures Run(Init(Some(a)), events).Some? && Request(Manual) in events
    ensures var s := Run(Init(Some(a)), events).value;
            && !s.syncing && !s.pending && s.stored == Some(a) && s.detached == 1
            && s.passes == map[] && s.finishing == []
            && s.log == [skipped]
    ensures skipped.stage == Ending(Unchanged(a)) && !skipped.attempted
  {
    events := PollBegins(Init(Some(a)), []);
    events := RunOn(Init(Some(a)), events, Request(Manual));
    assert events[1] == Request(Manual);
    events := RunReading(Init(Some(a)), events, 0, a);
    assert events[1] == Request(Manual);
    var t := Run(Init(Some(a)), events).value;
    assert t.passes.Keys == {0};
    skipped := t.passes[0];
    events := Finishes(Init(Some(a)), events, 0);
    assert events[1] == Request(Manual);
  }

  /** The coalesced pass that is owed, when there is nothing new. */
  lemma {:induction false} CoalescedSkips(s: State, a: Fingerprint) returns (events: seq<Event>, skipped: Pass)
    requires !s.syncing && !s.pending && s.passes == map[] && s.finishing == []
    requires s.detached == 1 && s.stored == Some(a)
    ensures Run(s, events).Some?
    ensures var t := Run(s, events).value;
            Idle(t) && t.log == s.log + [skipped]
    ensures skipped.stage == Ending(Unchanged(a)) && !skipped.attempted
  {
    var id := s.clock;
    events := RunOn(s, [], RunDetached);
    assert Run(s, events).value.passes[id] == Pass(Coalesced, id, Computing, false, false);
    events := RunReading(s, events, id, a);
    var t := Run(s, events).value;
    assert t.passes.Keys == {id};
    skipped := t.passes[id];
    events := Finishes(s, events, id);
  }

  /** Only an acquired pass is exempt: a manual request refused while a pass runs is served by a
      coalesced pass, which may skip. No pass of the whole run attempts an apply. */
  lemma {:induction false} ManualWhileBusyMaySkip(a: Fingerprint) returns (events: seq<Event>)
    ensures Run(Init(Some(a)), events).Some? && Request(Manual) in events
    ensures var s := Run(Init(Some(a)), events).value;
            && Idle(s)
            && forall pass | pass in s.log :: pass.stage == Ending(Unchanged(a)) && !pass.attempted
  {
    var first, one := RefusedManual(a);
    var second, two := CoalescedSkips(Run(Init(Some(a)), first).value, a);
    RunConcat(Init(Some(a)), first, second);
    events := first + second;
    InEither(Request(Manual), first, second);
  }

  lemma {:induction false} InEither<T>(x: T, a: seq<T>, b: seq<T>)
    requires x in a
    ensures x in a + b
  {
    var i :| 0 <= i < |a| && a[i] == x;
    assert (a + b)[i] == x;
  }

  /** The steps of a finaliser that has cleared the flags. */
  lemma {:induction false} FinishSteps(s: State, k: nat, dies: bool) returns (steps: seq<Event>)
    requires k < |s.finishing| && !s.finishing[k].published
    ensures steps == if dies then [Dies(k)] else [Publishes(k), Forks(k)]
    ensures Run(s, steps).Some?
    ensures var t := Run(s, steps).value;
            && t.syncing == s.syncing && t.pending == s.pending && t.stored == s.stored
            && t.finishing == Without(s.finishing, k)
            && t.detached == s.detached + if s.finishing[k].owes && !dies then 1 else 0
  {
    if dies {
      steps := RunOn(s, [], Dies(k));
    } else {
      var t := PublishThenFork(s, k);
      steps := RunOn(s, [], Publishes(k));
      steps := RunOn(s, steps, Forks(k));
    }
  }

  /** Publishing and then forking, one finaliser's last two steps. */
  lemma {:induction false} PublishThenFork(s: State, k: nat) returns (t: State)
    requires k < |s.finishing| && !s.finishing[k].published
    ensures Next(s, Publishes(k)).Some? && Next(Next(s, Publishes(k)).value, Forks(k)) == Some(t)
    ensures t.syncing == s.syncing && t.pending == s.pending && t.stored == s.stored
    ensures t.finishing == Without(s.finishing, k)
    ensures t.detached == s.detached + if s.finishing[k].owes then 1 else 0
  {
    var f := s.finishing[k].(published := true);
    assert s.finishing[k := f][..k] == s.finishing[..k];
    assert s.finishing[k := f][k + 1..] == s.finishing[k + 1..];
    t := Next(Next(s, Publishes(k)).value, Forks(k)).value;
  }

  // ---- The engine itself

  /** The engine's own state: what is in `flags`, `lastReport` and the fingerprint store. */
  class Engine<Report(0)> {
    var syncing: bool
    var pending: bool
    var lastReport: Option<Report>
    var stored: Option<Fingerprint>

    constructor (stored: Option<Fingerprint>)
      ensures !syncing && !pending && lastReport == None && this.stored == stored
    {
      syncing, pending, lastReport := false, false, None;
      this.stored := stored;
    }

    /** The engine is the shared part of `s`. */
    ghost predicate Is(s: State)
      reads this
    {
      syncing == s.syncing && pending == s.pending && stored == s.stored
    }

    /** The guard: one atomic read and write of the flags. */
    method Acquire(reason: Reason, ghost s: State) returns (acquired: bool)
      requires Is(s)
      modifies this`syncing, this`pending
      ensures acquired == !old(syncing)
      ensures Is(Ask(s, reason))
    {
      acquired := !syncing;
      if syncing {
        pending := true;
      } else {
        syncing := true;
      }
    }

    /** The finaliser's first step: frees the guard and takes the pending mark. */
    method Release(ghost s: State, ghost id: nat) returns (owes: bool)
      requires Is(s) && id in s.passes
      modifies this`syncing, this`pending
      ensures Is(Clear(s, id)) && Clear(s, id).finishing == s.finishing + [Finaliser(id, owes, false)]
    {
      owes := pending;
      syncing, pending := false, false;
    }

    /** The rest of it: publish the status, unless reading the store dies, and then fork what it
        owes. Other fibres may have moved the engine meanwhile. */
    method Finish(owes: bool, dies: bool, ghost s: State, ghost k: nat)
      returns (status: Option<(bool, Option<Report>, Option<Fingerprint>)>, refire: bool, ghost steps: seq<Event>)
      requires Is(s) && k < |s.finishing| && s.finishing[k].owes == owes && !s.finishing[k].published
      ensures status == if dies then None else Some((syncing, lastReport, stored))
      ensures refire <==> owes && status.Some?
      ensures Run(s, steps).Some? && Is(Run(s, steps).value)
      ensures var t := Run(s, steps).value;
              t.finishing == Without(s.finishing, k) && t.detached == s.detached + if refire then 1 else 0
    {
      steps := FinishSteps(s, k, dies);
      if dies {
        return None, false, steps;
      }
      status := Some((syncing, lastReport, stored));
      refire := owes;
    }

    /** A pass that holds the guard, run to its end: compute, compare, apply, record. What the
        environment answers is given; the steps it takes are those of the state machine. */
    method DoSync(reason: Reason, computed: Option<(Fingerprint, Report)>, applies: bool,
                  ghost s: State, ghost id: nat)
      returns (outcome: Outcome, ghost steps: seq<Event>)
      requires Is(s) && id in s.passes && s.passes[id].stage == Computing && s.passes[id].reason == reason
      modifies this`lastReport, this`stored
      ensures lastReport == if computed.Some? then Some(computed.value.1) else old(lastReport)
      ensures Run(s, steps).Some? && Is(Run(s, steps).value)
      ensures id in Run(s, steps).value.passes
      ensures Run(s, steps).value.passes[id].stage == Ending(outcome)
      ensures outcome.Unchanged? <==>
                computed.Some? && old(stored) == Some(computed.value.0) && reason !in {Startup, Manual}
      ensures outcome.Applied? <==> computed.Some? && applies && !outcome.Unchanged?
      ensures stored == if outcome.Applied? then Some(computed.value.0) else old(stored)
    {
      steps := [];
      if computed == None {
        steps := RunOn(s, steps, ComputeFails(id));
        return Failed, steps;
      }
      var (fp, report) := computed.value;
      lastReport := Some(report);
      var prev := stored;
      steps := RunReading(s, steps, id, fp);
      if !AlwaysApply(reason) && prev == Some(fp) {
        return Unchanged(fp), steps;
      }
      if !applies {
        steps := RunOn(s, steps, ApplyFails(id));
        return Failed, steps;
      }
      ApplyingRecords(s, steps, id);
      steps := steps + [Applies(id), Records(id)];
      stored := Some(fp);
      outcome := Applied(fp);
    }
  }
}
