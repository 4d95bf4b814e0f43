/** The watch loop of the sync engine: a sliding queue of one, drained by take, sync and a hold. */
module DrainLoop {
  import opened Wrappers

  datatype Phase = Waiting | Syncing | Holding(until: nat)

  /** One loop scope. `queued` is the queue of one. The rest is history: `attempts` are the times
      at which `fs-change` syncs began, `offers` counts the debounced changes, `answered` how many
      of them the latest attempt came after. */
  datatype State = State(now: nat, queued: bool, phase: Phase, attempts: seq<nat>, offers: nat, answered: nat)

  datatype Event = Offer | Take | Synced | Wake | Tick(elapsed: nat)

  function Init(now: nat): State {
    State(now, false, Waiting, [], 0, 0)
  }

  function Next(s: State, e: Event, minInterval: nat): Option<State> {
    match e
    case Offer => Some(s.(queued := true, offers := s.offers + 1))
    case Take =>
      if s.phase != Waiting || !s.queued then None
      else Some(s.(queued := false, phase := Syncing, attempts := s.attempts + [s.now], answered := s.offers))
    case Synced => if s.phase != Syncing then None else Some(s.(phase := Holding(s.now + minInterval)))
    case Wake => if !s.phase.Holding? || s.now < s.phase.until then None else Some(s.(phase := Waiting))
    case Tick(elapsed) => Some(s.(now := s.now + elapsed))
  }

  function Run(now: nat, events: seq<Event>, minInterval: nat): Option<State> {
    if events == [] then Some(Init(now))
    else
      match Run(now, events[..|events| - 1], minInterval)
      case None => None
      case Some(t) => Next(t, events[|events| - 1], minInterval)
  }

  ghost predicate Spaced(attempts: seq<nat>, minInterval: nat) {
    forall i | 0 < i < |attempts| :: attempts[i - 1] + minInterval <= attempts[i]
  }

  /** When the next attempt may begin at the earliest. */
  ghost predicate Held(s: State, minInterval: nat) {
    s.attempts != [] ==>
      var last := s.attempts[|s.attempts| - 1];
      match s.phase
      case Waiting => last + minInterval <= s.now
      case Syncing => last <= s.now
      case Holding(until) => last + minInterval <= until
  }

  ghost predicate Inv(s: State, minInterval: nat) {
    && Spaced(s.attempts, minInterval) && Held(s, minInterval)
    && s.answered <= s.offers && (s.queued <==> s.answered < s.offers)
    && |s.attempts| <= s.offers
    && (s.attempts == [] ==> s.phase == Waiting)
    && |s.attempts| + (if s.queued then 1 else 0) <= s.offers
  }

  lemma {:induction false} NextKeeps(s: State, e: Event, minInterval: nat)
    requires Inv(s, minInterval) && Next(s, e, minInterval).Some?
    ensures Inv(Next(s, e, minInterval).value, minInterval)
  {
  }

  lemma {:induction false} RunKeeps(now: nat, events: seq<Event>, minInterval: nat)
    requires Run(now, events, minInterval).Some?
    ensures Inv(Run(now, events, minInterval).value, minInterval)
  {
    if events != [] {
      var before := events[..|events| - 1];
      RunKeeps(now, before, minInterval);
      NextKeeps(Run(now, before, minInterval).value, events[|events| - 1], minInterval);
    }
  }

  lemma {:induction false} SpacedApart(attempts: seq<nat>, minInterval: nat, i: nat, j: nat)
    requires Spaced(attempts, minInterval) && i <= j < |attempts|
    ensures attempts[i] + (j - i) * minInterval <= attempts[j]
    decreases j - i
  {
    if i < j {
      SpacedApart(attempts, minInterval, i, j - 1);
      assert (j - i) * minInterval == (j - 1 - i) * minInterval + minInterval;
    }
  }

  /** The rate is capped and no change is dropped, on any run of the loop: attempts `n` apart in
      order are at least `n` intervals apart in time; a change no attempt has followed keeps the
      queue full, and a full queue means there is one; attempts never outnumber changes. */
  lemma {:induction false} RateIsCapped(now: nat, events: seq<Event>, minInterval: nat, i: nat, j: nat)
    requires Run(now, events, minInterval).Some?
    ensures var s := Run(now, events, minInterval).value;
            && (i <= j < |s.attempts| ==> s.attempts[i] + (j - i) * minInterval <= s.attempts[j])
            && (s.queued <==> s.answered < s.offers)
            && |s.attempts| <= s.offers
  {
    RunKeeps(now, events, minInterval);
    var s := Run(now, events, minInterval).value;
    if i <= j < |s.attempts| {
      SpacedApart(s.attempts, minInterval, i, j);
    }
  }

  /** A change that waits while a sync runs gets its attempt as soon as the interval has passed since
      that sync ended, and not before; it then has been followed by one. */
  lemma {:induction false} TrailingSyncInTime(s: State, wait: nat, minInterval: nat)
    requires s.phase == Syncing && s.queued
    ensures var held := Next(s, Synced, minInterval);
            && held.Some?
            && var later := Next(held.value, Tick(wait), minInterval);
            && later.Some?
            && var woken := Next(later.value, Wake, minInterval);
            && (woken.Some? <==> minInterval <= wait)
            && (woken.Some? ==>
                  var attempt := Next(woken.value, Take, minInterval);
                  && attempt.Some? && attempt.value.attempts == s.attempts + [s.now + wait]
                  && attempt.value.answered == s.offers && !attempt.value.queued)
  {
  }
}
