/** The keyboard stream of src/process/mod.rs: an interrupt producer that pushes and then wakes, against
    a consumer that pops, registers its waker and pops again.  Every queue or waker operation is one
    atomic step, and producer and consumer steps interleave freely. */
module Keyboard {

  const CAPACITY: nat := 100

  /** Where the consumer is in `poll_next`. */
  datatype Consumer =
    | Idle          // not polling; the last poll, if any, returned a scancode
    | Missed        // the first pop found nothing
    | Armed         // the waker is registered
    | Lucky         // the second pop found a scancode; the waker is still to be taken back
    | Parked        // the poll returned Pending

  /** `registered`: the AtomicWaker holds the consumer's waker. `woken`: that waker has been fired and the
      executor has not polled since. `wakesDue`: producers that have pushed and not yet called wake.
      The last two fields record the scancodes accepted and those handed to the consumer. */
  datatype State = State(
    queue: seq<nat>, registered: bool, woken: bool, wakesDue: nat, consumer: Consumer,
    accepted: seq<nat>, consumed: seq<nat>)

  datatype Step =
    | Push(scancode: nat)
    | Wake
    | Poll
    | Register
    | PopAgain
    | TakeWaker

  ghost predicate Enabled(s: State, step: Step) {
    match step
    case Push(_) => true
    case Wake => s.wakesDue > 0
    case Poll => s.consumer.Idle? || s.consumer.Parked?
    case Register => s.consumer.Missed?
    case PopAgain => s.consumer.Armed?
    case TakeWaker => s.consumer.Lucky?
  }

  function Next(s: State, step: Step): State {
    match step
    case Push(scancode) =>
      if |s.queue| >= CAPACITY then s
      else s.(queue := s.queue + [scancode], wakesDue := s.wakesDue + 1, accepted := s.accepted + [scancode])
    case Wake =>
      var fired := s.(wakesDue := if s.wakesDue > 0 then s.wakesDue - 1 else 0);
      if s.registered then fired.(registered := false, woken := true) else fired
    case Poll =>
      var polled := s.(woken := false);
      if s.queue == [] then polled.(consumer := Missed)
      else polled.(consumer := Idle, queue := s.queue[1..], consumed := s.consumed + [s.queue[0]])
    case Register => s.(registered := true, consumer := Armed)
    case PopAgain =>
      if s.queue == [] then s.(consumer := Parked)
      else s.(consumer := Lucky, queue := s.queue[1..], consumed := s.consumed + [s.queue[0]])
    case TakeWaker => s.(registered := false, consumer := Idle)
  }

  const INIT: State := State([], false, false, 0, Idle, [], [])

  function Run(s: State, steps: seq<Step>): State
    decreases |steps|
  {
    if steps == [] then s else Run(Next(s, steps[0]), steps[1..])
  }

  ghost predicate Possible(s: State, steps: seq<Step>)
    decreases |steps|
  {
    steps == [] || (Enabled(s, steps[0]) && Possible(Next(s, steps[0]), steps[1..]))
  }

  /** A parked consumer with something to read has been woken, or its registered waker is about to be fired. */
  ghost predicate NotForgotten(s: State) {
    s.consumer.Parked? && s.queue != [] ==> s.woken || (s.registered && s.wakesDue > 0)
  }

  ghost predicate Inv(s: State) {
    && NotForgotten(s)
    && (s.consumer.Armed? || s.consumer.Parked? ==> s.registered || s.woken)
    && |s.queue| <= CAPACITY
    && s.accepted == s.consumed + s.queue
  }

  lemma StepKeepsInv(s: State, step: Step)
    requires Inv(s) && Enabled(s, step)
    ensures Inv(Next(s, step))
  {
  }

  lemma {:induction false} RunKeepsInv(s: State, steps: seq<Step>)
    requires Inv(s) && Possible(s, steps)
    ensures Inv(Run(s, steps))
    decreases |steps|
  {
    if steps != [] {
      StepKeepsInv(s, steps[0]);
      RunKeepsInv(Next(s, steps[0]), steps[1..]);
    }
  }

  /** No interleaving loses a wake-up, even when the queue is full and pushes are dropped silently; and
      the consumer gets exactly the accepted scancodes, in order. */
  lemma NoLostKeystroke(steps: seq<Step>)
    requires Possible(INIT, steps)
    ensures var s := Run(INIT, steps); NotForgotten(s) && s.accepted == s.consumed + s.queue
  {
    RunKeepsInv(INIT, steps);
  }

  /** What a parked consumer with input is owed: at most one pending wake fires its waker, no step takes
      the wake away before the next poll, and that poll returns the oldest scancode. */
  lemma ParkedConsumerIsServed(s: State, step: Step)
    requires Inv(s) && s.consumer.Parked? && s.queue != [] && Enabled(s, step)
    ensures !s.woken ==> Next(s, Wake).woken
    ensures s.woken && !step.Poll? ==>
            Next(s, step).woken && Next(s, step).consumer.Parked? && Next(s, step).queue[0] == s.queue[0]
    ensures step.Poll? ==> Next(s, step).consumed == s.consumed + [s.queue[0]] && Next(s, step).consumer.Idle?
  {
  }

  // ----- what each step answers

  /** A push is accepted, with a wake to follow, exactly when fewer than 100 scancodes are queued, and dropped without
      effect otherwise; a wake fires the registered waker and uses it up; a poll takes the oldest scancode or goes on
      to register; and a consumer that finds a scancode after registering takes its waker back. */
  lemma StepAnswers(s: State, step: Step)
    requires Enabled(s, step)
    ensures var t := Next(s, step);
            match step
            case Push(code) =>
              if |s.queue| >= 100 then t == s
              else t == s.(queue := s.queue + [code], wakesDue := s.wakesDue + 1, accepted := s.accepted + [code])
            case Wake => t == s.(wakesDue := s.wakesDue - 1, registered := false, woken := s.woken || s.registered)
            case Poll =>
              && !t.woken && t.registered == s.registered && t.wakesDue == s.wakesDue
              && (if s.queue == [] then t.consumer == Missed && t.queue == []
                  else t.consumer == Idle && [s.queue[0]] + t.queue == s.queue)
            case Register => t == s.(registered := true, consumer := Armed)
            case PopAgain =>
              && t.registered == s.registered && t.woken == s.woken && t.wakesDue == s.wakesDue
              && (if s.queue == [] then t.consumer == Parked && t.queue == []
                  else t.consumer == Lucky && [s.queue[0]] + t.queue == s.queue)
            case TakeWaker => t == s.(registered := false, consumer := Idle)
  {
  }

  /** How often the waker was registered and fired along a run. */
  function Registrations(steps: seq<Step>): nat {
    if steps == [] then 0 else (if steps[0].Register? then 1 else 0) + Registrations(steps[1..])
  }

  function Fires(s: State, steps: seq<Step>): nat
    decreases |steps|
  {
    if steps == [] then 0
    else (if steps[0].Wake? && s.registered then 1 else 0) + Fires(Next(s, steps[0]), steps[1..])
  }

  /** Each registration fires at most once, whatever the producers do. */
  lemma {:induction false} WakersFireOnce(s: State, steps: seq<Step>)
    requires Possible(s, steps)
    ensures Fires(s, steps) + (if Run(s, steps).registered then 1 else 0) <=
            Registrations(steps) + if s.registered then 1 else 0
    decreases |steps|
  {
    if steps != [] { WakersFireOnce(Next(s, steps[0]), steps[1..]); }
  }
}
