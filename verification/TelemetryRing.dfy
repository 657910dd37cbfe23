/** The telemetry ring between the game master and the telemetry thread
    (game-master/telemetry.hpp, `TelemetryRing` and `TelemetryWatchdog::run`):
    one producer and one consumer, every shared access its own step. */
module TelemetryRing {

  const RING_SIZE: nat := 65536
  const SLACK: nat := 64
  const EVENT_WORDS: nat := 8

  /** An event as the 64-bit words of its cache line. */
  type Event = e: seq<int> | |e| == EVENT_WORDS witness [0, 0, 0, 0, 0, 0, 0, 0]

  datatype Producer =
    | Idle
    | Waiting(event: Event)               // spinning until there is space
    | Writing(event: Event, done: nat)    // `done` words stored so far

  datatype Consumer =
    | CheckRunning
    | CheckHead                           // saw `running` false, rechecks the head
    | LoadHead
    | Draining                            // between two events of a batch
    | Reading(words: seq<int>)            // words of the current event read so far
    | Exited

  /** Shared memory, the two threads, and the histories they are judged by. */
  datatype State = State(
    slots: seq<seq<int>>,
    writeHead: nat,
    readHead: nat,      // as published by the consumer
    running: bool,
    producer: Producer,
    consumer: Consumer,
    read: nat,          // the consumer's own position
    limit: nat,         // the head it last loaded
    published: seq<Event>,
    processed: seq<seq<int>>)

  ghost predicate Init(s: State) {
    && |s.slots| == RING_SIZE && (forall i :: 0 <= i < RING_SIZE ==> |s.slots[i]| == EVENT_WORDS)
    && s.writeHead == 0 && s.readHead == 0 && s.running
    && s.producer == Idle && s.consumer == CheckRunning
    && s.read == 0 && s.limit == 0 && s.published == [] && s.processed == []
  }

  // -------------------------------------------------------------- the producer

  predicate Begin(s: State, s': State, e: Event) {
    s.producer.Idle? && s.running && s' == s.(producer := Waiting(e))
  }

  predicate CheckSpace(s: State, s': State) {
    && s.producer.Waiting?
    && s' == if s.writeHead - s.readHead >= RING_SIZE - SLACK then s
             else s.(producer := Writing(s.producer.event, 0))
  }

  predicate WriteWord(s: State, s': State) {
    && s.producer.Writing? && s.producer.done < EVENT_WORDS
    && var slot := s.writeHead % RING_SIZE;
    && slot < |s.slots| && s.producer.done < |s.slots[slot]|
    && s' == s.(slots := s.slots[slot := s.slots[slot][s.producer.done := s.producer.event[s.producer.done]]],
                producer := Writing(s.producer.event, s.producer.done + 1))
  }

  predicate Publish(s: State, s': State) {
    && s.producer.Writing? && s.producer.done == EVENT_WORDS
    && s' == s.(writeHead := s.writeHead + 1, published := s.published + [s.producer.event], producer := Idle)
  }

  /** The game master is past its loop and stops the telemetry thread. */
  predicate Stop(s: State, s': State) {
    s.producer.Idle? && s' == s.(running := false)
  }

  // -------------------------------------------------------------- the consumer

  predicate TestRunning(s: State, s': State) {
    s.consumer.CheckRunning? && s' == s.(consumer := if s.running then LoadHead else CheckHead)
  }

  predicate TestHead(s: State, s': State) {
    s.consumer.CheckHead? && s' == s.(consumer := if s.read < s.writeHead then LoadHead else Exited)
  }

  predicate ReadHead(s: State, s': State) {
    s.consumer.LoadHead? && s' == s.(consumer := Draining, limit := s.writeHead)
  }

  predicate NextEvent(s: State, s': State) {
    s.consumer.Draining? && s.read < s.limit && s' == s.(consumer := Reading([]))
  }

  predicate ReadWord(s: State, s': State) {
    && s.consumer.Reading? && |s.consumer.words| < EVENT_WORDS
    && var slot := s.read % RING_SIZE;
    && slot < |s.slots| && |s.consumer.words| < |s.slots[slot]|
    && s' == s.(consumer := Reading(s.consumer.words + [s.slots[slot][|s.consumer.words|]]))
  }

  predicate Process(s: State, s': State) {
    && s.consumer.Reading? && |s.consumer.words| == EVENT_WORDS
    && s' == s.(processed := s.processed + [s.consumer.words], read := s.read + 1, consumer := Draining)
  }

  predicate AdvanceReadHead(s: State, s': State) {
    s.consumer.Draining? && s.read >= s.limit && s' == s.(readHead := s.read, consumer := CheckRunning)
  }

  ghost predicate Next(s: State, s': State) {
    || (exists e: Event :: Begin(s, s', e))
    || CheckSpace(s, s') || WriteWord(s, s') || Publish(s, s') || Stop(s, s')
    || TestRunning(s, s') || TestHead(s, s') || ReadHead(s, s') || NextEvent(s, s')
    || ReadWord(s, s') || Process(s, s') || AdvanceReadHead(s, s')
  }

  // --------------------------------------------------------------- invariant

  ghost predicate SlotsWellFormed(s: State) {
    |s.slots| == RING_SIZE && forall i :: 0 <= i < RING_SIZE ==> |s.slots[i]| == EVENT_WORDS
  }

  /** What has been published and not yet released is still in its slot. */
  ghost predicate UnreadIntact(s: State) {
    |s.published| == s.writeHead && |s.slots| == RING_SIZE &&
    forall i :: s.readHead <= i < s.writeHead ==> s.slots[i % RING_SIZE] == s.published[i]
  }

  ghost predicate HeadsOrdered(s: State) {
    s.readHead <= s.read <= s.writeHead && s.limit <= s.writeHead && s.writeHead - s.readHead <= RING_SIZE - SLACK
  }

  ghost predicate ProducerInv(s: State) {
    match s.producer
    case Idle => true
    case Waiting(_) => s.running
    case Writing(e, done) =>
      && s.running && done <= EVENT_WORDS
      && s.writeHead - s.readHead < RING_SIZE - SLACK
      && |s.slots| == RING_SIZE && |s.slots[s.writeHead % RING_SIZE]| == EVENT_WORDS
      && s.slots[s.writeHead % RING_SIZE][..done] == e[..done]
  }

  ghost predicate ConsumerInv(s: State) {
    && s.read <= |s.published|
    && s.processed == s.published[..s.read]
    && match s.consumer
       case CheckRunning => true
       case CheckHead => !s.running
       case LoadHead => true
       case Draining => s.read <= s.limit
       case Reading(words) => s.read < s.limit <= |s.published| && |words| <= EVENT_WORDS && words == s.published[s.read][..|words|]
       case Exited => !s.running && s.read == s.writeHead
  }

  /** Between two batches the consumer has released all it has read. */
  ghost predicate ReleaseInv(s: State) {
    s.consumer.Draining? || s.consumer.Reading? || s.readHead == s.read
  }

  ghost predicate Inv(s: State) {
    SlotsWellFormed(s) && HeadsOrdered(s) && UnreadIntact(s) && ProducerInv(s) && ConsumerInv(s) && ReleaseInv(s)
  }

  /** Positions less than a ring apart use different slots. */
  lemma SlotsDiffer(i: nat, j: nat)
    requires i < j < i + RING_SIZE
    ensures i % RING_SIZE != j % RING_SIZE
  {
  }

  lemma WriteKeepsInv(s: State, s': State)
    requires Inv(s) && WriteWord(s, s')
    ensures Inv(s')
  {
    forall i | s.readHead <= i < s.writeHead ensures s'.slots[i % RING_SIZE] == s'.published[i] {
      SlotsDiffer(i, s.writeHead);
    }
    var slot := s.writeHead % RING_SIZE;
    var e, done := s.producer.event, s.producer.done;
    assert s'.slots[slot][..done + 1] == s.slots[slot][..done] + [e[done]] == e[..done + 1];
  }

  lemma PublishKeepsInv(s: State, s': State)
    requires Inv(s) && Publish(s, s')
    ensures Inv(s')
  {
    var slot := s.writeHead % RING_SIZE;
    assert s.slots[slot] == s.slots[slot][..EVENT_WORDS] == s.producer.event;
    forall i | s'.readHead <= i < s'.writeHead ensures s'.slots[i % RING_SIZE] == s'.published[i] {
      if i < s.writeHead { assert s'.published[i] == s.published[i]; }
    }
    assert s'.published[..s.read] == s.published[..s.read];
  }

  lemma ReadKeepsInv(s: State, s': State)
    requires Inv(s) && (ReadWord(s, s') || Process(s, s'))
    ensures Inv(s')
  {
    var e := s.published[s.read];
    var n := |s.consumer.words|;
    if n < EVENT_WORDS {
      assert s.slots[s.read % RING_SIZE] == e;
      assert e[..n + 1] == e[..n] + [e[n]];
    } else {
      assert e[..n] == e;
      assert s.published[..s.read + 1] == s.published[..s.read] + [e];
    }
  }

  lemma NextKeepsInv(s: State, s': State)
    requires Inv(s) && Next(s, s')
    ensures Inv(s')
  {
    if WriteWord(s, s') { WriteKeepsInv(s, s'); }
    else if Publish(s, s') { PublishKeepsInv(s, s'); }
    else if ReadWord(s, s') || Process(s, s') { ReadKeepsInv(s, s'); }
    else {}
  }

  /** Any interleaving of the two threads, from the start. */
  ghost predicate IsRun(run: seq<State>) {
    |run| > 0 && Init(run[0]) && forall i :: 0 <= i < |run| - 1 ==> Next(run[i], run[i + 1])
  }

  lemma {:induction false} RunInv(run: seq<State>, k: nat)
    requires IsRun(run) && k < |run|
    ensures Inv(run[k])
  {
    if k > 0 {
      RunInv(run, k - 1);
      assert Next(run[k - 1], run[k - 1 + 1]);
      NextKeepsInv(run[k - 1], run[k]);
    }
  }

  // ------------------------------------------------------------------- safety

  /** The consumer has always processed a prefix of what was published, each event
      whole, and is never more than the ring behind. */
  lemma ProcessedIsPrefix(run: seq<State>, k: nat)
    requires IsRun(run) && k < |run|
    ensures run[k].processed <= run[k].published
    ensures |run[k].published| - |run[k].processed| <= RING_SIZE - SLACK
  {
    RunInv(run, k);
  }

  /** What the slot of position `i` holds, if it was published. */
  ghost predicate Holds(s: State, i: nat) {
    |s.slots| == RING_SIZE && i < |s.published| && s.slots[i % RING_SIZE] == s.published[i]
  }

  /** No step overwrites a published event that is not yet consumed. */
  lemma NoOverwrite(run: seq<State>, k: nat, i: nat)
    requires IsRun(run) && k + 1 < |run|
    requires run[k].read <= i < run[k].writeHead
    ensures Holds(run[k], i)
    ensures run[k + 1].read <= i ==> Holds(run[k + 1], i) && run[k + 1].slots[i % RING_SIZE] == run[k].slots[i % RING_SIZE]
  {
    RunInv(run, k);
    RunInv(run, k + 1);
    assert Next(run[k], run[k + 1]);
    PublishedGrows(run[k], run[k + 1]);
  }

  lemma PublishedGrows(s: State, s': State)
    requires Inv(s) && Next(s, s')
    ensures s.published <= s'.published && s.writeHead <= s'.writeHead
  {
  }

  lemma ExitStep(s: State, s': State)
    requires Inv(s) && Next(s, s') && s.consumer.Exited?
    ensures s'.consumer.Exited? && s'.published == s.published && s'.processed == s.processed
  {
    assert s.producer.Idle?;
  }

  lemma {:induction false} ExitIsFinal(run: seq<State>, k: nat, j: nat)
    requires IsRun(run) && k <= j < |run| && run[k].consumer.Exited?
    ensures run[j].consumer.Exited? && run[j].published == run[k].published && run[j].processed == run[k].processed
  {
    hide Next, Inv;
    if k < j {
      ExitIsFinal(run, k, j - 1);
      RunInv(run, j - 1);
      assert Next(run[j - 1], run[j - 1 + 1]);
      ExitStep(run[j - 1], run[j]);
    }
  }

  /** A consumer that has exited has processed every event ever published, and no
      more will come. */
  lemma ExitMeansDrained(run: seq<State>, k: nat, j: nat)
    requires IsRun(run) && k <= j < |run| && run[k].consumer.Exited?
    ensures run[j].processed == run[j].published == run[k].published
  {
    RunInv(run, k);
    assert run[k].published[..run[k].read] == run[k].published;
    ExitIsFinal(run, k, j);
  }

  // ----------------------------------------------------------------- progress

  ghost predicate ConsumerStep(s: State, s': State) {
    || TestRunning(s, s') || TestHead(s, s') || ReadHead(s, s') || NextEvent(s, s')
    || ReadWord(s, s') || Process(s, s') || AdvanceReadHead(s, s')
  }

  /** Until it has exited the consumer can always step. */
  lemma ConsumerNeverStuck(run: seq<State>, k: nat)
    requires IsRun(run) && k < |run| && !run[k].consumer.Exited?
    ensures exists s' :: ConsumerStep(run[k], s')
  {
    RunInv(run, k);
    var s := run[k];
    match s.consumer {
      case CheckRunning =>
        assert ConsumerStep(s, s.(consumer := if s.running then LoadHead else CheckHead));
      case CheckHead =>
        assert ConsumerStep(s, s.(consumer := if s.read < s.writeHead then LoadHead else Exited));
      case LoadHead =>
        assert ConsumerStep(s, s.(consumer := Draining, limit := s.writeHead));
      case Draining =>
        if s.read < s.limit {
          assert ConsumerStep(s, s.(consumer := Reading([])));
        } else {
          assert ConsumerStep(s, s.(readHead := s.read, consumer := CheckRunning));
        }
      case Reading(words) =>
        if |words| < EVENT_WORDS {
          assert ConsumerStep(s, s.(consumer := Reading(words + [s.slots[s.read % RING_SIZE][|words|]])));
        } else {
          assert ConsumerStep(s, s.(processed := s.processed + [words], read := s.read + 1, consumer := Draining));
        }
    }
  }

  /** How far the consumer is from having caught up and, after the end, exited: unread
      events first, then the place in its loop. */
  function Distance(s: State): int {
    20 * (s.writeHead - s.read)
    + match s.consumer
      case CheckRunning => 14
      case CheckHead => 13
      case LoadHead => if s.read < s.writeHead then 12 else 16
      case Draining => if s.read < s.limit then 11 else 15
      case Reading(words) => 10 - |words|
      case Exited => 0
  }

  /** Every step of the consumer brings it closer, unless it polls an empty ring while
      the game is running. */
  lemma ConsumerProgress(s: State, s': State)
    requires Inv(s) && ConsumerStep(s, s')
    ensures 0 <= Distance(s') < Distance(s) || (s.running && s.read == s.writeHead)
  {
  }

  /** After the end nothing else happens: every step that changes anything brings the
      consumer closer, so it exits after finitely many, with everything processed. */
  lemma StoppedRunDrains(run: seq<State>, k: nat)
    requires IsRun(run) && k + 1 < |run| && !run[k].running
    ensures run[k + 1] == run[k] || 0 <= Distance(run[k + 1]) < Distance(run[k])
    ensures !run[k + 1].running
  {
    RunInv(run, k);
    assert Next(run[k], run[k + 1]);
    StoppedStep(run[k], run[k + 1]);
    if ConsumerStep(run[k], run[k + 1]) { ConsumerProgress(run[k], run[k + 1]); }
  }

  lemma StoppedStep(s: State, s': State)
    requires Inv(s) && Next(s, s') && !s.running
    ensures !s'.running && (s' == s || ConsumerStep(s, s'))
  {
    assert s.producer.Idle?;
  }

  /** A producer that finds the ring full waits for events the consumer has still to
      read or to release: the consumer is never idle meanwhile. */
  lemma FullRingIsServed(run: seq<State>, k: nat)
    requires IsRun(run) && k < |run| && run[k].writeHead - run[k].readHead >= RING_SIZE - SLACK
    ensures run[k].read < run[k].writeHead || (run[k].consumer.Draining? && run[k].read >= run[k].limit)
  {
    RunInv(run, k);
  }

  ghost predicate ProducerStep(s: State, s': State) {
    (exists e: Event :: Begin(s, s', e)) || CheckSpace(s, s') || WriteWord(s, s') || Publish(s, s') || Stop(s, s')
  }

  /** A producer that waits starts to write as soon as fewer than 65472 events are
      unreleased; each of its steps stores a word, and the last one publishes the very
      event it has waited with. */
  lemma EventsGetPublished(run: seq<State>, k: nat, s': State)
    requires IsRun(run) && k < |run| && !run[k].producer.Idle? && ProducerStep(run[k], s')
    ensures run[k].producer.Waiting? && run[k].writeHead - run[k].readHead < RING_SIZE - SLACK ==>
      s'.producer == Writing(run[k].producer.event, 0) && s'.published == run[k].published
    ensures run[k].producer.Writing? && run[k].producer.done < EVENT_WORDS ==>
      s'.producer == Writing(run[k].producer.event, run[k].producer.done + 1) && s'.published == run[k].published
    ensures run[k].producer.Writing? && run[k].producer.done == EVENT_WORDS ==>
      s'.producer.Idle? && s'.published == run[k].published + [run[k].producer.event]
  {
    RunInv(run, k);
  }
}
