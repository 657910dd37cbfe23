/** The game master and the contestant sandbox over shared memory
    (game-master/rendezvous.hpp, the tick loop of game-master/main.cpp and the
    loader loop of game-master/loader.cpp). Every shared access is a step of its
    own, so a late sandbox may run while the master is already a tick ahead. */
module Rendezvous {
  import opened MarketTypes

  const SNAPSHOT_WORDS: nat := 64
  const ORDER_SLOTS: nat := 4
  const ORDER_WORDS: nat := 4
  const STATE_SLOTS: nat := 16
  const MAX_SPINS: nat := 20_000

  /** One row of the contestant's output; kind 0 is no order. */
  datatype OrderRow = OrderRow(kind: int, price: int, volume: int, id: int)

  const HOLD := OrderRow(0, 0, 0, 0)

  type Output = o: seq<OrderRow> | |o| == ORDER_SLOTS witness [HOLD, HOLD, HOLD, HOLD]

  /** The words a contestant keeps for itself from tick to tick. */
  type Keepsake = k: seq<int> | |k| == STATE_SLOTS witness seq(STATE_SLOTS, _ => 0)

  /** The rows that hold an order, moved together. */
  function Packed(rows: seq<OrderRow>): (p: seq<OrderRow>)
    ensures |p| <= |rows|
  {
    if rows == [] then []
    else (if rows[0].kind == 0 then [] else [rows[0]]) + Packed(rows[1..])
  }

  function Words(rows: seq<OrderRow>): (w: seq<int>)
    ensures |w| == ORDER_WORDS * |rows|
  {
    if rows == [] then []
    else [rows[0].kind, rows[0].price, rows[0].volume, rows[0].id] + Words(rows[1..])
  }

  /** One computation of the contestant: what it saw, what it had kept, what it
      answered and what it keeps now. */
  datatype Answer = Answer(input: seq<int>, memory: seq<int>, output: Output, kept: Keepsake)

  datatype Master =
    | Preparing                                    // writing snapshot and fill words
    | Spinning(spins: nat)
    | TimedOut                                     // about to clear the order count
    | Counting(ok: bool)                           // about to read the order count
    | Taking(ok: bool, count: nat, taken: seq<int>)

  datatype Sandbox =
    | Watching
    | Copying(copy: seq<int>)
    | Recalling(copy: seq<int>, memory: seq<int>)  // reading its persistent state
    | Computing(copy: seq<int>, memory: seq<int>)
    | Keeping(answer: Answer, written: nat)        // writing its persistent state
    | Clearing(answer: Answer)
    | Storing(answer: Answer, stored: nat)
    | Totalling(answer: Answer)
    | Signalling(answer: Answer)

  datatype State = State(
    gmSequence: nat,
    sbSequence: nat,
    snapshot: seq<int>,
    orderCount: int,
    orders: seq<int>,
    persistent: seq<int>,
    seqNo: nat,                    // the master's current tick sequence
    master: Master,
    lastSeen: nat,                 // the sandbox's last sequence
    sandbox: Sandbox,
    signalled: map<nat, seq<int>>, // history: the snapshot of each signalled tick
    answers: map<nat, Answer>,     // history: the sandbox's answer to each tick
    lastKept: seq<int>)            // history: what the last computation kept

  ghost predicate Init(s: State) {
    && s.gmSequence == 0 && s.sbSequence == 0 && s.seqNo == 1 && s.lastSeen == 0
    && |s.snapshot| == SNAPSHOT_WORDS && |s.orders| == ORDER_SLOTS * ORDER_WORDS
    && s.master == Preparing && s.sandbox == Watching
    && |s.persistent| == STATE_SLOTS && s.lastKept == s.persistent
    && s.signalled == map[] && s.answers == map[]
  }

  // ----------------------------------------------------------------- master

  predicate WriteSnapshotWord(s: State, s': State, i: nat, v: int) {
    s.master.Preparing? && i < |s.snapshot| && s' == s.(snapshot := s.snapshot[i := v])
  }

  predicate GmSignal(s: State, s': State) {
    && s.master.Preparing?
    && s' == s.(gmSequence := s.seqNo, master := Spinning(0), signalled := s.signalled[s.seqNo := s.snapshot])
  }

  predicate GmWait(s: State, s': State) {
    && s.master.Spinning?
    && s' == if s.master.spins >= MAX_SPINS then s.(master := TimedOut)
             else if s.sbSequence == s.seqNo then s.(master := Counting(true))
             else s.(master := Spinning(s.master.spins + 1))
  }

  predicate ClearCount(s: State, s': State) {
    s.master.TimedOut? && s' == s.(orderCount := 0, master := Counting(false))
  }

  predicate ReadCount(s: State, s': State) {
    && s.master.Counting?
    && s' == s.(master := Taking(s.master.ok, if s.orderCount <= 0 then 0 else Min(s.orderCount, ORDER_SLOTS), []))
  }

  predicate TakeWord(s: State, s': State) {
    && s.master.Taking? && |s.master.taken| < ORDER_WORDS * s.master.count && |s.master.taken| < |s.orders|
    && s' == s.(master := s.master.(taken := s.master.taken + [s.orders[|s.master.taken|]]))
  }

  predicate EndTick(s: State, s': State) {
    && s.master.Taking? && |s.master.taken| == ORDER_WORDS * s.master.count
    && s' == s.(seqNo := s.seqNo + 1, master := Preparing)
  }

  // ---------------------------------------------------------------- sandbox

  predicate Watch(s: State, s': State) {
    && s.sandbox.Watching?
    && s' == if s.gmSequence == s.lastSeen then s
             else s.(lastSeen := s.gmSequence, sandbox := Copying([]))
  }

  predicate CopyWord(s: State, s': State) {
    && s.sandbox.Copying? && |s.sandbox.copy| < |s.snapshot|
    && s' == s.(sandbox :=
         if |s.sandbox.copy| + 1 == SNAPSHOT_WORDS
         then Recalling(s.sandbox.copy + [s.snapshot[|s.sandbox.copy|]], [])
         else Copying(s.sandbox.copy + [s.snapshot[|s.sandbox.copy|]]))
  }

  predicate RecallWord(s: State, s': State) {
    && s.sandbox.Recalling? && |s.sandbox.memory| < |s.persistent|
    && var memory := s.sandbox.memory + [s.persistent[|s.sandbox.memory|]];
    && s' == s.(sandbox := if |memory| == STATE_SLOTS then Computing(s.sandbox.copy, memory)
                           else Recalling(s.sandbox.copy, memory))
  }

  /** The contestant's code may answer and keep anything. */
  predicate Compute(s: State, s': State, output: Output, kept: Keepsake) {
    && s.sandbox.Computing?
    && var a := Answer(s.sandbox.copy, s.sandbox.memory, output, kept);
    && s' == s.(sandbox := Keeping(a, 0), answers := s.answers[s.lastSeen := a], lastKept := kept)
  }

  predicate KeepWord(s: State, s': State) {
    && s.sandbox.Keeping? && s.sandbox.written < |s.sandbox.answer.kept| && s.sandbox.written < |s.persistent|
    && var n := s.sandbox.written;
    && s' == s.(persistent := s.persistent[n := s.sandbox.answer.kept[n]],
                sandbox := if n + 1 == STATE_SLOTS then Clearing(s.sandbox.answer)
                           else Keeping(s.sandbox.answer, n + 1))
  }

  predicate Clear(s: State, s': State) {
    s.sandbox.Clearing? && s' == s.(orderCount := 0, sandbox := Storing(s.sandbox.answer, 0))
  }

  predicate StoreWord(s: State, s': State) {
    && s.sandbox.Storing?
    && var words := Words(Packed(s.sandbox.answer.output));
    && s.sandbox.stored < |words| && s.sandbox.stored < |s.orders|
    && s' == s.(orders := s.orders[s.sandbox.stored := words[s.sandbox.stored]],
                sandbox := Storing(s.sandbox.answer, s.sandbox.stored + 1))
  }

  predicate Stored(s: State, s': State) {
    && s.sandbox.Storing? && s.sandbox.stored == |Words(Packed(s.sandbox.answer.output))|
    && s' == s.(sandbox := Totalling(s.sandbox.answer))
  }

  predicate Total(s: State, s': State) {
    && s.sandbox.Totalling?
    && s' == s.(orderCount := |Packed(s.sandbox.answer.output)|, sandbox := Signalling(s.sandbox.answer))
  }

  predicate SandboxSignal(s: State, s': State) {
    s.sandbox.Signalling? && s' == s.(sbSequence := s.lastSeen, sandbox := Watching)
  }

  ghost predicate MasterStep(s: State, s': State) {
    || (exists i, v :: WriteSnapshotWord(s, s', i, v))
    || GmSignal(s, s') || GmWait(s, s') || ClearCount(s, s')
    || ReadCount(s, s') || TakeWord(s, s') || EndTick(s, s')
  }

  ghost predicate SandboxStep(s: State, s': State) {
    || Watch(s, s') || CopyWord(s, s') || RecallWord(s, s')
    || (exists output: Output, kept: Keepsake :: Compute(s, s', output, kept))
    || KeepWord(s, s') || Clear(s, s') || StoreWord(s, s') || Stored(s, s') || Total(s, s') || SandboxSignal(s, s')
  }

  ghost predicate Next(s: State, s': State) {
    MasterStep(s, s') || SandboxStep(s, s')
  }

  // --------------------------------------------------------------- invariant

  ghost predicate SequencesInv(s: State) {
    && s.sbSequence <= s.lastSeen <= s.gmSequence
    && (s.sandbox.Watching? ==> s.sbSequence == s.lastSeen)
    && (!s.sandbox.Watching? ==> s.sbSequence < s.lastSeen)
    && s.gmSequence == (if s.master.Preparing? then s.seqNo - 1 else s.seqNo)
    && s.seqNo > 0
    && (s.sandbox.Copying? ==> |s.sandbox.copy| < SNAPSHOT_WORDS)
    && (s.master.Spinning? ==> s.master.spins <= MAX_SPINS)
    && |s.snapshot| == SNAPSHOT_WORDS && |s.orders| == ORDER_SLOTS * ORDER_WORDS
  }

  /** While the master is not preparing, the snapshot is the signalled one. */
  ghost predicate SnapshotInv(s: State) {
    !s.master.Preparing? ==> s.seqNo in s.signalled && s.signalled[s.seqNo] == s.snapshot
  }

  /** What the sandbox has of the present tick while the master leaves it alone. */
  ghost predicate CopyInv(s: State) {
    (!s.master.Preparing? && s.lastSeen == s.gmSequence) ==>
      match s.sandbox
      case Copying(copy) => |copy| < |s.snapshot| == SNAPSHOT_WORDS && copy == s.snapshot[..|copy|]
      case Recalling(copy, _) => copy == s.snapshot
      case Computing(copy, _) => copy == s.snapshot
      case Keeping(a, _) => Answered(s, a)
      case Watching => true
      case Clearing(a) => Answered(s, a)
      case Storing(a, _) => Answered(s, a)
      case Totalling(a) => Answered(s, a)
      case Signalling(a) => Answered(s, a)
  }

  /** The persistent words are those the last computation kept, or on the way there. */
  ghost predicate MemoryInv(s: State) {
    && |s.persistent| == STATE_SLOTS == |s.lastKept|
    && match s.sandbox
       case Recalling(_, memory) => |memory| < STATE_SLOTS && memory == s.persistent[..|memory|] && s.persistent == s.lastKept
       case Computing(_, memory) => memory == s.persistent == s.lastKept
       case Keeping(a, n) => n < STATE_SLOTS && a.kept == s.lastKept && s.persistent[..n] == a.kept[..n]
       case _ => s.persistent == s.lastKept
  }

  ghost predicate Answered(s: State, a: Answer) {
    a.input == s.snapshot && s.lastSeen in s.answers && s.answers[s.lastSeen] == a
  }

  ghost predicate HasOrders(s: State, a: Answer, n: nat) {
    var words := Words(Packed(a.output));
    n <= |words| <= |s.orders| && s.orders[..n] == words[..n]
  }

  /** How much of the answer is in shared memory; the count may have been cleared
      only by a master that gave up on this tick. */
  ghost predicate StoreInv(s: State) {
    match s.sandbox
    case Storing(a, n) => HasOrders(s, a, n)
    case Totalling(a) => HasOrders(s, a, |Words(Packed(a.output))|)
    case Signalling(a) =>
      && HasOrders(s, a, |Words(Packed(a.output))|)
      && (s.master.Spinning? && s.lastSeen == s.gmSequence ==> s.orderCount == |Packed(a.output)|)
    case _ => true
  }

  /** The shared orders are the whole answer to the untorn snapshot of this tick. */
  ghost predicate Delivered(s: State) {
    && s.gmSequence in s.answers && s.gmSequence in s.signalled
    && var a := s.answers[s.gmSequence];
    && a.input == s.signalled[s.gmSequence]
    && s.orderCount == |Packed(a.output)|
    && HasOrders(s, a, |Words(Packed(a.output))|)
  }

  predicate Accepted(m: Master) {
    (m.Counting? && m.ok) || (m.Taking? && m.ok)
  }

  ghost predicate DeliveryInv(s: State) {
    && (s.master.Spinning? && s.sbSequence == s.gmSequence ==> Delivered(s))
    && (Accepted(s.master) ==> s.sbSequence == s.gmSequence && Delivered(s))
    && (s.master.Taking? && s.master.ok ==> TakenInv(s))
    && (s.master.Taking? ==> |s.master.taken| <= ORDER_WORDS * s.master.count <= |s.orders|)
  }

  ghost predicate TakenInv(s: State)
    requires s.master.Taking?
  {
    && s.gmSequence in s.answers
    && var words := Words(Packed(s.answers[s.gmSequence].output));
    && s.master.count == |Packed(s.answers[s.gmSequence].output)|
    && |s.master.taken| <= |words| && s.master.taken == words[..|s.master.taken|]
  }

  ghost predicate Inv(s: State) {
    SequencesInv(s) && SnapshotInv(s) && CopyInv(s) && MemoryInv(s) && StoreInv(s) && DeliveryInv(s)
  }

  lemma MasterKeepsInv(s: State, s': State)
    requires Inv(s) && MasterStep(s, s')
    ensures Inv(s')
  {
    hide Inv, MemoryInv;
    MemoryOf(s);
    SameMemory(s, s');
    if TakeWord(s, s') {
      TakeKeepsInv(s, s');
    } else if exists i, v :: WriteSnapshotWord(s, s', i, v) {
      WriteKeepsInv(s, s');
    } else if ReadCount(s, s') {
      CountKeepsInv(s, s');
    } else {
      TurnsKeepInv(s, s');
    }
  }

  lemma MemoryOf(s: State)
    requires Inv(s)
    ensures MemoryInv(s)
  {
  }

  lemma TurnsKeepInv(s: State, s': State)
    requires Inv(s) && MemoryInv(s')
    requires GmSignal(s, s') || GmWait(s, s') || ClearCount(s, s') || EndTick(s, s')
    ensures Inv(s')
  {
    hide Words, Packed, MemoryInv;
  }

  lemma WriteKeepsInv(s: State, s': State)
    requires Inv(s) && MemoryInv(s') && exists i, v :: WriteSnapshotWord(s, s', i, v)
    ensures Inv(s')
  {
    hide Words, Packed, MemoryInv;
    var i, v :| WriteSnapshotWord(s, s', i, v);
  }

  lemma CountKeepsInv(s: State, s': State)
    requires Inv(s) && MemoryInv(s') && ReadCount(s, s')
    ensures Inv(s')
  {
    hide Words, Packed, MemoryInv;
    if s.master.ok { assert Delivered(s); }
  }

  /** The master's steps touch nothing of the sandbox. */
  lemma SameMemory(s: State, s': State)
    requires MemoryInv(s) && MasterStep(s, s')
    ensures MemoryInv(s')
  {
    hide MemoryInv;
    MasterLeavesSandbox(s, s');
    MemoryFrame(s, s');
  }

  lemma MasterLeavesSandbox(s: State, s': State)
    requires MasterStep(s, s')
    ensures s'.sandbox == s.sandbox && s'.persistent == s.persistent && s'.lastKept == s.lastKept
  {
  }

  lemma MemoryFrame(s: State, s': State)
    requires MemoryInv(s) && s'.sandbox == s.sandbox && s'.persistent == s.persistent && s'.lastKept == s.lastKept
    ensures MemoryInv(s')
  {
  }

  lemma TakeKeepsInv(s: State, s': State)
    requires Inv(s) && TakeWord(s, s')
    ensures Inv(s')
  {
    if s.master.ok {
      var a := s.answers[s.gmSequence];
      var words := Words(Packed(a.output));
      var n := |s.master.taken|;
      assert HasOrders(s, a, |words|);
      assert s.orders[..|words|][n] == words[..|words|][n];
      assert words[..n + 1] == words[..n] + [words[n]];
    }
  }

  lemma CopyKeepsInv(s: State, s': State)
    requires Inv(s) && CopyWord(s, s')
    ensures Inv(s')
  {
    hide Words, Packed;
    var n := |s.sandbox.copy|;
    assert s.snapshot[..n + 1] == s.snapshot[..n] + [s.snapshot[n]];
    assert s.snapshot[..SNAPSHOT_WORDS] == s.snapshot;
  }

  lemma RecallKeepsInv(s: State, s': State)
    requires Inv(s) && RecallWord(s, s')
    ensures Inv(s')
  {
    hide Words, Packed;
    var n := |s.sandbox.memory|;
    assert s.persistent[..n + 1] == s.persistent[..n] + [s.persistent[n]];
    assert s.persistent[..STATE_SLOTS] == s.persistent;
  }

  lemma KeepKeepsInv(s: State, s': State)
    requires Inv(s) && KeepWord(s, s')
    ensures Inv(s')
  {
    hide Words, Packed;
    OneMoreWritten(s.persistent, s.sandbox.answer.kept, s.sandbox.written);
  }

  lemma OneMoreWritten(words: seq<int>, kept: seq<int>, n: nat)
    requires n < |words| == |kept| && words[..n] == kept[..n]
    ensures words[n := kept[n]][..n + 1] == kept[..n + 1]
    ensures n + 1 == |words| ==> words[n := kept[n]] == kept
  {
    var words' := words[n := kept[n]];
    assert words'[..n + 1] == words[..n] + [kept[n]] == kept[..n + 1];
    assert words'[..|words|] == words' && kept[..|words|] == kept;
  }

  lemma StoreKeepsInv(s: State, s': State)
    requires Inv(s) && StoreWord(s, s')
    ensures Inv(s')
  {
    hide Words, Packed;
    var words := Words(Packed(s.sandbox.answer.output));
    var n := s.sandbox.stored;
    assert s'.orders[..n + 1] == s.orders[..n] + [words[n]] == words[..n + 1];
  }

  lemma SandboxKeepsInv(s: State, s': State)
    requires Inv(s) && SandboxStep(s, s')
    ensures Inv(s')
  {
    hide Words, Packed, Inv, Compute;
    if CopyWord(s, s') {
      CopyKeepsInv(s, s');
    } else if RecallWord(s, s') {
      RecallKeepsInv(s, s');
    } else if KeepWord(s, s') {
      KeepKeepsInv(s, s');
    } else if StoreWord(s, s') {
      StoreKeepsInv(s, s');
    } else if exists output: Output, kept: Keepsake :: Compute(s, s', output, kept) {
      ComputeKeepsInv(s, s');
    } else {
      SignalsKeepInv(s, s');
    }
  }

  lemma ComputeKeepsInv(s: State, s': State)
    requires Inv(s) && exists output: Output, kept: Keepsake :: Compute(s, s', output, kept)
    ensures Inv(s')
  {
    hide Words, Packed;
    var output: Output, kept: Keepsake :| Compute(s, s', output, kept);
  }

  lemma SignalsKeepInv(s: State, s': State)
    requires Inv(s)
    requires Watch(s, s') || Clear(s, s') || Stored(s, s') || Total(s, s') || SandboxSignal(s, s')
    ensures Inv(s')
  {
    hide Words, Packed;
  }

  ghost predicate IsRun(run: seq<State>) {
    |run| > 0 && Init(run[0]) && forall i :: 0 <= i < |run| - 1 ==> Next(run[i], run[i + 1])
  }

  lemma {:induction false} RunInv(run: seq<State>, k: nat)
    requires IsRun(run) && k < |run|
    ensures Inv(run[k])
  {
    hide MasterStep, SandboxStep, Inv;
    if k == 0 {
      InitInv(run[0]);
    } else {
      RunInv(run, k - 1);
      assert Next(run[k - 1], run[k - 1 + 1]);
      if MasterStep(run[k - 1], run[k]) { MasterKeepsInv(run[k - 1], run[k]); } else { SandboxKeepsInv(run[k - 1], run[k]); }
    }
  }

  lemma InitInv(s: State)
    requires Init(s)
    ensures Inv(s)
  {
  }

  // ------------------------------------------------------------------- safety

  lemma MasterAdvances(s: State, s': State)
    requires SequencesInv(s) && MasterStep(s, s')
    ensures s'.sbSequence == s.sbSequence && s.gmSequence <= s'.gmSequence
  {
  }

  lemma SandboxAdvances(s: State, s': State)
    requires SequencesInv(s) && SandboxStep(s, s')
    ensures s.sbSequence <= s'.sbSequence && s'.gmSequence == s.gmSequence
  {
    hide Words, Packed;
  }

  /** The sandbox never answers a tick that was not signalled, and neither
      sequence word ever goes back. */
  lemma SequencesMonotone(run: seq<State>, k: nat)
    requires IsRun(run) && k + 1 < |run|
    ensures run[k].sbSequence <= run[k].gmSequence
    ensures run[k].sbSequence <= run[k + 1].sbSequence && run[k].gmSequence <= run[k + 1].gmSequence
  {
    hide SnapshotInv, CopyInv, MemoryInv, StoreInv, DeliveryInv, MasterStep, SandboxStep;
    RunInv(run, k);
    assert Next(run[k], run[k + 1]);
    if MasterStep(run[k], run[k + 1]) { MasterAdvances(run[k], run[k + 1]); } else { SandboxAdvances(run[k], run[k + 1]); }
  }

  ghost predicate Mentions(at: seq<nat>, r: nat) {
    exists i :: 0 <= i < |at| && at[i] == r
  }

  /** `at` lists, in order, the rows of the output that hold an order, and no others. */
  ghost predicate OrderRows(output: seq<OrderRow>, at: seq<nat>) {
    && (forall i :: 0 <= i < |at| ==> at[i] < |output| && output[at[i]].kind != 0)
    && (forall i, j :: 0 <= i < j < |at| ==> at[i] < at[j])
    && (forall r: nat :: r < |output| && output[r].kind != 0 ==> Mentions(at, r))
  }

  /** The `i`-th group of four words is the row. */
  predicate RowAt(words: seq<int>, i: nat, row: OrderRow) {
    && ORDER_WORDS * i + 3 < |words|
    && words[ORDER_WORDS * i] == row.kind && words[ORDER_WORDS * i + 1] == row.price
    && words[ORDER_WORDS * i + 2] == row.volume && words[ORDER_WORDS * i + 3] == row.id
  }

  /** The same rows in a list that has one more in front. */
  function Shifted(at: seq<nat>): (s: seq<nat>)
    ensures |s| == |at| && forall i :: 0 <= i < |at| ==> s[i] == at[i] + 1
  {
    seq(|at|, i requires 0 <= i < |at| => at[i] + 1)
  }

  lemma SkipHold(rows: seq<OrderRow>, rest: seq<nat>)
    requires rows != [] && rows[0].kind == 0 && OrderRows(rows[1..], rest)
    ensures OrderRows(rows, Shifted(rest))
  {
    forall r: nat | r < |rows| && rows[r].kind != 0 ensures Mentions(Shifted(rest), r) {
      assert rows[1..][r - 1] == rows[r] && Mentions(rest, r - 1);
      var i :| 0 <= i < |rest| && rest[i] == r - 1;
      assert Shifted(rest)[i] == r;
    }
  }

  lemma TakeFirst(rows: seq<OrderRow>, rest: seq<nat>)
    requires rows != [] && rows[0].kind != 0 && OrderRows(rows[1..], rest)
    ensures OrderRows(rows, [0] + Shifted(rest))
  {
    hide Mentions, Shifted;
    var shifted := Shifted(rest);
    var at := [0] + shifted;
    forall i | 0 <= i < |at| ensures at[i] < |rows| && rows[at[i]].kind != 0 {
      if i > 0 { assert at[i] == shifted[i - 1] == rest[i - 1] + 1; }
    }
    forall i, j | 0 <= i < j < |at| ensures at[i] < at[j] {
      assert at[j] == shifted[j - 1];
      if i > 0 { assert at[i] == shifted[i - 1]; }
    }
    forall r: nat | r < |rows| && rows[r].kind != 0 ensures Mentions(at, r) {
      if r > 0 { assert rows[1..][r - 1] == rows[r] && Mentions(rest, r - 1); }
      MentionsFirst(rest, r);
    }
  }

  lemma MentionsFirst(rest: seq<nat>, r: nat)
    requires r > 0 ==> Mentions(rest, r - 1)
    ensures Mentions([0] + Shifted(rest), r)
  {
    var at := [0] + Shifted(rest);
    if r == 0 {
      assert at[0] == 0;
    } else {
      var i :| 0 <= i < |rest| && rest[i] == r - 1;
      assert at[i + 1] == r;
    }
  }

  /** Moving the rows together keeps exactly the orders, in their order. */
  lemma {:induction false} PackedRows(rows: seq<OrderRow>) returns (at: seq<nat>)
    ensures OrderRows(rows, at) && |at| == |Packed(rows)|
    ensures forall i :: 0 <= i < |at| ==> at[i] < |rows| && Packed(rows)[i] == rows[at[i]]
  {
    hide OrderRows, Shifted;
    if rows == [] {
      at := [];
      NoRows();
    } else {
      var rest := PackedRows(rows[1..]);
      ShiftedRows(rows, Packed(rows[1..]), rest);
      if rows[0].kind == 0 {
        SkipHold(rows, rest);
        at := Shifted(rest);
        assert Packed(rows) == Packed(rows[1..]);
      } else {
        TakeFirst(rows, rest);
        at := [0] + Shifted(rest);
        assert Packed(rows) == [rows[0]] + Packed(rows[1..]);
      }
    }
  }

  lemma NoRows()
    ensures OrderRows([], [])
  {
  }

  lemma ShiftedRows(rows: seq<OrderRow>, packed: seq<OrderRow>, rest: seq<nat>)
    requires rows != [] && |packed| == |rest|
    requires forall i :: 0 <= i < |rest| ==> rest[i] < |rows| - 1 && packed[i] == rows[1..][rest[i]]
    ensures forall i :: 0 <= i < |rest| ==> Shifted(rest)[i] < |rows| && packed[i] == rows[Shifted(rest)[i]]
  {
  }

  lemma {:induction false} WordsOfRow(rows: seq<OrderRow>, i: nat)
    requires i < |rows|
    ensures RowAt(Words(rows), i, rows[i])
  {
    var head := [rows[0].kind, rows[0].price, rows[0].volume, rows[0].id];
    assert Words(rows) == head + Words(rows[1..]);
    if i > 0 { WordsOfRow(rows[1..], i - 1); }
  }

  /** When the wait for tick `seqNo` succeeds, the master takes exactly the orders of
      the answer to the untorn snapshot signalled for that tick, in their order and
      each with its kind, price, volume and id, whatever happened in earlier,
      timed-out ticks. */
  lemma AcceptedOrdersAreTheAnswer(run: seq<State>, k: nat) returns (at: seq<nat>)
    requires IsRun(run) && k + 1 < |run|
    requires run[k].master.Taking? && run[k].master.ok && EndTick(run[k], run[k + 1])
    ensures
      var s := run[k];
      && s.seqNo in s.answers && s.seqNo in s.signalled
      && s.answers[s.seqNo].input == s.signalled[s.seqNo]
    ensures
      var s := run[k];
      var output := s.answers[s.seqNo].output;
      && OrderRows(output, at) && s.master.count == |at|
      && |s.master.taken| == ORDER_WORDS * |at|
      && forall i :: 0 <= i < |at| ==> RowAt(s.master.taken, i, output[at[i]])
  {
    hide Words, Packed, Inv;
    RunInv(run, k);
    var s := run[k];
    TakenAll(s);
    var output := s.answers[s.seqNo].output;
    at := PackedRows(output);
    forall i | 0 <= i < |at| ensures RowAt(s.master.taken, i, output[at[i]]) {
      WordsOfRow(Packed(output), i);
    }
  }

  lemma TakenAll(s: State)
    requires Inv(s) && s.master.Taking? && s.master.ok && |s.master.taken| == ORDER_WORDS * s.master.count
    ensures s.seqNo in s.answers && s.seqNo in s.signalled && s.answers[s.seqNo].input == s.signalled[s.seqNo]
    ensures s.master.count == |Packed(s.answers[s.seqNo].output)|
    ensures s.master.taken == Words(Packed(s.answers[s.seqNo].output))
  {
    var words := Words(Packed(s.answers[s.seqNo].output));
    assert words[..|words|] == words;
  }

  /** Once the sandbox has signalled and until the next tick is signalled, nobody
      changes the shared orders, and only a master that gave up clears their count. */
  lemma OrdersStable(run: seq<State>, k: nat)
    requires IsRun(run) && k + 1 < |run|
    requires run[k].sbSequence == run[k].gmSequence
    ensures run[k + 1].orders == run[k].orders
    ensures run[k + 1].orderCount == run[k].orderCount || ClearCount(run[k], run[k + 1])
    ensures run[k + 1].gmSequence == run[k].gmSequence ==> run[k + 1].sbSequence == run[k + 1].gmSequence
  {
    RunInv(run, k);
    assert Next(run[k], run[k + 1]);
  }

  /** The contestant computes with exactly what its previous computation kept,
      timed-out ticks included. */
  lemma MemoryCarriedOver(run: seq<State>, k: nat)
    requires IsRun(run) && k < |run| && run[k].sandbox.Computing?
    ensures run[k].sandbox.memory == run[k].lastKept
  {
    RunInv(run, k);
  }

  // ----------------------------------------------------------------- progress

  /** The contestant may answer and keep whatever it wants, given what it has seen and
      what it had kept; the answer is on record with the tick. */
  lemma AnyAnswerPossible(run: seq<State>, k: nat, output: Output, kept: Keepsake) returns (s': State)
    requires IsRun(run) && k < |run| && run[k].sandbox.Computing?
    ensures SandboxStep(run[k], s') && run[k].lastSeen in s'.answers
    ensures s'.answers[run[k].lastSeen].output == output && s'.answers[run[k].lastSeen].kept == kept == s'.lastKept
    ensures s'.answers[run[k].lastSeen].input == run[k].sandbox.copy
    ensures s'.answers[run[k].lastSeen].memory == run[k].sandbox.memory == run[k].lastKept
  {
    MemoryCarriedOver(run, k);
    var s := run[k];
    var a := Answer(s.sandbox.copy, s.sandbox.memory, output, kept);
    s' := s.(sandbox := Keeping(a, 0), answers := s.answers[s.lastSeen := a], lastKept := kept);
    assert Compute(s, s', output, kept);
  }

  /** How many steps the sandbox is from its signal for the tick it has seen. */
  function ToSignal(b: Sandbox): int {
    match b
    case Watching => 0
    case Copying(copy) => 200 - |copy|
    case Recalling(_, memory) => 100 - |memory|
    case Computing(_, _) => 80
    case Keeping(_, written) => 70 - written
    case Clearing(_) => 40
    case Storing(a, stored) => 4 + |Words(Packed(a.output))| - stored
    case Totalling(_) => 2
    case Signalling(_) => 1
  }

  /** Once it has seen a tick the sandbox can always step, and every step brings it
      closer to the signal that ends with its sequence at that tick. */
  lemma SandboxProgress(run: seq<State>, k: nat, s': State)
    requires IsRun(run) && k < |run| && !run[k].sandbox.Watching? && SandboxStep(run[k], s')
    ensures 0 <= ToSignal(s'.sandbox) < ToSignal(run[k].sandbox) && s'.lastSeen == run[k].lastSeen
    ensures s'.sandbox.Watching? ==> s'.sbSequence == s'.lastSeen
  {
    hide Inv, SandboxStep, ToSignal;
    RunInv(run, k);
    StepCloser(run[k], s');
  }

  lemma StepCloser(s: State, s': State)
    requires Inv(s) && !s.sandbox.Watching? && SandboxStep(s, s')
    ensures 0 <= ToSignal(s'.sandbox) < ToSignal(s.sandbox) && s'.lastSeen == s.lastSeen
    ensures s'.sandbox.Watching? ==> s'.sbSequence == s'.lastSeen
  {
    hide Words, Packed, Inv;
    SandboxBounds(s);
    if exists output: Output, kept: Keepsake :: Compute(s, s', output, kept) {
      var output: Output, kept: Keepsake :| Compute(s, s', output, kept);
    }
  }

  /** How far the sandbox's loops can have come. */
  lemma SandboxBounds(s: State)
    requires Inv(s)
    ensures
      match s.sandbox
      case Watching => true
      case Copying(copy) => |copy| < SNAPSHOT_WORDS
      case Recalling(_, memory) => |memory| < STATE_SLOTS
      case Computing(_, _) => true
      case Keeping(_, n) => n < STATE_SLOTS
      case Clearing(a) => |Words(Packed(a.output))| <= ORDER_SLOTS * ORDER_WORDS
      case Storing(a, n) => n <= |Words(Packed(a.output))|
      case Totalling(_) => true
      case Signalling(_) => true
  {
  }

  lemma SandboxNeverStuck(run: seq<State>, k: nat) returns (s': State)
    requires IsRun(run) && k < |run|
    ensures SandboxStep(run[k], s')
  {
    hide Words, Packed;
    RunInv(run, k);
    var s := run[k];
    match s.sandbox {
      case Watching =>
        s' := if s.gmSequence == s.lastSeen then s else s.(lastSeen := s.gmSequence, sandbox := Copying([]));
        assert Watch(s, s');
      case Copying(copy) =>
        var copy' := copy + [s.snapshot[|copy|]];
        s' := s.(sandbox := if |copy| + 1 == SNAPSHOT_WORDS then Recalling(copy', []) else Copying(copy'));
        assert CopyWord(s, s');
      case Recalling(copy, memory) =>
        var memory' := memory + [s.persistent[|memory|]];
        s' := s.(sandbox := if |memory'| == STATE_SLOTS then Computing(copy, memory') else Recalling(copy, memory'));
        assert RecallWord(s, s');
      case Computing(copy, memory) =>
        s' := AnyAnswerPossible(run, k, [HOLD, HOLD, HOLD, HOLD], s.persistent);
      case Keeping(a, n) =>
        s' := s.(persistent := s.persistent[n := a.kept[n]],
                 sandbox := if n + 1 == STATE_SLOTS then Clearing(a) else Keeping(a, n + 1));
        assert KeepWord(s, s');
      case Clearing(a) =>
        s' := s.(orderCount := 0, sandbox := Storing(a, 0));
        assert Clear(s, s');
      case Storing(a, n) =>
        s' := StoringCanStep(s, a, n);
      case Totalling(a) =>
        s' := s.(orderCount := |Packed(a.output)|, sandbox := Signalling(a));
        assert Total(s, s');
      case Signalling(_) =>
        s' := s.(sbSequence := s.lastSeen, sandbox := Watching);
        assert SandboxSignal(s, s');
    }
  }

  lemma StoringCanStep(s: State, a: Answer, n: nat) returns (s': State)
    requires s.sandbox == Storing(a, n) && HasOrders(s, a, n)
    ensures SandboxStep(s, s')
  {
    hide Words, Packed;
    var words := Words(Packed(a.output));
    if n < |words| {
      s' := s.(orders := s.orders[n := words[n]], sandbox := Storing(a, n + 1));
      assert StoreWord(s, s');
    } else {
      s' := s.(sandbox := Totalling(a));
      assert Stored(s, s');
    }
  }

  /** A sandbox that looks sees a new tick. */
  lemma SandboxNotices(run: seq<State>, k: nat, s': State)
    requires IsRun(run) && k < |run| && run[k].sandbox.Watching? && SandboxStep(run[k], s')
    requires run[k].lastSeen < run[k].gmSequence
    ensures s'.sandbox == Copying([]) && s'.lastSeen == run[k].gmSequence
  {
    hide Inv;
  }

  /** How many steps the master is from the end of the tick it has signalled. */
  function ToEnd(m: Master): int {
    match m
    case Preparing => 0
    case Spinning(spins) => 100 + MAX_SPINS - spins
    case TimedOut => 60
    case Counting(_) => 50
    case Taking(_, count, taken) => 1 + ORDER_WORDS * count - |taken|
  }

  /** A master that has signalled a tick ends it, whatever the sandbox does: each of
      its steps brings it closer, and the last one starts the next tick. */
  lemma MasterProgress(run: seq<State>, k: nat, s': State)
    requires IsRun(run) && k < |run| && !run[k].master.Preparing? && MasterStep(run[k], s')
    ensures 0 <= ToEnd(s'.master) < ToEnd(run[k].master)
    ensures s'.master.Preparing? ==> s'.seqNo == run[k].seqNo + 1
  {
    hide Inv;
    RunInv(run, k);
    MasterCloser(run[k], s');
  }

  lemma MasterCloser(s: State, s': State)
    requires Inv(s) && !s.master.Preparing? && MasterStep(s, s')
    ensures 0 <= ToEnd(s'.master) < ToEnd(s.master)
    ensures s'.master.Preparing? ==> s'.seqNo == s.seqNo + 1
  {
    MasterBounds(s);
    hide Inv, WriteSnapshotWord;
    assert !exists i, v :: WriteSnapshotWord(s, s', i, v) by { NotPreparing(s, s'); }
  }

  lemma NotPreparing(s: State, s': State)
    requires !s.master.Preparing?
    ensures !exists i, v :: WriteSnapshotWord(s, s', i, v)
  {
  }

  lemma MasterBounds(s: State)
    requires Inv(s)
    ensures s.master.Spinning? ==> s.master.spins <= MAX_SPINS
    ensures s.master.Taking? ==> |s.master.taken| <= ORDER_WORDS * s.master.count
  {
  }

  /** The master's wait ends: it accepts an answer that is there in time and gives up
      otherwise. */
  lemma WaitEnds(run: seq<State>, k: nat, s': State)
    requires IsRun(run) && k < |run| && run[k].master.Spinning? && MasterStep(run[k], s')
    ensures
      var spins := run[k].master.spins;
      if spins >= MAX_SPINS then s'.master == TimedOut
      else if run[k].sbSequence == run[k].gmSequence then Accepted(s'.master)
      else s'.master == Spinning(spins + 1)
  {
    RunInv(run, k);
  }
}
