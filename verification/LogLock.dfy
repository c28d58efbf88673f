/**
 * The writer-priority reader-writer lock around the server log, as a state machine over any
 * number of threads.  One event is one stretch of code run while holding the mutex, one wakeup,
 * or one step of the unprotected body of `log_write` or `log_read`.
 */
module LogLock {
  import opened Monitors
  import opened Sizes

  const LOG_INIT_CAP := 4096

  type Text = seq<char>

  /** How far a writer has come in the body of `log_write`. */
  datatype Stage = Entered | Grown | Copied | Advanced | Terminated

  /** How far a reader has come in the body of `log_read`. */
  datatype View = Opened | Measured(n: int) | Taken(out: Text)

  /** Where a thread is.  Asleep: in `pthread_cond_wait`.  Woken: waiting for the mutex again. */
  datatype Phase =
    | Idle
    | ReadAsleep
    | ReadWoken
    | Reading(view: View)
    | WriteAsleep(entry: Text)
    | WriteWoken(entry: Text)
    | Writing(entry: Text, stage: Stage)

  /**
   * The shared log, the phases of the threads, and two histories: the entries in the order in
   * which their writers were admitted, and the buffers that finished readers have returned.
   */
  datatype State = State(
    data: Text, len: int,
    readersActive: int, writersActive: int, writersWaiting: int,
    phase: map<nat, Phase>,
    admitted: seq<Text>, results: seq<Text>)

  datatype Event =
    | WriteArrive(t: nat, entry: Text)
    | WriteRetry(t: nat)
    | ReadArrive(t: nat)
    | ReadRetry(t: nat)
    | Spurious(t: nat)
    | WriteStep(t: nat, fill: Text)
    | ReadStep(t: nat)
    | WriteUnlock(t: nat, woken: set<nat>)
    | ReadUnlock(t: nat, woken: set<nat>)

  // ---------- The threads in a phase ----------

  function Readers(p: map<nat, Phase>): set<nat> {
    set t | t in p && p[t].Reading?
  }

  function Writers(p: map<nat, Phase>): set<nat> {
    set t | t in p && p[t].Writing?
  }

  function Waiting(p: map<nat, Phase>): set<nat> {
    set t | t in p && (p[t].WriteAsleep? || p[t].WriteWoken?)
  }

  function SleepingWriters(p: map<nat, Phase>): set<nat> {
    set t | t in p && p[t].WriteAsleep?
  }

  function SleepingReaders(p: map<nat, Phase>): set<nat> {
    set t | t in p && p[t].ReadAsleep?
  }

  /** Moves the threads of `woken` that are asleep out of their wait. */
  function Wake(p: map<nat, Phase>, woken: set<nat>): map<nat, Phase> {
    map t | t in p ::
      if t in woken && p[t].ReadAsleep? then ReadWoken
      else if t in woken && p[t].WriteAsleep? then WriteWoken(p[t].entry)
      else p[t]
  }

  // ---------- The log buffer ----------

  /** Capacity after the doubling loop of `log_write`. */
  function Doubled(capacity: nat, need: nat): (r: nat)
    requires capacity > 0
    ensures r >= need && r >= capacity && (r == capacity || r < 2 * need)
    decreases if need > capacity then need - capacity else 0
  {
    if need > capacity then Doubled(2 * capacity, need) else capacity
  }

  /** The capacity is only ever doubled. */
  lemma {:induction false} DoubledTimes(capacity: nat, need: nat)
    requires capacity > 0
    ensures exists k: nat :: Doubled(capacity, need) == capacity * Pow2(k)
    decreases if need > capacity then need - capacity else 0
  {
    if need > capacity {
      DoubledTimes(2 * capacity, need);
      var k: nat :| Doubled(2 * capacity, need) == 2 * capacity * Pow2(k);
      assert capacity * Pow2(k + 1) == 2 * capacity * Pow2(k) by {
        TimesTwo(capacity, Pow2(k));
      }
    } else {
      assert capacity * Pow2(0) == capacity;
    }
  }

  lemma TimesTwo(a: nat, b: nat)
    ensures a * (2 * b) == 2 * a * b
  {}

  function Concat(entries: seq<Text>): Text {
    if entries == [] then [] else Concat(entries[..|entries| - 1]) + entries[|entries| - 1]
  }

  /** The buffer with `s` written at `at`. */
  function Put(data: Text, at: nat, s: Text): Text
    requires at + |s| <= |data|
  {
    data[..at] + s + data[at + |s|..]
  }

  // ---------- The steps ----------

  function Init(threads: set<nat>, garbage: Text): State
    requires |garbage| == LOG_INIT_CAP - 1
  {
    State(['\0'] + garbage, 0, 0, 0, 0, map t | t in threads :: Idle, [], [])
  }

  predicate Free(s: State) {
    s.readersActive == 0 && s.writersActive == 0
  }

  /** `rw_write_lock` from the loop test on: admitted, or asleep. */
  function TryWrite(s: State, t: nat, entry: Text): State {
    if s.readersActive > 0 || s.writersActive > 0 then s.(phase := s.phase[t := WriteAsleep(entry)])
    else s.(writersWaiting := s.writersWaiting - 1, writersActive := 1,
            phase := s.phase[t := Writing(entry, Entered)], admitted := s.admitted + [entry])
  }

  /** `rw_read_lock` from the loop test on. */
  function TryRead(s: State, t: nat): State {
    if s.writersActive > 0 || s.writersWaiting > 0 then s.(phase := s.phase[t := ReadAsleep])
    else s.(readersActive := s.readersActive + 1, phase := s.phase[t := Reading(Opened)])
  }

  /** The doubling loop and the four assignments of the body of `log_write`. */
  function BodyStep(s: State, t: nat, entry: Text, stage: Stage, fill: Text): State {
    match stage
    case Entered => s.(data := s.data + fill, phase := s.phase[t := Writing(entry, Grown)])
    case Grown =>
      s.(data := if 0 <= s.len && s.len + |entry| <= |s.data| then Put(s.data, s.len, entry) else s.data,
         phase := s.phase[t := Writing(entry, Copied)])
    case Copied => s.(len := s.len + |entry|, phase := s.phase[t := Writing(entry, Advanced)])
    case Advanced =>
      s.(data := if 0 <= s.len < |s.data| then s.data[s.len := '\0'] else s.data,
         phase := s.phase[t := Writing(entry, Terminated)])
    case Terminated => s
  }

  function LookStep(s: State, t: nat, view: View): State {
    match view
    case Opened => s.(phase := s.phase[t := Reading(Measured(s.len))])
    case Measured(n) =>
      s.(phase := s.phase[t := Reading(Taken(if 0 <= n < |s.data| then s.data[..n + 1] else []))])
    case Taken(_) => s
  }

  predicate Enabled(s: State, e: Event) {
    e.t in s.phase &&
    match e
    case WriteArrive(t, _) => s.phase[t].Idle?
    case WriteRetry(t) => s.phase[t].WriteWoken?
    case ReadArrive(t) => s.phase[t].Idle?
    case ReadRetry(t) => s.phase[t].ReadWoken?
    case Spurious(t) => s.phase[t].ReadAsleep? || s.phase[t].WriteAsleep?
    case WriteStep(t, fill) =>
      && s.phase[t].Writing? && s.phase[t].stage != Terminated
      && (s.phase[t].stage == Entered ==>
            |s.data| > 0 && s.len >= 0 && |s.data| + |fill| == Doubled(|s.data|, s.len + |s.phase[t].entry| + 1))
    case ReadStep(t) => s.phase[t].Reading? && !s.phase[t].view.Taken?
    case WriteUnlock(t, woken) =>
      && s.phase[t].Writing? && s.phase[t].stage == Terminated
      && if s.writersWaiting > 0 then Signalled(SleepingWriters(s.phase), woken)
         else woken == SleepingReaders(s.phase)
    case ReadUnlock(t, woken) =>
      && s.phase[t].Reading? && s.phase[t].view.Taken?
      && if s.readersActive == 1 then Signalled(SleepingWriters(s.phase), woken) else woken == {}
  }

  function Apply(s: State, e: Event): State
    requires Enabled(s, e)
  {
    match e
    case WriteArrive(t, entry) => TryWrite(s.(writersWaiting := s.writersWaiting + 1), t, entry)
    case WriteRetry(t) => TryWrite(s, t, s.phase[t].entry)
    case ReadArrive(t) => TryRead(s, t)
    case ReadRetry(t) => TryRead(s, t)
    case Spurious(t) => s.(phase := Wake(s.phase, {t}))
    case WriteStep(t, fill) => BodyStep(s, t, s.phase[t].entry, s.phase[t].stage, fill)
    case ReadStep(t) => LookStep(s, t, s.phase[t].view)
    case WriteUnlock(t, woken) =>
      s.(writersActive := 0, phase := Wake(s.phase[t := Idle], woken))
    case ReadUnlock(t, woken) =>
      s.(readersActive := s.readersActive - 1, phase := Wake(s.phase[t := Idle], woken),
         results := s.results + [s.phase[t].view.out])
  }

  predicate Runs(s: State, events: seq<Event>)
    decreases |events|
  {
    events == [] || (Enabled(s, events[0]) && Runs(Apply(s, events[0]), events[1..]))
  }

  function After(s: State, events: seq<Event>): State
    requires Runs(s, events)
    decreases |events|
  {
    if events == [] then s else After(Apply(s, events[0]), events[1..])
  }

  // ---------- The invariant ----------

  /** The counters count the threads in the corresponding phases. */
  ghost predicate Counted(s: State) {
    && s.readersActive == |Readers(s.phase)|
    && s.writersActive == |Writers(s.phase)|
    && s.writersWaiting == |Waiting(s.phase)|
  }

  /** A writer excludes all readers and all other writers. */
  ghost predicate Exclusive(s: State) {
    s.writersActive <= 1 && (s.writersActive == 1 ==> s.readersActive == 0)
  }

  /** No wakeup is lost. */
  ghost predicate Awake(s: State) {
    && (Free(s) && s.writersWaiting > 0 ==> exists t :: t in s.phase && s.phase[t].WriteWoken?)
    && (s.writersActive == 0 && s.writersWaiting == 0 ==> forall t :: t in s.phase ==> !s.phase[t].ReadAsleep?)
  }

  /** The buffer holds exactly `text`, terminated. */
  predicate Holds(data: Text, len: int, text: Text) {
    len == |text| && len < |data| && data[..len] == text && data[len] == '\0'
  }

  /** What the buffer holds while the writer of the last admitted entry is at a stage. */
  predicate Partway(data: Text, len: int, text: Text, entry: Text, stage: Stage) {
    match stage
    case Entered => Holds(data, len, text)
    case Grown => Holds(data, len, text) && len + |entry| + 1 <= |data|
    case Copied => len == |text| && len + |entry| + 1 <= |data| && data[..len] == text
             && data[len..len + |entry|] == entry
    case Advanced => len == |text + entry| && len < |data| && data[..len] == text + entry
    case Terminated => Holds(data, len, text + entry)
  }

  /** `out` is the whole log after some number of admissions. */
  ghost predicate Snapshot(admitted: seq<Text>, out: Text) {
    exists n :: 0 <= n <= |admitted| && out == Concat(admitted[..n]) + ['\0']
  }

  ghost predicate LogOk(s: State) {
    && (s.writersActive == 0 ==> Holds(s.data, s.len, Concat(s.admitted)))
    && (forall t :: t in s.phase && s.phase[t].Writing? ==>
          && s.admitted != [] && s.phase[t].entry == s.admitted[|s.admitted| - 1]
          && Partway(s.data, s.len, Concat(s.admitted[..|s.admitted| - 1]), s.phase[t].entry, s.phase[t].stage))
    && (forall t :: t in s.phase && s.phase[t].Reading? ==>
          match s.phase[t].view
          case Opened => true
          case Measured(n) => n == |Concat(s.admitted)|
          case Taken(out) => out == Concat(s.admitted) + ['\0'])
    && (forall i :: 0 <= i < |s.results| ==> Snapshot(s.admitted, s.results[i]))
  }

  ghost predicate Inv(s: State) {
    Counted(s) && Exclusive(s) && Awake(s) && LogOk(s)
  }

  // ---------- Set arithmetic ----------

  lemma PhaseChange(p: map<nat, Phase>, t: nat, q: Phase)
    requires t in p
    ensures Readers(p[t := q]) == if q.Reading? then Readers(p) + {t} else Readers(p) - {t}
    ensures Writers(p[t := q]) == if q.Writing? then Writers(p) + {t} else Writers(p) - {t}
    ensures Waiting(p[t := q]) == if q.WriteAsleep? || q.WriteWoken? then Waiting(p) + {t} else Waiting(p) - {t}
  {}

  lemma WakeSets(p: map<nat, Phase>, woken: set<nat>)
    ensures Readers(Wake(p, woken)) == Readers(p) && Writers(Wake(p, woken)) == Writers(p)
             && Waiting(Wake(p, woken)) == Waiting(p)
  {}

  lemma NotInside(p: map<nat, Phase>, t: nat)
    requires t in p
    ensures t in Readers(p) <==> p[t].Reading?
    ensures t in Writers(p) <==> p[t].Writing?
    ensures t in Waiting(p) <==> p[t].WriteAsleep? || p[t].WriteWoken?
  {}

  lemma NotMember(a: set<nat>, t: nat)
    requires t !in a
    ensures a - {t} == a
  {}

  lemma MemberCounts(a: set<nat>, t: nat)
    requires t in a
    ensures |a| > 0 && |a - {t}| == |a| - 1 && (|a| == 1 ==> a == {t})
  {
    assert a == (a - {t}) + {t};
    if |a| == 1 {
      assert |a - {t}| == 0;
    }
  }

  /** With a writer inside, there is no other writer and no reader. */
  lemma WriterAlone(s: State, t: nat)
    requires Counted(s) && Exclusive(s) && t in s.phase && s.phase[t].Writing?
    ensures s.writersActive == 1 && Readers(s.phase) == {} && Writers(s.phase) == {t}
    ensures forall u :: u in s.phase && u != t ==> !s.phase[u].Writing? && !s.phase[u].Reading?
  {
    assert t in Writers(s.phase);
    MemberCounts(Writers(s.phase), t);
    assert forall u :: u in s.phase && s.phase[u].Writing? ==> u in Writers(s.phase);
    assert forall u :: u in s.phase && s.phase[u].Reading? ==> u in Readers(s.phase);
  }

  lemma ReaderNoWriter(s: State, t: nat)
    requires Counted(s) && Exclusive(s) && t in s.phase && s.phase[t].Reading?
    ensures s.writersActive == 0 && s.readersActive > 0 && Writers(s.phase) == {}
    ensures forall u :: u in s.phase ==> !s.phase[u].Writing?
  {
    assert t in Readers(s.phase);
    assert forall u :: u in s.phase && s.phase[u].Writing? ==> u in Writers(s.phase);
  }

  // ---------- Every event keeps the invariant ----------

  lemma ConcatSnoc(entries: seq<Text>, e: Text)
    ensures Concat(entries + [e]) == Concat(entries) + e
  {
    assert (entries + [e])[..|entries|] == entries;
  }

  lemma SnapshotGrows(admitted: seq<Text>, e: Text, out: Text)
    requires Snapshot(admitted, out)
    ensures Snapshot(admitted + [e], out)
  {
    var n :| 0 <= n <= |admitted| && out == Concat(admitted[..n]) + ['\0'];
    assert (admitted + [e])[..n] == admitted[..n];
  }

  lemma InitInv(threads: set<nat>, garbage: Text)
    requires |garbage| == LOG_INIT_CAP - 1
    ensures Inv(Init(threads, garbage))
  {
    var s := Init(threads, garbage);
    assert Readers(s.phase) == {} && Writers(s.phase) == {} && Waiting(s.phase) == {};
  }

  lemma AdmitWriter(s: State, t: nat, entry: Text)
    requires s.writersWaiting > 0 && Free(s) && LogOk(s) && t in s.phase
    requires Readers(s.phase) == {} && Writers(s.phase) == {} && s.writersWaiting == |Waiting(s.phase) + {t}|
    ensures Inv(TryWrite(s, t, entry))
  {
    var r := TryWrite(s, t, entry);
    PhaseChange(s.phase, t, Writing(entry, Entered));
    MemberCounts(Waiting(s.phase) + {t}, t);
    assert Waiting(s.phase) + {t} - {t} == Waiting(s.phase) - {t};
    assert s.admitted + [entry] != [] && (s.admitted + [entry])[..|s.admitted|] == s.admitted;
    forall u | u in s.phase
      ensures !s.phase[u].Writing? && !s.phase[u].Reading?
    {
      assert u !in Readers(s.phase) && u !in Writers(s.phase);
    }
    forall i | 0 <= i < |s.results|
      ensures Snapshot(r.admitted, s.results[i])
    {
      SnapshotGrows(s.admitted, entry, s.results[i]);
    }
  }

  /** Changes that touch neither the log nor a thread inside keep the log as it should be. */
  lemma LogUntouched(s: State, r: State)
    requires LogOk(s) && (r.writersActive == 0 ==> s.writersActive == 0)
    requires r.data == s.data && r.len == s.len && r.admitted == s.admitted && r.results == s.results
    requires forall u :: u in r.phase && (r.phase[u].Writing? || r.phase[u].Reading?) ==>
        u in s.phase && (r.phase[u] == s.phase[u] || r.phase[u] == Reading(Opened))
    ensures LogOk(r)
  {
    hide Holds, Concat, Partway, Snapshot;
  }

  lemma WriteLockKeeps(s: State, t: nat, entry: Text)
    requires Exclusive(s) && LogOk(s) && t in s.phase && !s.phase[t].Reading? && !s.phase[t].Writing?
    requires s.readersActive == |Readers(s.phase)| && s.writersActive == |Writers(s.phase)|
    requires s.writersWaiting == |Waiting(s.phase) + {t}|
    ensures Inv(TryWrite(s, t, entry))
  {
    hide LogOk, Awake, Readers, Writers, Waiting;
    if Free(s) {
      MemberCounts(Waiting(s.phase) + {t}, t);
      AdmitWriter(s, t, entry);
    } else {
      LogUntouched(s, TryWrite(s, t, entry));
      WriterSleeps(s, t, entry);
    }
  }

  lemma WriterSleeps(s: State, t: nat, entry: Text)
    requires Exclusive(s) && t in s.phase && !s.phase[t].Reading? && !s.phase[t].Writing? && !Free(s)
    requires s.readersActive == |Readers(s.phase)| && s.writersActive == |Writers(s.phase)|
    requires s.writersWaiting == |Waiting(s.phase) + {t}|
    ensures var r := TryWrite(s, t, entry); Counted(r) && Exclusive(r) && Awake(r)
  {
    hide Readers, Writers, Waiting, Wake;
    MemberCounts(Waiting(s.phase) + {t}, t);
    NotInside(s.phase, t);
    PhaseChange(s.phase, t, WriteAsleep(entry));
    NotMember(Readers(s.phase), t);
    NotMember(Writers(s.phase), t);
  }

  lemma ReadLockKeeps(s: State, t: nat)
    requires Inv(s) && t in s.phase && (s.phase[t].Idle? || s.phase[t].ReadWoken?)
    ensures Inv(TryRead(s, t))
  {
    hide LogOk, Awake, Counted, Exclusive;
    LogUntouched(s, TryRead(s, t));
    ReadLockCounts(s, t);
    ReadLockAwake(s, t);
  }

  lemma ReadLockCounts(s: State, t: nat)
    requires Counted(s) && Exclusive(s) && t in s.phase && (s.phase[t].Idle? || s.phase[t].ReadWoken?)
    ensures Counted(TryRead(s, t)) && Exclusive(TryRead(s, t))
  {
    hide Readers, Writers, Waiting;
    NotInside(s.phase, t);
    PhaseChange(s.phase, t, TryRead(s, t).phase[t]);
    assert Readers(s.phase) - {t} == Readers(s.phase);
    assert Writers(s.phase) - {t} == Writers(s.phase) && Waiting(s.phase) - {t} == Waiting(s.phase);
  }

  lemma ReadLockAwake(s: State, t: nat)
    requires Counted(s) && Awake(s) && t in s.phase && (s.phase[t].Idle? || s.phase[t].ReadWoken?)
    ensures Awake(TryRead(s, t))
  {
    if Free(s) && s.writersWaiting > 0 {
      var w :| w in s.phase && s.phase[w].WriteWoken?;
      assert TryRead(s, t).phase[w].WriteWoken?;
    }
  }

  lemma SpuriousKeeps(s: State, t: nat)
    requires Inv(s) && t in s.phase && (s.phase[t].ReadAsleep? || s.phase[t].WriteAsleep?)
    ensures Inv(s.(phase := Wake(s.phase, {t})))
  {
    WakeSets(s.phase, {t});
    var p := Wake(s.phase, {t});
    if Free(s) && s.writersWaiting > 0 {
      var w :| w in s.phase && s.phase[w].WriteWoken?;
      assert p[w].WriteWoken?;
    }
  }

  /** The body of `log_write` carries the buffer from the old text to the new one. */
  lemma BodyAdvances(data: Text, len: int, text: Text, entry: Text, stage: Stage, fill: Text)
    requires Partway(data, len, text, entry, stage) && stage != Terminated
    requires stage == Entered ==> |data| + |fill| == Doubled(|data|, len + |entry| + 1)
    ensures stage == Entered ==> Partway(data + fill, len, text, entry, Grown)
    ensures stage == Grown ==> Partway(Put(data, len, entry), len, text, entry, Copied)
    ensures stage == Copied ==> Partway(data, len + |entry|, text, entry, Advanced)
    ensures stage == Advanced ==> Partway(data[len := '\0'], len, text, entry, Terminated)
  {
    match stage
    case Entered => assert (data + fill)[..len] == data[..len];
    case Grown =>
      var d := Put(data, len, entry);
      assert d[..len] == data[..len] && d[len..len + |entry|] == entry;
    case Copied => assert data[..len + |entry|] == data[..len] + data[len..len + |entry|];
    case Advanced => assert data[len := '\0'][..len] == data[..len];
    case Terminated =>
  }

  lemma WriteStepKeeps(s: State, t: nat, fill: Text)
    requires Inv(s) && Enabled(s, WriteStep(t, fill))
    ensures Inv(Apply(s, WriteStep(t, fill)))
  {
    hide LogOk, Readers, Writers, Waiting;
    var r := Apply(s, WriteStep(t, fill));
    WriterAlone(s, t);
    NotInside(s.phase, t);
    PhaseChange(s.phase, t, r.phase[t]);
    assert Readers(s.phase) - {t} == Readers(s.phase) && Writers(s.phase) + {t} == Writers(s.phase);
    assert Waiting(s.phase) - {t} == Waiting(s.phase);
    WriteStepLog(s, t, fill);
  }

  lemma WriteStepLog(s: State, t: nat, fill: Text)
    requires Inv(s) && Enabled(s, WriteStep(t, fill))
    ensures LogOk(Apply(s, WriteStep(t, fill)))
  {
    hide Holds, Concat, Snapshot, Readers, Writers, Waiting;
    WriterAlone(s, t);
    BodyAdvances(s.data, s.len, Concat(s.admitted[..|s.admitted| - 1]), s.phase[t].entry, s.phase[t].stage, fill);
  }

  lemma ReadStepKeeps(s: State, t: nat)
    requires Inv(s) && Enabled(s, ReadStep(t))
    ensures Inv(Apply(s, ReadStep(t)))
  {
    hide LogOk, Readers, Writers, Waiting;
    var r := Apply(s, ReadStep(t));
    ReaderNoWriter(s, t);
    NotInside(s.phase, t);
    PhaseChange(s.phase, t, r.phase[t]);
    assert Readers(s.phase) + {t} == Readers(s.phase) && Writers(s.phase) - {t} == Writers(s.phase);
    assert Waiting(s.phase) - {t} == Waiting(s.phase);
    ReadStepLog(s, t);
  }

  lemma ReadStepLog(s: State, t: nat)
    requires Inv(s) && Enabled(s, ReadStep(t))
    ensures LogOk(Apply(s, ReadStep(t)))
  {
    hide Concat, Snapshot, Partway, Readers, Writers, Waiting;
    ReaderNoWriter(s, t);
    assert s.data[..s.len + 1] == s.data[..s.len] + [s.data[s.len]];
  }

  /** After a signal, or with nobody asleep, some waiting writer is awake. */
  lemma SomeoneWoken(p: map<nat, Phase>, woken: set<nat>)
    requires Signalled(SleepingWriters(p), woken) && |Waiting(p)| > 0
    ensures exists t :: t in p && Wake(p, woken)[t].WriteWoken?
  {
    if woken == {} {
      assert SleepingWriters(p) == {};
      var t :| t in Waiting(p);
      assert t !in SleepingWriters(p);
      assert Wake(p, woken)[t].WriteWoken?;
    } else {
      var t :| t in woken;
      assert t in SleepingWriters(p);
      assert Wake(p, woken)[t].WriteWoken?;
    }
  }

  lemma WriteUnlockKeeps(s: State, t: nat, woken: set<nat>)
    requires Inv(s) && Enabled(s, WriteUnlock(t, woken))
    ensures Inv(Apply(s, WriteUnlock(t, woken)))
  {
    hide LogOk, Readers, Writers, Waiting;
    var r, q := Apply(s, WriteUnlock(t, woken)), s.phase[t := Idle];
    WriterAlone(s, t);
    NotInside(s.phase, t);
    PhaseChange(s.phase, t, Idle);
    WakeSets(q, woken);
    assert Readers(s.phase) - {t} == Readers(s.phase) && Writers(s.phase) - {t} == {};
    assert Waiting(s.phase) - {t} == Waiting(s.phase);
    WriteUnlockLog(s, t, woken);
    if s.writersWaiting > 0 {
      assert SleepingWriters(q) == SleepingWriters(s.phase);
      SomeoneWoken(q, woken);
    } else {
      forall u | u in r.phase
        ensures !r.phase[u].ReadAsleep?
      {
        assert u in SleepingReaders(s.phase) <==> s.phase[u].ReadAsleep?;
      }
    }
  }

  lemma WriteUnlockLog(s: State, t: nat, woken: set<nat>)
    requires Inv(s) && Enabled(s, WriteUnlock(t, woken))
    ensures LogOk(Apply(s, WriteUnlock(t, woken)))
  {
    hide Snapshot, Concat, Readers, Writers, Waiting;
    WriterAlone(s, t);
    var before, entry := s.admitted[..|s.admitted| - 1], s.phase[t].entry;
    ConcatSnoc(before, entry);
    assert before + [entry] == s.admitted;
  }

  lemma ReadUnlockKeeps(s: State, t: nat, woken: set<nat>)
    requires Inv(s) && Enabled(s, ReadUnlock(t, woken))
    ensures Inv(Apply(s, ReadUnlock(t, woken)))
  {
    hide LogOk, Readers, Writers, Waiting;
    var r, q := Apply(s, ReadUnlock(t, woken)), s.phase[t := Idle];
    ReaderNoWriter(s, t);
    NotInside(s.phase, t);
    PhaseChange(s.phase, t, Idle);
    WakeSets(q, woken);
    MemberCounts(Readers(s.phase), t);
    assert Writers(s.phase) - {t} == Writers(s.phase);
    assert Waiting(s.phase) - {t} == Waiting(s.phase);
    if Free(r) && r.writersWaiting > 0 {
      assert SleepingWriters(q) == SleepingWriters(s.phase);
      SomeoneWoken(q, woken);
    }
    ReadUnlockLog(s, t, woken);
  }

  lemma ReadUnlockLog(s: State, t: nat, woken: set<nat>)
    requires Inv(s) && Enabled(s, ReadUnlock(t, woken))
    ensures LogOk(Apply(s, ReadUnlock(t, woken)))
  {
    hide Snapshot, Concat, Readers, Writers, Waiting, Partway, Holds;
    ReaderNoWriter(s, t);
    ResultsGrow(s, t, Apply(s, ReadUnlock(t, woken)));
  }

  lemma ResultsGrow(s: State, t: nat, r: State)
    requires LogOk(s) && t in s.phase && s.phase[t].Reading? && s.phase[t].view.Taken?
    requires r.admitted == s.admitted && r.results == s.results + [s.phase[t].view.out]
    ensures forall i :: 0 <= i < |r.results| ==> Snapshot(r.admitted, r.results[i])
  {
    assert s.admitted[..|s.admitted|] == s.admitted;
  }

  lemma EventKeeps(s: State, e: Event)
    requires Inv(s) && Enabled(s, e)
    ensures Inv(Apply(s, e))
  {
    match e
    case WriteArrive(t, entry) =>
      var r := s.(writersWaiting := s.writersWaiting + 1);
      assert t !in Waiting(s.phase);
      WriteLockKeeps(r, t, entry);
    case WriteRetry(t) =>
      assert t in Waiting(s.phase) && Waiting(s.phase) + {t} == Waiting(s.phase);
      WriteLockKeeps(s, t, s.phase[t].entry);
    case ReadArrive(t) => ReadLockKeeps(s, t);
    case ReadRetry(t) => ReadLockKeeps(s, t);
    case Spurious(t) => SpuriousKeeps(s, t);
    case WriteStep(t, fill) => WriteStepKeeps(s, t, fill);
    case ReadStep(t) => ReadStepKeeps(s, t);
    case WriteUnlock(t, woken) => WriteUnlockKeeps(s, t, woken);
    case ReadUnlock(t, woken) => ReadUnlockKeeps(s, t, woken);
  }

  // ---------- What every run guarantees ----------

  /** The invariant holds in every reachable state. */
  lemma {:induction false} RunKeeps(s: State, events: seq<Event>)
    requires Inv(s) && Runs(s, events)
    ensures Inv(After(s, events))
    decreases |events|
  {
    if events != [] {
      EventKeeps(s, events[0]);
      RunKeeps(Apply(s, events[0]), events[1..]);
    }
  }

  ghost predicate Reachable(s: State) {
    exists threads, garbage, events ::
      |garbage| == LOG_INIT_CAP - 1 && Runs(Init(threads, garbage), events)
               && s == After(Init(threads, garbage), events)
  }

  lemma ReachableInv(s: State)
    requires Reachable(s)
    ensures Inv(s)
  {
    var threads, garbage, events :|
      |garbage| == LOG_INIT_CAP - 1 && Runs(Init(threads, garbage), events)
               && s == After(Init(threads, garbage), events);
    InitInv(threads, garbage);
    RunKeeps(Init(threads, garbage), events);
  }

  /** Somebody wants the lock and is not inside. */
  predicate Contender(q: Phase) {
    q.ReadAsleep? || q.ReadWoken? || q.WriteAsleep? || q.WriteWoken?
  }

  /**
   * No lost wakeup: whenever the lock is free, a waiting writer has been woken, or there is no
   * waiting writer and no sleeping reader.  So the lock is never free with all contenders asleep.
   */
  lemma NoLostWakeup(s: State)
    requires Reachable(s) && Free(s)
    ensures s.writersWaiting > 0 ==> exists t :: t in s.phase && s.phase[t].WriteWoken?
    ensures s.writersWaiting == 0 ==> forall t :: t in s.phase ==> !s.phase[t].ReadAsleep?
    ensures (exists t :: t in s.phase && Contender(s.phase[t]))
            ==> exists t :: t in s.phase && (s.phase[t].ReadWoken? || s.phase[t].WriteWoken?)
  {
    ReachableInv(s);
    if t :| t in s.phase && Contender(s.phase[t]) && !s.phase[t].ReadWoken? && !s.phase[t].WriteWoken? {
      if s.phase[t].WriteAsleep? {
        assert t in Waiting(s.phase);
      }
    }
  }

  /** Mutual exclusion, read off the phases: a writer inside is the only thread inside. */
  lemma MutualExclusion(s: State, t: nat, u: nat)
    requires Reachable(s) && t in s.phase && s.phase[t].Writing? && u in s.phase && u != t
    ensures !s.phase[u].Writing? && !s.phase[u].Reading?
  {
    ReachableInv(s);
    WriterAlone(s, t);
  }

  /** Writer priority: while any writer waits, no event lets a reader in. */
  lemma WriterPriority(s: State, e: Event, w: nat)
    requires Inv(s) && Enabled(s, e) && w in Waiting(s.phase)
    ensures Readers(Apply(s, e).phase) <= Readers(s.phase)
  {
    hide LogOk, Awake, Exclusive, BodyStep, Doubled, Waiting, Signalled;
    MemberCounts(Waiting(s.phase), w);
    forall t | t in Readers(Apply(s, e).phase)
      ensures t in Readers(s.phase)
    {
      BodyStays(s, e);
    }
  }

  lemma BodyStays(s: State, e: Event)
    requires Enabled(s, e)
    ensures e.WriteStep? ==> Apply(s, e).phase.Keys == s.phase.Keys && Apply(s, e).phase[e.t].Writing?
    ensures e.WriteStep? ==> forall t :: t in s.phase && t != e.t ==> Apply(s, e).phase[t] == s.phase[t]
  {}

  /** Throughout the time writer `w` waits, from arrival to admission, no reader is admitted. */
  lemma {:induction false} NoReaderOvertakes(s: State, events: seq<Event>, w: nat)
    requires Inv(s) && Runs(s, events)
    requires forall i :: 0 <= i < |events| ==> Runs(s, events[..i]) && w in Waiting(After(s, events[..i]).phase)
    ensures Readers(After(s, events).phase) <= Readers(s.phase)
    decreases |events|
  {
    if events != [] {
      var s', rest := Apply(s, events[0]), events[1..];
      assert events[..0] == [];
      WriterPriority(s, events[0], w);
      EventKeeps(s, events[0]);
      forall i | 0 <= i < |rest|
        ensures Runs(s', rest[..i]) && w in Waiting(After(s', rest[..i]).phase)
      {
        assert events[..i + 1][0] == events[0] && events[..i + 1][1..] == rest[..i];
      }
      NoReaderOvertakes(s', rest, w);
    }
  }

  lemma {:induction false} ConcatPrefix(entries: seq<Text>, m: nat, n: nat)
    requires m <= n <= |entries|
    ensures Concat(entries[..m]) <= Concat(entries[..n])
    decreases n - m
  {
    if m < n {
      ConcatPrefix(entries, m, n - 1);
      assert entries[..n] == entries[..n - 1] + [entries[n - 1]];
      ConcatSnoc(entries[..n - 1], entries[n - 1]);
    }
  }

  /** `out` is the whole log after at least `from` admissions. */
  ghost predicate SnapshotSince(admitted: seq<Text>, out: Text, from: nat) {
    exists n :: from <= n <= |admitted| && out == Concat(admitted[..n]) + ['\0']
  }

  lemma EventGrows(s: State, e: Event)
    requires Enabled(s, e)
    ensures s.admitted <= Apply(s, e).admitted && s.results <= Apply(s, e).results
    ensures |Apply(s, e).results| == |s.results| + (if e.ReadUnlock? then 1 else 0)
  {}

  lemma {:induction false} RunGrows(s: State, events: seq<Event>)
    requires Runs(s, events)
    ensures s.admitted <= After(s, events).admitted && s.results <= After(s, events).results
    decreases |events|
  {
    if events != [] {
      EventGrows(s, events[0]);
      RunGrows(Apply(s, events[0]), events[1..]);
    }
  }

  /** A finishing read returns the whole log at that moment. */
  lemma ReadReturns(s: State, t: nat, woken: set<nat>)
    requires Inv(s) && Enabled(s, ReadUnlock(t, woken))
    ensures Apply(s, ReadUnlock(t, woken)).results == s.results + [Concat(s.admitted) + ['\0']]
  {}

  /**
   * Reads are recent: one that finishes after state `s` returns all entries admitted in `s`,
   * followed by whole later entries.
   */
  lemma {:induction false} ReadsRecent(s: State, events: seq<Event>, i: nat)
    requires Inv(s) && Runs(s, events) && |s.results| <= i < |After(s, events).results|
    ensures SnapshotSince(After(s, events).admitted, After(s, events).results[i], |s.admitted|)
    decreases |events|
  {
    hide Inv, Enabled, Apply, Concat;
    var e := events[0];
    var s', r := Apply(s, e), After(s, events);
    EventKeeps(s, e);
    EventGrows(s, e);
    RunGrows(s', events[1..]);
    if i < |s'.results| {
      assert e.ReadUnlock?;
      ReadReturns(s, e.t, e.woken);
      assert r.results[i] == s'.results[i] == Concat(s.admitted) + ['\0'];
      assert r.admitted[..|s.admitted|] == s.admitted;
    } else {
      ReadsRecent(s', events[1..], i);
      var n :| |s'.admitted| <= n <= |r.admitted| && r.results[i] == Concat(r.admitted[..n]) + ['\0'];
    }
  }

  /** Results in the order in which the reads finished: each text begins the next ones. */
  ghost predicate InOrder(results: seq<Text>) {
    forall i, j :: 0 <= i <= j < |results| ==> Shown(results[i]) <= Shown(results[j])
  }

  /** A returned buffer without its terminator. */
  function Shown(out: Text): Text {
    if out == [] then [] else out[..|out| - 1]
  }

  lemma EventInOrder(s: State, e: Event)
    requires Inv(s) && Enabled(s, e) && InOrder(s.results)
    ensures InOrder(Apply(s, e).results)
  {
    EventGrows(s, e);
    if e.ReadUnlock? {
      ReadReturns(s, e.t, e.woken);
      forall i | 0 <= i < |s.results|
        ensures Shown(s.results[i]) <= Concat(s.admitted)
      {
        SnapshotShown(s.admitted, s.results[i]);
      }
      assert Shown(Concat(s.admitted) + ['\0']) == Concat(s.admitted);
    }
  }

  lemma SnapshotShown(admitted: seq<Text>, out: Text)
    requires Snapshot(admitted, out)
    ensures Shown(out) <= Concat(admitted)
  {
    var n :| 0 <= n <= |admitted| && out == Concat(admitted[..n]) + ['\0'];
    assert Shown(out) == Concat(admitted[..n]);
    ConcatPrefix(admitted, n, |admitted|);
    assert admitted[..|admitted|] == admitted;
  }

  lemma {:induction false} RunInOrder(s: State, events: seq<Event>)
    requires Inv(s) && Runs(s, events) && InOrder(s.results)
    ensures InOrder(After(s, events).results)
    decreases |events|
  {
    hide Inv, Enabled, Apply, InOrder;
    if events != [] {
      EventKeeps(s, events[0]);
      EventInOrder(s, events[0]);
      RunInOrder(Apply(s, events[0]), events[1..]);
    }
  }

  /**
   * Linearizable log: every finished read returned, with its terminator, all entries admitted up
   * to some point, and a read that finished later returned a later point.
   */
  lemma ReadsLinearize(s: State, i: nat, j: nat)
    requires Reachable(s) && i <= j < |s.results|
    ensures exists m, n ::
              && 0 <= m <= n <= |s.admitted|
              && s.results[i] == Concat(s.admitted[..m]) + ['\0'] && s.results[j] == Concat(s.admitted[..n]) + ['\0']
    ensures Shown(s.results[i]) <= Shown(s.results[j])
  {
    hide Inv, Enabled, Apply;
    ReachableInv(s);
    var threads, garbage, events :|
      |garbage| == LOG_INIT_CAP - 1 && Runs(Init(threads, garbage), events)
      && s == After(Init(threads, garbage), events);
    InitInv(threads, garbage);
    RunInOrder(Init(threads, garbage), events);
    ResultsAreSnapshots(s);
    assert Snapshot(s.admitted, s.results[i]) && Snapshot(s.admitted, s.results[j]);
    var m :| 0 <= m <= |s.admitted| && s.results[i] == Concat(s.admitted[..m]) + ['\0'];
    var n :| 0 <= n <= |s.admitted| && s.results[j] == Concat(s.admitted[..n]) + ['\0'];
    if m > n {
      ConcatPrefix(s.admitted, n, m);
      SamePrefixes(Concat(s.admitted[..m]), Concat(s.admitted[..n]));
      assert s.results[i] == Concat(s.admitted[..n]) + ['\0'];
    }
  }

  lemma ResultsAreSnapshots(s: State)
    requires Inv(s)
    ensures forall i :: 0 <= i < |s.results| ==> Snapshot(s.admitted, s.results[i])
  {}

  lemma SamePrefixes(a: Text, b: Text)
    requires Shown(a + ['\0']) <= Shown(b + ['\0']) && b <= a
    ensures a == b
  {
    assert Shown(a + ['\0']) == a && Shown(b + ['\0']) == b;
  }

  /** Reads never look outside the buffer, and return the log of all admitted writers. */
  lemma ReadInBounds(s: State, t: nat)
    requires Reachable(s) && t in s.phase && s.phase[t].Reading? && s.phase[t].view.Measured?
    ensures 0 <= s.phase[t].view.n < |s.data|
    ensures s.data[..s.phase[t].view.n + 1] == Concat(s.admitted) + ['\0']
  {
    ReachableInv(s);
    ReaderNoWriter(s, t);
    assert s.data[..s.len + 1] == s.data[..s.len] + [s.data[s.len]];
  }

  // ---------- What one event does to each thread ----------

  /** An event moves its own thread, and wakes exactly the sleepers that its signal picks. */
  lemma OthersOnlyWake(s: State, e: Event, u: nat)
    requires Enabled(s, e) && u in s.phase && u != e.t
    ensures var woken := if e.WriteUnlock? || e.ReadUnlock? then e.woken else {};
            && Apply(s, e).phase.Keys == s.phase.Keys
            && Apply(s, e).phase[u]
            == if u in woken && s.phase[u].ReadAsleep? then ReadWoken
               else if u in woken && s.phase[u].WriteAsleep? then WriteWoken(s.phase[u].entry)
               else s.phase[u]
  {}

  /** A thread whose call is over is idle, and one that wakes without a signal keeps what it came with. */
  lemma OwnMove(s: State, e: Event)
    requires Enabled(s, e) && (e.WriteUnlock? || e.ReadUnlock? || e.Spurious?)
    ensures e.WriteUnlock? || e.ReadUnlock? ==> Apply(s, e).phase[e.t] == Idle
    ensures e.Spurious? ==>
              Apply(s, e).phase[e.t] == if s.phase[e.t].ReadAsleep? then ReadWoken else WriteWoken(s.phase[e.t].entry)
  {}

  /** A writer is let in exactly when no thread is inside, and otherwise sleeps with its entry. */
  lemma WriterAdmission(s: State, e: Event)
    requires Inv(s) && Enabled(s, e) && (e.WriteArrive? || e.WriteRetry?)
    ensures var entry := if e.WriteArrive? then e.entry else s.phase[e.t].entry;
            Apply(s, e).phase[e.t] == if exists u :: u in s.phase && (s.phase[u].Reading? || s.phase[u].Writing?)
                                      then WriteAsleep(entry) else Writing(entry, Entered)
  {
    hide LogOk, Awake;
    if u :| u in s.phase && (s.phase[u].Reading? || s.phase[u].Writing?) {
      NotInside(s.phase, u);
      if s.phase[u].Reading? {
        MemberCounts(Readers(s.phase), u);
      } else {
        MemberCounts(Writers(s.phase), u);
      }
    } else {
      assert Readers(s.phase) == {} && Writers(s.phase) == {};
    }
  }

  /** A reader is let in exactly when no writer is inside and none waits, and otherwise sleeps. */
  lemma ReaderAdmission(s: State, e: Event)
    requires Inv(s) && Enabled(s, e) && (e.ReadArrive? || e.ReadRetry?)
    ensures Apply(s, e).phase[e.t]
         == if exists u :: u in s.phase && (s.phase[u].Writing? || s.phase[u].WriteAsleep? || s.phase[u].WriteWoken?)
            then ReadAsleep else Reading(Opened)
  {
    hide LogOk, Awake;
    if u :| u in s.phase && (s.phase[u].Writing? || s.phase[u].WriteAsleep? || s.phase[u].WriteWoken?) {
      NotInside(s.phase, u);
      if s.phase[u].Writing? {
        MemberCounts(Writers(s.phase), u);
      } else {
        MemberCounts(Waiting(s.phase), u);
      }
    } else {
      assert Waiting(s.phase) == {} && Writers(s.phase) == {};
    }
  }

  /** Events that the threads themselves bring about, without a new arrival or a spurious wakeup. */
  predicate Progress(e: Event) {
    !e.Spurious? && !e.WriteArrive? && !e.ReadArrive?
  }

  /** No deadlock: in every reachable state in which some call is unfinished, some thread can go on. */
  lemma NoDeadlock(s: State, t: nat) returns (e: Event)
    requires Reachable(s) && t in s.phase && !s.phase[t].Idle?
    ensures Progress(e) && Enabled(s, e)
  {
    ReachableInv(s);
    if u :| u in s.phase && (s.phase[u].Reading? || s.phase[u].Writing?) {
      e := InsideGoesOn(s, u);
    } else {
      assert Readers(s.phase) == {} && Writers(s.phase) == {};
      NoLostWakeup(s);
      assert Contender(s.phase[t]);
      var u :| u in s.phase && (s.phase[u].ReadWoken? || s.phase[u].WriteWoken?);
      e := if s.phase[u].ReadWoken? then ReadRetry(u) else WriteRetry(u);
    }
  }

  /** A thread inside its section always has an enabled step. */
  lemma InsideGoesOn(s: State, u: nat) returns (e: Event)
    requires Inv(s) && u in s.phase && (s.phase[u].Reading? || s.phase[u].Writing?)
    ensures Progress(e) && Enabled(s, e)
  {
    hide Concat, Snapshot;
    if s.phase[u].Reading? {
      ReaderNoWriter(s, u);
      e := if s.phase[u].view.Taken?
           then ReadUnlock(u, if s.readersActive == 1 then SleepingWriters(s.phase) else {}) else ReadStep(u);
    } else if s.phase[u].stage == Terminated {
      e := WriteUnlock(u, if s.writersWaiting > 0 then SleepingWriters(s.phase) else SleepingReaders(s.phase));
    } else {
      var room := if s.phase[u].stage == Entered then Doubled(|s.data|,
               s.len + |s.phase[u].entry| + 1) - |s.data| else 0;
      e := WriteStep(u, seq(room, _ => ' '));
    }
  }

  /** The scheduler is free: idle threads may call, sleepers may wake, and a signal may wake any sleepers. */
  lemma AnyChoice(s: State, t: nat, entry: Text, woken: set<nat>)
    requires t in s.phase
    ensures s.phase[t].Idle? ==> Enabled(s, WriteArrive(t, entry)) && Enabled(s, ReadArrive(t))
    ensures s.phase[t].ReadAsleep? || s.phase[t].WriteAsleep? ==> Enabled(s, Spurious(t))
    ensures s.phase[t].Writing? && s.phase[t].stage == Terminated && s.writersWaiting > 0 ==>
              Signalled(SleepingWriters(s.phase), woken) ==> Enabled(s, WriteUnlock(t, woken))
    ensures s.phase[t].Reading? && s.phase[t].view.Taken? && s.readersActive == 1 ==>
              Signalled(SleepingWriters(s.phase), woken) ==> Enabled(s, ReadUnlock(t, woken))
  {}

  // ---------- Every call is accounted for ----------

  function WriteCall(e: Event): Option<Call<Text>> {
    if e.WriteArrive? then Some(Call(e.t, e.entry)) else None
  }

  function WriteCalls(events: seq<Event>): seq<Option<Call<Text>>> {
    seq(|events|, i requires 0 <= i < |events| => WriteCall(events[i]))
  }

  /** The entries with which writers wait. */
  function Entries(p: map<nat, Phase>): map<nat, Text> {
    map t | t in p && (p[t].WriteAsleep? || p[t].WriteWoken?) :: p[t].entry
  }

  function ReadCall(e: Event): Option<Call<nat>> {
    if e.ReadArrive? then Some(Call(e.t, 0)) else None
  }

  function ReadCalls(events: seq<Event>): seq<Option<Call<nat>>> {
    seq(|events|, i requires 0 <= i < |events| => ReadCall(events[i]))
  }

  /** The threads with an unfinished read. */
  function OpenReads(p: map<nat, Phase>): map<nat, nat> {
    map t | t in p && (p[t].ReadAsleep? || p[t].ReadWoken? || p[t].Reading?) :: 0
  }

  /** One finished read for each result. */
  function Finished(results: seq<Text>): seq<nat> {
    seq(|results|, _ => 0)
  }

  lemma WriteEvent(s: State, e: Event, calls: seq<Option<Call<Text>>>)
    requires Enabled(s, e) && Accounted(calls, Entries(s.phase), s.admitted)
    ensures Accounted(calls + [WriteCall(e)], Entries(Apply(s, e).phase), Apply(s, e).admitted)
  {
    hide Accounted, Signalled, Doubled;
    var p, r := s.phase, Apply(s, e);
    if e.WriteArrive? {
      if r.phase[e.t].WriteAsleep? {
        assert Entries(r.phase) == Entries(p)[e.t := e.entry];
        CallWaits(calls, Entries(p), s.admitted, e.t, e.entry);
      } else {
        assert Entries(r.phase) == Entries(p);
        CallCompletes(calls, Entries(p), s.admitted, e.t, e.entry);
      }
    } else if e.WriteRetry? && r.phase[e.t].Writing? {
      assert Entries(r.phase) == Entries(p) - {e.t};
      WaiterCompletes(calls, Entries(p), s.admitted, e.t);
    } else {
      assert Entries(r.phase) == Entries(p);
      OtherEvent(calls, Entries(p), s.admitted);
    }
  }

  lemma ReadEvent(s: State, e: Event, calls: seq<Option<Call<nat>>>)
    requires Enabled(s, e) && Accounted(calls, OpenReads(s.phase), Finished(s.results))
    ensures Accounted(calls + [ReadCall(e)], OpenReads(Apply(s, e).phase), Finished(Apply(s, e).results))
  {
    hide Accounted, Signalled, Doubled;
    var p, r := s.phase, Apply(s, e);
    if e.ReadArrive? {
      assert OpenReads(r.phase) == OpenReads(p)[e.t := 0];
      CallWaits(calls, OpenReads(p), Finished(s.results), e.t, 0);
    } else if e.ReadUnlock? {
      assert OpenReads(r.phase) == OpenReads(p) - {e.t};
      assert Finished(r.results) == Finished(s.results) + [OpenReads(p)[e.t]];
      WaiterCompletes(calls, OpenReads(p), Finished(s.results), e.t);
    } else {
      assert OpenReads(r.phase) == OpenReads(p);
      OtherEvent(calls, OpenReads(p), Finished(s.results));
    }
  }

  lemma {:induction false} RunAccounts(s: State, events: seq<Event>, wcalls: seq<Option<Call<Text>>>,
                                       rcalls: seq<Option<Call<nat>>>)
    requires Runs(s, events)
    requires Accounted(wcalls, Entries(s.phase), s.admitted)
             && Accounted(rcalls, OpenReads(s.phase), Finished(s.results))
    ensures var r := After(s, events);
            && Accounted(wcalls + WriteCalls(events), Entries(r.phase), r.admitted)
            && Accounted(rcalls + ReadCalls(events), OpenReads(r.phase), Finished(r.results))
    decreases |events|
  {
    hide Accounted, Enabled, Apply, Entries, OpenReads, Finished;
    if events == [] {
      assert wcalls + WriteCalls(events) == wcalls && rcalls + ReadCalls(events) == rcalls;
    } else {
      var e, rest := events[0], events[1..];
      WriteEvent(s, e, wcalls);
      ReadEvent(s, e, rcalls);
      RunAccounts(Apply(s, e), rest, wcalls + [WriteCall(e)], rcalls + [ReadCall(e)]);
      assert wcalls + [WriteCall(e)] + WriteCalls(rest) == wcalls + WriteCalls(events);
      assert rcalls + [ReadCall(e)] + ReadCalls(rest) == rcalls + ReadCalls(events);
    }
  }

  /**
   * Nothing gets lost or made up: over every run, the admitted entries are those of distinct calls
   * of `log_write`, each in the log once with the entry it came with, and every other call belongs
   * to a thread that still waits with that entry.  Likewise each result belongs to one call of
   * `log_read`, and every other such call to a thread that still waits or rcalls.
   */
  lemma CallsAccounted(threads: set<nat>, garbage: Text, events: seq<Event>)
    requires |garbage| == LOG_INIT_CAP - 1 && Runs(Init(threads, garbage), events)
    ensures var s := After(Init(threads, garbage), events);
            && Accounted(WriteCalls(events), Entries(s.phase), s.admitted)
            && Accounted(ReadCalls(events), OpenReads(s.phase), Finished(s.results))
  {
    hide Accounted, Runs, After;
    var s := Init(threads, garbage);
    NoCalls<Text>();
    NoCalls<nat>();
    assert Entries(s.phase) == map[] && OpenReads(s.phase) == map[] && Finished(s.results) == [];
    RunAccounts(s, events, [], []);
    assert [] + WriteCalls(events) == WriteCalls(events) && [] + ReadCalls(events) == ReadCalls(events);
  }
}
