/** Condition variables and waiting calls, common to the log lock and the request queue. */
module Monitors {

  /** A signal wakes at least one sleeper if there is one, and nobody else. */
  predicate Signalled(sleepers: set<nat>, woken: set<nat>) {
    woken <= sleepers && (sleepers != {} ==> woken != {})
  }

  /** A thread arrives with something to hand in. */
  datatype Call<T> = Call(thread: nat, load: T)

  datatype Option<T> = None | Some(value: T)

  /**
   * The books of a run.  `calls[i]` is the call that event `i` starts, if it starts one.  The k-th
   * completed load came with the call at `at[k]`, each call completes at most once, and every other
   * call is the one that its thread is still waiting with.
   */
  ghost predicate Booked<T>(calls: seq<Option<Call<T>>>, waiting: map<nat, T>, done: seq<T>, at: seq<nat>,
                            pending: map<nat, nat>)
  {
    && |at| == |done|
    && (forall k :: 0 <= k < |at| ==> at[k] < |calls| && calls[at[k]].Some? && calls[at[k]].value.load == done[k])
    && (forall j, k :: 0 <= j < k < |at| ==> at[j] != at[k])
    && pending.Keys == waiting.Keys
    && (forall t :: t in pending ==> pending[t] < |calls| && calls[pending[t]] == Some(Call(t, waiting[t])))
    && (forall t, k :: t in pending && 0 <= k < |at| ==> at[k] != pending[t])
    && (forall i :: 0 <= i < |calls| && calls[i].Some? ==>
          i in at || (calls[i].value.thread in pending && pending[calls[i].value.thread] == i))
  }

  /** Every call either completed, with its own load and once, or its thread still waits with that load. */
  ghost predicate Accounted<T>(calls: seq<Option<Call<T>>>, waiting: map<nat, T>, done: seq<T>) {
    exists at, pending :: Booked(calls, waiting, done, at, pending)
  }

  lemma NoCalls<T>()
    ensures Accounted<T>([], map[], [])
  {
    assert Booked<T>([], map[], [], [], map[]);
  }

  lemma OtherEvent<T>(calls: seq<Option<Call<T>>>, waiting: map<nat, T>, done: seq<T>)
    requires Accounted(calls, waiting, done)
    ensures Accounted(calls + [None], waiting, done)
  {
    var at, pending :| Booked(calls, waiting, done, at, pending);
    assert Booked(calls + [None], waiting, done, at, pending);
  }

  lemma CallWaits<T>(calls: seq<Option<Call<T>>>, waiting: map<nat, T>, done: seq<T>, t: nat, load: T)
    requires Accounted(calls, waiting, done) && t !in waiting
    ensures Accounted(calls + [Some(Call(t, load))], waiting[t := load], done)
  {
    hide Booked;
    var at, pending :| Booked(calls, waiting, done, at, pending);
    BookWaiting(calls, waiting, done, at, pending, t, load);
  }

  lemma BookWaiting<T>(calls: seq<Option<Call<T>>>, waiting: map<nat, T>, done: seq<T>, at: seq<nat>,
                       pending: map<nat, nat>, t: nat, load: T)
    requires Booked(calls, waiting, done, at, pending) && t !in waiting
    ensures Booked(calls + [Some(Call(t, load))], waiting[t := load], done, at, pending[t := |calls|])
  {
    assert t !in pending;
  }

  lemma CallCompletes<T>(calls: seq<Option<Call<T>>>, waiting: map<nat, T>, done: seq<T>, t: nat, load: T)
    requires Accounted(calls, waiting, done)
    ensures Accounted(calls + [Some(Call(t, load))], waiting, done + [load])
  {
    hide Booked;
    var at, pending :| Booked(calls, waiting, done, at, pending);
    BookCompleted(calls, waiting, done, at, pending, t, load);
  }

  lemma BookCompleted<T>(calls: seq<Option<Call<T>>>, waiting: map<nat, T>, done: seq<T>, at: seq<nat>,
                         pending: map<nat, nat>, t: nat, load: T)
    requires Booked(calls, waiting, done, at, pending)
    ensures Booked(calls + [Some(Call(t, load))], waiting, done + [load], at + [|calls|], pending)
  {
    var at' := at + [|calls|];
    assert at'[|at|] == |calls|;
    assert forall i :: i in at ==> i in at';
  }

  lemma WaiterCompletes<T>(calls: seq<Option<Call<T>>>, waiting: map<nat, T>, done: seq<T>, t: nat)
    requires Accounted(calls, waiting, done) && t in waiting
    ensures Accounted(calls + [None], waiting - {t}, done + [waiting[t]])
  {
    hide Booked;
    var at, pending :| Booked(calls, waiting, done, at, pending);
    var at', pending' := BookServed(calls, waiting, done, at, pending, t);
    assert Booked(calls + [None], waiting - {t}, done + [waiting[t]], at', pending');
  }

  lemma BookServed<T>(calls: seq<Option<Call<T>>>, waiting: map<nat, T>, done: seq<T>, at: seq<nat>,
                      pending: map<nat, nat>, t: nat) returns (at': seq<nat>, pending': map<nat, nat>)
    requires Booked(calls, waiting, done, at, pending) && t in waiting
    ensures Booked(calls + [None], waiting - {t}, done + [waiting[t]], at', pending')
  {
    at', pending' := at + [pending[t]], pending - {t};
    assert at'[|at|] == pending[t];
    assert forall i :: i in at ==> i in at';
  }
}
