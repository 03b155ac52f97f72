/** The adaptive mutex as a step system: an atomic three-state word, the recorded holder, a
    semaphore, and any number of threads, each at some point of lock or unlock. */
module Mutex {

  type Tid = t: nat | t > 0 witness 1

  const MAX_SPIN_COUNT: nat := 600

  datatype Word = Free | Locked | LockedWaiters

  /** Where a thread is. The comments name what it does next. */
  datatype Pc =
    | Outside                  // holds nothing; may call lock, or unlock by mistake
    | Spin(i: nat)             // loads the state in round i of the spin loop
    | TryCas(i: nat)           // saw FREE: compare-exchange to LOCKED
    | StoreFast                // won the compare-exchange: records itself
    | Exchange                 // exchanges LOCKED_WAITERS, first time
    | Park                     // waits on the semaphore
    | Reexchange               // woke up: exchanges LOCKED_WAITERS again
    | StoreSlow                // got FREE out of an exchange: records itself
    | Inside                   // in the critical section
    | CheckTid(holder: bool)   // unlock: compares the recorded holder with itself
    | ClearTid                 // unlock: clears the recorded holder
    | Release                  // unlock: exchanges FREE
    | Post                     // unlock: posts the semaphore

  datatype State = State(word: Word, locker: nat, sem: nat, threads: map<Tid, Pc>)

  /** The threads that hold the lock, from winning the word to giving it back. */
  predicate Holds(pc: Pc) {
    pc.StoreFast? || pc.StoreSlow? || pc.Inside? || (pc.CheckTid? && pc.holder) || pc.ClearTid? || pc.Release?
  }

  predicate Recorded(pc: Pc) {
    pc.Inside? || (pc.CheckTid? && pc.holder) || pc.ClearTid?
  }

  predicate Init(s: State) {
    && s.word == Free && s.locker == 0 && s.sem == 0
    && forall t :: t in s.threads ==> s.threads[t] == Outside
  }

  function At(s: State, t: Tid, pc: Pc): State {
    s.(threads := s.threads[t := pc])
  }

  /** After a failed or skipped attempt: the next round, or the exchange after the last one. */
  function NextRound(i: nat): Pc {
    if i + 1 < MAX_SPIN_COUNT then Spin(i + 1) else Exchange
  }

  function AfterExchange(was: Word): Pc {
    if was == Free then StoreSlow else Park
  }

  /** What the next atomic action of thread `t` does. */
  function Advance(s: State, t: Tid): State
    requires t in s.threads && !(s.threads[t].Park? && s.sem == 0)
  {
    match s.threads[t]
    case Outside => At(s, t, Spin(0))
    case Spin(i) => At(s, t, if s.word == Free then TryCas(i) else NextRound(i))
    case TryCas(i) => if s.word == Free then At(s, t, StoreFast).(word := Locked) else At(s, t, NextRound(i))
    case StoreFast => At(s, t, Inside).(locker := t)
    case Exchange => At(s, t, AfterExchange(s.word)).(word := LockedWaiters)
    case Park => At(s, t, Reexchange).(sem := s.sem - 1)
    case Reexchange => At(s, t, AfterExchange(s.word)).(word := LockedWaiters)
    case StoreSlow => At(s, t, Inside).(locker := t)
    case Inside => At(s, t, CheckTid(true))
    case CheckTid(_) => At(s, t, if s.locker == t then ClearTid else Outside)
    case ClearTid => At(s, t, Release).(locker := 0)
    case Release => At(s, t, if s.word == LockedWaiters then Post else Outside).(word := Free)
    case Post => At(s, t, Outside).(sem := s.sem + 1)
  }

  /** A thread outside may also start an unlock that is not its own to make. */
  ghost predicate Proper(s: State, s': State, t: Tid)
    requires t in s.threads
  {
    && !(s.threads[t].Park? && s.sem == 0)
    && (s' == Advance(s, t) || (s.threads[t].Outside? && s' == At(s, t, CheckTid(false))))
  }

  /** A weak compare-exchange may fail for no reason, and a wait may return without a token,
      since its result is ignored. */
  ghost predicate Spurious(s: State, s': State, t: Tid)
    requires t in s.threads
  {
    || (s.threads[t].TryCas? && s' == At(s, t, NextRound(s.threads[t].i)))
    || (s.threads[t].Park? && s' == At(s, t, Reexchange))
  }

  ghost predicate Step(s: State, s': State, t: Tid)
    requires t in s.threads
  {
    Proper(s, s', t) || Spurious(s, s', t)
  }

  ghost predicate Next(s: State, s': State) {
    exists t: Tid :: t in s.threads && Step(s, s', t)
  }

  /** A finite run; every prefix of an unbounded one is one. */
  ghost predicate Run(r: seq<State>) {
    && |r| > 0 && Init(r[0])
    && forall i :: 0 <= i < |r| - 1 ==> Next(r[i], r[i + 1])
  }

  // ----- the invariant -----

  ghost predicate AtMostOneHolder(s: State) {
    forall t, u :: t in s.threads && u in s.threads && Holds(s.threads[t]) && Holds(s.threads[u]) ==> t == u
  }

  ghost predicate SomeHolder(s: State) {
    exists t :: t in s.threads && Holds(s.threads[t])
  }

  /** Something will wake a parked thread: the holder knows of it, or a wake-up is under way. */
  ghost predicate WakeupPending(s: State) {
    || s.word == LockedWaiters
    || s.sem > 0
    || exists t :: t in s.threads && (s.threads[t].Post? || s.threads[t].Reexchange?)
  }

  ghost predicate Parked(s: State) {
    exists t :: t in s.threads && s.threads[t].Park?
  }

  /** The word says whether there is a holder, and the recorded thread is the holder. */
  ghost predicate HolderInv(s: State) {
    && AtMostOneHolder(s)
    && (s.word == Free <==> !SomeHolder(s))
    && (s.locker != 0 ==> s.locker in s.threads && Recorded(s.threads[s.locker]))
    && (forall t :: t in s.threads && Recorded(s.threads[t]) ==> s.locker == t)
  }

  ghost predicate Inv(s: State) {
    HolderInv(s) && (Parked(s) ==> WakeupPending(s))
  }

  lemma InitInv(s: State)
    requires Init(s)
    ensures Inv(s)
  {
  }

  /** The same with the holder named; 0 stands for none. */
  ghost predicate HeldBy(s: State, h: nat) {
    && (h != 0 ==> h in s.threads && Holds(s.threads[h]))
    && (forall t :: t in s.threads && Holds(s.threads[t]) ==> t == h)
    && (s.word == Free <==> h == 0)
    && (s.locker != 0 ==> s.locker == h && Recorded(s.threads[h]))
    && (h != 0 && Recorded(s.threads[h]) ==> s.locker == h)
  }

  lemma NameHolder(s: State) returns (h: nat)
    requires HolderInv(s)
    ensures HeldBy(s, h)
  {
    if SomeHolder(s) {
      h :| h in s.threads && Holds(s.threads[h]);
    } else {
      h := 0;
    }
  }

  lemma NamedHolder(s: State, h: nat)
    requires HeldBy(s, h)
    ensures HolderInv(s)
  {
  }

  function HolderAfter(s: State, s': State, t: Tid, h: nat): nat
    requires t in s'.threads
  {
    if Holds(s'.threads[t]) then t else if h == t then 0 else h
  }

  /** What a step does to the word and the recorded thread, by whether its thread holds the lock. */
  lemma AdvanceFacts(s: State, t: Tid)
    requires t in s.threads && !(s.threads[t].Park? && s.sem == 0)
    requires s.locker == t <==> Recorded(s.threads[t])
    ensures var s' := Advance(s, t);
      && t in s'.threads && s'.threads == s.threads[t := s'.threads[t]]
      && var (x, y) := (s.threads[t], s'.threads[t]);
      && (Holds(x) == Holds(y) ==> (s'.word == Free <==> s.word == Free))
      && (!Holds(x) && Holds(y) ==> s.word == Free && s'.word != Free)
      && (Holds(x) && !Holds(y) ==> s'.word == Free)
      && s'.locker == (if Recorded(y) then t else if s.locker == t then 0 else s.locker)
  {
  }

  lemma AdvanceHeldBy(s: State, t: Tid, h: nat)
    requires HeldBy(s, h) && t in s.threads && !(s.threads[t].Park? && s.sem == 0)
    ensures t in Advance(s, t).threads && HeldBy(Advance(s, t), HolderAfter(s, Advance(s, t), t, h))
  {
    assert s.locker == t <==> Recorded(s.threads[t]);
    hide Advance;
    AdvanceFacts(s, t);
    var s' := Advance(s, t);
    assert forall u :: u in s'.threads && u != t ==> u in s.threads && s'.threads[u] == s.threads[u];
  }

  /** Who holds the lock after a step: a winner of the word takes it, a release gives it up. */
  lemma StepHeldBy(s: State, s': State, t: Tid, h: nat)
    requires HeldBy(s, h) && t in s.threads && Step(s, s', t)
    ensures t in s'.threads && HeldBy(s', HolderAfter(s, s', t, h))
  {
    if Proper(s, s', t) && s' == Advance(s, t) {
      AdvanceHeldBy(s, t, h);
    } else {
      hide Advance;
    }
  }

  lemma StepHolder(s: State, s': State, t: Tid)
    requires HolderInv(s) && t in s.threads && Step(s, s', t)
    ensures HolderInv(s')
  {
    var h := NameHolder(s);
    StepHeldBy(s, s', t, h);
    NamedHolder(s', HolderAfter(s, s', t, h));
  }

  /** A step hands a wake-up on to where the next one is due. */
  lemma WakeupFacts(s: State, t: Tid)
    requires t in s.threads && !(s.threads[t].Park? && s.sem == 0)
    ensures var s' := Advance(s, t);
      && t in s'.threads && s'.threads == s.threads[t := s'.threads[t]]
      && var (x, y) := (s.threads[t], s'.threads[t]);
      && (y.Park? || x.Reexchange? ==> s'.word == LockedWaiters)
      && (s.word == LockedWaiters ==> s'.word == LockedWaiters || y.Post?)
      && (s.sem > 0 ==> s'.sem > 0 || y.Reexchange?)
      && (x.Post? ==> s'.sem > 0)
  {
  }

  lemma AdvanceWakeup(s: State, t: Tid)
    requires Parked(s) ==> WakeupPending(s)
    requires t in s.threads && !(s.threads[t].Park? && s.sem == 0)
    ensures Parked(Advance(s, t)) ==> WakeupPending(Advance(s, t))
  {
    hide Advance;
    WakeupFacts(s, t);
    var s' := Advance(s, t);
    if Parked(s') {
      var p :| p in s'.threads && s'.threads[p].Park?;
      if p != t {
        assert s.threads[p].Park?;
        if u: Tid :| u in s.threads && (s.threads[u].Post? || s.threads[u].Reexchange?) {
          assert u != t ==> s'.threads[u] == s.threads[u];
        }
      }
    }
  }

  lemma StepWakeup(s: State, s': State, t: Tid)
    requires HolderInv(s) && (Parked(s) ==> WakeupPending(s)) && t in s.threads && Step(s, s', t)
    ensures Parked(s') ==> WakeupPending(s')
  {
    if Proper(s, s', t) && s' == Advance(s, t) {
      AdvanceWakeup(s, t);
    } else {
      hide Advance;
      assert t in s'.threads;
      if Parked(s') {
        var p :| p in s'.threads && s'.threads[p].Park?;
        assert p in s.threads && s.threads[p].Park?;
        if u: Tid :| u in s.threads && (s.threads[u].Post? || s.threads[u].Reexchange?) {
          assert u in s'.threads && s'.threads[u] == s.threads[u];
        }
      }
    }
  }

  lemma StepInv(s: State, s': State, t: Tid)
    requires Inv(s) && t in s.threads && Step(s, s', t)
    ensures Inv(s')
  {
    StepHolder(s, s', t);
    StepWakeup(s, s', t);
  }

  lemma {:induction false} RunInv(r: seq<State>, k: nat)
    requires Run(r) && k < |r|
    ensures Inv(r[k])
  {
    if k == 0 {
      InitInv(r[0]);
    } else {
      RunInv(r, k - 1);
      assert Next(r[k - 1], r[k]);
      var t: Tid :| t in r[k - 1].threads && Step(r[k - 1], r[k], t);
      StepInv(r[k - 1], r[k], t);
    }
  }

  // ----- what users of the mutex rely on -----

  /** Two threads are never in the critical section together, whoever calls unlock. */
  lemma MutualExclusion(r: seq<State>, k: nat, t: Tid, u: Tid)
    requires Run(r) && k < |r| && t in r[k].threads && u in r[k].threads
    requires r[k].threads[t].Inside? && r[k].threads[u].Inside?
    ensures t == u && r[k].word != Free && r[k].locker == t
  {
    RunInv(r, k);
    assert Recorded(r[k].threads[t]);
  }

  /** An unlock by a thread that does not hold the lock leaves the mutex alone. */
  lemma StrayUnlock(r: seq<State>, k: nat, t: Tid, s': State)
    requires Run(r) && k < |r| && t in r[k].threads
    requires r[k].threads[t] == CheckTid(false) && Step(r[k], s', t)
    ensures s' == At(r[k], t, Outside)
  {
    RunInv(r, k);
  }

  /** An unlock by the holder goes through: it is not mistaken for a stray one. */
  lemma HolderUnlock(r: seq<State>, k: nat, t: Tid, s': State)
    requires Run(r) && k < |r| && t in r[k].threads
    requires r[k].threads[t] == CheckTid(true) && Step(r[k], s', t)
    ensures s' == At(r[k], t, ClearTid)
  {
    RunInv(r, k);
    assert Recorded(r[k].threads[t]);
  }

  /** No wake-up is lost. */
  lemma NoLostWakeup(r: seq<State>, k: nat)
    requires Run(r) && k < |r| && Parked(r[k])
    ensures WakeupPending(r[k])
  {
    RunInv(r, k);
  }

  /** Nothing moves unless a thread starts something new. */
  ghost predicate Quiet(s: State) {
    forall t :: t in s.threads ==>
      s.threads[t].Outside? || s.threads[t].Inside? || (s.threads[t].Park? && s.sem == 0)
  }

  /** Quiet is exactly: no thread amid lock or unlock has a proper step. */
  lemma QuietIffNoStep(s: State)
    ensures Quiet(s) <==>
      forall t: Tid, s' :: t in s.threads && !s.threads[t].Outside? && !s.threads[t].Inside? ==> !Proper(s, s', t)
  {
    if !Quiet(s) {
      var t: Tid :| t in s.threads && !s.threads[t].Outside? && !s.threads[t].Inside? && !(s.threads[t].Park? && s.sem == 0);
      var s' := Advance(s, t);
      assert Proper(s, s', t);
    }
  }

  /** The system never comes to rest with a thread parked and nobody in the critical section. */
  lemma NeverStuck(r: seq<State>, k: nat)
    requires Run(r) && k < |r| && Quiet(r[k]) && Parked(r[k])
    ensures exists t :: t in r[k].threads && r[k].threads[t].Inside?
  {
    var s := r[k];
    RunInv(r, k);
    assert s.word != Free;
    var h :| h in s.threads && Holds(s.threads[h]);
    assert s.threads[h].Inside?;
  }

  /** With a thread parked and the lock free, at most three proper steps hand the lock over. */
  lemma Handover(r: seq<State>, k: nat) returns (p: seq<State>, ts: seq<Tid>)
    requires Run(r) && k < |r| && Parked(r[k]) && r[k].word == Free
    ensures 2 <= |p| <= 4 && |ts| == |p| - 1 && p[0] == r[k]
    ensures forall i :: 0 <= i < |ts| ==> ts[i] in p[i].threads && Proper(p[i], p[i + 1], ts[i])
    ensures ts[|ts| - 1] in p[|p| - 1].threads && p[|p| - 1].threads[ts[|ts| - 1]].StoreSlow?
  {
    var s := r[k];
    RunInv(r, k);
    var w: Tid :| w in s.threads && s.threads[w].Park?;
    if s.sem > 0 {
      var s1 := Advance(s, w);
      p, ts := [s, s1, Advance(s1, w)], [w, w];
    } else {
      var u: Tid :| u in s.threads && (s.threads[u].Post? || s.threads[u].Reexchange?);
      var s1 := Advance(s, u);
      if s.threads[u].Reexchange? {
        p, ts := [s, s1], [u];
      } else {
        var s2 := Advance(s1, w);
        p, ts := [s, s1, s2, Advance(s2, w)], [u, w, w];
      }
    }
  }

  // ----- the semaphore holds no token without a reason -----

  ghost predicate Exchanging(pc: Pc) {
    pc.Exchange? || pc.Reexchange?
  }

  /** A thread has exchanged LOCKED_WAITERS into the word in this step. */
  ghost predicate ExchangeStep(s: State, s': State) {
    exists t :: t in s.threads && t in s'.threads && Exchanging(s.threads[t]) && s'.threads[t] != s.threads[t]
  }

  ghost function ExchangeCount(r: seq<State>, k: nat): nat
    requires k < |r|
  {
    if k == 0 then 0 else ExchangeCount(r, k - 1) + if ExchangeStep(r[k - 1], r[k]) then 1 else 0
  }

  ghost function Posting(s: State): set<Tid> {
    set t | t in s.threads && s.threads[t].Post?
  }

  /** Tokens there are, are about to be, or are promised by the word. */
  ghost function Tokens(s: State): nat {
    s.sem + |Posting(s)| + if s.word == LockedWaiters then 1 else 0
  }

  lemma PostingAfter(s: State, t: Tid, pc: Pc)
    requires t in s.threads
    ensures |Posting(At(s, t, pc))| == |Posting(s)| + (if pc.Post? then 1 else 0) - (if s.threads[t].Post? then 1 else 0)
  {
    var s' := At(s, t, pc);
    assert Posting(s') == if pc.Post? then Posting(s) + {t} else Posting(s) - {t};
  }

  lemma StepTokens(s: State, s': State, t: Tid)
    requires t in s.threads && Step(s, s', t)
    ensures Tokens(s') <= Tokens(s) + if ExchangeStep(s, s') then 1 else 0
  {
    assert t in s'.threads && s'.threads == s.threads[t := s'.threads[t]];
    PostingAfter(s, t, s'.threads[t]);
    assert Posting(s') == Posting(At(s, t, s'.threads[t]));
    assert Exchanging(s.threads[t]) && s'.threads[t] != s.threads[t] ==> ExchangeStep(s, s');
    hide Posting, ExchangeStep;
  }

  /** Every token of the semaphore, and every post under way, stands for an exchange by a waiter. */
  lemma {:induction false} RunTokens(r: seq<State>, k: nat)
    requires Run(r) && k < |r|
    ensures Tokens(r[k]) <= ExchangeCount(r, k)
  {
    if k > 0 {
      RunTokens(r, k - 1);
      assert Next(r[k - 1], r[k]);
      var t: Tid :| t in r[k - 1].threads && Step(r[k - 1], r[k], t);
      StepTokens(r[k - 1], r[k], t);
    } else {
      assert Posting(r[0]) == {};
    }
  }

  /** No thread is past the spin loop's end. */
  ghost predicate NoWaiters(s: State) {
    && s.sem == 0 && s.word != LockedWaiters
    && forall t :: t in s.threads ==> !s.threads[t].Post? && !s.threads[t].Park? && !s.threads[t].Reexchange? && !s.threads[t].StoreSlow?
  }

  /** As long as every thread gets the lock while it spins, the semaphore is not touched. */
  lemma {:induction false} RunNoWaiters(r: seq<State>, k: nat)
    requires Run(r) && k < |r|
    requires forall i, t :: 0 <= i < k && t in r[i].threads ==> !r[i].threads[t].Exchange?
    ensures NoWaiters(r[k])
  {
    if k > 0 {
      RunNoWaiters(r, k - 1);
      assert Next(r[k - 1], r[k]);
      var t: Tid :| t in r[k - 1].threads && Step(r[k - 1], r[k], t);
      StepNoWaiters(r[k - 1], r[k], t);
    }
  }

  lemma StepNoWaiters(s: State, s': State, t: Tid)
    requires NoWaiters(s) && t in s.threads && !s.threads[t].Exchange? && Step(s, s', t)
    ensures NoWaiters(s')
  {
    assert s'.threads == s.threads[t := s'.threads[t]];
  }

  /** A thread that is left alone takes the free lock in four steps and gives it back in four more,
      and then everything is as it was. */
  lemma LockUnlock(s: State, t: Tid) returns (p: seq<State>)
    requires s.word == Free && s.locker == 0 && t in s.threads && s.threads[t] == Outside
    ensures |p| == 9 && p[0] == s && p[8] == s && t in p[4].threads && p[4].threads[t] == Inside && p[4].locker == t
    ensures forall i :: 0 <= i < 8 ==> t in p[i].threads && Proper(p[i], p[i + 1], t)
  {
    var pcs := [Outside, Spin(0), TryCas(0), StoreFast, Inside, CheckTid(true), ClearTid, Release, Outside];
    p := seq(9, i requires 0 <= i < 9 => At(s, t, pcs[i]).(
      word := if 3 <= i < 8 then Locked else Free, locker := if 4 <= i < 7 then t else 0));
    assert p[0] == s && p[8] == s by {
      assert s.threads[t := Outside] == s.threads;
    }
    forall i | 0 <= i < 8 ensures t in p[i].threads && Proper(p[i], p[i + 1], t) {
      assert p[i + 1].threads == p[i].threads[t := pcs[i + 1]];
    }
  }

  /** The number of the round a thread is in, counting the exchange as the one after the last. */
  function Round(pc: Pc): int {
    match pc
    case Spin(i) => i
    case TryCas(i) => i
    case Exchange => MAX_SPIN_COUNT
    case _ => -1
  }

  /** Before a thread gives up spinning it has, since it began, looked at the word in every round. */
  lemma {:induction false} SpunThrough(r: seq<State>, k: nat, t: Tid, i: nat) returns (j: nat)
    requires Run(r) && k < |r| && t in r[k].threads && i <= Round(r[k].threads[t]) && i < MAX_SPIN_COUNT
    ensures j <= k && t in r[j].threads && r[j].threads[t] == Spin(i)
    ensures forall x :: j <= x <= k ==> t in r[x].threads && Round(r[x].threads[t]) >= i
  {
    hide Run, Round;
    if r[k].threads[t] == Spin(i) {
      j := k;
    } else {
      RoundBefore(r, k, t, i);
      j := SpunThrough(r, k - 1, t, i);
    }
  }

  lemma RoundBefore(r: seq<State>, k: nat, t: Tid, i: nat)
    requires Run(r) && k < |r| && t in r[k].threads && i <= Round(r[k].threads[t]) && i < MAX_SPIN_COUNT
    requires r[k].threads[t] != Spin(i)
    ensures k > 0 && t in r[k - 1].threads && Round(r[k - 1].threads[t]) >= i
  {
    assert k > 0;
    assert Next(r[k - 1], r[k]);
    var u: Tid :| u in r[k - 1].threads && Step(r[k - 1], r[k], u);
    StepRound(r[k - 1], r[k], u, t, i);
  }

  lemma StepRound(s: State, s': State, u: Tid, t: Tid, i: nat)
    requires u in s.threads && Step(s, s', u) && t in s'.threads && i <= Round(s'.threads[t]) && i < MAX_SPIN_COUNT
    requires s'.threads[t] != Spin(i)
    ensures t in s.threads && Round(s.threads[t]) >= i
  {
    assert s'.threads == s.threads[u := s'.threads[u]];
  }
}
