/**
 yasio's reader-writer mutex (shared_mutex.hpp) as a state machine: any number of threads, each step one critical
 section of the inner mutex, and two condition variables whose sleepers may also wake for no reason.
 */
module SharedMutex {
  import opened Options

  /** `write_entered_` and `n_readers_`. */
  const WRITE_ENTERED: nat := 0x8000_0000
  const MAX_READERS: nat := 0x7FFF_FFFF

  datatype Mode =
    | Idle
    | WantWrite   // in lock, awake, about to test no_writer
    | SleepWrite  // in lock, asleep at gate 1
    | WantDrain   // in lock with the writer bit taken, awake, about to test no_readers
    | SleepDrain  // in lock with the writer bit taken, asleep at gate 2
    | Exclusive
    | WantRead    // in lock_shared, awake, about to test no_writer_no_max_readers
    | SleepRead   // in lock_shared, asleep at gate 1
    | Shared

  type Thread = nat

  datatype State = State(word: nat, mode: map<Thread, Mode>)

  datatype Action =
    | Lock(t: Thread)
    | EnterWrite(t: Thread)
    | Drain(t: Thread)
    | TryLock(t: Thread)
    | Unlock(t: Thread)
    | LockShared(t: Thread)
    | EnterRead(t: Thread)
    | TryLockShared(t: Thread)
      /** woken is the thread that notify_one chooses. */
    | UnlockShared(t: Thread, woken: Option<Thread>)
    | Spurious(t: Thread)

  function Readers(word: nat): nat {
    if word < WRITE_ENTERED then word else word - WRITE_ENTERED
  }

  predicate Entered(word: nat) {
    word >= WRITE_ENTERED
  }

  predicate MayRead(word: nat) {
    !Entered(word) && Readers(word) != MAX_READERS
  }

  /** The reader count replaced, the writer bit kept. */
  function WithReaders(word: nat, n: nat): nat {
    if Entered(word) then WRITE_ENTERED + n else n
  }

  predicate AtGate1(m: Mode) {
    m.SleepWrite? || m.SleepRead?
  }

  function Woken(m: Mode): Mode {
    match m
    case SleepWrite => WantWrite
    case SleepRead => WantRead
    case SleepDrain => WantDrain
    case _ => m
  }

  /** The gate that unlock_shared notifies, if any: 1 for room below the maximum, 2 for the last reader out. */
  function Gate(word: nat): nat
    requires Readers(word) > 0
  {
    var n := Readers(word) - 1;
    if !Entered(word) then (if n == MAX_READERS - 1 then 1 else 0) else (if n == 0 then 2 else 0)
  }

  predicate SleepsAt(m: Mode, gate: nat) {
    (gate == 1 && AtGate1(m)) || (gate == 2 && m.SleepDrain?)
  }

  /** notify_one wakes some sleeper of the gate, if it has one. */
  predicate Chosen(mode: map<Thread, Mode>, gate: nat, woken: Option<Thread>) {
    match woken
    case None => forall u | u in mode :: !SleepsAt(mode[u], gate)
    case Some(u) => u in mode && SleepsAt(mode[u], gate)
  }

  predicate Enabled(s: State, a: Action) {
    && a.t in s.mode
    && match a
       case Lock(t) => s.mode[t] == Idle
       case EnterWrite(t) => s.mode[t] == WantWrite
       case Drain(t) => s.mode[t] == WantDrain
       case TryLock(t) => s.mode[t] == Idle
       case Unlock(t) => s.mode[t] == Exclusive
       case LockShared(t) => s.mode[t] == Idle
       case EnterRead(t) => s.mode[t] == WantRead
       case TryLockShared(t) => s.mode[t] == Idle
       case UnlockShared(t, woken) =>
         s.mode[t] == Shared && if Readers(s.word) > 0 then Chosen(s.mode, Gate(s.word), woken) else woken == None
       case Spurious(t) => s.mode[t] != Woken(s.mode[t])
  }

  /** What follows the test of gate 2. */
  function Drained(s: State, t: Thread, word: nat): State {
    State(word, s.mode[t := if Readers(word) == 0 then Exclusive else SleepDrain])
  }

  function Entering(s: State, t: Thread): State {
    State(WithReaders(s.word, Readers(s.word) + 1), s.mode[t := Shared])
  }

  function Leaving(s: State, t: Thread, woken: Option<Thread>): State {
    var mode := s.mode[t := Idle];
    State(WithReaders(s.word, if Readers(s.word) > 0 then Readers(s.word) - 1 else 0),
          match woken
          case None => mode
          case Some(u) => if u in mode then mode[u := Woken(mode[u])] else mode)
  }

  function AllWoken(mode: map<Thread, Mode>): map<Thread, Mode> {
    map u | u in mode :: if AtGate1(mode[u]) then Woken(mode[u]) else mode[u]
  }

  function Apply(s: State, a: Action): State
    requires Enabled(s, a)
  {
    match a
    case Lock(t) => s.(mode := s.mode[t := WantWrite])
    case EnterWrite(t) =>
      if Entered(s.word) then s.(mode := s.mode[t := SleepWrite]) else Drained(s, t, s.word + WRITE_ENTERED)
    case Drain(t) => Drained(s, t, s.word)
    case TryLock(t) => if s.word == 0 then State(WRITE_ENTERED, s.mode[t := Exclusive]) else s
    case Unlock(t) => State(0, AllWoken(s.mode[t := Idle]))
    case LockShared(t) => s.(mode := s.mode[t := WantRead])
    case EnterRead(t) => if MayRead(s.word) then Entering(s, t) else s.(mode := s.mode[t := SleepRead])
    case TryLockShared(t) => if MayRead(s.word) then Entering(s, t) else s
    case UnlockShared(t, woken) => Leaving(s, t, woken)
    case Spurious(t) => s.(mode := s.mode[t := Woken(s.mode[t])])
  }

  // ----- The invariant -----

  function Holders(mode: map<Thread, Mode>): set<Thread> {
    set t | t in mode && mode[t] == Shared
  }

  predicate HasEntered(m: Mode) {
    m.WantDrain? || m.SleepDrain? || m.Exclusive?
  }

  /** The writer bit is set exactly while one thread has entered as writer. */
  ghost predicate WriterOk(s: State) {
    && (forall t, u | t in s.mode && u in s.mode && HasEntered(s.mode[t]) && HasEntered(s.mode[u]) :: t == u)
    && (Entered(s.word) <==> exists t :: t in s.mode && HasEntered(s.mode[t]))
  }

  /** A thread's mode agrees with the word: exclusion, and nobody sleeps on a condition that holds. */
  predicate ThreadOk(word: nat, threads: nat, m: Mode) {
    && (m.Exclusive? ==> Readers(word) == 0)
    && (m.SleepDrain? ==> Readers(word) > 0)
    && (m.SleepWrite? ==> Entered(word))
    && (m.SleepRead? && threads <= MAX_READERS + 1 ==> !MayRead(word))
  }

  ghost predicate Inv(s: State) {
    && s.word < 2 * WRITE_ENTERED
    && Readers(s.word) == |Holders(s.mode)|
    && WriterOk(s)
    && forall t | t in s.mode :: ThreadOk(s.word, |s.mode|, s.mode[t])
  }

  lemma HoldersUpdate(mode: map<Thread, Mode>, t: Thread, m: Mode)
    requires t in mode
    ensures |mode[t := m]| == |mode|
    ensures m != Shared && mode[t] != Shared ==> Holders(mode[t := m]) == Holders(mode)
    ensures m == Shared && mode[t] != Shared ==> |Holders(mode[t := m])| == |Holders(mode)| + 1
    ensures m != Shared && mode[t] == Shared ==> |Holders(mode[t := m])| == |Holders(mode)| - 1
  {
    SizeUpdate(mode, t, m);
    var h, h' := Holders(mode), Holders(mode[t := m]);
    if m == Shared && mode[t] != Shared {
      assert h' == h + {t};
    } else if m != Shared && mode[t] == Shared {
      assert h == h' + {t};
    } else if m != Shared {
      assert h' == h;
    }
  }

  lemma SizeUpdate(mode: map<Thread, Mode>, t: Thread, m: Mode)
    requires t in mode
    ensures |mode[t := m]| == |mode|
  {
    assert mode[t := m].Keys == mode.Keys;
    assert |mode[t := m]| == |mode[t := m].Keys| && |mode| == |mode.Keys|;
  }

  /** Steps that leave the word alone and change one thread between modes that hold nothing. */
  lemma QuietStep(s: State, t: Thread, m: Mode)
    requires Inv(s) && t in s.mode && s.mode[t] != Shared && m != Shared
    requires HasEntered(m) == HasEntered(s.mode[t])
    requires ThreadOk(s.word, |s.mode|, m)
    ensures Inv(s.(mode := s.mode[t := m]))
  {
    HoldersUpdate(s.mode, t, m);
    var s' := s.(mode := s.mode[t := m]);
    forall u | u in s.mode && HasEntered(s.mode[u]) ensures HasEntered(s'.mode[u]) {
    }
    forall u | u in s'.mode && HasEntered(s'.mode[u]) ensures HasEntered(s.mode[u]) {
    }
  }

  /** A writer enters: the bit is set, and the only thread behind it is t. */
  lemma WriterEnters(s: State, t: Thread, m: Mode)
    requires Inv(s) && t in s.mode && !Entered(s.word) && s.mode[t] != Shared && HasEntered(m)
    requires ThreadOk(s.word + WRITE_ENTERED, |s.mode|, m)
    ensures Inv(State(s.word + WRITE_ENTERED, s.mode[t := m]))
  {
    HoldersUpdate(s.mode, t, m);
    var s' := State(s.word + WRITE_ENTERED, s.mode[t := m]);
    assert s'.mode[t] == m;
  }

  lemma UnlockKeeps(s: State, t: Thread)
    requires Inv(s) && Enabled(s, Unlock(t))
    ensures Inv(Apply(s, Unlock(t)))
  {
    var mode := s.mode[t := Idle];
    var s' := Apply(s, Unlock(t));
    HoldersUpdate(s.mode, t, Idle);
    assert s'.mode.Keys == mode.Keys;
    assert Holders(s.mode) == {};
    forall u | u in s'.mode ensures s'.mode[u] != Shared && !HasEntered(s'.mode[u]) {
      assert s.mode[u] == Shared ==> u in Holders(s.mode);
    }
    assert Holders(s'.mode) == {};
  }

  lemma EnteringKeeps(s: State, t: Thread)
    requires Inv(s) && t in s.mode && s.mode[t] != Shared && MayRead(s.word)
    ensures Inv(Entering(s, t))
  {
    HoldersUpdate(s.mode, t, Shared);
    var s' := Entering(s, t);
    forall u | u in s.mode ensures !HasEntered(s.mode[u]) && ThreadOk(s'.word, |s'.mode|, s'.mode[u]) {
      assert ThreadOk(s.word, |s.mode|, s.mode[u]);
    }
  }

  /** Beside MAX_READERS holders there is room for one other thread only, if there are no more than one above that. */
  lemma OneOutside(mode: map<Thread, Mode>, u: Thread, v: Thread)
    requires |Holders(mode)| == MAX_READERS && |mode| <= MAX_READERS + 1
    requires u in mode && v in mode && mode[u] != Shared && mode[v] != Shared
    ensures u == v
  {
    var h := Holders(mode);
    assert |mode| == |mode.Keys|;
    Subset(h + {u} + {v}, mode.Keys);
    assert u != v ==> |h + {u} + {v}| == |h| + 2;
  }

  lemma {:induction false} Subset<T>(a: set<T>, b: set<T>)
    requires a <= b
    ensures |a| <= |b|
  {
    if a != {} {
      var x :| x in a;
      Subset(a - {x}, b - {x});
    }
  }

  /** Who is asleep after a reader has left and notify_one has chosen. */
  lemma LeavingThreads(s: State, t: Thread, woken: Option<Thread>)
    requires Inv(s) && Readers(s.word) > 0 && Enabled(s, UnlockShared(t, woken))
    ensures forall u | u in s.mode :: ThreadOk(Leaving(s, t, woken).word, |s.mode|, Leaving(s, t, woken).mode[u])
  {
    var s' := Leaving(s, t, woken);
    forall u | u in s.mode ensures ThreadOk(s'.word, |s.mode|, s'.mode[u]) {
      assert ThreadOk(s.word, |s.mode|, s.mode[u]);
      if SleepsAt(s.mode[u], Gate(s.word)) {
        assert woken.Some?;
        var v := woken.value;
        assert ThreadOk(s.word, |s.mode|, s.mode[v]);
        if Gate(s.word) == 1 && |s.mode| <= MAX_READERS + 1 {
          OneOutside(s.mode, u, v);
        }
      }
    }
  }

  lemma LeavingHolders(s: State, t: Thread, woken: Option<Thread>)
    requires Enabled(s, UnlockShared(t, woken)) && Readers(s.word) == |Holders(s.mode)|
    ensures Readers(s.word) > 0 && |Leaving(s, t, woken).mode| == |s.mode|
    ensures |Holders(Leaving(s, t, woken).mode)| == |Holders(s.mode)| - 1
  {
    assert t in Holders(s.mode);
    HoldersUpdate(s.mode, t, Idle);
    var mode := s.mode[t := Idle];
    if woken.Some? {
      HoldersUpdate(mode, woken.value, Woken(mode[woken.value]));
    }
  }

  lemma LeavingWriter(s: State, t: Thread, woken: Option<Thread>)
    requires WriterOk(s) && Enabled(s, UnlockShared(t, woken)) && 0 < Readers(s.word) < WRITE_ENTERED
    ensures WriterOk(Leaving(s, t, woken))
  {
    var s' := Leaving(s, t, woken);
    assert s'.mode.Keys == s.mode.Keys;
    assert forall u | u in s.mode :: HasEntered(s'.mode[u]) == HasEntered(s.mode[u]);
  }

  lemma LeavingKeeps(s: State, t: Thread, woken: Option<Thread>)
    requires Inv(s) && Enabled(s, UnlockShared(t, woken))
    ensures Inv(Leaving(s, t, woken))
  {
    LeavingHolders(s, t, woken);
    LeavingThreads(s, t, woken);
    LeavingWriter(s, t, woken);
    assert Leaving(s, t, woken).mode.Keys == s.mode.Keys;
  }

  lemma SameThreads(s: State, a: Action)
    requires Enabled(s, a)
    ensures Apply(s, a).mode.Keys == s.mode.Keys && |Apply(s, a).mode| == |s.mode|
  {
    var mode := Apply(s, a).mode;
    assert mode.Keys == s.mode.Keys;
    assert |mode| == |mode.Keys| && |s.mode| == |s.mode.Keys|;
  }

  /** Every step keeps the invariant. */
  lemma StepKeeps(s: State, a: Action)
    requires Inv(s) && Enabled(s, a)
    ensures Inv(Apply(s, a))
  {
    match a
    case Lock(t) => QuietStep(s, t, WantWrite);
    case EnterWrite(t) =>
      if Entered(s.word) {
        QuietStep(s, t, SleepWrite);
      } else {
        WriterEnters(s, t, if Readers(s.word) == 0 then Exclusive else SleepDrain);
      }
    case Drain(t) => QuietStep(s, t, if Readers(s.word) == 0 then Exclusive else SleepDrain);
    case TryLock(t) =>
      if s.word == 0 {
        WriterEnters(s, t, Exclusive);
      }
    case Unlock(t) => UnlockKeeps(s, t);
    case LockShared(t) => QuietStep(s, t, WantRead);
    case EnterRead(t) =>
      if MayRead(s.word) {
        EnteringKeeps(s, t);
      } else {
        QuietStep(s, t, SleepRead);
      }
    case TryLockShared(t) =>
      if MayRead(s.word) {
        EnteringKeeps(s, t);
      }
    case UnlockShared(t, woken) => LeavingKeeps(s, t, woken);
    case Spurious(t) => QuietStep(s, t, Woken(s.mode[t]));
  }

  // ----- Whole runs -----

  function Ids(n: nat): (r: set<Thread>)
    ensures |r| == n && forall t: Thread :: t in r <==> t < n
  {
    if n == 0 then {} else Ids(n - 1) + {n - 1}
  }

  function Start(threads: nat): State {
    State(0, map t | t in Ids(threads) :: Idle)
  }

  predicate Legal(s: State, acts: seq<Action>)
    decreases |acts|
  {
    acts == [] || (Enabled(s, acts[0]) && Legal(Apply(s, acts[0]), acts[1..]))
  }

  function After(s: State, acts: seq<Action>): State
    requires Legal(s, acts)
    decreases |acts|
  {
    if acts == [] then s else After(Apply(s, acts[0]), acts[1..])
  }

  lemma {:induction false} RunKeeps(s: State, acts: seq<Action>)
    requires Inv(s) && Legal(s, acts)
    ensures Inv(After(s, acts)) && |After(s, acts).mode| == |s.mode|
    decreases |acts|
  {
    if acts != [] {
      StepKeeps(s, acts[0]);
      SameThreads(s, acts[0]);
      RunKeeps(Apply(s, acts[0]), acts[1..]);
    }
  }

  lemma StartOk(threads: nat)
    ensures Inv(Start(threads)) && |Start(threads).mode| == threads
  {
    var s := Start(threads);
    assert Holders(s.mode) == {};
    assert s.mode.Keys == Ids(threads);
    assert |s.mode| == |s.mode.Keys|;
  }

  /**
   In every run, at every moment: the word counts the shared holders and shows whether a writer has entered; an
   exclusive holder is alone; and the tests that unlock and unlock_shared assert hold for whoever may call them.
   */
  lemma Safety(threads: nat, acts: seq<Action>)
    requires Legal(Start(threads), acts)
    ensures
      var s := After(Start(threads), acts);
      && s.word == |Holders(s.mode)| + (if exists t :: t in s.mode && HasEntered(s.mode[t]) then 2147483648 else 0)
      && (forall t, u | t in s.mode && u in s.mode && s.mode[t] == Exclusive && u != t ::
            s.mode[u] != Shared && s.mode[u] != Exclusive)
      && (forall t | t in s.mode && s.mode[t] == Exclusive :: Entered(s.word) && Readers(s.word) == 0)
      && (forall t | t in s.mode && s.mode[t] == Shared :: 0 < Readers(s.word) <= 2147483647)
  {
    StartOk(threads);
    RunKeeps(Start(threads), acts);
    var s := After(Start(threads), acts);
    forall t | t in s.mode && s.mode[t] == Shared ensures 0 < Readers(s.word) {
      assert t in Holders(s.mode);
    }
  }

  // ----- What each call comes to, in terms of the other threads -----

  /** Some thread has entered as a writer; some thread holds the lock shared. */
  ghost predicate WriterIn(s: State) {
    exists t :: t in s.mode && HasEntered(s.mode[t])
  }

  ghost predicate ReaderIn(s: State) {
    exists t :: t in s.mode && s.mode[t] == Shared
  }

  /** The word says so. */
  lemma WordMeans(s: State)
    requires Inv(s)
    ensures Entered(s.word) <==> WriterIn(s)
    ensures Readers(s.word) > 0 <==> ReaderIn(s)
    ensures MayRead(s.word) <==> !WriterIn(s) && |Holders(s.mode)| < 2147483647
    ensures s.word == 0 <==> !WriterIn(s) && !ReaderIn(s)
  {
    if ReaderIn(s) {
      var t :| t in s.mode && s.mode[t] == Shared;
      assert t in Holders(s.mode);
    }
    if Readers(s.word) > 0 {
      var t :| t in Holders(s.mode);
      assert s.mode[t] == Shared;
    }
  }

  /** A thread's own call changes no other thread's mode. */
  ghost predicate OnlyOwn(s: State, s': State, t: Thread) {
    s'.mode.Keys == s.mode.Keys && forall u | u in s.mode && u != t :: s'.mode[u] == s.mode[u]
  }

  /** In every run try_lock succeeds exactly if nobody holds the lock and no writer has entered, or does nothing. */
  lemma TryLockIff(threads: nat, acts: seq<Action>, t: Thread)
    requires Legal(Start(threads), acts) && Enabled(After(Start(threads), acts), TryLock(t))
    ensures
      var s := After(Start(threads), acts);
      var s' := Apply(s, TryLock(t));
      && t in s'.mode && OnlyOwn(s, s', t)
      && (s'.mode[t] == Exclusive <==> !WriterIn(s) && !ReaderIn(s))
      && (s'.mode[t] != Exclusive ==> s' == s)
  {
    StartOk(threads);
    RunKeeps(Start(threads), acts);
    WordMeans(After(Start(threads), acts));
  }

  /** try_lock_shared succeeds exactly if no writer has entered and there is room for one more reader. */
  lemma TryLockSharedIff(threads: nat, acts: seq<Action>, t: Thread)
    requires Legal(Start(threads), acts) && Enabled(After(Start(threads), acts), TryLockShared(t))
    ensures
      var s := After(Start(threads), acts);
      var s' := Apply(s, TryLockShared(t));
      && t in s'.mode && OnlyOwn(s, s', t)
      && (s'.mode[t] == Shared <==> !WriterIn(s) && |Holders(s.mode)| < 2147483647)
      && (s'.mode[t] != Shared ==> s' == s)
  {
    StartOk(threads);
    RunKeeps(Start(threads), acts);
    WordMeans(After(Start(threads), acts));
  }

  /** A thread that calls lock or lock_shared goes to the first gate, where it tests before it sleeps. */
  lemma CallsGoToGate(s: State, t: Thread)
    ensures Enabled(s, Lock(t)) ==> Enabled(Apply(s, Lock(t)), EnterWrite(t)) && Apply(s, Lock(t)).word == s.word
    ensures Enabled(s, LockShared(t)) ==>
              Enabled(Apply(s, LockShared(t)), EnterRead(t)) && Apply(s, LockShared(t)).word == s.word
    ensures Enabled(s, Spurious(t)) ==>
              var s' := Apply(s, Spurious(t));
              s'.word == s.word && (Enabled(s', EnterWrite(t)) || Enabled(s', EnterRead(t)) || Enabled(s', Drain(t)))
  {
  }

  /**
   A writer awake at the first gate sleeps there exactly if another writer has entered; else it enters, and holds the
   lock at once if no reader does.  At the second gate it holds the lock exactly if no reader does.
   */
  lemma WriterProceeds(threads: nat, acts: seq<Action>, t: Thread)
    requires Legal(Start(threads), acts)
    ensures
      var s := After(Start(threads), acts);
      && (Enabled(s, EnterWrite(t)) ==>
            var s' := Apply(s, EnterWrite(t));
            && t in s'.mode && OnlyOwn(s, s', t)
            && s'.mode[t] == if WriterIn(s) then SleepWrite else if ReaderIn(s) then SleepDrain else Exclusive)
      && (Enabled(s, Drain(t)) ==>
            var s' := Apply(s, Drain(t));
            t in s'.mode && OnlyOwn(s, s', t) && s'.mode[t] == if ReaderIn(s) then SleepDrain else Exclusive)
  {
    StartOk(threads);
    RunKeeps(Start(threads), acts);
    var s := After(Start(threads), acts);
    WordMeans(s);
    if Enabled(s, EnterWrite(t)) && !Entered(s.word) {
      assert Readers(s.word + WRITE_ENTERED) == Readers(s.word);
    }
  }

  /** A reader awake at the first gate gets the lock exactly if no writer has entered and there is room, or sleeps. */
  lemma ReaderProceeds(threads: nat, acts: seq<Action>, t: Thread)
    requires Legal(Start(threads), acts) && Enabled(After(Start(threads), acts), EnterRead(t))
    ensures
      var s := After(Start(threads), acts);
      var s' := Apply(s, EnterRead(t));
      && t in s'.mode && OnlyOwn(s, s', t)
      && s'.mode[t] == if !WriterIn(s) && |Holders(s.mode)| < 2147483647 then Shared else SleepRead
  {
    StartOk(threads);
    RunKeeps(Start(threads), acts);
    WordMeans(After(Start(threads), acts));
  }

  /** After an unlock nobody has the lock, and everyone asleep at the first gate is awake. */
  lemma UnlockFrees(threads: nat, acts: seq<Action>, t: Thread)
    requires Legal(Start(threads), acts) && Enabled(After(Start(threads), acts), Unlock(t))
    ensures
      var s := After(Start(threads), acts);
      var s' := Apply(s, Unlock(t));
      && s'.mode.Keys == s.mode.Keys && s'.mode[t] == Idle && !WriterIn(s') && !ReaderIn(s')
      && forall u | u in s.mode && u != t ::
           s'.mode[u] == match s.mode[u] case SleepWrite => WantWrite case SleepRead => WantRead case m => m
  {
    StartOk(threads);
    RunKeeps(Start(threads), acts);
    var s := After(Start(threads), acts);
    StepKeeps(s, Unlock(t));
    WordMeans(s);
    WordMeans(Apply(s, Unlock(t)));
  }

  lemma LeaverGone(s: State, t: Thread, woken: Option<Thread>)
    requires Enabled(s, UnlockShared(t, woken))
    ensures
      var s' := Leaving(s, t, woken);
      s'.mode.Keys == s.mode.Keys && s'.mode[t] == Idle && Holders(s'.mode) == Holders(s.mode) - {t}
  {
    var s' := Leaving(s, t, woken);
    assert s'.mode.Keys == s.mode.Keys;
    assert forall u | u in s.mode && u != t :: s'.mode[u] == Shared <==> s.mode[u] == Shared;
  }

  lemma DrainingWriter(s: State, t: Thread, woken: Option<Thread>, w: Thread)
    requires Inv(s) && Inv(Leaving(s, t, woken)) && Enabled(s, UnlockShared(t, woken))
    requires w in s.mode && s.mode[w] == SleepDrain
    ensures
      var s' := Leaving(s, t, woken);
      w in s'.mode && s'.mode[w] == if ReaderIn(s') then SleepDrain else WantDrain
  {
    var s' := Leaving(s, t, woken);
    WordMeans(s);
    WordMeans(s');
    LeaverGone(s, t, woken);
    assert t in Holders(s.mode);
    assert HasEntered(s.mode[w]);
    assert ThreadOk(s'.word, |s'.mode|, s'.mode[w]);
  }

  /** After a reader has left, a writer that waits for the last reader is awake exactly if that was the last one. */
  lemma LastReaderWakesWriter(threads: nat, acts: seq<Action>, t: Thread, woken: Option<Thread>, w: Thread)
    requires Legal(Start(threads), acts) && Enabled(After(Start(threads), acts), UnlockShared(t, woken))
    ensures
      var s := After(Start(threads), acts);
      var s' := Apply(s, UnlockShared(t, woken));
      && s'.mode.Keys == s.mode.Keys && s'.mode[t] == Idle && Holders(s'.mode) == Holders(s.mode) - {t}
      && (w in s.mode && s.mode[w] == SleepDrain ==> s'.mode[w] == if ReaderIn(s') then SleepDrain else WantDrain)
  {
    StartOk(threads);
    RunKeeps(Start(threads), acts);
    var s := After(Start(threads), acts);
    LeavingKeeps(s, t, woken);
    LeaverGone(s, t, woken);
    if w in s.mode && s.mode[w] == SleepDrain {
      DrainingWriter(s, t, woken, w);
    }
  }

  predicate NoUnlock(acts: seq<Action>) {
    forall i | 0 <= i < |acts| :: !acts[i].Unlock?
  }

  lemma ReaderStaysOut(s: State, a: Action)
    requires Enabled(s, a) && Entered(s.word) && !a.Unlock?
    ensures Entered(Apply(s, a).word) && Holders(Apply(s, a).mode) <= Holders(s.mode)
  {
  }

  /**
   Once a writer has entered, whether it already holds the lock or not, no thread gets the lock shared until it
   unlocks: in every run without an unlock the shared holders only become fewer.
   */
  lemma {:induction false} NoReaderPassesWriter(s: State, acts: seq<Action>)
    requires Legal(s, acts) && Entered(s.word) && NoUnlock(acts)
    ensures Entered(After(s, acts).word) && Holders(After(s, acts).mode) <= Holders(s.mode)
    decreases |acts|
  {
    if acts != [] {
      ReaderStaysOut(s, acts[0]);
      NoReaderPassesWriter(Apply(s, acts[0]), acts[1..]);
    }
  }

  /** A thread sleeps on a condition that holds, and no thread is awake that would pass it on. */
  ghost predicate Stranded(s: State) {
    && (exists t :: t in s.mode && Forgotten(s, t))
    && (forall t | t in s.mode :: !s.mode[t].WantWrite? && !s.mode[t].WantRead? && !s.mode[t].WantDrain?)
  }

  predicate Forgotten(s: State, t: Thread)
    requires t in s.mode
  {
    match s.mode[t]
    case SleepWrite => !Entered(s.word)
    case SleepDrain => Readers(s.word) == 0
    case SleepRead => MayRead(s.word)
    case _ => false
  }

  /** The first n of the threads hold the lock shared. */
  function Full(threads: nat, n: nat): State {
    State(n, map t | t in Ids(threads) :: if t < n then Shared else Idle)
  }

  function FillActs(n: nat): seq<Action> {
    if n == 0 then [] else FillActs(n - 1) + [LockShared(n - 1), EnterRead(n - 1)]
  }

  lemma {:induction false} Continue(s: State, acts: seq<Action>, more: seq<Action>)
    requires Legal(s, acts) && Legal(After(s, acts), more)
    ensures Legal(s, acts + more) && After(s, acts + more) == After(After(s, acts), more)
    decreases |acts|
  {
    if acts == [] {
      assert acts + more == more;
    } else {
      assert (acts + more)[1..] == acts[1..] + more;
      Continue(Apply(s, acts[0]), acts[1..], more);
    }
  }

  /** One step more at the end of a run. */
  lemma Then(s: State, acts: seq<Action>, s1: State, a: Action)
    requires Legal(s, acts) && After(s, acts) == s1 && Enabled(s1, a)
    ensures Legal(s, acts + [a]) && After(s, acts + [a]) == Apply(s1, a)
  {
    assert [a][1..] == [];
    Continue(s, acts, [a]);
  }

  lemma ThenTwo(s: State, acts: seq<Action>, s1: State, a: Action, b: Action)
    requires Legal(s, acts) && After(s, acts) == s1 && Enabled(s1, a) && Enabled(Apply(s1, a), b)
    ensures Legal(s, acts + [a, b]) && After(s, acts + [a, b]) == Apply(Apply(s1, a), b)
  {
    Then(s, acts, s1, a);
    Then(s, acts + [a], Apply(s1, a), b);
    assert acts + [a] + [b] == acts + [a, b];
  }

  lemma {:induction false} Fill(threads: nat, n: nat)
    requires n <= threads && n <= MAX_READERS
    ensures Legal(Full(threads, 0), FillActs(n)) && After(Full(threads, 0), FillActs(n)) == Full(threads, n)
  {
    if n > 0 {
      Fill(threads, n - 1);
      FillOne(threads, n);
      ThenTwo(Full(threads, 0), FillActs(n - 1), Full(threads, n - 1), LockShared(n - 1), EnterRead(n - 1));
    }
  }

  lemma FillOne(threads: nat, n: nat)
    requires 0 < n <= threads && n <= MAX_READERS
    ensures Enabled(Full(threads, n - 1), LockShared(n - 1))
    ensures
      var s := Apply(Full(threads, n - 1), LockShared(n - 1));
      Enabled(s, EnterRead(n - 1)) && Apply(s, EnterRead(n - 1)) == Full(threads, n)
  {
    var s := Apply(Full(threads, n - 1), LockShared(n - 1));
    assert Apply(s, EnterRead(n - 1)).mode == Full(threads, n).mode;
  }

  /** A run after which a thread is stranded. */
  ghost predicate Strands(threads: nat, acts: seq<Action>) {
    Legal(Start(threads), acts) && Stranded(After(Start(threads), acts))
  }

  /** With two threads more than can read at once, one wake-up serves for two places that become free. */
  lemma StrandRun(threads: nat, n: nat) returns (acts: seq<Action>)
    requires threads >= n + 2 && n == MAX_READERS
    ensures Strands(threads, acts)
  {
    var s0 := Start(threads);
    assert s0.mode == Full(threads, 0).mode;
    Fill(threads, n);
    var s := Full(threads, n);
    acts := FillActs(n);
    Then(s0, acts, s, LockShared(n));
    acts := acts + [LockShared(n)];
    Then(s0, acts, s.(mode := s.mode[n := WantRead]), EnterRead(n));
    acts := acts + [EnterRead(n)];
    acts := StrandSecond(threads, n, acts, s.(mode := s.mode[n := SleepRead]));
  }

  lemma StrandSecond(threads: nat, n: nat, before: seq<Action>, s: State) returns (acts: seq<Action>)
    requires n == MAX_READERS && Legal(Start(threads), before) && After(Start(threads), before) == s && s.word == n
    requires 0 in s.mode && 1 in s.mode && n in s.mode && n + 1 in s.mode
    requires forall t | t in s.mode :: s.mode[t] == if t < n then Shared else if t == n then SleepRead else Idle
    ensures Strands(threads, acts)
  {
    var s0 := Start(threads);
    Then(s0, before, s, LockShared(n + 1));
    acts := before + [LockShared(n + 1)];
    Then(s0, acts, s.(mode := s.mode[n + 1 := WantRead]), EnterRead(n + 1));
    acts := acts + [EnterRead(n + 1)];
    StrandEnd(s0, acts, s.(mode := s.mode[n + 1 := SleepRead]));
    acts := acts + [UnlockShared(0, Some(n))] + [UnlockShared(1, None)] + [EnterRead(n)];
  }

  lemma StrandEnd(s0: State, acts: seq<Action>, s: State)
    requires Legal(s0, acts) && After(s0, acts) == s && s.word == MAX_READERS
    requires 0 in s.mode && 1 in s.mode && MAX_READERS in s.mode && MAX_READERS + 1 in s.mode
    requires forall t | t in s.mode ::
               s.mode[t] == if t < MAX_READERS then Shared else if t < MAX_READERS + 2 then SleepRead else Idle
    ensures
      var run := acts + [UnlockShared(0, Some(MAX_READERS))] + [UnlockShared(1, None)] + [EnterRead(MAX_READERS)];
      Legal(s0, run) && Stranded(After(s0, run))
  {
    var n := MAX_READERS;
    Then(s0, acts, s, UnlockShared(0, Some(n)));
    var a1, s1 := acts + [UnlockShared(0, Some(n))], State(n - 1, s.mode[0 := Idle][n := WantRead]);
    Then(s0, a1, s1, UnlockShared(1, None));
    var a2, s2 := a1 + [UnlockShared(1, None)], State(n - 2, s1.mode[1 := Idle]);
    Then(s0, a2, s2, EnterRead(n));
    assert Forgotten(Entering(s2, n), n + 1);
  }

  lemma NeverStrands(threads: nat, acts: seq<Action>)
    requires threads <= MAX_READERS + 1
    ensures !Strands(threads, acts)
  {
    if Legal(Start(threads), acts) {
      StartOk(threads);
      RunKeeps(Start(threads), acts);
      NobodyForgotten(After(Start(threads), acts));
    }
  }

  /** A wake-up at the gates can be lost exactly if there are at least 2^31 + 1 threads, two more than can read. */
  lemma LostWakeupIff(threads: nat)
    ensures (exists acts :: Strands(threads, acts)) <==> threads >= 2147483649
  {
    if threads >= MAX_READERS + 2 {
      var acts := StrandRun(threads, MAX_READERS);
    } else {
      forall acts ensures !Strands(threads, acts) {
        NeverStrands(threads, acts);
      }
    }
  }

  /** Up to that number, no thread ever sleeps on a condition that holds. */
  lemma NobodyForgotten(s: State)
    requires Inv(s) && |s.mode| <= MAX_READERS + 1
    ensures forall t | t in s.mode :: !Forgotten(s, t)
  {
    forall t | t in s.mode ensures !Forgotten(s, t) {
      assert ThreadOk(s.word, |s.mode|, s.mode[t]);
    }
  }

  /** Nothing wakes t for another reason: no unlock, no spurious wake-up, and the maximum is not reached again. */
  ghost predicate Unwoken(s: State, acts: seq<Action>, t: Thread)
    requires Legal(s, acts)
    decreases |acts|
  {
    && Readers(s.word) < MAX_READERS
    && (acts == [] || (!acts[0].Unlock? && acts[0] != Spurious(t) && Unwoken(Apply(s, acts[0]), acts[1..], t)))
  }

  lemma SleepsOn(s: State, a: Action, t: Thread)
    requires Enabled(s, a) && Readers(s.word) < MAX_READERS && !a.Unlock? && a != Spurious(t)
    requires t in s.mode && s.mode[t] == SleepRead
    ensures t in Apply(s, a).mode && Apply(s, a).mode[t] == SleepRead
  {
  }

  /**
   A reader whose wake-up is lost sleeps on, even after every reader has left, until a writer unlocks, the maximum is
   reached once more, or it wakes for no reason.
   */
  lemma {:induction false} StrandedSleepsOn(s: State, acts: seq<Action>, t: Thread)
    requires Legal(s, acts) && Unwoken(s, acts, t) && t in s.mode && s.mode[t] == SleepRead
    ensures t in After(s, acts).mode && After(s, acts).mode[t] == SleepRead
    decreases |acts|
  {
    if acts != [] {
      SleepsOn(s, acts[0], t);
      StrandedSleepsOn(Apply(s, acts[0]), acts[1..], t);
    }
  }
}
