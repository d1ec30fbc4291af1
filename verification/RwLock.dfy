/** The readers-writer lock of rwlock.c as a step system: any number of
    threads, each at one point of the lock's functions, and one semaphore
    operation or one access to the reader count per step. */
module RwLock {

  /** Where a thread is.  A reader acquires: wait for lock, count itself, test
      the count, wait for the write lock if it is the first, post lock.  It
      releases: wait for lock, count itself out, test, post the write lock if it
      was the last, post lock. */
  datatype Point =
    | Outside
    | ReadWait | ReadCount | ReadTest | ReadFirst | ReadPost | Reading
    | DoneWait | DoneCount | DoneTest | DoneLast | DonePost
    | WriteWait | Writing | WritePost

  /** writes[t] says whether the last call of an acquire function by thread t
      was one for the write lock. */
  datatype Rw = Rw(at: seq<Point>, writes: seq<bool>, readers: int, lock: int, writelock: int)

  predicate Initial(s: Rw) {
    |s.writes| == |s.at| && (forall t | 0 <= t < |s.at| :: s.at[t].Outside?) && s.readers == 0 && s.lock == 1 && s.writelock == 1
  }

  /** xem_wait goes on only when the value is positive. */
  predicate Enabled(s: Rw, p: Point) {
    match p
    case ReadWait => s.lock > 0
    case DoneWait => s.lock > 0
    case ReadFirst => s.writelock > 0
    case WriteWait => s.writelock > 0
    case _ => true
  }

  /** The next step of thread t; writer says what an idle thread asks for. */
  function Step(s: Rw, t: nat, writer: bool): Rw
    requires t < |s.at| == |s.writes|
  {
    match s.at[t]
    case Outside => s.(at := s.at[t := if writer then WriteWait else ReadWait], writes := s.writes[t := writer])
    case ReadWait => s.(at := s.at[t := ReadCount], lock := s.lock - 1)
    case ReadCount => s.(at := s.at[t := ReadTest], readers := s.readers + 1)
    case ReadTest => s.(at := s.at[t := if s.readers == 1 then ReadFirst else ReadPost])
    case ReadFirst => s.(at := s.at[t := ReadPost], writelock := s.writelock - 1)
    case ReadPost => s.(at := s.at[t := Reading], lock := s.lock + 1)
    case Reading => s.(at := s.at[t := DoneWait])
    case DoneWait => s.(at := s.at[t := DoneCount], lock := s.lock - 1)
    case DoneCount => s.(at := s.at[t := DoneTest], readers := s.readers - 1)
    case DoneTest => s.(at := s.at[t := if s.readers == 0 then DoneLast else DonePost])
    case DoneLast => s.(at := s.at[t := DonePost], writelock := s.writelock + 1)
    case DonePost => s.(at := s.at[t := Outside], lock := s.lock + 1)
    case WriteWait => s.(at := s.at[t := Writing], writelock := s.writelock - 1)
    case Writing => s.(at := s.at[t := WritePost])
    case WritePost => s.(at := s.at[t := Outside], writelock := s.writelock + 1)
  }

  // ---------- Counting threads ----------

  function Num(at: seq<Point>, p: Point): nat {
    if at == [] then 0 else Num(at[..|at| - 1], p) + if at[|at| - 1] == p then 1 else 0
  }

  lemma {:induction false} NumMove(at: seq<Point>, t: nat, to: Point, p: Point)
    requires t < |at|
    ensures Num(at[t := to], p) == Num(at, p) - (if at[t] == p then 1 else 0) + if to == p then 1 else 0
  {
    var n := |at| - 1;
    if t == n {
      assert at[t := to][..n] == at[..n];
    } else {
      NumMove(at[..n], t, to, p);
      assert at[t := to][..n] == at[..n][t := to];
    }
  }

  lemma {:induction false} NumZero(at: seq<Point>, p: Point)
    ensures Num(at, p) == 0 <==> forall t | 0 <= t < |at| :: at[t] != p
  {
    if at != [] {
      var n := |at| - 1;
      NumZero(at[..n], p);
      if Num(at, p) == 0 {
        forall t | 0 <= t < |at|
          ensures at[t] != p
        {
          if t < n { assert at[..n][t] == at[t]; }
        }
      } else if Num(at[..n], p) > 0 {
        var t :| 0 <= t < n && at[..n][t] == p;
        assert at[t] == p;
      }
    }
  }

  /** Two threads at one point are counted twice. */
  lemma NumTwo(at: seq<Point>, p: Point, t: nat, u: nat)
    requires t < |at| && u < |at| && t != u && at[t] == p && at[u] == p
    ensures Num(at, p) >= 2
  {
    var other := if p.Outside? then Writing else Outside;
    NumMove(at, t, other, p);
    NumZero(at[t := other], p);
    assert at[t := other][u] == p;
  }

  // ---------- The invariant ----------

  /** How many threads are at the points where they hold or are counted for something. */
  datatype Tally = Tally(readCount: int, readTest: int, readFirst: int, readPost: int, reading: int,
                         doneWait: int, doneCount: int, doneTest: int, doneLast: int, donePost: int,
                         writing: int, writePost: int)

  function TallyOf(at: seq<Point>): Tally {
    Tally(Num(at, ReadCount), Num(at, ReadTest), Num(at, ReadFirst), Num(at, ReadPost), Num(at, Reading),
          Num(at, DoneWait), Num(at, DoneCount), Num(at, DoneTest), Num(at, DoneLast), Num(at, DonePost),
          Num(at, Writing), Num(at, WritePost))
  }

  /** Threads between waiting for and posting the semaphore lock. */
  function Inside(c: Tally): int {
    c.readCount + c.readTest + c.readFirst + c.readPost + c.doneCount + c.doneTest + c.doneLast + c.donePost
  }

  /** Threads that are counted as readers. */
  function Counted(c: Tally): int {
    c.readTest + c.readFirst + c.readPost + c.reading + c.doneWait + c.doneCount
  }

  /** Whether the readers together hold the write lock. */
  function ReadersHold(c: Tally, readers: int): int {
    if c.readFirst > 0 then 0
    else if c.readTest > 0 then (if readers > 1 then 1 else 0)
    else if c.doneTest > 0 || c.doneLast > 0 || readers > 0 then 1 else 0
  }

  predicate NotNegative(c: Tally) {
    && c.readCount >= 0 && c.readTest >= 0 && c.readFirst >= 0 && c.readPost >= 0 && c.reading >= 0 && c.doneWait >= 0
    && c.doneCount >= 0 && c.doneTest >= 0 && c.doneLast >= 0 && c.donePost >= 0 && c.writing >= 0 && c.writePost >= 0
  }

  predicate Good(c: Tally, readers: int, lock: int, writelock: int) {
    && NotNegative(c)
    && lock + Inside(c) == 1 && 0 <= lock && readers == Counted(c)
    && 0 <= writelock && writelock + c.writing + c.writePost + ReadersHold(c, readers) == 1
    && (c.readFirst > 0 ==> readers == 1) && (c.doneLast > 0 ==> readers == 0)
  }

  predicate WriterAt(p: Point) { p.WriteWait? || p.Writing? || p.WritePost? }

  /** Every thread is in the functions it asked for. */
  predicate AsAsked(s: Rw) {
    |s.writes| == |s.at| && forall t | 0 <= t < |s.at| && !s.at[t].Outside? :: s.writes[t] <==> WriterAt(s.at[t])
  }

  predicate Inv(s: Rw) { AsAsked(s) && Good(TallyOf(s.at), s.readers, s.lock, s.writelock) }

  lemma InitialInv(s: Rw)
    requires Initial(s)
    ensures Inv(s)
  {
    hide TallyOf;
    NoThreads(s.at);
  }

  lemma NoThreads(at: seq<Point>)
    requires forall t | 0 <= t < |at| :: at[t].Outside?
    ensures TallyOf(at) == Tally(0, 0, 0, 0, 0, 0, 0, 0, 0, 0, 0, 0)
  {
    NumZero(at, ReadCount); NumZero(at, ReadTest); NumZero(at, ReadFirst); NumZero(at, ReadPost);
    NumZero(at, DoneCount); NumZero(at, DoneTest); NumZero(at, DoneLast); NumZero(at, DonePost);
    NumZero(at, Reading); NumZero(at, DoneWait); NumZero(at, Writing); NumZero(at, WritePost);
  }

  /** The tally with d more threads at one point. */
  function Add(c: Tally, p: Point, d: int): Tally {
    match p
    case ReadCount => c.(readCount := c.readCount + d)
    case ReadTest => c.(readTest := c.readTest + d)
    case ReadFirst => c.(readFirst := c.readFirst + d)
    case ReadPost => c.(readPost := c.readPost + d)
    case Reading => c.(reading := c.reading + d)
    case DoneWait => c.(doneWait := c.doneWait + d)
    case DoneCount => c.(doneCount := c.doneCount + d)
    case DoneTest => c.(doneTest := c.doneTest + d)
    case DoneLast => c.(doneLast := c.doneLast + d)
    case DonePost => c.(donePost := c.donePost + d)
    case Writing => c.(writing := c.writing + d)
    case WritePost => c.(writePost := c.writePost + d)
    case _ => c
  }

  lemma TallyMove(at: seq<Point>, t: nat, to: Point)
    requires t < |at|
    ensures TallyOf(at[t := to]) == Add(Add(TallyOf(at), at[t], -1), to, 1)
  {
    NumMove(at, t, to, ReadCount); NumMove(at, t, to, ReadTest); NumMove(at, t, to, ReadFirst); NumMove(at, t, to, ReadPost);
    NumMove(at, t, to, DoneCount); NumMove(at, t, to, DoneTest); NumMove(at, t, to, DoneLast); NumMove(at, t, to, DonePost);
    NumMove(at, t, to, Reading); NumMove(at, t, to, DoneWait); NumMove(at, t, to, Writing); NumMove(at, t, to, WritePost);
    hide Num;
  }

  lemma Here(at: seq<Point>, t: nat)
    requires t < |at|
    ensures Num(at, at[t]) > 0
  {
    NumZero(at, at[t]);
  }

  /** A thread that leaves a point was counted there. */
  lemma Leaves(at: seq<Point>, t: nat)
    requires t < |at|
    ensures NotNegative(Add(TallyOf(at), at[t], -1))
  {
    Here(at, t);
    hide Num;
  }

  predicate Acquires(p: Point) { p.ReadWait? || p.ReadCount? || p.ReadTest? || p.ReadFirst? || p.ReadPost? }

  predicate Releases(p: Point) { p.DoneWait? || p.DoneCount? || p.DoneTest? || p.DoneLast? || p.DonePost? }

  lemma AcquireKeeps(s: Rw, t: nat, writer: bool)
    requires Inv(s) && t < |s.at| && Enabled(s, s.at[t]) && Acquires(s.at[t])
    ensures Inv(Step(s, t, writer))
  {
    hide TallyOf;
    Leaves(s.at, t);
    TallyMove(s.at, t, Step(s, t, writer).at[t]);
  }

  lemma ReleaseKeeps(s: Rw, t: nat, writer: bool)
    requires Inv(s) && t < |s.at| && Enabled(s, s.at[t]) && Releases(s.at[t])
    ensures Inv(Step(s, t, writer))
  {
    hide TallyOf;
    Leaves(s.at, t);
    TallyMove(s.at, t, Step(s, t, writer).at[t]);
  }

  lemma StepKeeps(s: Rw, t: nat, writer: bool)
    requires Inv(s) && t < |s.at| && Enabled(s, s.at[t])
    ensures Inv(Step(s, t, writer))
  {
    hide TallyOf;
    if Acquires(s.at[t]) {
      AcquireKeeps(s, t, writer);
    } else if Releases(s.at[t]) {
      ReleaseKeeps(s, t, writer);
    } else {
      Leaves(s.at, t);
      TallyMove(s.at, t, Step(s, t, writer).at[t]);
    }
  }

  // ---------- Runs ----------

  predicate IsStep(s: Rw, s': Rw, t: nat, writer: bool) {
    t < |s.at| == |s.writes| && Enabled(s, s.at[t]) && s' == Step(s, t, writer)
  }

  ghost predicate Next(s: Rw, s': Rw) {
    exists t: nat, writer: bool :: IsStep(s, s', t, writer)
  }

  /** A run: at each point some thread takes an enabled step. */
  ghost predicate IsRun(run: seq<Rw>) {
    && run != [] && Initial(run[0])
    && forall k | 0 < k < |run| :: Next(run[k - 1], run[k])
  }

  lemma {:induction false} RunKeeps(run: seq<Rw>, k: nat)
    requires IsRun(run) && k < |run|
    ensures Inv(run[k])
  {
    if k == 0 {
      InitialInv(run[0]);
    } else {
      RunKeeps(run, k - 1);
      var t: nat, writer: bool :| IsStep(run[k - 1], run[k], t, writer);
      StepKeeps(run[k - 1], t, writer);
    }
  }

  /** Between the end of an acquire function and the start of the release. */
  predicate Holds(p: Point) { p.Reading? || p.Writing? }

  predicate HasWrite(p: Point) { p.Writing? || p.WritePost? }

  predicate HasRead(p: Point) { p.ReadPost? || p.Reading? || p.DoneWait? || p.DoneCount? }

  /** No thread has the write lock while another is between the end of its
      acquire and the start of its release; the points just before and after count too. */
  lemma Alone(s: Rw, t: nat, u: nat)
    requires Inv(s) && t < |s.at| && u < |s.at| && t != u && HasWrite(s.at[t])
    ensures !HasWrite(s.at[u]) && !HasRead(s.at[u])
  {
    Here(s.at, t);
    Here(s.at, u);
    if s.at[t] == s.at[u] { NumTwo(s.at, s.at[t], t, u); }
    hide Num;
  }

  /** In every state of every run, while a thread that asked for the write lock
      holds it, no other thread holds the lock, whatever it asked for. */
  lemma Exclusion(run: seq<Rw>, k: nat, t: nat, u: nat)
    requires IsRun(run) && k < |run| && t < |run[k].at| == |run[k].writes| && u < |run[k].at| && t != u
    requires Holds(run[k].at[t]) && run[k].writes[t]
    ensures !Holds(run[k].at[u])
  {
    hide Good;
    RunKeeps(run, k);
    Alone(run[k], t, u);
  }

  // ---------- The lock can be had ----------

  /** What a thread asks for when it leaves Outside is kept until it is back. */
  lemma RequestKept(s: Rw, t: nat, writer: bool, u: nat)
    requires t < |s.at| == |s.writes| && u < |s.at|
    ensures var s' := Step(s, t, writer);
      |s'.at| == |s'.writes| == |s.at| && s'.writes[u] == if u == t && s.at[t].Outside? then writer else s.writes[u]
  {
  }

  /** Steps a thread has to take until it is outside again, at most. */
  function Remaining(p: Point): nat {
    match p
    case Outside => 0
    case ReadWait => 11 case ReadCount => 10 case ReadTest => 9 case ReadFirst => 8 case ReadPost => 7 case Reading => 6
    case DoneWait => 5 case DoneCount => 4 case DoneTest => 3 case DoneLast => 2 case DonePost => 1
    case WriteWait => 3 case Writing => 2 case WritePost => 1
  }

  /** Every step of a thread inside brings it nearer to its end, and no other
      thread moves: with SomeoneProceeds, threads that stop asking all get out. */
  lemma StepProgress(s: Rw, t: nat, writer: bool, u: nat)
    requires t < |s.at| == |s.writes| && u < |s.at| && !s.at[t].Outside?
    ensures var s' := Step(s, t, writer);
      |s'.at| == |s.at| && if u == t then Remaining(s'.at[u]) < Remaining(s.at[u]) else s'.at[u] == s.at[u]
  {
  }

  /** Two steps take a writer from outside to holding the free lock, and two
      more give it back as it was. */
  lemma WriterGets(s: Rw, t: nat)
    requires Initial(s) && t < |s.at|
    ensures var s1 := Step(s, t, true);
      && IsStep(s, s1, t, true) && IsStep(s1, Step(s1, t, true), t, true)
      && (var s2 := Step(s1, t, true);
          && Holds(s2.at[t]) && s2.writes[t] && IsStep(s2, Step(s2, t, true), t, true)
          && (var s3 := Step(s2, t, true); IsStep(s3, Step(s3, t, true), t, true) && Initial(Step(s3, t, true))))
  {
  }

  /** The first n threads read, the others are outside. */
  ghost predicate FirstRead(s: Rw, n: nat) {
    && n <= |s.at| == |s.writes| && s.readers == n && s.lock == 1 && s.writelock == (if n == 0 then 1 else 0)
    && forall t | 0 <= t < |s.at| :: if t < n then s.at[t].Reading? && !s.writes[t] else s.at[t].Outside?
  }

  /** The run goes on with a step of thread t. */
  lemma Extends(run: seq<Rw>, t: nat) returns (run': seq<Rw>)
    requires IsRun(run) && t < |run[|run| - 1].at| == |run[|run| - 1].writes| && Enabled(run[|run| - 1], run[|run| - 1].at[t])
    ensures IsRun(run') && |run'| == |run| + 1 && run'[0] == run[0] && run'[|run|] == Step(run[|run| - 1], t, false)
  {
    hide Step, Enabled;
    var s := run[|run| - 1];
    run' := run + [Step(s, t, false)];
    assert IsStep(s, run'[|run|], t, false);
    forall k | 0 < k < |run'|
      ensures Next(run'[k - 1], run'[k])
    {
      if k < |run| { assert Next(run[k - 1], run[k]); }
    }
  }

  /** Any number of threads can hold the read lock at once: from the initial
      state of n threads a run leads to one in which all of them do. */
  lemma {:induction false} ReadersShare(s: Rw, n: nat) returns (run: seq<Rw>)
    requires Initial(s) && n <= |s.at|
    ensures IsRun(run) && run[0] == s && FirstRead(run[|run| - 1], n) && |run[|run| - 1].at| == |s.at|
    ensures var last := run[|run| - 1]; forall t | 0 <= t < n :: Holds(last.at[t]) && !last.writes[t]
  {
    if n == 0 {
      run := [s];
    } else {
      var t := n - 1;
      run := ReadersShare(s, t);
      run := Extends(run, t);
      run := Extends(run, t);
      run := Extends(run, t);
      run := Extends(run, t);
      if n == 1 { run := Extends(run, t); }
      run := Extends(run, t);
    }
  }

  /** The write lock's value is 0 or 1, and the lock's as well. */
  lemma ValuesSmall(run: seq<Rw>, k: nat)
    requires IsRun(run) && k < |run|
    ensures 0 <= run[k].writelock <= 1 && 0 <= run[k].lock <= 1 && run[k].readers >= 0
  {
    RunKeeps(run, k);
    hide Num;
  }

  /** No deadlock: whenever a thread is inside or waiting, some thread inside or
      waiting can take a step. */
  lemma SomeoneProceeds(run: seq<Rw>, k: nat, t: nat)
    requires IsRun(run) && k < |run| && t < |run[k].at| && !run[k].at[t].Outside?
    ensures exists u: nat | u < |run[k].at| :: !run[k].at[u].Outside? && Enabled(run[k], run[k].at[u])
  {
    RunKeeps(run, k);
    var s := run[k];
    if forall u: nat | u < |s.at| :: s.at[u].Outside? || !Enabled(s, s.at[u]) {
      Stuck(s);
      Here(s.at, t);
      assert false;
    }
  }

  lemma NobodyAt(s: Rw, p: Point)
    requires (forall u: nat | u < |s.at| :: s.at[u].Outside? || !Enabled(s, s.at[u])) && !p.Outside? && Enabled(s, p)
    ensures Num(s.at, p) == 0
  {
    NumZero(s.at, p);
  }

  /** With threads at the waiting points only, both semaphores are free. */
  lemma WaitingOnly(c: Tally, readers: int, lock: int, writelock: int)
    requires Good(c, readers, lock, writelock) && (lock > 0 ==> c.doneWait == 0) && (writelock > 0 ==> c.readFirst == 0)
    requires c.readCount == c.readTest == c.readPost == c.reading == c.doneCount == c.doneTest == c.doneLast == c.donePost == 0
    requires c.writing == c.writePost == 0
    ensures lock > 0 && writelock > 0
  {
  }

  /** If nobody could proceed, nobody would be at any point but Outside. */
  lemma Stuck(s: Rw)
    requires Inv(s) && forall u: nat | u < |s.at| :: s.at[u].Outside? || !Enabled(s, s.at[u])
    ensures forall p: Point | !p.Outside? :: Num(s.at, p) == 0
  {
    hide Num, Good;
    NobodyAt(s, ReadCount); NobodyAt(s, ReadTest); NobodyAt(s, ReadPost); NobodyAt(s, Reading);
    NobodyAt(s, DoneCount); NobodyAt(s, DoneTest); NobodyAt(s, DoneLast); NobodyAt(s, DonePost);
    NobodyAt(s, Writing); NobodyAt(s, WritePost);
    if s.lock > 0 { NobodyAt(s, DoneWait); }
    if s.writelock > 0 { NobodyAt(s, ReadFirst); }
    WaitingOnly(TallyOf(s.at), s.readers, s.lock, s.writelock);
    forall p: Point | !p.Outside?
      ensures Num(s.at, p) == 0
    {
      NobodyAt(s, p);
    }
  }
}
