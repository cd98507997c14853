/**
 The shared log file: lock, seek to the end, write, unlock, with one file pointer for all threads.
 A run is any interleaving of the threads' steps, the write being one step per byte.
 */
module LogFile {
  import opened Options

  /** WriteFile at the file pointer: overwrites, extends, and leaves a NUL gap beyond the end. */
  function PutByte(file: string, pos: nat, c: char): string {
    if pos < |file| then file[pos := c]
    else file + seq(pos - |file|, _ => '\0') + [c]
  }

  datatype Stage =
    | Outside              // not in WirteLogFile, or waiting for the mutex
    | Locked               // owns the mutex
    | Writing(done: nat)   // has sought the end and written this many bytes
    | Failed(done: nat)    // WriteFile gave up after this many

  /** A thread and the messages it still has to log, the first being the one in progress. */
  datatype Thread = Thread(todo: seq<string>, stage: Stage)

  /** A message in the order its writer got the mutex, how much of it is in the file, and whether its write failed. */
  datatype Entry = Entry(thread: nat, message: string, kept: nat, failed: bool)

  datatype World = World(
    file: string, pos: nat, owner: Option<nat>, threads: map<nat, Thread>, log: seq<Entry>)

  datatype Action =
    | Acquire(t: nat)
    | Seek(t: nat)
    | WriteByte(t: nat)
    | Fail(t: nat)
    | Release(t: nat)

  predicate Enabled(w: World, a: Action) {
    a.t in w.threads &&
    var thread := w.threads[a.t];
    match a
    case Acquire(t) => w.owner == None && thread.stage == Outside && thread.todo != []
    case Seek(t) => thread.stage == Locked
    case WriteByte(t) => thread.stage.Writing? && thread.todo != [] && thread.stage.done < |thread.todo[0]|
    case Fail(t) => thread.stage.Writing? && thread.todo != [] && thread.stage.done < |thread.todo[0]|
    case Release(t) => thread.todo != [] &&
                       (thread.stage.Failed? || (thread.stage.Writing? && thread.stage.done == |thread.todo[0]|))
  }

  /** The newest entry replaced. */
  function Revised(log: seq<Entry>, e: Entry): seq<Entry> {
    if log == [] then log else log[|log| - 1 := e]
  }

  function Apply(w: World, a: Action): World
    requires Enabled(w, a)
  {
    var t := a.t;
    var thread := w.threads[t];
    match a
    case Acquire(_) =>
      w.(owner := Some(t), threads := w.threads[t := thread.(stage := Locked)],
         log := w.log + [Entry(t, thread.todo[0], 0, false)])
    case Seek(_) =>
      w.(pos := |w.file|, threads := w.threads[t := thread.(stage := Writing(0))])
    case WriteByte(_) =>
      var done := thread.stage.done;
      w.(file := PutByte(w.file, w.pos, thread.todo[0][done]), pos := w.pos + 1,
         threads := w.threads[t := thread.(stage := Writing(done + 1))],
         log := Revised(w.log, Entry(t, thread.todo[0], done + 1, false)))
    case Fail(_) =>
      var done := thread.stage.done;
      w.(threads := w.threads[t := thread.(stage := Failed(done))],
         log := Revised(w.log, Entry(t, thread.todo[0], done, true)))
    case Release(_) =>
      w.(owner := None, threads := w.threads[t := Thread(thread.todo[1..], Outside)])
  }

  predicate Runs(w: World, acts: seq<Action>)
    decreases |acts|
  {
    acts == [] || (Enabled(w, acts[0]) && Runs(Apply(w, acts[0]), acts[1..]))
  }

  function After(w: World, acts: seq<Action>): World
    requires Runs(w, acts)
    decreases |acts|
  {
    if acts == [] then w else After(Apply(w, acts[0]), acts[1..])
  }

  lemma StepThenRun(w: World, a: Action, acts: seq<Action>)
    requires Enabled(w, a) && Runs(Apply(w, a), acts)
    ensures Runs(w, [a] + acts) && After(w, [a] + acts) == After(Apply(w, a), acts)
  {
    assert ([a] + acts)[1..] == acts;
  }

  // ----- what the log says the file holds -----

  predicate Bounded(log: seq<Entry>) {
    forall e | e in log :: e.kept <= |e.message|
  }

  function Contents(log: seq<Entry>): string
    requires Bounded(log)
  {
    if log == [] then ""
    else
      var e := log[|log| - 1];
      assert e in log;
      Contents(log[..|log| - 1]) + e.message[..e.kept]
  }

  /** The messages a thread appears with in the log. */
  function MessagesOf(log: seq<Entry>, t: nat): seq<string> {
    if log == [] then []
    else MessagesOf(log[..|log| - 1], t) + if log[|log| - 1].thread == t then [log[|log| - 1].message] else []
  }

  /** The entries whose writers have released the mutex. */
  function Settled(w: World): seq<Entry> {
    if w.owner == None || w.log == [] then w.log else w.log[..|w.log| - 1]
  }

  predicate Whole(e: Entry) {
    e.kept == |e.message| || e.failed
  }

  /** The newest entry is the mutex owner's, in the state its stage says. */
  predicate OwnerWrites(w: World) {
    match w.owner
    case None => forall t | t in w.threads :: w.threads[t].stage == Outside
    case Some(o) =>
      && o in w.threads && w.log != []
      && var thread := w.threads[o];
      && thread.todo != []
      && (forall t | t in w.threads && t != o :: w.threads[t].stage == Outside)
      && var e := w.log[|w.log| - 1];
      && e.thread == o && e.message == thread.todo[0]
      && match thread.stage
         case Outside => false
         case Locked => e.kept == 0 && !e.failed
         case Writing(done) => e.kept == done && !e.failed && w.pos == |w.file|
         case Failed(done) => e.kept == done && e.failed
  }

  /** Each thread's settled messages and those it still has to log make up its program. */
  ghost predicate Accounted(settled: seq<Entry>, threads: map<nat, Thread>, program: map<nat, seq<string>>) {
    && program.Keys == threads.Keys
    && forall t | t in program :: program[t] == MessagesOf(settled, t) + threads[t].todo
  }

  /** base: the file when logging began; program: the messages each thread was going to log. */
  ghost predicate Recorded(w: World, base: string, program: map<nat, seq<string>>) {
    && Bounded(w.log)
    && w.file == base + Contents(w.log)
    && (forall e | e in Settled(w) :: Whole(e))
    && (forall e | e in w.log :: e.thread in w.threads)
    && Accounted(Settled(w), w.threads, program)
  }

  ghost predicate Faithful(w: World, base: string, program: map<nat, seq<string>>) {
    Recorded(w, base, program) && OwnerWrites(w)
  }

  lemma PutAtEnd(file: string, c: char)
    ensures PutByte(file, |file|, c) == file + [c]
  {
  }

  /** Changing stages alone leaves every message accounted for. */
  lemma StagesFree(
    settled: seq<Entry>, threads: map<nat, Thread>, more: map<nat, Thread>, program: map<nat, seq<string>>)
    requires Accounted(settled, threads, program)
    requires more.Keys == threads.Keys && forall t | t in more :: more[t].todo == threads[t].todo
    ensures Accounted(settled, more, program)
  {
  }

  /** A new owner's entry starts empty. */
  lemma EmptyEntry(log: seq<Entry>, e: Entry)
    requires Bounded(log) && e.kept == 0
    ensures Bounded(log + [e]) && Contents(log + [e]) == Contents(log)
  {
    assert (log + [e])[..|log|] == log;
    assert Contents(log) + e.message[..0] == Contents(log);
  }

  lemma AcquireStays(w: World, a: Action, base: string, program: map<nat, seq<string>>)
    requires Faithful(w, base, program) && Enabled(w, a) && a.Acquire?
    ensures Faithful(Apply(w, a), base, program)
  {
    var v := Apply(w, a);
    EmptyEntry(w.log, v.log[|w.log|]);
    assert Settled(v) == Settled(w);
    StagesFree(Settled(w), w.threads, v.threads, program);
  }

  lemma SeekStays(w: World, a: Action, base: string, program: map<nat, seq<string>>)
    requires Faithful(w, base, program) && Enabled(w, a) && a.Seek?
    ensures Faithful(Apply(w, a), base, program)
  {
    var v := Apply(w, a);
    assert Settled(v) == Settled(w);
    StagesFree(Settled(w), w.threads, v.threads, program);
  }

  /** Replacing the newest entry keeps the others. */
  lemma RevisedLog(log: seq<Entry>, e: Entry)
    requires log != [] && Bounded(log) && e.kept <= |e.message|
    ensures var more := Revised(log, e);
            && |more| == |log| && more[|log| - 1] == e && more[..|log| - 1] == log[..|log| - 1]
            && Bounded(more)
            && Contents(more) == Contents(log[..|log| - 1]) + e.message[..e.kept]
            && forall d | d in more :: d == e || d in log
  {
    var more := Revised(log, e);
    forall d | d in more ensures d == e || d in log {
      var i :| 0 <= i < |more| && more[i] == d;
      assert i < |log| - 1 ==> d == log[i];
    }
  }

  /** A step that only rewrites the owner's entry keeps everything about the settled messages. */
  lemma EntryRewritten(w: World, v: World, e: Entry, base: string, program: map<nat, seq<string>>)
    requires Recorded(w, base, program) && w.owner.Some? && v.owner == w.owner && w.log != []
    requires e.kept <= |e.message| && e.thread == w.log[|w.log| - 1].thread
    requires v.log == Revised(w.log, e)
    requires v.file == base + Contents(w.log[..|w.log| - 1]) + e.message[..e.kept]
    requires v.threads.Keys == w.threads.Keys && forall t | t in v.threads :: v.threads[t].todo == w.threads[t].todo
    ensures Recorded(v, base, program)
  {
    RevisedLog(w.log, e);
    var rest := Contents(w.log[..|w.log| - 1]);
    assert base + rest + e.message[..e.kept] == base + (rest + e.message[..e.kept]);
    assert Settled(v) == Settled(w);
    StagesFree(Settled(w), w.threads, v.threads, program);
  }

  /** A byte goes to the end of the file and to the owner's entry alike. */
  lemma ByteStays(w: World, a: Action, base: string, program: map<nat, seq<string>>)
    requires Faithful(w, base, program) && Enabled(w, a) && a.WriteByte?
    ensures Faithful(Apply(w, a), base, program)
  {
    var e := w.log[|w.log| - 1];
    var f := Entry(e.thread, e.message, e.kept + 1, false);
    PutAtEnd(w.file, e.message[e.kept]);
    assert f.message[..f.kept] == e.message[..e.kept] + [e.message[e.kept]];
    EntryRewritten(w, Apply(w, a), f, base, program);
  }

  lemma FailStays(w: World, a: Action, base: string, program: map<nat, seq<string>>)
    requires Faithful(w, base, program) && Enabled(w, a) && a.Fail?
    ensures Faithful(Apply(w, a), base, program)
  {
    var e := w.log[|w.log| - 1];
    EntryRewritten(w, Apply(w, a), Entry(e.thread, e.message, e.kept, true), base, program);
  }

  lemma MessagesAppend(log: seq<Entry>, e: Entry, t: nat)
    ensures MessagesOf(log + [e], t) == MessagesOf(log, t) + if t == e.thread then [e.message] else []
  {
    assert (log + [e])[..|log|] == log;
  }

  lemma OneSettled(settled: seq<Entry>, e: Entry, t: nat, todo: seq<string>, all: seq<string>)
    requires all == MessagesOf(settled, t) + todo
    requires t == e.thread ==> todo != [] && todo[0] == e.message
    ensures all == MessagesOf(settled + [e], t) + if t == e.thread then todo[1..] else todo
  {
    MessagesAppend(settled, e, t);
    var before := MessagesOf(settled, t);
    assert t == e.thread ==> before + todo == (before + [todo[0]]) + todo[1..];
  }

  /** The message a thread is done with moves from what it has to log to what is settled. */
  lemma MessageSettled(
    settled: seq<Entry>, e: Entry, threads: map<nat, Thread>, more: map<nat, Thread>, program: map<nat, seq<string>>)
    requires Accounted(settled, threads, program) && e.thread in threads
    requires threads[e.thread].todo != [] && e.message == threads[e.thread].todo[0]
    requires more == threads[e.thread := Thread(threads[e.thread].todo[1..], Outside)]
    ensures Accounted(settled + [e], more, program)
  {
    assert more.Keys == threads.Keys;
    forall t | t in program
      ensures program[t] == MessagesOf(settled + [e], t) + more[t].todo
    {
      var todo := threads[t].todo;
      assert more[t].todo == if t == e.thread then todo[1..] else todo;
      OneSettled(settled, e, t, todo, program[t]);
    }
  }

  lemma LastApart(log: seq<Entry>) returns (rest: seq<Entry>, e: Entry)
    requires log != []
    ensures rest == log[..|log| - 1] && e == log[|log| - 1] && log == rest + [e]
  {
    rest, e := log[..|log| - 1], log[|log| - 1];
  }

  /** When the owner leaves, its message is settled. */
  lemma OwnerSettled(
    log: seq<Entry>, threads: map<nat, Thread>, more: map<nat, Thread>, t: nat, program: map<nat, seq<string>>)
    requires log != [] && Accounted(log[..|log| - 1], threads, program)
    requires t in threads && log[|log| - 1].thread == t
    requires threads[t].todo != [] && log[|log| - 1].message == threads[t].todo[0]
    requires more == threads[t := Thread(threads[t].todo[1..], Outside)]
    ensures Accounted(log, more, program)
  {
    var rest, e := LastApart(log);
    MessageSettled(rest, e, threads, more, program);
  }

  lemma OwnerReleased(w: World, v: World, t: nat, base: string, program: map<nat, seq<string>>)
    requires Recorded(w, base, program) && w.owner == Some(t) && t in w.threads && w.log != []
    requires w.threads[t].todo != []
    requires var e := w.log[|w.log| - 1]; e.thread == t && e.message == w.threads[t].todo[0] && Whole(e)
    requires v == w.(owner := None, threads := w.threads[t := Thread(w.threads[t].todo[1..], Outside)])
    ensures Recorded(v, base, program)
  {
    OwnerSettled(w.log, w.threads, v.threads, t, program);
    forall e | e in w.log ensures Whole(e) {
      assert e in Settled(w) || e == w.log[|w.log| - 1];
    }
  }

  lemma ReleaseStays(w: World, a: Action, base: string, program: map<nat, seq<string>>)
    requires Faithful(w, base, program) && Enabled(w, a) && a.Release?
    ensures Faithful(Apply(w, a), base, program)
  {
    OwnerReleased(w, Apply(w, a), a.t, base, program);
  }

  /** Every step of every thread keeps the invariant. */
  lemma FaithfulStep(w: World, a: Action, base: string, program: map<nat, seq<string>>)
    requires Faithful(w, base, program) && Enabled(w, a)
    ensures Faithful(Apply(w, a), base, program)
  {
    match a
    case Acquire(_) => AcquireStays(w, a, base, program);
    case Seek(_) => SeekStays(w, a, base, program);
    case WriteByte(_) => ByteStays(w, a, base, program);
    case Fail(_) => FailStays(w, a, base, program);
    case Release(_) => ReleaseStays(w, a, base, program);
  }

  lemma {:induction false} FaithfulAlways(w: World, acts: seq<Action>, base: string, program: map<nat, seq<string>>)
    requires Faithful(w, base, program) && Runs(w, acts)
    ensures Faithful(After(w, acts), base, program)
    decreases |acts|
  {
    if acts != [] {
      FaithfulStep(w, acts[0], base, program);
      FaithfulAlways(Apply(w, acts[0]), acts[1..], base, program);
    }
  }

  /** Before anything is logged: no thread is in WirteLogFile. */
  ghost predicate Started(w: World, base: string, program: map<nat, seq<string>>) {
    && w.file == base && w.owner == None && w.log == []
    && program.Keys == w.threads.Keys
    && forall t | t in program :: w.threads[t] == Thread(program[t], Outside)
  }

  /** The part of its message the current owner of the mutex has written. */
  function CurrentPart(w: World): string
    requires Bounded(w.log)
  {
    if w.owner == None || w.log == [] then ""
    else
      var e := w.log[|w.log| - 1];
      assert e in w.log;
      e.message[..e.kept]
  }

  lemma StartedFaithful(w: World, base: string, program: map<nat, seq<string>>)
    requires Started(w, base, program)
    ensures Faithful(w, base, program)
  {
    assert forall t | t in program :: MessagesOf([], t) + program[t] == program[t];
  }

  /** What the invariant says about the file: settled messages, whole or failed, and the owner's part. */
  lemma FaithfulFile(w: World, base: string, program: map<nat, seq<string>>)
    requires Faithful(w, base, program)
    ensures Bounded(Settled(w))
    ensures w.file == base + Contents(Settled(w)) + CurrentPart(w)
    ensures forall e | e in Settled(w) :: Whole(e)
    ensures w.owner.Some? ==> w.log != [] && CurrentPart(w) <= w.log[|w.log| - 1].message
  {
    if w.owner == None {
      assert Contents(w.log) + "" == Contents(w.log);
    }
  }

  /**
   In every interleaving: the file is what it was, then the settled messages in the order the mutex
   was acquired, each whole unless its own write failed, then a prefix of the owner's message.
   */
  lemma LogNotTorn(w: World, acts: seq<Action>, base: string, program: map<nat, seq<string>>)
    requires Started(w, base, program) && Runs(w, acts)
    ensures var v := After(w, acts);
            && Bounded(v.log) && Bounded(Settled(v))
            && v.file == base + Contents(Settled(v)) + CurrentPart(v)
            && forall e | e in Settled(v) :: e.kept == |e.message| || e.failed
  {
    StartedFaithful(w, base, program);
    FaithfulAlways(w, acts, base, program);
    FaithfulFile(After(w, acts), base, program);
  }

  /**
   Once every thread has logged everything, the log holds exactly each thread's messages in its own
   order: none lost, none twice, none from elsewhere.
   */
  lemma LogComplete(w: World, acts: seq<Action>, base: string, program: map<nat, seq<string>>)
    requires Started(w, base, program) && Runs(w, acts)
    requires forall t | t in program :: t in After(w, acts).threads && After(w, acts).threads[t].todo == []
    ensures var v := After(w, acts);
            && v.owner == None
            && (forall t | t in program :: MessagesOf(v.log, t) == program[t])
            && (forall e | e in v.log :: e.thread in program)
  {
    StartedFaithful(w, base, program);
    FaithfulAlways(w, acts, base, program);
  }

  /** The messages of the log end to end. */
  function Joined(log: seq<Entry>): string {
    if log == [] then "" else Joined(log[..|log| - 1]) + log[|log| - 1].message
  }

  lemma {:induction false} WholeContents(log: seq<Entry>)
    requires forall e | e in log :: e.kept == |e.message|
    ensures Bounded(log) && Contents(log) == Joined(log)
  {
    if log != [] {
      var e := log[|log| - 1];
      assert e in log;
      WholeContents(log[..|log| - 1]);
      assert e.message[..e.kept] == e.message;
    }
  }

  lemma {:induction false} NoneFailed(w: World, acts: seq<Action>)
    requires Runs(w, acts) && (forall e | e in w.log :: !e.failed) && forall a | a in acts :: !a.Fail?
    ensures forall e | e in After(w, acts).log :: !e.failed
    decreases |acts|
  {
    if acts != [] {
      assert !acts[0].Fail?;
      NoneFailed(Apply(w, acts[0]), acts[1..]);
    }
  }

  /** When all writes succeed the file is the messages themselves, end to end, plus the owner's prefix. */
  lemma LogIsMessages(w: World, acts: seq<Action>, base: string, program: map<nat, seq<string>>)
    requires Started(w, base, program) && Runs(w, acts)
    requires forall a | a in acts :: !a.Fail?
    ensures var v := After(w, acts);
            && Bounded(v.log)
            && v.file == base + Joined(Settled(v)) + CurrentPart(v)
            && (v.owner.Some? ==> v.log != [] && CurrentPart(v) <= v.log[|v.log| - 1].message)
  {
    StartedFaithful(w, base, program);
    FaithfulAlways(w, acts, base, program);
    FaithfulFile(After(w, acts), base, program);
    NoneFailed(w, acts);
    WholeContents(Settled(After(w, acts)));
  }

  // ----- every run ends, and only with everything logged -----

  /** The most steps a thread can still make: take the mutex, seek, write each byte, release. */
  function TodoWork(todo: seq<string>): nat {
    if todo == [] then 0 else |todo[0]| + 3 + TodoWork(todo[1..])
  }

  function ThreadWork(thread: Thread): nat {
    if thread.todo == [] then 0
    else
      TodoWork(thread.todo[1..]) +
      match thread.stage
      case Outside => |thread.todo[0]| + 3
      case Locked => |thread.todo[0]| + 2
      case Writing(done) => if done <= |thread.todo[0]| then |thread.todo[0]| - done + 1 else 0
      case Failed(_) => 1
  }

  /** The same for all threads numbered below n. */
  function Work(threads: map<nat, Thread>, n: nat): nat {
    if n == 0 then 0
    else Work(threads, n - 1) + if n - 1 in threads then ThreadWork(threads[n - 1]) else 0
  }

  lemma {:induction false} WorkUpdate(threads: map<nat, Thread>, t: nat, thread: Thread, n: nat)
    requires t in threads
    ensures Work(threads[t := thread], n) ==
            Work(threads, n) + if t < n then ThreadWork(thread) - ThreadWork(threads[t]) else 0
  {
    if n > 0 {
      WorkUpdate(threads, t, thread, n - 1);
    }
  }

  lemma StepWorks(w: World, a: Action, base: string, program: map<nat, seq<string>>, n: nat)
    requires Faithful(w, base, program) && Enabled(w, a) && a.t < n
    ensures Work(Apply(w, a).threads, n) < Work(w.threads, n)
  {
    WorkUpdate(w.threads, a.t, Apply(w, a).threads[a.t], n);
  }

  predicate Below(threads: map<nat, Thread>, n: nat) {
    forall t | t in threads :: t < n
  }

  lemma {:induction false} RunBounded(
    w: World, acts: seq<Action>, base: string, program: map<nat, seq<string>>, n: nat)
    requires Faithful(w, base, program) && Runs(w, acts) && Below(w.threads, n)
    ensures |acts| + Work(After(w, acts).threads, n) <= Work(w.threads, n)
    decreases |acts|
  {
    if acts != [] {
      StepWorks(w, acts[0], base, program, n);
      FaithfulStep(w, acts[0], base, program);
      RunBounded(Apply(w, acts[0]), acts[1..], base, program, n);
    }
  }

  predicate AllLogged(w: World) {
    forall t | t in w.threads :: w.threads[t].todo == []
  }

  /** Some thread can step exactly as long as a message is left: no interleaving gets stuck. */
  lemma NeverStuck(w: World, base: string, program: map<nat, seq<string>>)
    requires Faithful(w, base, program)
    ensures (exists a :: Enabled(w, a)) <==> !AllLogged(w)
  {
    if w.owner.Some? {
      var o := w.owner.value;
      assert Enabled(w, Seek(o)) || Enabled(w, WriteByte(o)) || Enabled(w, Release(o));
    } else if !AllLogged(w) {
      var t :| t in w.threads && w.threads[t].todo != [];
      assert Enabled(w, Acquire(t));
    }
  }

  lemma StepThenFinish(w: World, a: Action)
    requires Enabled(w, a)
    requires exists more :: Runs(Apply(w, a), more) && AllLogged(After(Apply(w, a), more))
    ensures exists more :: Runs(w, more) && AllLogged(After(w, more))
  {
    var more :| Runs(Apply(w, a), more) && AllLogged(After(Apply(w, a), more));
    StepThenRun(w, a, more);
    assert Runs(w, [a] + more);
  }

  lemma {:induction false} Finishes(w: World, base: string, program: map<nat, seq<string>>, n: nat)
    requires Faithful(w, base, program) && Below(w.threads, n)
    ensures exists more :: Runs(w, more) && AllLogged(After(w, more))
    decreases Work(w.threads, n)
  {
    NeverStuck(w, base, program);
    if AllLogged(w) {
      assert Runs(w, []) && After(w, []) == w;
    } else {
      var a :| Enabled(w, a);
      var v := Apply(w, a);
      FaithfulStep(w, a, base, program);
      StepWorks(w, a, base, program, n);
      Finishes(v, base, program, n);
      StepThenFinish(w, a);
    }
  }

  /**
   No interleaving makes more steps than the messages account for, none is stuck before everything is
   logged, and from every state reached some continuation logs everything.
   */
  lemma {:induction false} LogFinishes(
    w: World, acts: seq<Action>, base: string, program: map<nat, seq<string>>, n: nat)
    requires Started(w, base, program) && Runs(w, acts) && Below(w.threads, n)
    ensures |acts| <= Work(w.threads, n)
    ensures (exists a :: Enabled(After(w, acts), a)) <==> !AllLogged(After(w, acts))
    ensures exists more :: Runs(After(w, acts), more) && AllLogged(After(After(w, acts), more))
  {
    StartedFaithful(w, base, program);
    FaithfulAlways(w, acts, base, program);
    RunBounded(w, acts, base, program, n);
    var v := After(w, acts);
    assert v.threads.Keys == w.threads.Keys;
    NeverStuck(v, base, program);
    Finishes(v, base, program, n);
  }

  // ----- one call, with nobody else running -----

  /** How much of a message is written before the system reports; short of all of it is an error. */
  function Kept(message: string, written: nat): (n: nat)
    ensures n <= |message|
  {
    if written < |message| then written else |message|
  }

  function Bytes(t: nat, n: nat): seq<Action> {
    seq(n, _ => WriteByte(t))
  }

  function Ending(t: nat, message: string, written: nat): seq<Action> {
    if written < |message| then [Fail(t), Release(t)] else [Release(t)]
  }

  /** The steps of one call by thread t. */
  function Call(t: nat, message: string, written: nat): seq<Action> {
    [Acquire(t), Seek(t)] + (Bytes(t, Kept(message, written)) + Ending(t, message, written))
  }

  /** Nobody holds the mutex and thread t has a message to log. */
  predicate Ready(w: World, t: nat) {
    w.owner == None && t in w.threads && w.threads[t].stage == Outside && w.threads[t].todo != []
  }

  /** The world when thread t, having started from w, has written this many bytes. */
  function Midway(w: World, t: nat, done: nat): World
    requires Ready(w, t) && done <= |w.threads[t].todo[0]|
  {
    var todo := w.threads[t].todo;
    w.(file := w.file + todo[0][..done], pos := |w.file| + done, owner := Some(t),
       threads := w.threads[t := Thread(todo, Writing(done))],
       log := w.log + [Entry(t, todo[0], done, false)])
  }

  /** The world when its call is over: message and log entry appended, mutex free. */
  function Called(w: World, t: nat, written: nat): World
    requires Ready(w, t)
  {
    var todo := w.threads[t].todo;
    var n := Kept(todo[0], written);
    w.(file := w.file + todo[0][..n], pos := |w.file| + n,
       threads := w.threads[t := Thread(todo[1..], Outside)],
       log := w.log + [Entry(t, todo[0], n, written < |todo[0]|)])
  }

  lemma SameThread(threads: map<nat, Thread>, t: nat, x: Thread, y: Thread)
    ensures threads[t := x][t := y] == threads[t := y]
  {
  }

  lemma StartsMidway(w: World, t: nat)
    requires Ready(w, t)
    ensures Enabled(Apply(w, Acquire(t)), Seek(t))
    ensures Apply(Apply(w, Acquire(t)), Seek(t)) == Midway(w, t, 0)
  {
    var todo := w.threads[t].todo;
    SameThread(w.threads, t, Thread(todo, Locked), Thread(todo, Writing(0)));
    assert w.file + todo[0][..0] == w.file;
  }

  lemma ByteMidway(w: World, t: nat, done: nat)
    requires Ready(w, t) && done < |w.threads[t].todo[0]|
    ensures Enabled(Midway(w, t, done), WriteByte(t))
    ensures Apply(Midway(w, t, done), WriteByte(t)) == Midway(w, t, done + 1)
  {
    var todo := w.threads[t].todo;
    var file := w.file + todo[0][..done];
    PutAtEnd(file, todo[0][done]);
    assert file + [todo[0][done]] == w.file + todo[0][..done + 1];
    SameThread(w.threads, t, Thread(todo, Writing(done)), Thread(todo, Writing(done + 1)));
  }

  /** After the last byte written, the call gives up or is done, and releases the mutex. */
  lemma EndsCalled(w: World, t: nat, written: nat)
    requires Ready(w, t)
    ensures var m := w.threads[t].todo[0];
            var v := Midway(w, t, Kept(m, written));
            if written < |m| then
              && Enabled(v, Fail(t)) && Enabled(Apply(v, Fail(t)), Release(t))
              && Apply(Apply(v, Fail(t)), Release(t)) == Called(w, t, written)
            else
              && Enabled(v, Release(t))
              && Apply(v, Release(t)) == Called(w, t, written)
  {
    var todo := w.threads[t].todo;
    var n := Kept(todo[0], written);
    var over := Thread(todo[1..], Outside);
    SameThread(w.threads, t, Thread(todo, Writing(n)), over);
    SameThread(w.threads, t, Thread(todo, Writing(n)), Thread(todo, Failed(n)));
    SameThread(w.threads, t, Thread(todo, Failed(n)), over);
  }

  lemma EndingRuns(w: World, t: nat, written: nat)
    requires Ready(w, t)
    ensures var m := w.threads[t].todo[0];
            var v := Midway(w, t, Kept(m, written));
            Runs(v, Ending(t, m, written)) && After(v, Ending(t, m, written)) == Called(w, t, written)
  {
    var m := w.threads[t].todo[0];
    var v := Midway(w, t, Kept(m, written));
    EndsCalled(w, t, written);
    if written < |m| {
      var u := Apply(v, Fail(t));
      StepThenRun(u, Release(t), []);
      StepThenRun(v, Fail(t), [Release(t)]);
    } else {
      StepThenRun(v, Release(t), []);
    }
  }

  /** From the byte reached, the rest of what is written goes to the end of the file. */
  lemma {:induction false} BytesRun(w: World, t: nat, done: nat, written: nat)
    requires Ready(w, t) && done <= Kept(w.threads[t].todo[0], written)
    ensures var m := w.threads[t].todo[0];
            var steps := Bytes(t, Kept(m, written) - done) + Ending(t, m, written);
            Runs(Midway(w, t, done), steps) && After(Midway(w, t, done), steps) == Called(w, t, written)
    decreases |w.threads[t].todo[0]| - done
  {
    var m := w.threads[t].todo[0];
    var n := Kept(m, written);
    var steps := Bytes(t, n - done) + Ending(t, m, written);
    if done == n {
      assert steps == Ending(t, m, written);
      EndingRuns(w, t, written);
    } else {
      ByteMidway(w, t, done);
      BytesRun(w, t, done + 1, written);
      var more := Bytes(t, n - done - 1) + Ending(t, m, written);
      StepThenRun(Midway(w, t, done), WriteByte(t), more);
      assert steps == [WriteByte(t)] + more;
    }
  }

  /**
   With the mutex free a call can always run to its end. It appends exactly its message, or the part
   written before a failure, notes which in the log, and frees the mutex.
   */
  lemma CallRuns(w: World, t: nat, written: nat)
    requires Ready(w, t)
    ensures var m := w.threads[t].todo[0];
            && Runs(w, Call(t, m, written))
            && var v := After(w, Call(t, m, written));
            && v.file == w.file + (if written < |m| then m[..written] else m)
            && v.owner == None
            && v.threads == w.threads[t := Thread(w.threads[t].todo[1..], Outside)]
            && v.log == w.log + [Entry(t, m, if written < |m| then written else |m|, written < |m|)]
            && v == Called(w, t, written)
  {
    var m := w.threads[t].todo[0];
    var rest := Bytes(t, Kept(m, written)) + Ending(t, m, written);
    StartsMidway(w, t);
    BytesRun(w, t, 0, written);
    StepThenRun(Apply(w, Acquire(t)), Seek(t), rest);
    StepThenRun(w, Acquire(t), [Seek(t)] + rest);
    assert Call(t, m, written) == [Acquire(t)] + ([Seek(t)] + rest);
    assert m[..|m|] == m;
  }

  class FileLog {
    var file: string
    var pos: nat
    var locked: bool
    /** The same file, file pointer and mutex among all threads. */
    ghost var world: World

    ghost predicate Valid()
      reads this
    {
      file == world.file && pos == world.pos && (locked <==> world.owner.Some?)
    }

    /**
     One call by thread t; the system writes `written` bytes before it reports, and short of the
     whole message that is an error. The steps taken are a run of the protocol above.
     */
    method WirteLogFile(logstring: string, written: nat, ghost t: nat)
      requires Valid() && Ready(world, t) && world.threads[t].todo[0] == logstring
      modifies this
      ensures Valid() && !locked
      ensures file == old(file) + if written < |logstring| then logstring[..written] else logstring
      ensures var steps := Call(t, logstring, written);
              Runs(old(world), steps) && world == After(old(world), steps)
    {
      ghost var w := world;
      CallRuns(w, t, written);
      StartsMidway(w, t);
      locked, world := true, Apply(world, Acquire(t));
      pos, world := |file|, Apply(world, Seek(t));
      WriteFile(logstring, written, t, w);
      EndsCalled(w, t, written);
      if written < |logstring| {
        world := Apply(world, Fail(t));
      }
      locked, world := false, Apply(world, Release(t));
    }

    /** Bytes go to the file pointer one by one until the message or the system's patience ends. */
    method WriteFile(logstring: string, written: nat, ghost t: nat, ghost w: World)
      requires Valid() && locked && Ready(w, t) && w.threads[t].todo[0] == logstring
      requires world == Midway(w, t, 0)
      modifies this
      ensures Valid() && locked && world == Midway(w, t, Kept(logstring, written))
    {
      var done := 0;
      while done < |logstring| && done < written
        invariant done <= Kept(logstring, written)
        invariant Valid() && locked && world == Midway(w, t, done)
      {
        ByteMidway(w, t, done);
        world := Apply(world, WriteByte(t));
        file, pos := PutByte(file, pos, logstring[done]), pos + 1;
        done := done + 1;
      }
    }
  }
}
