/**
 The life cycle of receive buffers (PerIOData) and request objects (HttpData) under any number of
 worker threads inside DoRecv at once. One action is one step of one thread that allocates,
 posts, sends or deletes an object; a run is any interleaving of enabled actions.
 */
module IoLifecycle {
  import opened Options

  /** Where a worker is between taking a completed receive and being done with it. */
  datatype Stage<T, D> =
    | Checking(io: T)            // the message is being examined
    | Answering(io: T, data: D)  // an HttpData exists and the response is being built
    | Sending(io: T)             // built; about to call WSASend
    | Removing(io: T)            // sent; about to delete the buffer object
    | Renewing                   // the old buffer is settled; about to allocate the next
    | Posting(io: T)             // allocated; about to post it for receive
  {
    predicate Holds() {
      !Renewing?
    }
  }

  datatype World<T, D> = World(
    objects: set<T>, posted: set<T>, deleted: set<T>, dropped: set<T>,
    created: set<D>, released: set<D>,
    busy: map<nat, Stage<T, D>>,
    incomplete: nat, rejected: nat)

  datatype Action<T, D> =
    | Take(t: nat, io: T)      // a receive completes and worker t starts DoRecv
    | Reject(t: nat)           // complete but not a GET: return at once, the buffer is left behind
    | Await(t: nat)            // incomplete: the same buffer is posted again
    | Create(t: nat, data: D)  // new HttpData
    | FailBuild(t: nat)        // BuildSend failed: the HttpData is deleted, the buffer left behind
    | Build(t: nat)            // BuildSend succeeded: the HttpData is deleted
    | FailSend(t: nat)         // WSASend failed: the buffer is left behind
    | Send(t: nat)             // WSASend accepted the buffer
    | Remove(t: nat)           // RemoveIOData deletes the buffer object
    | Allocate(t: nat, io: T)  // GetNewIOData
    | Post(t: nat)             // PostRecv of the new object

  predicate Enabled<T(==), D(==)>(w: World<T, D>, a: Action<T, D>) {
    match a
    case Take(t, io) => t !in w.busy && io in w.posted
    case Reject(t) => t in w.busy && w.busy[t].Checking?
    case Await(t) => t in w.busy && w.busy[t].Checking?
    case Create(t, data) => t in w.busy && w.busy[t].Checking? && data !in w.created
    case FailBuild(t) => t in w.busy && w.busy[t].Answering?
    case Build(t) => t in w.busy && w.busy[t].Answering?
    case FailSend(t) => t in w.busy && w.busy[t].Sending?
    case Send(t) => t in w.busy && w.busy[t].Sending?
    case Remove(t) => t in w.busy && w.busy[t].Removing?
    case Allocate(t, io) => t in w.busy && w.busy[t].Renewing? && io !in w.objects
    case Post(t) => t in w.busy && w.busy[t].Posting?
  }

  function Apply<T(==), D(==)>(w: World<T, D>, a: Action<T, D>): World<T, D>
    requires Enabled(w, a)
  {
    match a
    case Take(t, io) => w.(posted := w.posted - {io}, busy := w.busy[t := Checking(io)])
    case Reject(t) => w.(dropped := w.dropped + {w.busy[t].io}, busy := w.busy - {t}, rejected := w.rejected + 1)
    case Await(t) =>
      w.(posted := w.posted + {w.busy[t].io}, busy := w.busy[t := Renewing], incomplete := w.incomplete + 1)
    case Create(t, data) => w.(created := w.created + {data}, busy := w.busy[t := Answering(w.busy[t].io, data)])
    case FailBuild(t) =>
      w.(released := w.released + {w.busy[t].data}, dropped := w.dropped + {w.busy[t].io},
         busy := w.busy[t := Renewing])
    case Build(t) => w.(released := w.released + {w.busy[t].data}, busy := w.busy[t := Sending(w.busy[t].io)])
    case FailSend(t) => w.(dropped := w.dropped + {w.busy[t].io}, busy := w.busy[t := Renewing])
    case Send(t) => w.(busy := w.busy[t := Removing(w.busy[t].io)])
    case Remove(t) => w.(deleted := w.deleted + {w.busy[t].io}, busy := w.busy[t := Renewing])
    case Allocate(t, io) => w.(objects := w.objects + {io}, busy := w.busy[t := Posting(io)])
    case Post(t) => w.(posted := w.posted + {w.busy[t].io}, busy := w.busy - {t})
  }

  // ----- runs -----

  predicate Runs<T(==), D(==)>(w: World<T, D>, acts: seq<Action<T, D>>)
    decreases |acts|
  {
    acts == [] || (Enabled(w, acts[0]) && Runs(Apply(w, acts[0]), acts[1..]))
  }

  function After<T(==), D(==)>(w: World<T, D>, acts: seq<Action<T, D>>): World<T, D>
    requires Runs(w, acts)
    decreases |acts|
  {
    if acts == [] then w else After(Apply(w, acts[0]), acts[1..])
  }

  // ----- ownership -----

  predicate HeldBySome<T(==), D(==)>(w: World<T, D>, io: T) {
    exists t | t in w.busy :: w.busy[t].Holds() && w.busy[t].io == io
  }

  predicate CarriedBySome<T(==), D(==)>(w: World<T, D>, data: D) {
    exists t | t in w.busy :: w.busy[t].Answering? && w.busy[t].data == data
  }

  /** Every buffer object is in exactly one place, and no two workers hold the same one. */
  predicate BuffersOwned<T(==), D(==)>(w: World<T, D>) {
    && (forall io | io in w.objects ::
          io in w.posted || io in w.deleted || io in w.dropped || HeldBySome(w, io))
    && w.posted + w.deleted + w.dropped <= w.objects
    && w.posted !! w.deleted !! w.dropped
    && (forall t | t in w.busy && w.busy[t].Holds() ::
          w.busy[t].io in w.objects && w.busy[t].io !in w.posted + w.deleted + w.dropped)
    && (forall t, u | t in w.busy && u in w.busy && t != u && w.busy[t].Holds() && w.busy[u].Holds() ::
          w.busy[t].io != w.busy[u].io)
  }

  /** Every HttpData is deleted already or carried by the one worker that will delete it. */
  predicate DataOwned<T(==), D(==)>(w: World<T, D>) {
    && (forall d | d in w.created :: d in w.released || CarriedBySome(w, d))
    && w.released <= w.created
    && (forall t | t in w.busy && w.busy[t].Answering? ::
          w.busy[t].data in w.created && w.busy[t].data !in w.released)
    && (forall t, u | t in w.busy && u in w.busy && t != u && w.busy[t].Answering? && w.busy[u].Answering? ::
          w.busy[t].data != w.busy[u].data)
  }

  /** Posted receives, counting each busy worker as the one it took and will replace. */
  predicate Balanced<T(==), D(==)>(w: World<T, D>, initial: nat) {
    |w.posted| + |w.busy| + w.rejected == initial + w.incomplete
  }

  predicate Owned<T(==), D(==)>(w: World<T, D>, initial: nat) {
    BuffersOwned(w) && DataOwned(w) && Balanced(w, initial)
  }

  lemma BuffersStay<T, D>(w: World<T, D>, a: Action<T, D>)
    requires BuffersOwned(w) && Enabled(w, a)
    ensures BuffersOwned(Apply(w, a))
  {
    var v := Apply(w, a);
    forall io | io in v.objects
      ensures io in v.posted || io in v.deleted || io in v.dropped || HeldBySome(v, io)
    {
      if io in w.objects && HeldBySome(w, io) {
        var u :| u in w.busy && w.busy[u].Holds() && w.busy[u].io == io;
        assert (u in v.busy && v.busy[u].Holds() && v.busy[u].io == io) || io in v.posted + v.deleted + v.dropped;
      } else {
        assert (a.t in v.busy && v.busy[a.t].Holds() && v.busy[a.t].io == io) || io in v.posted + v.deleted + v.dropped;
      }
    }
  }

  lemma DataStays<T, D>(w: World<T, D>, a: Action<T, D>)
    requires DataOwned(w) && Enabled(w, a)
    ensures DataOwned(Apply(w, a))
  {
    var v := Apply(w, a);
    forall d | d in v.created
      ensures d in v.released || CarriedBySome(v, d)
    {
      if d in w.created && CarriedBySome(w, d) {
        var u :| u in w.busy && w.busy[u].Answering? && w.busy[u].data == d;
        assert (u in v.busy && v.busy[u].Answering? && v.busy[u].data == d) || d in v.released;
      } else {
        assert (a.t in v.busy && v.busy[a.t].Answering? && v.busy[a.t].data == d) || d in v.released;
      }
    }
  }

  lemma BalanceStays<T, D>(w: World<T, D>, a: Action<T, D>, initial: nat)
    requires BuffersOwned(w) && Balanced(w, initial) && Enabled(w, a)
    ensures Balanced(Apply(w, a), initial)
  {
    var v := Apply(w, a);
    BusyCount(w.busy, a.t);
    if a.t in v.busy {
      UpdateCount(w.busy, a.t, v.busy[a.t]);
    }
  }

  lemma BusyCount<V>(m: map<nat, V>, t: nat)
    ensures t in m ==> |m - {t}| == |m| - 1
  {
    assert (m - {t}).Keys == m.Keys - {t};
  }

  lemma UpdateCount<V>(m: map<nat, V>, t: nat, v: V)
    ensures |m[t := v]| == if t in m then |m| else |m| + 1
  {
    assert m[t := v].Keys == m.Keys + {t};
  }

  lemma OwnedStays<T, D>(w: World<T, D>, a: Action<T, D>, initial: nat)
    requires Owned(w, initial) && Enabled(w, a)
    ensures Owned(Apply(w, a), initial)
  {
    BuffersStay(w, a);
    DataStays(w, a);
    BalanceStays(w, a, initial);
  }

  /** Ownership holds after every run. */
  lemma {:induction false} OwnedAlways<T, D>(w: World<T, D>, acts: seq<Action<T, D>>, initial: nat)
    requires Owned(w, initial) && Runs(w, acts)
    ensures Owned(After(w, acts), initial)
    decreases |acts|
  {
    if acts != [] {
      OwnedStays(w, acts[0], initial);
      OwnedAlways(Apply(w, acts[0]), acts[1..], initial);
    }
  }

  /** At start-up some receives are posted and nothing else exists. */
  predicate Started<T(==), D(==)>(w: World<T, D>) {
    && w.objects == w.posted
    && w.deleted == w.dropped == {}
    && w.created == w.released == {}
    && w.busy == map[]
    && w.incomplete == w.rejected == 0
  }

  /**
   Whenever no worker is inside DoRecv, the allocated buffers are the disjoint union of posted,
   deleted and dropped ones, every HttpData has been deleted, and the number of posted receives
   has grown by the incomplete messages and shrunk by the rejected ones.
   */
  lemma QuiescentAccount<T, D>(w: World<T, D>, acts: seq<Action<T, D>>)
    requires Started(w) && Runs(w, acts) && After(w, acts).busy == map[]
    ensures var v := After(w, acts);
            && v.objects == v.posted + v.deleted + v.dropped
            && v.posted !! v.deleted !! v.dropped
            && v.created == v.released
            && |v.posted| == |w.posted| + v.incomplete - v.rejected
  {
    OwnedAlways(w, acts, |w.posted|);
    var v := After(w, acts);
    assert forall io | io in v.objects :: io in v.posted + v.deleted + v.dropped;
  }

  /** The buffer an action deletes or the HttpData it deletes was not deleted before and is not posted. */
  lemma DeletedOnce<T, D>(w: World<T, D>, acts: seq<Action<T, D>>, a: Action<T, D>)
    requires Started(w) && Runs(w, acts) && Enabled(After(w, acts), a)
    ensures var v := After(w, acts);
            && (a.Remove? ==> v.busy[a.t].io !in v.deleted && v.busy[a.t].io !in v.posted)
            && (a.Build? || a.FailBuild? ==> v.busy[a.t].data !in v.released)
            && (a.Await? || a.Post? ==> v.busy[a.t].io !in v.deleted && v.busy[a.t].io !in v.posted)
            && (a.Take? ==> a.io !in v.deleted)
  {
    OwnedAlways(w, acts, |w.posted|);
  }

  /** The actions that leave a buffer behind without deleting or posting it. */
  predicate Drops<T, D>(a: Action<T, D>) {
    a.Reject? || a.FailBuild? || a.FailSend?
  }

  function DropCount<T, D>(acts: seq<Action<T, D>>): nat {
    if acts == [] then 0 else (if Drops(acts[0]) then 1 else 0) + DropCount(acts[1..])
  }

  function RemoveCount<T, D>(acts: seq<Action<T, D>>): nat {
    if acts == [] then 0 else (if acts[0].Remove? then 1 else 0) + RemoveCount(acts[1..])
  }

  function CreateCount<T, D>(acts: seq<Action<T, D>>): nat {
    if acts == [] then 0 else (if acts[0].Create? then 1 else 0) + CreateCount(acts[1..])
  }

  lemma OneObject<T, D>(w: World<T, D>, a: Action<T, D>)
    requires BuffersOwned(w) && DataOwned(w) && Enabled(w, a)
    ensures |Apply(w, a).deleted| == |w.deleted| + if a.Remove? then 1 else 0
    ensures |Apply(w, a).dropped| == |w.dropped| + if Drops(a) then 1 else 0
    ensures |Apply(w, a).created| == |w.created| + if a.Create? then 1 else 0
  {
  }

  /** Each deletion deletes a different buffer, each drop leaves a different one behind, each HttpData made is new. */
  lemma {:induction false} EveryObjectOnce<T, D>(w: World<T, D>, acts: seq<Action<T, D>>, initial: nat)
    requires Owned(w, initial) && Runs(w, acts)
    ensures var v := After(w, acts);
            && |v.deleted| == |w.deleted| + RemoveCount(acts)
            && |v.dropped| == |w.dropped| + DropCount(acts)
            && |v.created| == |w.created| + CreateCount(acts)
    decreases |acts|
  {
    if acts != [] {
      var v := Apply(w, acts[0]);
      OwnedStays(w, acts[0], initial);
      OneObject(w, acts[0]);
      EveryObjectOnce(v, acts[1..], initial);
    }
  }

  lemma {:induction false} RunsAppend<T, D>(w: World<T, D>, acts: seq<Action<T, D>>, more: seq<Action<T, D>>)
    requires Runs(w, acts) && Runs(After(w, acts), more)
    ensures Runs(w, acts + more) && After(w, acts + more) == After(After(w, acts), more)
    decreases |acts|
  {
    if acts == [] {
      assert acts + more == more;
    } else {
      RunsAppend(Apply(w, acts[0]), acts[1..], more);
      assert (acts + more)[1..] == acts[1..] + more;
    }
  }

  lemma RunsOneMore<T, D>(w: World<T, D>, acts: seq<Action<T, D>>, a: Action<T, D>)
    requires Runs(w, acts) && Enabled(After(w, acts), a)
    ensures Runs(w, acts + [a]) && After(w, acts + [a]) == Apply(After(w, acts), a)
  {
    assert Runs(After(w, acts), [a]) && After(After(w, acts), [a]) == Apply(After(w, acts), a);
    RunsAppend(w, acts, [a]);
  }

  lemma OneRuns<T, D>(w: World<T, D>, a: Action<T, D>)
    requires Enabled(w, a)
    ensures Runs(w, [a]) && After(w, [a]) == Apply(w, a)
  {
    assert Runs(Apply(w, a), []) && [a][1..] == [];
  }

  lemma TwoRun<T, D>(w: World<T, D>, a: Action<T, D>, b: Action<T, D>)
    requires Enabled(w, a) && Enabled(Apply(w, a), b)
    ensures Runs(w, [a, b]) && After(w, [a, b]) == Apply(Apply(w, a), b)
  {
    OneRuns(w, a);
    RunsOneMore(w, [a], b);
    assert [a] + [b] == [a, b];
  }

  // ----- every call ends, whatever the other workers do -----

  /** The most steps a worker still makes before it is idle. */
  function StepsLeft<T, D>(stage: Stage<T, D>): nat {
    match stage
    case Checking(_) => 6
    case Answering(_, _) => 5
    case Sending(_) => 4
    case Removing(_) => 3
    case Renewing => 2
    case Posting(_) => 1
  }

  /** The same for all workers numbered below n. */
  function Left<T, D>(busy: map<nat, Stage<T, D>>, n: nat): nat {
    if n == 0 then 0 else Left(busy, n - 1) + if n - 1 in busy then StepsLeft(busy[n - 1]) else 0
  }

  function LeftOf<T, D>(busy: map<nat, Stage<T, D>>, t: nat): nat {
    if t in busy then StepsLeft(busy[t]) else 0
  }

  /** Changing one worker's stage changes only its share. */
  lemma {:induction false} LeftChange<T, D>(
    busy: map<nat, Stage<T, D>>, more: map<nat, Stage<T, D>>, t: nat, n: nat)
    requires forall u: nat | u != t :: LeftOf(more, u) == LeftOf(busy, u)
    ensures Left(more, n) == Left(busy, n) + if t < n then LeftOf(more, t) - LeftOf(busy, t) else 0
  {
    if n > 0 {
      LeftChange(busy, more, t, n - 1);
      assert LeftOf(more, n - 1) == LeftOf(busy, n - 1) || n - 1 == t;
    }
  }

  /** Every step but the taking of a completed receive brings its worker nearer to idle. */
  lemma StepLeft<T, D>(w: World<T, D>, a: Action<T, D>, n: nat)
    requires Enabled(w, a) && a.t < n
    ensures Left(Apply(w, a).busy, n) + 1 <= Left(w.busy, n) + if a.Take? then 7 else 0
  {
    LeftChange(w.busy, Apply(w, a).busy, a.t, n);
  }

  function TakeCount<T, D>(acts: seq<Action<T, D>>): nat {
    if acts == [] then 0 else (if acts[0].Take? then 1 else 0) + TakeCount(acts[1..])
  }

  lemma {:induction false} StepsBounded<T, D>(w: World<T, D>, acts: seq<Action<T, D>>, n: nat)
    requires Runs(w, acts) && forall a | a in acts :: a.t < n
    ensures |acts| + Left(After(w, acts).busy, n) <= Left(w.busy, n) + 7 * TakeCount(acts)
    decreases |acts|
  {
    if acts != [] {
      assert acts[0] in acts;
      StepLeft(w, acts[0], n);
      StepsBounded(Apply(w, acts[0]), acts[1..], n);
    }
  }

  lemma {:induction false} LeftEmpty<T, D>(n: nat)
    ensures Left<T, D>(map[], n) == 0
  {
    if n > 0 {
      LeftEmpty<T, D>(n - 1);
    }
  }

  /** In every interleaving of n workers, each receive taken costs at most seven steps. */
  lemma CallsEnd<T, D>(w: World<T, D>, acts: seq<Action<T, D>>, n: nat)
    requires Started(w) && Runs(w, acts) && forall a | a in acts :: a.t < n
    ensures |acts| + Left(After(w, acts).busy, n) <= 7 * TakeCount(acts)
  {
    StepsBounded(w, acts, n);
    LeftEmpty<T, D>(n);
  }

  /** As long as an object can be allocated, a busy worker can go on alone until it is idle. */
  lemma {:induction false} WorkerIdles<T, D>(w: World<T, D>, t: nat, io: T)
    requires t in w.busy && io !in w.objects
    ensures exists acts: seq<Action<T, D>> ::
              && Runs(w, acts)
              && After(w, acts).busy == w.busy - {t}
              && After(w, acts).objects <= w.objects + {io}
    decreases StepsLeft(w.busy[t])
  {
    var a := match w.busy[t]
             case Checking(_) => Await(t)
             case Answering(_, _) => Build(t)
             case Sending(_) => Send(t)
             case Removing(_) => Remove(t)
             case Renewing => Allocate(t, io)
             case Posting(_) => Post(t);
    var v := Apply(w, a);
    if w.busy[t].Posting? {
      OneRuns(w, a);
    } else if w.busy[t].Renewing? {
      TwoRun(w, a, Post(t));
      assert After(w, [a, Post(t)]).busy == w.busy - {t};
    } else {
      WorkerIdles(v, t, io);
      var acts :| Runs(v, acts) && After(v, acts).busy == v.busy - {t} && After(v, acts).objects <= v.objects + {io};
      OneRuns(w, a);
      RunsAppend(w, [a], acts);
      assert v.busy - {t} == w.busy - {t};
      assert Runs(w, [a] + acts);
    }
  }

  /** So from every state, with one unallocated object per busy worker, some run leaves no worker busy. */
  lemma {:induction false} AllIdle<T, D>(w: World<T, D>, supply: set<T>)
    requires supply !! w.objects && |supply| >= |w.busy|
    ensures exists acts: seq<Action<T, D>> :: Runs(w, acts) && After(w, acts).busy == map[]
    decreases |w.busy|
  {
    if w.busy == map[] {
      assert Runs(w, []) && After(w, []) == w;
    } else {
      var t :| t in w.busy;
      var io :| io in supply;
      WorkerIdles(w, t, io);
      var acts: seq<Action<T, D>> :| Runs(w, acts) && After(w, acts).busy == w.busy - {t} &&
                                     After(w, acts).objects <= w.objects + {io};
      var v := After(w, acts);
      BusyCount(w.busy, t);
      AllIdle(v, supply - {io});
      var more :| Runs(v, more) && After(v, more).busy == map[];
      RunsAppend(w, acts, more);
      assert Runs(w, acts + more);
    }
  }

  // ----- one call of DoRecv -----

  datatype Outcome = Incomplete | NotGet | BuildFailed | SendFailed | Sent

  /** When RemoveIOData runs, the buffer is nowhere else, and afterwards only among the deleted ones. */
  lemma RemovedOnce<T, D>(w: World<T, D>, t: nat)
    requires BuffersOwned(w) && Enabled(w, Remove(t))
    ensures var io := w.busy[t].io;
            var v := Apply(w, Remove(t));
            && io !in w.posted + w.deleted + w.dropped
            && io in v.objects && io in v.deleted && io !in v.posted + v.dropped && !HeldBySome(v, io)
            && |v.deleted| == |w.deleted| + 1
            && BuffersOwned(v)
  {
    BuffersStay(w, Remove(t));
  }

  /** Between the creation of the HttpData and the old buffer being settled. */
  function SendScript<T, D>(t: nat, outcome: Outcome): seq<Action<T, D>> {
    match outcome
    case BuildFailed => [FailBuild(t)]
    case SendFailed => [Build(t), FailSend(t)]
    case Sent => [Build(t), Send(t), Remove(t)]
    case _ => []
  }

  /** The replacement buffer is allocated and posted. */
  function Renewal<T, D>(t: nat, io: T): seq<Action<T, D>> {
    [Allocate(t, io), Post(t)]
  }

  /** The actions of one whole call, from the completion taken to worker t idle again. */
  function Script<T, D>(t: nat, outcome: Outcome, data: Option<D>, io: Option<T>): seq<Action<T, D>>
    requires ScriptObjects(outcome, data, io)
  {
    if outcome == NotGet then [Reject(t)]
    else if outcome == Incomplete then [Await(t)] + Renewal(t, io.value)
    else [Create(t, data.value)] + SendScript(t, outcome) + Renewal(t, io.value)
  }

  /** A rejected message makes no object, an incomplete one only the next buffer. */
  predicate ScriptObjects<T, D>(outcome: Outcome, data: Option<D>, io: Option<T>) {
    && (io.Some? <==> outcome != NotGet)
    && (data.Some? <==> outcome != NotGet && outcome != Incomplete)
  }

  lemma ThreeRun<T, D>(w: World<T, D>, a: Action<T, D>, b: Action<T, D>, c: Action<T, D>)
    requires Enabled(w, a) && Enabled(Apply(w, a), b) && Enabled(Apply(Apply(w, a), b), c)
    ensures Runs(w, [a, b, c]) && After(w, [a, b, c]) == Apply(Apply(Apply(w, a), b), c)
  {
    TwoRun(w, a, b);
    RunsOneMore(w, [a, b], c);
    assert [a, b] + [c] == [a, b, c];
  }

  /** The world once a worker that was answering is about to renew. */
  function Settled<T(==), D(==)>(w: World<T, D>, t: nat, outcome: Outcome): World<T, D>
    requires t in w.busy && w.busy[t].Answering?
  {
    w.(deleted := w.deleted + (if outcome == Sent then {w.busy[t].io} else {}),
       dropped := w.dropped + (if outcome == Sent then {} else {w.busy[t].io}),
       released := w.released + {w.busy[t].data},
       busy := w.busy[t := Renewing])
  }

  lemma SameWorker<V>(busy: map<nat, V>, t: nat, x: V, y: V)
    ensures busy[t := x][t := y] == busy[t := y]
  {
  }

  /** The sending part can always run to its end, settles buffer and HttpData, and leaves its worker about to renew. */
  lemma SendEffect<T, D>(w: World<T, D>, t: nat, outcome: Outcome)
    requires t in w.busy && w.busy[t].Answering? && outcome in {BuildFailed, SendFailed, Sent}
    ensures Runs(w, SendScript(t, outcome))
    ensures After(w, SendScript(t, outcome)) == Settled(w, t, outcome)
  {
    match outcome
    case BuildFailed => OneRuns(w, FailBuild(t));
    case SendFailed => TwoRun(w, Build(t), FailSend(t));
    case Sent => ThreeRun(w, Build(t), Send(t), Remove(t));
  }

  lemma RenewalRuns<T, D>(w: World<T, D>, t: nat, io: T)
    requires t in w.busy && w.busy[t].Renewing? && io !in w.objects
    ensures Runs(w, Renewal(t, io)) && t !in After(w, Renewal(t, io)).busy
    ensures After(w, Renewal(t, io)) == Apply(Apply(w, Allocate(t, io)), Post(t))
  {
    TwoRun(w, Allocate(t, io), Post(t));
  }

  /** The world a call that got as far as answering ends in. */
  lemma AnsweredCall<T, D>(w: World<T, D>, t: nat, outcome: Outcome, data: D, io: T)
    requires t in w.busy && w.busy[t].Checking? && outcome in {BuildFailed, SendFailed, Sent}
    requires data !in w.created && io !in w.objects
    ensures var v := Settled(Apply(w, Create(t, data)), t, outcome);
            && Enabled(v, Allocate(t, io))
            && Runs(w, Script(t, outcome, Some(data), Some(io)))
            && After(w, Script(t, outcome, Some(data), Some(io))) == Apply(Apply(v, Allocate(t, io)), Post(t))
  {
    OneRuns(w, Create(t, data));
    var v := Apply(w, Create(t, data));
    SendEffect(v, t, outcome);
    RunsAppend(w, [Create(t, data)], SendScript(t, outcome));
    RenewalRuns(Settled(v, t, outcome), t, io);
    RunsAppend(w, [Create(t, data)] + SendScript(t, outcome), Renewal(t, io));
  }

  lemma AwaitedCall<T, D>(w: World<T, D>, t: nat, io: T)
    requires t in w.busy && w.busy[t].Checking? && io !in w.objects
    ensures Runs(w, Script(t, Incomplete, None, Some(io)))
    ensures After(w, Script(t, Incomplete, None, Some(io))) ==
            Apply(Apply(Apply(w, Await(t)), Allocate(t, io)), Post(t))
  {
    OneRuns(w, Await(t));
    RenewalRuns(Apply(w, Await(t)), t, io);
    RunsAppend(w, [Await(t)], Renewal(t, io));
  }

  /** Only taking a completed receive removes a buffer from the posted ones. */
  lemma {:induction false} PostedGrow<T, D>(w: World<T, D>, acts: seq<Action<T, D>>)
    requires Runs(w, acts) && forall a | a in acts :: !a.Take?
    ensures w.posted <= After(w, acts).posted
    decreases |acts|
  {
    if acts != [] {
      assert acts[0] in acts;
      PostedGrow(Apply(w, acts[0]), acts[1..]);
    }
  }

  lemma {:induction false} LastStep<T, D>(w: World<T, D>, acts: seq<Action<T, D>>, a: Action<T, D>)
    requires Runs(w, acts + [a])
    ensures Runs(w, acts) && Enabled(After(w, acts), a) && After(w, acts + [a]) == Apply(After(w, acts), a)
    decreases |acts|
  {
    if acts == [] {
      assert acts + [a] == [a];
      OneRuns(w, a);
    } else {
      assert (acts + [a])[1..] == acts[1..] + [a];
      LastStep(Apply(w, acts[0]), acts[1..], a);
    }
  }

  /** However a call went, its worker is idle afterwards and every buffer that was posted still is. */
  lemma ScriptIdles<T, D>(w: World<T, D>, t: nat, outcome: Outcome, data: Option<D>, io: Option<T>)
    requires ScriptObjects(outcome, data, io) && Runs(w, Script(t, outcome, data, io))
    ensures var v := After(w, Script(t, outcome, data, io));
            t !in v.busy && w.posted <= v.posted
  {
    var acts := Script(t, outcome, data, io);
    PostedGrow(w, acts);
    var front, last := acts[..|acts| - 1], acts[|acts| - 1];
    assert acts == front + [last];
    LastStep(w, front, last);
  }

  /** What one call does to the buffer it was given, to the next one, and to its HttpData. */
  lemma CallEffect<T, D>(w: World<T, D>, t: nat, outcome: Outcome, data: Option<D>, next: Option<T>)
    requires t in w.busy && w.busy[t].Checking? && ScriptObjects(outcome, data, next)
    requires data.Some? ==> data.value !in w.created
    requires next.Some? ==> next.value !in w.objects
    ensures Runs(w, Script(t, outcome, data, next))
    ensures var v := After(w, Script(t, outcome, data, next));
            var io := w.busy[t].io;
            var renewed := if next.Some? then {next.value} else {};
            var made := if data.Some? then {data.value} else {};
            && v.objects == w.objects + renewed
            && v.posted == w.posted + renewed + (if outcome == Incomplete then {io} else {})
            && v.deleted == w.deleted + (if outcome == Sent then {io} else {})
            && v.dropped == w.dropped + (if outcome in {NotGet, BuildFailed, SendFailed} then {io} else {})
            && v.created == w.created + made && v.released == w.released + made
            && v.busy == w.busy - {t}
  {
    if outcome == NotGet {
      OneRuns(w, Reject(t));
    } else if outcome == Incomplete {
      AwaitedCall(w, t, next.value);
    } else {
      AnsweredCall(w, t, outcome, data.value, next.value);
    }
  }

  lemma {:induction false} RunsSplit<T, D>(w: World<T, D>, acts: seq<Action<T, D>>, more: seq<Action<T, D>>)
    requires Runs(w, acts + more)
    ensures Runs(w, acts) && Runs(After(w, acts), more)
    decreases |acts|
  {
    if acts == [] {
      assert acts + more == more;
    } else {
      assert (acts + more)[1..] == acts[1..] + more;
      RunsSplit(Apply(w, acts[0]), acts[1..], more);
    }
  }

  /** A script that can run makes new objects. */
  lemma ScriptFresh<T, D>(w: World<T, D>, t: nat, outcome: Outcome, data: Option<D>, next: Option<T>)
    requires t in w.busy && w.busy[t].Checking? && ScriptObjects(outcome, data, next)
    requires Runs(w, Script(t, outcome, data, next))
    ensures data.Some? ==> data.value !in w.created
    ensures next.Some? ==> next.value !in w.objects
  {
    if outcome == Incomplete {
      OneRuns(w, Await(t));
      RunsSplit(w, [Await(t)], Renewal(t, next.value));
    } else if outcome != NotGet {
      var create, send := [Create(t, data.value)], SendScript(t, outcome);
      RunsSplit(w, create + send, Renewal(t, next.value));
      RunsSplit(w, create, send);
      OneRuns(w, Create(t, data.value));
      SendEffect(Apply(w, Create(t, data.value)), t, outcome);
      RunsAppend(w, create, send);
    }
  }
}
