/**
 * The watcher thread of `notify_on_oom_v2` running beside the kernel: every interleaving of counter
 * changes, removals, the bounded inotify queue of inotify(7), and the accesses the thread makes.
 */
module OomProtocol {
  import opened Integers
  import opened Wrappers
  import opened OomThread

  /** The order of the set-up calls: the source's, and the reverse one it warns against. */
  datatype Order = WatchFirst | ReadFirst

  datatype Config = Config(order: Order, watches: Watches, capacity: nat)

  datatype Phase = Start | BaselineRead | ParentWatched | BothWatched | Running | Failed

  /**
   * The kernel's side. `owed` holds notifications the kernel is committed to but has not queued yet;
   * `attached` tells that the path still names the cgroup the events watch was put on.
   */
  datatype World = World(
    counter: nat, present: bool, readable: bool, open: bool, attached: bool,
    owed: multiset<Event>, queue: seq<Event>)

  /**
   * What has happened so far in the run; no step depends on it. `copyTaken` tells that the existence
   * check was passed with another cgroup at the path, `swallowed` that the overflow marker took the
   * place of an event that ends the thread.
   */
  datatype History = History(
    baseline: nat, top: nat, removed: bool, copied: bool, copyTaken: bool, swallowed: bool, faulted: bool)

  datatype State = State(world: World, phase: Phase, thread: Thread, history: History)

  datatype Queueing = Append | Coalesce | Overflow

  datatype Step =
    | SetUp                             // the next call of notify_on_oom_v2 before the spawn
    | Bump                              // the kernel counts an OOM
    | OtherKey                          // another line of memory.events changes
    | Remove(notices: multiset<Event>)  // the cgroup is removed or moved away
    | Recreate                          // a new cgroup appears under the same path
    | Noise(event: Event)               // say, the removal of a sibling
    | Readability(readable: bool)       // reading memory.events starts or stops to work
    | Close                             // the receiver is dropped
    | Merge(event: Event)               // the kernel drops one of two equal notifications it owes
    | Deliver(event: Event, how: Queueing)
    | Take(count: nat)                  // read_events returns a prefix of the queue
    | ReadError                         // read_events fails
    | Think                             // one access by the thread

  function ModifyEvent(w: Watches): Event {
    Event(w.eventsWd, {Modify}, None)
  }

  const OVERFLOW_EVENT := Event(-1, {QOverflow}, None)

  function Observe(world: World): Look {
    Look(world.present, if world.present && world.readable then Some(world.counter) else None, world.open)
  }

  /** A change of memory.events notifies only through a watch on the cgroup that changed. */
  function Notify(c: Config, s: State, world: World): World {
    if s.phase in {BothWatched, Running} && world.attached
    then world.(owed := world.owed + multiset{ModifyEvent(c.watches)}) else world
  }

  predicate Init(c: Config, s: State) {
    && s.phase == Start
    && s.world.owed == multiset{} && s.world.queue == [] && !s.world.attached
    && s.thread == Thread(0, 0, [], Idle, true)
    && s.history == History(0, 0, false, false, false, false, !s.world.readable)
  }

  /** The parent's watch reports that the watched name was deleted or moved away. */
  predicate IsRemoval(w: Watches, e: Event) {
    && e.wd == w.parentWd && e.name == Some(w.name) && (Delete in e.mask || MovedFrom in e.mask)
    && QOverflow !in e.mask
  }

  /** A removal, or the end of a watch or of the file system. */
  predicate EndsThread(w: Watches, e: Event) {
    IsRemoval(w, e) || (QOverflow !in e.mask && (Ignored in e.mask || Unmount in e.mask))
  }

  /** Not a removal, not the end of a watch, not an overflow, and no change of memory.events. */
  predicate MeansNothing(w: Watches, e: Event) {
    !EndsThread(w, e) && QOverflow !in e.mask && !(e.wd == w.eventsWd && Modify in e.mask)
  }

  lemma ClassifyByMask(w: Watches, e: Event)
    ensures Classify(w, e) == Stop <==> EndsThread(w, e)
    ensures Classify(w, e) == Skip <==> MeansNothing(w, e)
  {
    assert Delete in e.mask ==> Delete in e.mask * {Delete, MovedFrom};
    assert MovedFrom in e.mask ==> MovedFrom in e.mask * {Delete, MovedFrom};
    assert Ignored in e.mask ==> Ignored in e.mask * {Ignored, Unmount};
    assert Unmount in e.mask ==> Unmount in e.mask * {Ignored, Unmount};
  }

  predicate Enabled(c: Config, s: State, step: Step) {
    match step
    case SetUp => s.phase !in {Running, Failed}
    case Bump => s.world.present
    case OtherKey => s.world.present
    case Remove(notices) =>
      s.world.present && (forall e | e in notices :: EndsThread(c.watches, e) || MeansNothing(c.watches, e))
      && (s.phase in {BothWatched, Running} && s.world.attached ==>
            exists e | e in notices :: IsRemoval(c.watches, e))
    case Recreate => !s.world.present
    case Noise(e) => MeansNothing(c.watches, e)
    case Readability(_) => true
    case Close => true
    case Merge(e) => s.world.owed[e] >= 2
    case Deliver(e, how) =>
      e in s.world.owed
      && (match how
          case Append => |s.world.queue| < c.capacity
          case Coalesce => s.world.queue != [] && s.world.queue[|s.world.queue| - 1] == e
          case Overflow => |s.world.queue| >= c.capacity)
    case Take(n) => CanThink(s) && s.thread.batch == [] && 0 < n <= |s.world.queue|
    case ReadError => CanThink(s) && s.thread.batch == []
    case Think => CanThink(s) && s.thread.batch != []
  }

  predicate CanThink(s: State) {
    s.phase == Running && s.thread.live
  }

  /** The baseline read; failing it makes `notify_on_oom_v2` return an error. */
  function ReadBaseline(s: State, next: Phase): State {
    match Observe(s.world).count
    case None => s.(phase := Failed)
    case Some(n) =>
      s.(phase := next, thread := s.thread.(base := n), history := s.history.(baseline := n, top := n))
  }

  function Proceed(c: Config, s: State): State {
    match s.phase
    case Start => if c.order == ReadFirst then ReadBaseline(s, BaselineRead) else s.(phase := ParentWatched)
    case BaselineRead => s.(phase := ParentWatched)
    case ParentWatched =>
      if s.world.present then s.(phase := BothWatched, world := s.world.(attached := true)) else s.(phase := Failed)
    case BothWatched => if c.order == ReadFirst then s.(phase := Running) else ReadBaseline(s, Running)
    case _ => s
  }

  function Enqueue(q: seq<Event>, e: Event, how: Queueing): seq<Event> {
    match how
    case Append => q + [e]
    case Coalesce => q
    case Overflow => if OVERFLOW_EVENT in q then q else q + [OVERFLOW_EVENT]
  }

  function Apply(c: Config, s: State, step: Step): State
    requires Enabled(c, s, step)
  {
    var world := s.world;
    match step
    case SetUp => Proceed(c, s)
    case Bump => s.(world := Notify(c, s, world.(counter := world.counter + 1)))
    case OtherKey => s.(world := Notify(c, s, world))
    case Remove(notices) =>
      s.(world := world.(present := false, attached := false, owed := world.owed + notices),
         history := s.history.(removed := true))
    case Recreate => s.(world := world.(present := true, counter := 0), history := s.history.(copied := true))
    case Noise(e) => s.(world := world.(owed := world.owed + multiset{e}))
    case Readability(r) =>
      s.(world := world.(readable := r), history := s.history.(faulted := s.history.faulted || !r))
    case Close => s.(world := world.(open := false))
    case Merge(e) => s.(world := world.(owed := world.owed - multiset{e}))
    case Deliver(e, how) =>
      var swallowed := s.history.swallowed || (how == Overflow && EndsThread(c.watches, e));
      s.(world := world.(owed := world.owed - multiset{e}, queue := Enqueue(world.queue, e, how)),
         history := s.history.(swallowed := swallowed))
    case Take(n) =>
      s.(world := world.(queue := world.queue[n..]), thread := s.thread.(batch := world.queue[..n]))
    case ReadError => s.(thread := s.thread.Die(), history := s.history.(faulted := true))
    case Think =>
      var t := s.thread.Step(c.watches, Observe(world));
      var top := if t.hand.Counted? then Larger(s.history.top, t.hand.count) else s.history.top;
      var copyTaken := s.history.copyTaken || (t.live && t.hand.Checked? && !world.attached);
      s.(thread := t, history := s.history.(top := top, copyTaken := copyTaken))
  }

  function Advance(c: Config, s: Option<State>, step: Step): Option<State> {
    if s.Some? && Enabled(c, s.value, step) then Some(Apply(c, s.value, step)) else None
  }

  /** The state after a run, or None if one of the steps was not possible where it stands. */
  function Exec(c: Config, s: State, steps: seq<Step>): Option<State> {
    if steps == [] then Some(s)
    else
      Advance(c, Exec(c, s, steps[..|steps| - 1]), steps[|steps| - 1])
  }

  ghost predicate Reachable(c: Config, s: State) {
    exists s0, steps :: Init(c, s0) && Exec(c, s0, steps) == Some(s)
  }

  // What is still pending, and for which branch of the loop body.

  /** The part of the batch that has not passed the existence check yet. */
  function Unchecked(t: Thread): seq<Event> {
    if t.hand.Idle? || t.batch == [] then t.batch else t.batch[1..]
  }

  /** The part of the batch that will still lead to a read. */
  function Unread(t: Thread): seq<Event> {
    if !t.hand.Counted? || t.batch == [] then t.batch else t.batch[1..]
  }

  ghost predicate Owes(w: Watches, owed: multiset<Event>, actions: set<Action>) {
    exists e :: e in owed && Classify(w, e) in actions
  }

  ghost predicate Holds(w: Watches, events: seq<Event>, actions: set<Action>) {
    exists e :: e in events && Classify(w, e) in actions
  }

  ghost predicate RemovalPending(w: Watches, s: State) {
    || Owes(w, s.world.owed, {Stop}) || Holds(w, s.world.queue, {Stop, Resync})
    || Holds(w, Unchecked(s.thread), {Stop, Resync})
  }

  ghost predicate NoticePending(w: Watches, s: State) {
    Owes(w, s.world.owed, {Stop}) || Holds(w, s.world.queue, {Stop}) || Holds(w, s.thread.batch, {Stop})
  }

  ghost predicate CountPending(w: Watches, s: State) {
    || Owes(w, s.world.owed, {Recount}) || Holds(w, s.world.queue, {Recount, Resync})
    || Holds(w, Unread(s.thread), {Recount, Resync})
  }

  /** The base the thread will have once it has dealt with the count it holds. */
  function EffectiveBase(t: Thread): nat {
    if t.hand.Counted? then Larger(t.base, t.hand.count) else t.base
  }

  predicate Watching(s: State) {
    s.phase in {BothWatched, Running}
  }

  ghost predicate Inv(c: Config, s: State) {
    && WellFormed(c, s)
    && NothingInvented(c, s)
    && (Watching(s) && s.thread.live && !s.world.attached && !s.history.copyTaken ==> RemovalPending(c.watches, s))
    && (Watching(s) && s.thread.live && !s.world.attached && !s.history.swallowed ==> NoticePending(c.watches, s))
    && (CanThink(s) && s.world.attached && s.world.counter > EffectiveBase(s.thread) ==> CountPending(c.watches, s))
    && (s.phase == Running ==> Counts(s))
  }

  ghost predicate WellFormed(c: Config, s: State) {
    && (!s.phase.Running? ==> s.thread.batch == [] && s.thread.live && s.thread.sent == 0)
    && (s.thread.batch == [] ==> s.thread.hand == Idle)
    && (s.thread.hand.Counted? || s.thread.hand.Checked? ==>
          Classify(c.watches, s.thread.batch[0]) in {Resync, Recount})
    && (s.thread.hand.Checked? ==> Classify(c.watches, s.thread.batch[0]) == Resync)
    && (forall e | e in s.world.owed :: Classify(c.watches, e) != Resync)
    && (s.world.attached ==> s.world.present && (Watching(s) || s.phase == Failed))
    && (Watching(s) && !s.world.attached ==> s.history.removed && (s.world.present ==> s.history.copied))
    && |s.world.queue| <= c.capacity + 1
    && (|s.world.queue| == c.capacity + 1 ==> OVERFLOW_EVENT in s.world.queue)
    && (s.history.copyTaken ==> s.history.copied && s.phase == Running && !s.world.attached)
  }

  /** Nothing that ends the thread is pending, and the thread has not ended, without a cause. */
  ghost predicate NothingInvented(c: Config, s: State) {
    && (Owes(c.watches, s.world.owed, {Stop}) ==> s.history.removed)
    && (Holds(c.watches, s.world.queue, {Stop}) ==> s.history.removed)
    && (Holds(c.watches, s.thread.batch, {Stop}) ==> s.history.removed)
    && (!s.world.readable ==> s.history.faulted)
    && (!s.thread.live ==> s.history.removed || s.history.faulted || !s.world.open)
  }

  /** The numbers: the base is the highest count read, and a send goes with a strict rise of it. */
  predicate Counts(s: State) {
    && s.history.baseline + s.thread.sent <= s.thread.base
    && (s.thread.live ==> EffectiveBase(s.thread) == s.history.top)
    && s.thread.base <= s.history.top
    && (s.world.attached || !s.history.copied ==> s.history.top <= s.world.counter)
  }

  lemma InitInv(c: Config, s: State)
    requires Init(c, s)
    ensures Inv(c, s)
  {
  }

  // Every step keeps the invariant.

  lemma ModifyIsRecount(w: Watches)
    ensures Classify(w, ModifyEvent(w)) == Recount
    ensures Classify(w, OVERFLOW_EVENT) == Resync
  {
  }

  lemma SetUpKeeps(c: Config, s: State)
    requires c.order == WatchFirst && Inv(c, s) && Enabled(c, s, SetUp)
    ensures Inv(c, Apply(c, s, SetUp))
  {
  }

  lemma ChangeKeeps(c: Config, s: State, step: Step)
    requires Inv(c, s) && step in {Bump, OtherKey} && Enabled(c, s, step)
    ensures Inv(c, Apply(c, s, step))
  {
    ModifyIsRecount(c.watches);
    var s' := Apply(c, s, step);
    assert forall e | e in s.world.owed :: e in s'.world.owed;
    assert Watching(s) && s.world.attached ==> ModifyEvent(c.watches) in s'.world.owed;
  }

  lemma RemoveKeeps(c: Config, s: State, notices: multiset<Event>)
    requires Inv(c, s) && Enabled(c, s, Remove(notices))
    ensures Inv(c, Apply(c, s, Remove(notices)))
  {
    forall e | e in notices
      ensures Classify(c.watches, e) in {Stop, Skip} && (IsRemoval(c.watches, e) ==> Classify(c.watches, e) == Stop)
    {
      ClassifyByMask(c.watches, e);
    }
    var owed := s.world.owed + notices;
    assert forall e :: e in owed <==> e in s.world.owed || e in notices;
  }

  lemma NoiseKeeps(c: Config, s: State, e: Event)
    requires Inv(c, s) && Enabled(c, s, Noise(e))
    ensures Inv(c, Apply(c, s, Noise(e)))
  {
    ClassifyByMask(c.watches, e);
    var owed := s.world.owed + multiset{e};
    assert forall x :: x in owed <==> x in s.world.owed || x == e;
  }

  lemma MergeKeeps(c: Config, s: State, e: Event)
    requires Inv(c, s) && Enabled(c, s, Merge(e))
    ensures Inv(c, Apply(c, s, Merge(e)))
  {
    var owed := s.world.owed - multiset{e};
    assert forall x :: x in owed <==> x in s.world.owed;
  }

  lemma RestKeeps(c: Config, s: State, step: Step)
    requires Inv(c, s) && (step.Recreate? || step.Readability? || step.Close? || step.ReadError?)
    requires Enabled(c, s, step)
    ensures Inv(c, Apply(c, s, step))
  {
  }

  lemma Delivered(q: seq<Event>, owed: multiset<Event>, e: Event, how: Queueing)
    requires e in owed && (how == Coalesce ==> e in q)
    ensures forall x | x in q :: x in Enqueue(q, e, how)
    ensures forall x | x in Enqueue(q, e, how) :: x in q || x == OVERFLOW_EVENT || (how == Append && x == e)
    ensures if how == Overflow then OVERFLOW_EVENT in Enqueue(q, e, how) else e in Enqueue(q, e, how)
    ensures forall x | x in owed - multiset{e} :: x in owed
    ensures forall x | x in owed :: x == e || x in owed - multiset{e}
  {
    assert (q + [OVERFLOW_EVENT])[|q|] == OVERFLOW_EVENT && (q + [e])[|q|] == e;
    forall x | x in q
      ensures x in Enqueue(q, e, how)
    {
      var i :| 0 <= i < |q| && q[i] == x;
      assert Enqueue(q, e, how)[i] == x;
    }
  }

  lemma DeliverKeepsForm(c: Config, s: State, e: Event, how: Queueing)
    requires WellFormed(c, s) && Enabled(c, s, Deliver(e, how))
    ensures WellFormed(c, Apply(c, s, Deliver(e, how)))
  {
    Delivered(s.world.queue, s.world.owed, e, how);
  }

  lemma DeliverInventsNothing(c: Config, s: State, e: Event, how: Queueing)
    requires NothingInvented(c, s) && Enabled(c, s, Deliver(e, how))
    ensures NothingInvented(c, Apply(c, s, Deliver(e, how)))
  {
    Delivered(s.world.queue, s.world.owed, e, how);
    ModifyIsRecount(c.watches);
  }

  /** What was owed is in the queue now, or the overflow marker stands for it. */
  lemma DeliverKeepsPending(c: Config, s: State, e: Event, how: Queueing)
    requires Enabled(c, s, Deliver(e, how))
    ensures RemovalPending(c.watches, s) ==> RemovalPending(c.watches, Apply(c, s, Deliver(e, how)))
    ensures CountPending(c.watches, s) ==> CountPending(c.watches, Apply(c, s, Deliver(e, how)))
  {
    Delivered(s.world.queue, s.world.owed, e, how);
    ModifyIsRecount(c.watches);
  }

  /** A notice that is not swallowed stays a notice. */
  lemma DeliverKeepsNotice(c: Config, s: State, e: Event, how: Queueing)
    requires Enabled(c, s, Deliver(e, how)) && NoticePending(c.watches, s)
    requires !(how == Overflow && Classify(c.watches, e) == Stop)
    ensures NoticePending(c.watches, Apply(c, s, Deliver(e, how)))
  {
    Delivered(s.world.queue, s.world.owed, e, how);
  }

  lemma DeliverKeeps(c: Config, s: State, e: Event, how: Queueing)
    requires Inv(c, s) && Enabled(c, s, Deliver(e, how))
    ensures Inv(c, Apply(c, s, Deliver(e, how)))
  {
    ClassifyByMask(c.watches, e);
    DeliverKeepsForm(c, s, e, how);
    DeliverInventsNothing(c, s, e, how);
    DeliverKeepsPending(c, s, e, how);
    if NoticePending(c.watches, s) && !(how == Overflow && Classify(c.watches, e) == Stop) {
      DeliverKeepsNotice(c, s, e, how);
    }
  }

  lemma TakeKeeps(c: Config, s: State, n: nat)
    requires Inv(c, s) && Enabled(c, s, Take(n))
    ensures Inv(c, Apply(c, s, Take(n)))
  {
    var q := s.world.queue;
    assert forall x :: x in q <==> x in q[..n] || x in q[n..] by {
      assert q == q[..n] + q[n..];
    }
  }

  lemma BatchSplits(batch: seq<Event>, e: Event)
    requires batch != []
    ensures e in batch <==> e == batch[0] || e in batch[1..]
  {
    assert batch == [batch[0]] + batch[1..];
  }

  lemma ThinkKeepsForm(c: Config, s: State)
    requires WellFormed(c, s) && NothingInvented(c, s) && Enabled(c, s, Think)
    ensures WellFormed(c, Apply(c, s, Think)) && NothingInvented(c, Apply(c, s, Think))
  {
  }

  /** A thought takes no removal notice out of sight, except by finding another cgroup at the path. */
  lemma ThinkKeepsRemoval(c: Config, s: State)
    requires WellFormed(c, s) && RemovalPending(c.watches, s) && Enabled(c, s, Think)
    ensures var s' := Apply(c, s, Think);
            s'.thread.live && !s'.history.copyTaken && !s.world.attached ==> RemovalPending(c.watches, s')
  {
    forall e
      ensures e in s.thread.batch <==> e == s.thread.batch[0] || e in s.thread.batch[1..]
    {
      BatchSplits(s.thread.batch, e);
    }
  }

  /** A live thread never passes over an event that ends it. */
  lemma ThinkKeepsNotice(c: Config, s: State)
    requires WellFormed(c, s) && NoticePending(c.watches, s) && Enabled(c, s, Think)
    ensures Apply(c, s, Think).thread.live ==> NoticePending(c.watches, Apply(c, s, Think))
  {
    forall e
      ensures e in s.thread.batch <==> e == s.thread.batch[0] || e in s.thread.batch[1..]
    {
      BatchSplits(s.thread.batch, e);
    }
  }

  /** A thought takes no count out of sight: the event that leads to the read goes only with the read. */
  lemma ThinkKeepsCount(c: Config, s: State)
    requires Inv(c, s) && Enabled(c, s, Think)
    ensures var s' := Apply(c, s, Think);
            s'.thread.live && s.world.attached && s.world.counter > EffectiveBase(s'.thread) ==>
              CountPending(c.watches, s')
  {
    forall e
      ensures e in s.thread.batch <==> e == s.thread.batch[0] || e in s.thread.batch[1..]
    {
      BatchSplits(s.thread.batch, e);
    }
  }

  lemma ThinkKeeps(c: Config, s: State)
    requires Inv(c, s) && Enabled(c, s, Think)
    ensures Inv(c, Apply(c, s, Think))
  {
    ThinkKeepsForm(c, s);
    if !s.world.attached && !s.history.copyTaken {
      ThinkKeepsRemoval(c, s);
    }
    if !s.world.attached && !s.history.swallowed {
      ThinkKeepsNotice(c, s);
    }
    ThinkKeepsCount(c, s);
  }

  lemma StepKeeps(c: Config, s: State, step: Step)
    requires c.order == WatchFirst && Inv(c, s) && Enabled(c, s, step)
    ensures Inv(c, Apply(c, s, step))
  {
    match step
    case SetUp => SetUpKeeps(c, s);
    case Bump => ChangeKeeps(c, s, step);
    case OtherKey => ChangeKeeps(c, s, step);
    case Deliver(e, how) => DeliverKeeps(c, s, e, how);
    case Take(n) => TakeKeeps(c, s, n);
    case Think => ThinkKeeps(c, s);
    case Remove(notices) => RemoveKeeps(c, s, notices);
    case Noise(e) => NoiseKeeps(c, s, e);
    case Merge(e) => MergeKeeps(c, s, e);
    case _ => RestKeeps(c, s, step);
  }

  /** The invariant holds after every run of the source's set-up order. */
  lemma {:induction false} RunKeeps(c: Config, s: State, steps: seq<Step>)
    requires c.order == WatchFirst && Inv(c, s) && Exec(c, s, steps).Some?
    ensures Inv(c, Exec(c, s, steps).value)
  {
    if steps != [] {
      RunKeeps(c, s, steps[..|steps| - 1]);
      StepKeeps(c, Exec(c, s, steps[..|steps| - 1]).value, steps[|steps| - 1]);
    }
  }

  lemma ReachableInv(c: Config, s: State)
    requires c.order == WatchFirst && Reachable(c, s)
    ensures Inv(c, s)
  {
    var s0, steps :| Init(c, s0) && Exec(c, s0, steps) == Some(s);
    InitInv(c, s0);
    RunKeeps(c, s0, steps);
  }

  // What follows for every reachable state.

  /** No OOM is lost: a count above the base is in hand, or an event that leads to a read is pending. */
  lemma NoLostOom(c: Config, s: State)
    requires c.order == WatchFirst && Reachable(c, s) && CanThink(s) && s.world.attached
    requires s.world.counter > s.thread.base
    ensures CountPending(c.watches, s) || s.thread.hand == Counted(s.world.counter)
  {
    ReachableInv(c, s);
  }

  /**
   * No removal is missed, unless both an overflow swallowed a notice and a resynchronisation met
   * another cgroup under the same path; without the overflow the notice itself is still pending.
   */
  lemma NoMissedRemoval(c: Config, s: State)
    requires c.order == WatchFirst && Reachable(c, s) && CanThink(s) && !s.world.attached
    ensures RemovalPending(c.watches, s) || (s.history.copyTaken && s.history.swallowed)
    ensures !s.history.swallowed ==> NoticePending(c.watches, s)
    ensures s.history.copyTaken ==> s.history.copied
  {
    ReachableInv(c, s);
  }

  /** No end without a cause: siblings, overflows and other keys never close the channel. */
  lemma NoInventedEnd(c: Config, s: State)
    requires c.order == WatchFirst && Reachable(c, s) && s.phase == Running && !s.thread.live
    ensures s.history.removed || s.history.faulted || !s.world.open
  {
    ReachableInv(c, s);
  }

  /** Notifications are bounded by the OOMs counted since the baseline; other changes send none. */
  lemma BoundedNotifications(c: Config, s: State)
    requires c.order == WatchFirst && Reachable(c, s) && s.phase == Running
    ensures s.history.baseline + s.thread.sent <= s.thread.base <= s.history.top
    ensures s.thread.live && !s.thread.hand.Counted? ==> s.thread.base == s.history.top
    ensures !s.history.copied ==> s.history.baseline + s.thread.sent <= s.world.counter
  {
    ReachableInv(c, s);
  }

  predicate Quiet(s: State) {
    s.world.owed == multiset{} && s.world.queue == [] && s.thread.batch == []
  }

  /**
   * When nothing is pending the thread is up to date, and it has missed a removal exactly if a
   * resynchronisation took another cgroup for the watched one, which needs a swallowed notice.
   */
  lemma QuietMeansUpToDate(c: Config, s: State)
    requires c.order == WatchFirst && Reachable(c, s) && CanThink(s) && Quiet(s)
    ensures !s.world.attached <==> s.history.copyTaken
    ensures !s.world.attached ==> s.history.swallowed
    ensures s.world.attached ==> s.thread.base == s.world.counter
  {
    ReachableInv(c, s);
  }

  // Progress: once the environment rests, delivering and thinking come to an end, in the right state.

  predicate Draining(step: Step) {
    step.Deliver? || step.Take? || step.Think?
  }

  function Stage(h: Hand): nat {
    match h case Idle => 0 case Checked => 1 case Counted(_) => 2
  }

  function Fuel(s: State): int {
    6 * |s.world.owed| + 5 * |s.world.queue| + 4 * |s.thread.batch| - Stage(s.thread.hand)
  }

  /** No deliver, take or think step is possible any more. */
  ghost predicate Drained(c: Config, s: State) {
    forall step | Draining(step) :: !Enabled(c, s, step)
  }

  lemma PendingCanDrain(c: Config, s: State) returns (step: Step)
    requires CanThink(s) && !Quiet(s)
    ensures Draining(step) && Enabled(c, s, step)
  {
    if s.thread.batch != [] {
      step := Think;
    } else if s.world.queue != [] {
      step := Take(1);
    } else {
      var e :| e in s.world.owed;
      step := Deliver(e, if |s.world.queue| < c.capacity then Append else Overflow);
    }
  }

  lemma DrainedIsQuiet(c: Config, s: State)
    requires CanThink(s) && Drained(c, s)
    ensures Quiet(s)
  {
    if !Quiet(s) {
      var step := PendingCanDrain(c, s);
    }
  }

  /** Draining changes only what the thread read and what it or the queue overlooked. */
  predicate SameEvents(h: History, h': History) {
    h'.(top := h.top, copyTaken := h.copyTaken, swallowed := h.swallowed) == h
  }

  lemma DeliverBurns(c: Config, s: State, e: Event, how: Queueing)
    requires Enabled(c, s, Deliver(e, how))
    ensures Fuel(Apply(c, s, Deliver(e, how))) < Fuel(s)
  {
    var owed := s.world.owed - multiset{e};
    assert |owed| == |s.world.owed| - 1;
    assert |Enqueue(s.world.queue, e, how)| <= |s.world.queue| + 1;
  }

  lemma TakeBurns(c: Config, s: State, n: nat)
    requires WellFormed(c, s) && Enabled(c, s, Take(n))
    ensures Fuel(Apply(c, s, Take(n))) < Fuel(s)
  {
    assert |s.world.queue| == |s.world.queue[..n]| + |s.world.queue[n..]|;
  }

  lemma ThinkBurns(c: Config, s: State)
    requires WellFormed(c, s) && Enabled(c, s, Think)
    ensures Apply(c, s, Think).thread.live ==> Fuel(Apply(c, s, Think)) < Fuel(s)
  {
  }

  lemma DrainStep(c: Config, s: State, step: Step)
    requires WellFormed(c, s) && Draining(step) && Enabled(c, s, step)
    ensures var s' := Apply(c, s, step);
            && s'.world.(owed := s.world.owed, queue := s.world.queue) == s.world && s'.phase == s.phase
            && SameEvents(s.history, s'.history)
            && (s'.thread.live ==> s.thread.live && Fuel(s') < Fuel(s))
  {
    match step
    case Deliver(e, how) => DeliverBurns(c, s, e, how);
    case Take(n) => TakeBurns(c, s, n);
    case Think => ThinkBurns(c, s);
  }

  lemma {:induction false} DrainRun(c: Config, s: State, steps: seq<Step>)
    requires c.order == WatchFirst && Inv(c, s) && Exec(c, s, steps).Some?
    requires forall step | step in steps :: Draining(step)
    ensures var s' := Exec(c, s, steps).value;
            && s'.world.(owed := s.world.owed, queue := s.world.queue) == s.world && s'.phase == s.phase
            && SameEvents(s.history, s'.history)
            && (s'.thread.live ==> s.thread.live && |steps| + Fuel(s') <= Fuel(s))
  {
    if steps != [] {
      var before, step := steps[..|steps| - 1], steps[|steps| - 1];
      assert step in steps;
      DrainRun(c, s, before);
      RunKeeps(c, s, before);
      DrainStep(c, Exec(c, s, before).value, step);
    }
  }

  lemma ExecMore(c: Config, s: State, steps: seq<Step>, step: Step)
    ensures Exec(c, s, steps + [step]) == Advance(c, Exec(c, s, steps), step)
  {
    assert (steps + [step])[..|steps|] == steps;
  }

  lemma {:induction false} ExecConcat(c: Config, s: State, a: seq<Step>, b: seq<Step>)
    requires Exec(c, s, a).Some?
    ensures Exec(c, s, a + b) == Exec(c, Exec(c, s, a).value, b)
  {
    if b == [] {
      assert a + b == a;
    } else {
      var init, last := b[..|b| - 1], b[|b| - 1];
      ExecConcat(c, s, a, init);
      ExecMore(c, s, a + init, last);
      assert a + b == a + init + [last];
      assert Exec(c, Exec(c, s, a).value, b) == Advance(c, Exec(c, Exec(c, s, a).value, init), last);
    }
  }

  lemma ReachOn(c: Config, s: State, steps: seq<Step>)
    requires Reachable(c, s) && Exec(c, s, steps).Some?
    ensures Reachable(c, Exec(c, s, steps).value)
  {
    var s0, before :| Init(c, s0) && Exec(c, s0, before) == Some(s);
    ExecConcat(c, s0, before, steps);
  }

  /**
   * Once the cgroup is gone, re-created or not, draining takes boundedly many steps; if the thread
   * then lives, an overflow swallowed a notice and a resynchronisation met another cgroup.
   */
  lemma RemovalIsNoticed(c: Config, s: State, steps: seq<Step>)
    requires c.order == WatchFirst && Reachable(c, s) && CanThink(s) && !s.world.attached
    requires Exec(c, s, steps).Some? && forall step | step in steps :: Draining(step)
    ensures var s' := Exec(c, s, steps).value;
            && (s'.thread.live ==> |steps| <= Fuel(s))
            && (Drained(c, s') && s'.thread.live ==> s'.history.copyTaken && s'.history.swallowed)
  {
    ReachableInv(c, s);
    DrainRun(c, s, steps);
    ReachOn(c, s, steps);
    var s' := Exec(c, s, steps).value;
    ReachableInv(c, s');
    if Drained(c, s') && s'.thread.live {
      DrainedIsQuiet(c, s');
      QuietMeansUpToDate(c, s');
    }
  }

  /** The step that puts the overflow marker in place of an event that ends the thread. */
  predicate Swallows(c: Config, step: Step) {
    step.Deliver? && step.how == Overflow && EndsThread(c.watches, step.event)
  }

  lemma OnlyOverflowSwallows(c: Config, s: State, step: Step)
    requires Enabled(c, s, step)
    ensures Apply(c, s, step).history.swallowed <==> s.history.swallowed || Swallows(c, step)
  {
  }

  lemma {:induction false} SwallowedMeans(c: Config, s: State, steps: seq<Step>)
    requires Exec(c, s, steps).Some?
    ensures Exec(c, s, steps).value.history.swallowed <==>
              s.history.swallowed || exists step :: step in steps && Swallows(c, step)
  {
    if steps != [] {
      var before, last := steps[..|steps| - 1], steps[|steps| - 1];
      SwallowedMeans(c, s, before);
      OnlyOverflowSwallows(c, Exec(c, s, before).value, last);
      assert steps == before + [last];
      assert forall step :: step in steps <==> step in before || step == last;
    }
  }

  /** In a run in which no notice is swallowed, no removal is missed, whatever appears under the path. */
  lemma QueuedNoticeEndsThread(c: Config, s0: State, steps: seq<Step>)
    requires c.order == WatchFirst && Init(c, s0) && Exec(c, s0, steps).Some?
    requires forall step | step in steps :: !Swallows(c, step)
    ensures var s := Exec(c, s0, steps).value;
            !s.world.attached && CanThink(s) ==> NoticePending(c.watches, s) && !Drained(c, s)
  {
    var s := Exec(c, s0, steps).value;
    SwallowedMeans(c, s0, steps);
    if !s.world.attached && CanThink(s) {
      assert Reachable(c, s);
      NoMissedRemoval(c, s);
      if Drained(c, s) {
        DrainedIsQuiet(c, s);
      }
    }
  }

  /** While the cgroup stays, draining takes boundedly many steps and leaves the base at the counter. */
  lemma OomIsNoticed(c: Config, s: State, steps: seq<Step>)
    requires c.order == WatchFirst && Reachable(c, s) && CanThink(s)
    requires !s.history.removed && !s.history.faulted && s.world.open
    requires Exec(c, s, steps).Some? && forall step | step in steps :: Draining(step)
    ensures var s' := Exec(c, s, steps).value;
            && s'.thread.live && |steps| <= Fuel(s) && s'.world.counter == s.world.counter
            && (Drained(c, s') ==> s'.thread.base == s.world.counter)
  {
    ReachableInv(c, s);
    DrainRun(c, s, steps);
    ReachOn(c, s, steps);
    var s' := Exec(c, s, steps).value;
    ReachableInv(c, s');
    if Drained(c, s') {
      DrainedIsQuiet(c, s');
      QuietMeansUpToDate(c, s');
    }
  }

  // Two concrete runs: why the set-up order matters, and how a removal can go unnoticed.

  lemma ReachStep(c: Config, s: State, step: Step)
    requires Reachable(c, s) && Enabled(c, s, step)
    ensures Reachable(c, Apply(c, s, step))
  {
    assert Exec(c, s, [step][..0]) == Some(s);
    ReachOn(c, s, [step]);
  }

  /** A step named together with the state it leads to. */
  lemma Reach(c: Config, s: State, step: Step, s': State)
    requires Reachable(c, s) && Enabled(c, s, step) && Apply(c, s, step) == s'
    ensures Reachable(c, s')
  {
    ReachStep(c, s, step);
  }

  const FRESH := Thread(0, 0, [], Idle, true)
  const INITIAL_WORLD := World(0, true, true, true, false, multiset{}, [])
  const INITIAL := State(INITIAL_WORLD, Start, FRESH, History(0, 0, false, false, false, false, false))

  lemma InitialReachable(c: Config)
    ensures Reachable(c, INITIAL)
  {
    assert Exec(c, INITIAL, []) == Some(INITIAL);
  }

  /** With the baseline read before the watches an OOM in between is lost for good. */
  lemma ReadFirstLosesOom(w: Watches, capacity: nat) returns (s: State)
    ensures Reachable(Config(ReadFirst, w, capacity), s)
    ensures CanThink(s) && s.world.attached && Quiet(s) && s.world.counter > s.thread.base
  {
    var c := Config(ReadFirst, w, capacity);
    var bumped := INITIAL_WORLD.(counter := 1);
    var read := INITIAL.(phase := BaselineRead);
    InitialReachable(c);
    Reach(c, INITIAL, SetUp, read);
    Reach(c, read, Bump, read.(world := bumped));
    var parent := read.(phase := ParentWatched, world := bumped);
    Reach(c, read.(world := bumped), SetUp, parent);
    var both := parent.(phase := BothWatched, world := bumped.(attached := true));
    Reach(c, parent, SetUp, both);
    s := both.(phase := Running);
    Reach(c, both, SetUp, s);
  }

  /** The watcher runs, the cgroup was removed and made again, and only the removal notice is owed. */
  function Replaced(gone: Event): State {
    State(INITIAL_WORLD.(owed := multiset{gone}), Running, FRESH, History(0, 0, true, true, false, false, false))
  }

  lemma ReplacedReachable(c: Config, gone: Event)
    requires c.order == WatchFirst && IsRemoval(c.watches, gone)
    ensures Reachable(c, Replaced(gone))
  {
    var parent := INITIAL.(phase := ParentWatched);
    var both := INITIAL.(phase := BothWatched, world := INITIAL_WORLD.(attached := true));
    var running := both.(phase := Running);
    InitialReachable(c);
    Reach(c, INITIAL, SetUp, parent);
    Reach(c, parent, SetUp, both);
    Reach(c, both, SetUp, running);
    var removed := running.(world := INITIAL_WORLD.(present := false, owed := multiset{gone}),
                            history := INITIAL.history.(removed := true));
    assert gone in multiset{gone};
    Reach(c, running, Remove(multiset{gone}), removed);
    Reach(c, removed, Recreate, Replaced(gone));
  }

  function Copies(e: Event, n: nat): seq<Event> {
    seq(n, _ => e)
  }

  function ReplacedWith(gone: Event, queue: seq<Event>): State {
    Replaced(gone).(world := Replaced(gone).world.(queue := queue))
  }

  /** Events that mean nothing to the thread can fill the queue. */
  lemma {:induction false} FillingReachable(c: Config, gone: Event, noise: Event, n: nat)
    requires c.order == WatchFirst && n <= c.capacity
    requires IsRemoval(c.watches, gone) && MeansNothing(c.watches, noise)
    ensures Reachable(c, ReplacedWith(gone, Copies(noise, n)))
  {
    if n == 0 {
      assert Copies(noise, 0) == [];
      ReplacedReachable(c, gone);
    } else {
      var s, s' := ReplacedWith(gone, Copies(noise, n - 1)), ReplacedWith(gone, Copies(noise, n));
      FillingReachable(c, gone, noise, n - 1);
      var owing := s.(world := s.world.(owed := multiset{gone} + multiset{noise}));
      Reach(c, s, Noise(noise), owing);
      assert owing.world.owed - multiset{noise} == multiset{gone};
      assert Copies(noise, n - 1) + [noise] == Copies(noise, n);
      Reach(c, owing, Deliver(noise, Append), s');
    }
  }

  /** The thread at work on `batch`, with nothing else pending: the notice was swallowed. */
  function Working(gone: Event, batch: seq<Event>): State {
    State(INITIAL_WORLD, Running, FRESH.(batch := batch), History(0, 0, true, true, false, true, false))
  }

  /** With a full queue the overflow marker takes the place of the notice. */
  lemma OverflowReachable(c: Config, gone: Event, noise: Event)
    requires c.order == WatchFirst
    requires IsRemoval(c.watches, gone) && MeansNothing(c.watches, noise)
    ensures Reachable(c, Working(gone, Copies(noise, c.capacity) + [OVERFLOW_EVENT]))
  {
    var q := Copies(noise, c.capacity) + [OVERFLOW_EVENT];
    FillingReachable(c, gone, noise, c.capacity);
    var s := ReplacedWith(gone, Copies(noise, c.capacity));
    ModifyIsRecount(c.watches);
    var queued := Working(gone, []).(world := INITIAL_WORLD.(queue := q));
    assert gone in s.world.owed && s.world.owed - multiset{gone} == multiset{};
    Reach(c, s, Deliver(gone, Overflow), queued);
    assert q[..|q|] == q && q[|q|..] == [];
    Reach(c, queued, Take(|q|), Working(gone, q));
  }

  lemma {:induction false} NoiseIsSkipped(c: Config, gone: Event, noise: Event, n: nat)
    requires MeansNothing(c.watches, noise) && Reachable(c, Working(gone, Copies(noise, n) + [OVERFLOW_EVENT]))
    ensures Reachable(c, Working(gone, [OVERFLOW_EVENT]))
  {
    if n == 0 {
      assert Copies(noise, 0) + [OVERFLOW_EVENT] == [OVERFLOW_EVENT];
    } else {
      var batch, rest := Copies(noise, n) + [OVERFLOW_EVENT], Copies(noise, n - 1) + [OVERFLOW_EVENT];
      assert batch[0] == noise && batch[1..] == rest;
      Reach(c, Working(gone, batch), Think, Working(gone, rest));
      NoiseIsSkipped(c, gone, noise, n - 1);
    }
  }

  /** The thread handles the marker: it finds the path, reads the copy's count, and forgets the removal. */
  lemma ResyncMeetsCopy(c: Config, gone: Event) returns (s: State)
    requires Reachable(c, Working(gone, [OVERFLOW_EVENT]))
    ensures Reachable(c, s) && CanThink(s) && !s.world.attached && Quiet(s) && s.history.copyTaken
  {
    var full := FRESH.(batch := [OVERFLOW_EVENT]);
    var s0 := Working(gone, [OVERFLOW_EVENT]);
    var taken := s0.history.(copyTaken := true);
    ModifyIsRecount(c.watches);
    var checked := s0.(thread := full.(hand := Checked), history := taken);
    Reach(c, s0, Think, checked);
    var counted := checked.(thread := full.(hand := Counted(0)));
    Reach(c, checked, Think, counted);
    s := checked.(thread := FRESH);
    Reach(c, counted, Think, s);
  }

  /** The only gap, at any capacity: an overflow swallows the notice and the path exists again by then. */
  lemma CopyHidesRemoval(w: Watches, capacity: nat) returns (s: State)
    ensures Reachable(Config(WatchFirst, w, capacity), s)
    ensures CanThink(s) && !s.world.attached && Quiet(s) && s.history.copyTaken
  {
    var c := Config(WatchFirst, w, capacity);
    var gone := Event(w.parentWd, {Delete, IsDir}, Some(w.name));
    var sibling := Event(w.parentWd, {Delete, IsDir}, Some(w.name + "x"));
    assert |w.name + "x"| != |w.name|;
    OverflowReachable(c, gone, sibling);
    NoiseIsSkipped(c, gone, sibling, capacity);
    s := ResyncMeetsCopy(c, gone);
  }
}
