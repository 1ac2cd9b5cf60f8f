/** The Go registry under concurrency: any number of handlers interleaved at the granularity of their steps,
    a data file and its temporary neighbour, saves that can fail at each step, and crashes with restart.
    The server is the only writer of both files. */
module Machine {
  import opened Text
  import opened Nodes
  import opened Store
  import opened Admission

  /** Where a handler stands. From Locked to Finished it holds the lock. */
  datatype Thread =
    | Idle
    | Ready(job: Job)                              // admitted, about to take the lock
    | Locked(job: Job)
    | Applied(op: Op)                              // the map is changed
    | Sorted(op: Op, snapshot: seq<Node>)          // the listing to save is taken
    | Writing(op: Op, snapshot: seq<Node>)         // the temporary file is truncated
    | Written(op: Op, snapshot: seq<Node>)         // the temporary file is complete
    | Finished(reply: Reply)                       // about to release the lock
    | Done(reply: Reply)

  datatype Reply =
    | Refused(status: nat)
    | Stored(op: Op)                               // 200 to a write
    | SaveFailed(op: Op)                           // 500 to a write
    | NotFound                                     // 404 to a delete
    | Listed(nodes: seq<Node>)                     // 200 to a read

  datatype System = System(
    config: Config,
    mu: Option<nat>,                               // the thread holding the lock
    store: Table,
    path: NodeFile,
    tmp: NodeFile,
    threads: map<nat, Thread>)

  /** What has happened so far; no step reads it.
      `log` lists the map changes of this process in lock order, on top of `base`;
      `durable`, on top of `fileBase`, is the part the data file stands for.
      `blind`: the process could not read the file when it started.
      `overwritten`: a blind process has since replaced the file.
      `acked`: the 200 answers to writes, each with the position of its operation in the log. */
  datatype History = History(
    base: Table, log: seq<Op>,
    fileBase: Table, durable: seq<Op>,
    published: bool, blind: bool, overwritten: bool,
    acked: set<(nat, Op)>)

  datatype State = State(sys: System, hist: History)

  datatype Action =
    | Arrive(t: nat, request: Request)
    | Acquire(t: nat)
    | ChangeMap(t: nat)
    | TakeListing(t: nat, nodes: seq<Node>)        // the map walked in some order, then sorted
    | BeginWrite(t: nat)
    | EndWrite(t: nat)
    | Rename(t: nat)
    | FailSave(t: nat)                             // mkdir, write or rename reports an error
    | Release(t: nat)
    | Leave(t: nat)                                // the answer is sent
    | Crash(readable: bool)                        // the process dies and a new one starts

  function At(s: System, t: nat): Thread {
    if t in s.threads then s.threads[t] else Idle
  }

  predicate Holding(th: Thread) {
    th.Locked? || th.Applied? || th.Sorted? || th.Writing? || th.Written? || th.Finished?
  }

  function Goto(s: System, t: nat, th: Thread): System {
    s.(threads := s.threads[t := th])
  }

  predicate Enabled(s: System, a: Action) {
    match a
    case Arrive(t, _) => At(s, t).Idle?
    case Acquire(t) => At(s, t).Ready? && s.mu == None
    case ChangeMap(t) => At(s, t).Locked? && At(s, t).job.Write?
    case TakeListing(t, nodes) =>
      IsListing(nodes, s.store) && (At(s, t).Applied? || (At(s, t).Locked? && At(s, t).job.Read?))
    case BeginWrite(t) => At(s, t).Sorted?
    case EndWrite(t) => At(s, t).Writing?
    case Rename(t) => At(s, t).Written?
    case FailSave(t) => At(s, t).Sorted? || At(s, t).Writing? || At(s, t).Written?
    case Release(t) => At(s, t).Finished?
    case Leave(t) => At(s, t).Done?
    case Crash(_) => true
  }

  /** The change one step makes to the running system. */
  function Step(s: System, a: Action): System
    requires Enabled(s, a)
  {
    match a
    case Arrive(t, request) =>
      (match Judge(s.config, request)
       case Refuse(status) => Goto(s, t, Done(Refused(status)))
       case Admit(job) => Goto(s, t, Ready(job)))
    case Acquire(t) => Goto(s, t, Locked(At(s, t).job)).(mu := Some(t))
    case ChangeMap(t) =>
      var op := At(s, t).job.op;
      if op.Remove? && op.id !in s.store then Goto(s, t, Finished(NotFound))
      else Goto(s, t, Applied(op)).(store := Apply(s.store, op))
    case TakeListing(t, nodes) =>
      if At(s, t).Applied? then Goto(s, t, Sorted(At(s, t).op, nodes)) else Goto(s, t, Finished(Listed(nodes)))
    case BeginWrite(t) => Goto(s, t, Writing(At(s, t).op, At(s, t).snapshot)).(tmp := Torn)
    case EndWrite(t) => Goto(s, t, Written(At(s, t).op, At(s, t).snapshot)).(tmp := Holds(At(s, t).snapshot))
    case Rename(t) => Goto(s, t, Finished(Stored(At(s, t).op))).(path := s.tmp, tmp := Missing)
    case FailSave(t) => Goto(s, t, Finished(SaveFailed(At(s, t).op)))
    case Release(t) => Goto(s, t, Done(At(s, t).reply)).(mu := None)
    case Leave(t) => Goto(s, t, Idle)
    case Crash(readable) => s.(mu := None, threads := map[], store := if readable then Load(s.path) else map[])
  }

  /** The record kept of a step. */
  function Record(s: System, h: History, a: Action): History
    requires Enabled(s, a)
  {
    match a
    case ChangeMap(t) =>
      if Step(s, a).threads[t].Applied? then h.(log := h.log + [At(s, t).job.op]) else h
    case Rename(t) =>
      h.(fileBase := h.base, durable := h.log, published := true,
         overwritten := h.overwritten || h.blind, blind := false)
    case Release(t) =>
      if At(s, t).reply.Stored? then h.(acked := h.acked + {(|h.log|, At(s, t).reply.op)}) else h
    case Crash(readable) =>
      if readable then h.(base := h.fileBase, log := h.durable, blind := false)
      else h.(base := map[], log := [], blind := true)
    case _ => h
  }

  function Next(s: State, a: Action): State
    requires Enabled(s.sys, a)
  {
    State(Step(s.sys, a), Record(s.sys, s.hist, a))
  }

  /** A fresh process on a data file left by anyone, with no temporary file of its own yet. */
  function Boot(config: Config, path: NodeFile, tmp: NodeFile): State {
    State(System(config, None, Load(path), path, tmp, map[]),
          History(Load(path), [], Load(path), [], false, false, false, {}))
  }

  function Advance(before: Option<State>, a: Action): Option<State> {
    if before.Some? && Enabled(before.value.sys, a) then Some(Next(before.value, a)) else None
  }

  /** The state a run ends in; None when some step is not enabled. */
  function Run(s: State, actions: seq<Action>): Option<State> {
    if actions == [] then Some(s) else Advance(Run(s, actions[..|actions| - 1]), actions[|actions| - 1])
  }

  // ----- what every step keeps -----

  predicate Prefix(a: seq<Op>, b: seq<Op>) { a <= b }

  /** The lock is held by the one thread inside the critical section, if any. */
  predicate Exclusive(s: System) {
    forall t :: t in s.threads ==> (Holding(s.threads[t]) <==> s.mu == Some(t))
  }

  predicate MuIsLive(s: System) {
    s.mu.Some? ==> s.mu.value in s.threads
  }

  /** Memory is the replay of the log, the file the replay of its durable part. */
  predicate Replayed(s: System, h: History) {
    WellKeyed(h.base) && WellKeyed(h.fileBase) &&
    s.store == Replay(h.base, h.log) &&
    Load(s.path) == Replay(h.fileBase, h.durable) &&
    if h.blind then h.base == map[] else h.base == h.fileBase && Prefix(h.durable, h.log)
  }

  /** Once published, the file is the complete sorted listing of the durable map. */
  predicate Complete(s: System, h: History) {
    h.published ==> s.path.Holds? && IsListing(s.path.content, Replay(h.fileBase, h.durable))
  }

  predicate HolderFacts(s: System, h: History, th: Thread) {
    match th
    case Applied(op) => |h.log| > 0 && h.log[|h.log| - 1] == op
    case Sorted(op, nodes) => |h.log| > 0 && h.log[|h.log| - 1] == op && IsListing(nodes, s.store)
    case Writing(op, nodes) =>
      |h.log| > 0 && h.log[|h.log| - 1] == op && IsListing(nodes, s.store) && s.tmp == Torn
    case Written(op, nodes) =>
      |h.log| > 0 && h.log[|h.log| - 1] == op && IsListing(nodes, s.store) && s.tmp == Holds(nodes)
    case Finished(Stored(op)) => |h.log| > 0 && h.log[|h.log| - 1] == op && !h.blind && h.durable == h.log
    case Finished(Listed(nodes)) => IsListing(nodes, s.store)
    case _ => true
  }

  predicate Acked(h: History) {
    forall e :: e in h.acked ==> 1 <= e.0 <= |h.durable| && h.durable[e.0 - 1] == e.1
  }

  predicate Inv(s: State) {
    Exclusive(s.sys) && MuIsLive(s.sys) && Replayed(s.sys, s.hist) && Complete(s.sys, s.hist) &&
    (s.sys.mu.Some? ==> HolderFacts(s.sys, s.hist, At(s.sys, s.sys.mu.value))) &&
    (!s.hist.overwritten ==> Acked(s.hist))
  }

  lemma BootInv(config: Config, path: NodeFile, tmp: NodeFile)
    ensures Inv(Boot(config, path, tmp))
  {
    if path.Holds? { RebuildWellKeyed(path.content); }
  }

  lemma StepExclusive(s: System, a: Action)
    requires Exclusive(s) && MuIsLive(s) && Enabled(s, a)
    ensures Exclusive(Step(s, a)) && MuIsLive(Step(s, a))
  {
  }

  lemma PrefixGrows(a: seq<Op>, b: seq<Op>, op: Op)
    requires Prefix(a, b)
    ensures Prefix(a, b + [op])
  {
  }

  /** What changing the map does, in full. */
  lemma ChangeStep(s: State, t: nat)
    requires Enabled(s.sys, ChangeMap(t))
    ensures var op, n := At(s.sys, t).job.op, Next(s, ChangeMap(t));
            if op.Remove? && op.id !in s.sys.store then
              n == State(Goto(s.sys, t, Finished(NotFound)), s.hist)
            else
              n == State(Goto(s.sys, t, Applied(op)).(store := Apply(s.sys.store, op)),
                         s.hist.(log := s.hist.log + [op]))
  {
  }

  lemma LogReplayed(s: System, h: History, op: Op, threads: map<nat, Thread>)
    requires Replayed(s, h)
    ensures Replayed(s.(threads := threads, store := Apply(s.store, op)), h.(log := h.log + [op]))
  {
    ReplayStep(h.base, h.log, op);
    if !h.blind { PrefixGrows(h.durable, h.log, op); }
  }

  lemma ChangeReplayed(s: State, t: nat)
    requires Inv(s) && Enabled(s.sys, ChangeMap(t))
    ensures Replayed(Next(s, ChangeMap(t)).sys, Next(s, ChangeMap(t)).hist)
    ensures Complete(Next(s, ChangeMap(t)).sys, Next(s, ChangeMap(t)).hist)
  {
    var op := At(s.sys, t).job.op;
    ChangeStep(s, t);
    LogReplayed(s.sys, s.hist, op, s.sys.threads[t := Applied(op)]);
  }

  lemma RenameReplayed(s: State, t: nat)
    requires Inv(s) && Enabled(s.sys, Rename(t))
    ensures Replayed(Next(s, Rename(t)).sys, Next(s, Rename(t)).hist)
    ensures Complete(Next(s, Rename(t)).sys, Next(s, Rename(t)).hist)
  {
    assert s.sys.mu == Some(t);
    var nodes := At(s.sys, t).snapshot;
    assert s.sys.tmp == Holds(nodes) && IsListing(nodes, s.sys.store);
    ReplayInvariant(s.hist.base, s.hist.log);
    RebuildListing(nodes, s.sys.store);
  }

  /** Steps that change neither map, file nor log, and restarts. */
  lemma QuietReplayed(s: State, n: State)
    requires Replayed(s.sys, s.hist) && Complete(s.sys, s.hist)
    requires n.sys.path == s.sys.path && n.hist.fileBase == s.hist.fileBase && n.hist.durable == s.hist.durable
    requires n.hist.published == s.hist.published
    requires
      var store, h := n.sys.store, n.hist;
      || (store == s.sys.store && h.base == s.hist.base && h.log == s.hist.log && h.blind == s.hist.blind)
      || (store == Load(s.sys.path) && h.base == s.hist.fileBase && h.log == s.hist.durable && !h.blind)
      || (store == map[] == h.base && h.log == [] && h.blind)
    ensures Replayed(n.sys, n.hist) && Complete(n.sys, n.hist)
  {
  }

  lemma StepReplayed(s: State, a: Action)
    requires Inv(s) && Enabled(s.sys, a)
    ensures Replayed(Next(s, a).sys, Next(s, a).hist) && Complete(Next(s, a).sys, Next(s, a).hist)
  {
    hide Replayed, Complete, HolderFacts, Exclusive, MuIsLive, Acked, Load, Judge, Apply;
    if a.ChangeMap? {
      ChangeReplayed(s, a.t);
    } else if a.Rename? {
      RenameReplayed(s, a.t);
    } else {
      QuietReplayed(s, Next(s, a));
    }
  }

  lemma StepHolder(s: State, a: Action)
    requires Inv(s) && Enabled(s.sys, a)
    ensures Next(s, a).sys.mu.Some?
            ==> HolderFacts(Next(s, a).sys, Next(s, a).hist, At(Next(s, a).sys, Next(s, a).sys.mu.value))
  {
    hide Replayed, Complete, Acked, Load, Judge, Apply, IsListing;
    var n := Next(s, a);
    if n.sys.mu.Some? {
      var m := n.sys.mu.value;
      match a
      case Arrive(t, _) => assert t != m;
      case Leave(t) => assert t != m;
      case Acquire(t) => assert t == m;
      case Crash(_) =>
      case Release(t) =>
      case ChangeMap(t) => assert s.sys.mu == Some(t);
      case TakeListing(t, _) => assert s.sys.mu == Some(t);
      case BeginWrite(t) => assert s.sys.mu == Some(t);
      case EndWrite(t) => assert s.sys.mu == Some(t);
      case Rename(t) => assert s.sys.mu == Some(t);
      case FailSave(t) => assert s.sys.mu == Some(t);
    }
  }

  lemma StepAcked(s: State, a: Action)
    requires Inv(s) && Enabled(s.sys, a)
    requires !Next(s, a).hist.overwritten
    ensures Acked(Next(s, a).hist)
  {
    match a
    case Release(t) => assert s.sys.mu == Some(t);
    case Rename(t) => assert s.sys.mu == Some(t);
    case _ =>
  }

  /** Every step keeps the invariant. */
  lemma StepInv(s: State, a: Action)
    requires Inv(s) && Enabled(s.sys, a)
    ensures Inv(Next(s, a))
  {
    StepExclusive(s.sys, a);
    StepReplayed(s, a);
    StepHolder(s, a);
    if !Next(s, a).hist.overwritten { StepAcked(s, a); }
  }
}
