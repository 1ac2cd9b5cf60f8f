/** What holds in every run of the concurrent registry: linearisation, atomic publication, recovery, validity. */
module Recovery {
  import opened Text
  import opened Nodes
  import opened Validators
  import opened Store
  import opened Admission
  import opened Machine

  // ----- runs -----

  /** The last step of a run. */
  lemma LastStep(boot: State, init: seq<Action>, a: Action, s: State)
    requires Run(boot, init + [a]) == Some(s)
    ensures Run(boot, init).Some? && Enabled(Run(boot, init).value.sys, a)
    ensures s.sys == Step(Run(boot, init).value.sys, a)
  {
    hide Step, Record, Enabled;
    assert (init + [a])[..|init|] == init;
  }

  lemma RunSnoc(s: State, init: seq<Action>, a: Action)
    ensures Run(s, init + [a]) == Advance(Run(s, init), a)
  {
    assert (init + [a])[..|init|] == init;
  }

  lemma RunNone(s: State)
    ensures Run(s, []) == Some(s)
  {
  }

  lemma {:induction false} RunAppend(s: State, first: seq<Action>, second: seq<Action>)
    requires Run(s, first).Some?
    ensures Run(s, first + second) == Run(Run(s, first).value, second)
  {
    hide *;
    if second == [] {
      RunNone(Run(s, first).value);
      assert first + second == first;
    } else {
      var init, a := second[..|second| - 1], second[|second| - 1];
      assert second == init + [a] && first + second == first + init + [a];
      RunAppend(s, first, init);
      RunSnoc(s, first + init, a);
      RunSnoc(Run(s, first).value, init, a);
    }
  }

  lemma RunOne(s: State, a: Action)
    requires Enabled(s.sys, a)
    ensures Run(s, [a]) == Some(Next(s, a))
  {
    assert [a][..0] == [];
  }

  /** The invariant holds wherever a run from an invariant state ends. */
  lemma {:induction false} RunInv(s: State, actions: seq<Action>)
    requires Inv(s) && Run(s, actions).Some?
    ensures Inv(Run(s, actions).value)
  {
    if actions != [] {
      RunInv(s, actions[..|actions| - 1]);
      StepInv(Run(s, actions[..|actions| - 1]).value, actions[|actions| - 1]);
    }
  }

  ghost predicate Reachable(s: State, config: Config, path: NodeFile, tmp: NodeFile) {
    exists actions :: Run(Boot(config, path, tmp), actions) == Some(s)
  }

  lemma ReachableInv(s: State, config: Config, path: NodeFile, tmp: NodeFile)
    requires Reachable(s, config, path, tmp)
    ensures Inv(s)
  {
    BootInv(config, path, tmp);
    var actions :| Run(Boot(config, path, tmp), actions) == Some(s);
    RunInv(Boot(config, path, tmp), actions);
  }

  // ----- linearisation -----

  lemma OneHolder(s: State, config: Config, path: NodeFile, tmp: NodeFile)
    requires Reachable(s, config, path, tmp)
    ensures forall t, u :: Holding(At(s.sys, t)) && Holding(At(s.sys, u)) ==> t == u
  {
    ReachableInv(s, config, path, tmp);
  }

  /** A reader answers with the one sorted listing of the replayed log: reads and writes share one order. */
  lemma ReadsAreLinearised(s: State, config: Config, path: NodeFile, tmp: NodeFile, t: nat)
    requires Reachable(s, config, path, tmp)
    requires At(s.sys, t).Finished? && At(s.sys, t).reply.Listed?
    ensures IsListing(At(s.sys, t).reply.nodes, Replay(s.hist.base, s.hist.log))
    ensures forall nodes :: IsListing(nodes, s.sys.store) ==> nodes == At(s.sys, t).reply.nodes
  {
    ReachableInv(s, config, path, tmp);
    assert s.sys.mu == Some(t);
    forall nodes | IsListing(nodes, s.sys.store) ensures nodes == At(s.sys, t).reply.nodes {
      ListingUnique(nodes, At(s.sys, t).reply.nodes, s.sys.store);
    }
  }

  // ----- publication -----

  /** All handlers share one temporary path, yet a rename publishes the renaming handler's own snapshot,
      which is the sorted listing of the map at that very moment. */
  lemma RenamePublishesOwnSnapshot(s: State, config: Config, path: NodeFile, tmp: NodeFile, t: nat)
    requires Reachable(s, config, path, tmp) && Enabled(s.sys, Rename(t))
    ensures Step(s.sys, Rename(t)).path == Holds(At(s.sys, t).snapshot)
    ensures IsListing(At(s.sys, t).snapshot, s.sys.store)
  {
    ReachableInv(s, config, path, tmp);
    assert s.sys.mu == Some(t);
  }

  lemma StepPublishes(s: State, a: Action)
    requires Enabled(s.sys, a)
    ensures Next(s, a).hist.published == (s.hist.published || a.Rename?)
    ensures Next(s, a).sys.path == s.sys.path || a.Rename?
  {
  }

  lemma {:induction false} UnpublishedFile(s: State, actions: seq<Action>)
    requires Run(s, actions).Some?
    ensures Run(s, actions).value.hist.published || Run(s, actions).value.sys.path == s.sys.path
  {
    if actions != [] {
      var init := actions[..|actions| - 1];
      UnpublishedFile(s, init);
      StepPublishes(Run(s, init).value, actions[|actions| - 1]);
    }
  }

  /** The data file is never seen half written: it is as it was found, or a complete sorted listing of the durable
      map. */
  lemma FileIsComplete(s: State, config: Config, path: NodeFile, tmp: NodeFile)
    requires Reachable(s, config, path, tmp)
    ensures s.sys.path == path ||
            (s.sys.path.Holds? && IsListing(s.sys.path.content, Replay(s.hist.fileBase, s.hist.durable)))
  {
    ReachableInv(s, config, path, tmp);
    var actions :| Run(Boot(config, path, tmp), actions) == Some(s);
    UnpublishedFile(Boot(config, path, tmp), actions);
  }

  // ----- recovery -----

  /** The process running after these actions could not read the data file when it started. */
  predicate StartedBlind(actions: seq<Action>) {
    actions != [] &&
    var a := actions[|actions| - 1];
    if a.Crash? then !a.readable else StartedBlind(actions[..|actions| - 1])
  }

  /** Such a process has replaced the file. */
  predicate SavesBlind(actions: seq<Action>) {
    exists i :: 0 <= i < |actions| && actions[i].Rename? && StartedBlind(actions[..i])
  }

  lemma SavesBlindLast(init: seq<Action>, a: Action)
    ensures SavesBlind(init + [a]) <==> SavesBlind(init) || (a.Rename? && StartedBlind(init))
    ensures StartedBlind(init + [a]) <==> if a.Crash? then !a.readable else StartedBlind(init)
  {
    var actions := init + [a];
    assert actions[..|init|] == init;
    forall i | 0 <= i < |init| ensures actions[i] == init[i] && actions[..i] == init[..i] { }
    if SavesBlind(init) {
      var i :| 0 <= i < |init| && init[i].Rename? && StartedBlind(init[..i]);
      assert actions[i].Rename? && StartedBlind(actions[..i]);
    }
    if a.Rename? && StartedBlind(init) { assert actions[|init|].Rename? && StartedBlind(actions[..|init|]); }
  }

  /** The record of a run tells blind processes and their saves. */
  predicate BlindTracked(h: History, actions: seq<Action>) {
    (h.overwritten <==> SavesBlind(actions)) && (h.blind ==> StartedBlind(actions)) &&
    (StartedBlind(actions) ==> h.blind || h.overwritten)
  }

  lemma StepBlind(s: State, init: seq<Action>, a: Action)
    requires BlindTracked(s.hist, init) && Enabled(s.sys, a)
    ensures BlindTracked(Next(s, a).hist, init + [a])
  {
    SavesBlindLast(init, a);
  }

  lemma {:induction false} RunBlind(config: Config, path: NodeFile, tmp: NodeFile, actions: seq<Action>)
    requires Run(Boot(config, path, tmp), actions).Some?
    ensures BlindTracked(Run(Boot(config, path, tmp), actions).value.hist, actions)
  {
    if actions != [] {
      var init, a := actions[..|actions| - 1], actions[|actions| - 1];
      assert actions == init + [a];
      RunBlind(config, path, tmp, init);
      StepBlind(Run(Boot(config, path, tmp), init).value, init, a);
    }
  }

  lemma StepFileBase(s: State, a: Action)
    requires Inv(s) && Enabled(s.sys, a) && !Next(s, a).hist.overwritten
    ensures Next(s, a).hist.fileBase == s.hist.fileBase && !s.hist.overwritten
  {
    hide Complete, HolderFacts, Acked, Judge, Load, Replay;
  }

  lemma {:induction false} FileBaseKept(config: Config, path: NodeFile, tmp: NodeFile, actions: seq<Action>)
    requires Run(Boot(config, path, tmp), actions).Some?
    requires !Run(Boot(config, path, tmp), actions).value.hist.overwritten
    ensures Run(Boot(config, path, tmp), actions).value.hist.fileBase == Load(path)
  {
    if actions != [] {
      var init, a := actions[..|actions| - 1], actions[|actions| - 1];
      var s := Run(Boot(config, path, tmp), init).value;
      BootInv(config, path, tmp);
      RunInv(Boot(config, path, tmp), init);
      StepFileBase(s, a);
      FileBaseKept(config, path, tmp, init);
    }
  }

  /** Unless a process that could not read the data file has replaced it, a crash at any step gives back the replay of
      all requests in lock order up to the last successful rename, and every write answered 200 is among them. */
  lemma NoAcknowledgedWriteIsLost(config: Config, path: NodeFile, tmp: NodeFile, actions: seq<Action>, s: State)
    requires Run(Boot(config, path, tmp), actions) == Some(s) && !SavesBlind(actions)
    ensures Next(s, Crash(true)).sys.store == Replay(Load(path), s.hist.durable) && Acked(s.hist)
    ensures !StartedBlind(actions) ==> s.hist.durable <= s.hist.log
  {
    BootInv(config, path, tmp);
    RunInv(Boot(config, path, tmp), actions);
    RunBlind(config, path, tmp, actions);
    FileBaseKept(config, path, tmp, actions);
  }

  /** No operation from position `n` on names this node. */
  predicate Untouched(log: seq<Op>, n: nat, id: string) {
    forall i :: n <= i < |log| ==> OpID(log[i]) != id
  }

  lemma SurvivorIsKept(base: Table, durable: seq<Op>, n: nat, op: Op)
    requires 1 <= n <= |durable| && durable[n - 1] == op && Untouched(durable, n, OpID(op))
    ensures Reflects(Replay(base, durable), op)
  {
    ReplayKeeps(base, durable, n - 1);
  }

  /** The map shows the effect of the operation. */
  predicate Reflects(store: Table, op: Op) {
    match op
    case Put(node) => node.nodeID in store && store[node.nodeID] == node
    case Remove(id) => id !in store
  }

  /** In a client's terms, on the same condition: after a restart, a registration answered 200 is found, and a deletion
      answered 200 has held, unless a later request on the same node also reached the file. */
  lemma AcknowledgedWriteSurvives(config: Config, path: NodeFile, tmp: NodeFile, actions: seq<Action>, s: State,
                                  n: nat, op: Op)
    requires Run(Boot(config, path, tmp), actions) == Some(s) && !SavesBlind(actions)
    requires (n, op) in s.hist.acked && Untouched(s.hist.durable, n, OpID(op))
    ensures Reflects(Next(s, Crash(true)).sys.store, op)
  {
    hide Run, Boot, SavesBlind, Reflects, Untouched, Replay, Load;
    NoAcknowledgedWriteIsLost(config, path, tmp, actions, s);
    SurvivorIsKept(Load(path), s.hist.durable, n, op);
  }

  predicate Names(log: seq<Op>, id: string) {
    exists i :: 0 <= i < |log| && OpID(log[i]) == id
  }

  lemma {:induction false} UnnamedAbsent(log: seq<Op>, id: string)
    requires !Names(log, id)
    ensures id !in Replay(map[], log)
  {
    if log != [] {
      var init := log[..|log| - 1];
      assert forall i :: 0 <= i < |init| ==> init[i] == log[i];
      UnnamedAbsent(init, id);
      assert OpID(log[|log| - 1]) != id;
    }
  }

  /** The other half: once a process that could not read the file replaces it, the file stands for that process's own
      requests alone. Whatever was answered before, to a node no request of this process has named, is gone. */
  lemma BlindRenameForgets(s: State, t: nat, id: string)
    requires Inv(s) && s.hist.blind && Enabled(s.sys, Rename(t))
    ensures Next(Next(s, Rename(t)), Crash(true)).sys.store == Replay(map[], s.hist.log)
    ensures !Names(s.hist.log, id) ==> id !in Next(Next(s, Rename(t)), Crash(true)).sys.store
  {
    RenameReplayed(s, t);
    if !Names(s.hist.log, id) { UnnamedAbsent(s.hist.log, id); }
  }

  // ----- validity -----

  predicate ValidJob(th: Thread) {
    (th.Ready? || th.Locked?) && th.job.Write? && th.job.op.Put? ==> ValidNode(th.job.op.node)
  }

  predicate AllValid(s: State) {
    (forall t :: t in s.sys.threads ==> ValidJob(s.sys.threads[t])) &&
    ValidTable(s.hist.base) && ValidTable(s.hist.fileBase) && ValidLog(s.hist.log) && ValidLog(s.hist.durable)
  }

  lemma ArriveValid(s: System, t: nat, request: Request)
    requires Enabled(s, Arrive(t, request))
    ensures ValidJob(At(Step(s, Arrive(t, request)), t))
  {
    var verdict := Judge(s.config, request);
    if verdict.Admit? && verdict.job.Write? && verdict.job.op.Put? { AdmittedIsValid(s.config, request); }
  }

  lemma StepValid(s: State, a: Action)
    requires AllValid(s) && Enabled(s.sys, a)
    ensures AllValid(Next(s, a))
  {
    var n := Next(s, a);
    if a.Arrive? { ArriveValid(s.sys, a.t, a.request); }
    if !a.Crash? {
      assert a.Acquire? ==> ValidJob(s.sys.threads[a.t]);
      assert forall t :: t in n.sys.threads && t != a.t ==> t in s.sys.threads && n.sys.threads[t] == s.sys.threads[t];
    }
    if a.ChangeMap? { assert ValidJob(s.sys.threads[a.t]); }
  }

  lemma {:induction false} RunValid(s: State, actions: seq<Action>)
    requires AllValid(s) && Run(s, actions).Some?
    ensures AllValid(Run(s, actions).value)
  {
    if actions != [] {
      RunValid(s, actions[..|actions| - 1]);
      StepValid(Run(s, actions[..|actions| - 1]).value, actions[|actions| - 1]);
    }
  }

  predicate ValidFile(file: NodeFile) { file.Holds? ==> ValidNodes(file.content) }

  /** From a valid or absent data file, every node in memory, on disk and after any number of restarts is valid. */
  lemma ValidityIsKept(s: State, config: Config, path: NodeFile, tmp: NodeFile)
    requires Reachable(s, config, path, tmp) && ValidFile(path)
    ensures ValidTable(s.sys.store) && ValidFile(s.sys.path)
  {
    var actions :| Run(Boot(config, path, tmp), actions) == Some(s);
    if path.Holds? { RebuildWellKeyed(path.content); }
    RunValid(Boot(config, path, tmp), actions);
    FileIsComplete(s, config, path, tmp);
    ReachableInv(s, config, path, tmp);
    ReplayInvariant(s.hist.base, s.hist.log);
    ReplayInvariant(s.hist.fileBase, s.hist.durable);
    if s.sys.path != path {
      forall i | 0 <= i < |s.sys.path.content| ensures ValidNode(s.sys.path.content[i]) {
        assert s.sys.path.content[i] in s.sys.path.content;
      }
    }
  }

  // ----- progress -----

  function ActionThread(a: Action): Option<nat> {
    match a
    case Crash(_) => None
    case _ => Some(a.t)
  }

  /** Steps the holder has left. */
  function Remaining(th: Thread): nat {
    match th
    case Locked(_) => 6
    case Applied(_) => 5
    case Sorted(_, _) => 4
    case Writing(_, _) => 3
    case Written(_, _) => 2
    case Finished(_) => 1
    case _ => 0
  }

  /** The holder's next step when nothing fails. */
  function HolderStep(s: System, t: nat, nodes: seq<Node>): Action {
    var th := At(s, t);
    if th.Locked? && th.job.Write? then ChangeMap(t)
    else if th.Locked? || th.Applied? then TakeListing(t, nodes)
    else if th.Sorted? then BeginWrite(t)
    else if th.Writing? then EndWrite(t)
    else if th.Written? then Rename(t)
    else Release(t)
  }

  lemma HolderProceeds(s: State, t: nat, nodes: seq<Node>)
    requires Inv(s) && s.sys.mu == Some(t) && IsListing(nodes, s.sys.store)
    ensures Enabled(s.sys, HolderStep(s.sys, t, nodes)) && ActionThread(HolderStep(s.sys, t, nodes)) == Some(t)
    ensures if HolderStep(s.sys, t, nodes).Release? then Step(s.sys, HolderStep(s.sys, t, nodes)).mu == None
            else Step(s.sys, HolderStep(s.sys, t, nodes)).mu == Some(t) &&
                 Remaining(At(Step(s.sys, HolderStep(s.sys, t, nodes)), t)) < Remaining(At(s.sys, t))
  {
  }

  /** No branch keeps the lock: the holder alone can always run on until the lock is free. */
  lemma {:induction false} LockIsReleased(s: State) returns (actions: seq<Action>)
    requires Inv(s) && s.sys.mu.Some?
    ensures Run(s, actions).Some? && Run(s, actions).value.sys.mu == None
    ensures forall i :: 0 <= i < |actions| ==> ActionThread(actions[i]) == s.sys.mu
    decreases Remaining(At(s.sys, s.sys.mu.value))
  {
    var t := s.sys.mu.value;
    ReplayInvariant(s.hist.base, s.hist.log);
    var nodes := ListingExists(s.sys.store);
    var a := HolderStep(s.sys, t, nodes);
    HolderProceeds(s, t, nodes);
    RunOne(s, a);
    if a.Release? {
      actions := [a];
    } else {
      StepInv(s, a);
      var rest := LockIsReleased(Next(s, a));
      RunAppend(s, [a], rest);
      actions := [a] + rest;
    }
  }
}
