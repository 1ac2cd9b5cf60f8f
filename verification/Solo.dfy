/** A handler running alone does what the sequential service does; and the one way an answered write can be lost. */
module Solo {
  import opened Text
  import opened Nodes
  import opened Store
  import opened Admission
  import opened Machine
  import opened Recovery

  function Status(request: Request, reply: Reply): nat {
    match reply
    case Refused(status) => status
    case Stored(_) => 200
    case SaveFailed(_) => 500
    case NotFound => 404
    case Listed(_) => ReadStatus(request)
  }

  predicate SameOthers(s: System, e: System, t: nat) {
    e.config == s.config && forall u :: u in s.threads && u != t ==> At(e, u) == At(s, u)
  }

  /** A write answered 200: the file is the listing of the new map, and the log, its durable part and the record of
      answers agree. */
  predicate SavedAs(s: State, e: State, op: Op) {
    e.sys.path.Holds? && IsListing(e.sys.path.content, e.sys.store) && e.sys.tmp == Missing &&
    e.hist.durable == e.hist.log && e.hist.fileBase == e.hist.base == s.hist.base &&
    e.hist.acked == s.hist.acked + {(|e.hist.log|, op)}
  }

  /** From the changed map to the complete temporary file. */
  lemma WriteRun(s: State, t: nat, op: Op, nodes: seq<Node>) returns (actions: seq<Action>, e: State)
    requires At(s.sys, t) == Applied(op) && IsListing(nodes, s.sys.store)
    ensures Run(s, actions) == Some(e)
    ensures e == State(Goto(s.sys, t, Written(op, nodes)).(tmp := Holds(nodes)), s.hist)
  {
    var s1 := Next(s, TakeListing(t, nodes));
    var s2 := Next(s1, BeginWrite(t));
    e := Next(s2, EndWrite(t));
    RunSnoc(s, [], TakeListing(t, nodes));
    RunSnoc(s, [] + [TakeListing(t, nodes)], BeginWrite(t));
    RunSnoc(s, [] + [TakeListing(t, nodes)] + [BeginWrite(t)], EndWrite(t));
    actions := [] + [TakeListing(t, nodes)] + [BeginWrite(t)] + [EndWrite(t)];
    var threads: map<nat, Thread> := s.sys.threads;
    assert threads[t := Sorted(op, nodes)][t := Writing(op, nodes)][t := Written(op, nodes)] ==
           threads[t := Written(op, nodes)];
  }

  /** From the complete temporary file to the answer. */
  lemma PublishRun(s: State, t: nat, op: Op, nodes: seq<Node>) returns (actions: seq<Action>, e: State)
    requires At(s.sys, t) == Written(op, nodes) && s.sys.tmp == Holds(nodes)
    ensures Run(s, actions) == Some(e)
    ensures e.sys == Goto(s.sys, t, Done(Stored(op))).(path := Holds(nodes), tmp := Missing, mu := None)
    ensures e.hist.log == e.hist.durable == s.hist.log && e.hist.base == e.hist.fileBase == s.hist.base
    ensures e.hist.acked == s.hist.acked + {(|s.hist.log|, op)}
  {
    var s1 := Next(s, Rename(t));
    e := Next(s1, Release(t));
    RunSnoc(s, [], Rename(t));
    RunSnoc(s, [] + [Rename(t)], Release(t));
    actions := [] + [Rename(t)] + [Release(t)];
    assert s.sys.threads[t := Finished(Stored(op))][t := Done(Stored(op))] == s.sys.threads[t := Done(Stored(op))];
  }

  /** From the changed map to the answer. */
  lemma SaveRun(s: State, t: nat, op: Op) returns (actions: seq<Action>, e: State)
    requires Inv(s) && s.sys.mu == Some(t) && At(s.sys, t) == Applied(op)
    ensures Run(s, actions) == Some(e) && SavedAs(s, e, op)
    ensures e.sys.mu == None && At(e.sys, t) == Done(Stored(op)) && SameOthers(s.sys, e.sys, t)
    ensures e.sys.store == s.sys.store && e.hist.log == s.hist.log
  {
    ReplayInvariant(s.hist.base, s.hist.log);
    var nodes := ListingExists(s.sys.store);
    var write, written := WriteRun(s, t, op, nodes);
    var publish;
    publish, e := PublishRun(written, t, op, nodes);
    RunAppend(s, write, publish);
    actions := write + publish;
  }

  lemma Arrives(s: State, t: nat, request: Request, job: Job)
    requires At(s.sys, t) == Idle && Judge(s.sys.config, request) == Admit(job)
    ensures Enabled(s.sys, Arrive(t, request)) &&
            Next(s, Arrive(t, request)) == State(Goto(s.sys, t, Ready(job)), s.hist)
  {
  }

  lemma Acquires(s: State, t: nat, job: Job)
    requires s.sys.mu == None
    ensures var ready := State(Goto(s.sys, t, Ready(job)), s.hist);
            && Enabled(ready.sys, Acquire(t))
            && Next(ready, Acquire(t)) == State(Goto(s.sys, t, Locked(job)).(mu := Some(t)), s.hist)
  {
    assert s.sys.threads[t := Ready(job)][t := Locked(job)] == s.sys.threads[t := Locked(job)];
  }

  lemma EnterRun(s: State, t: nat, request: Request) returns (actions: seq<Action>, e: State)
    requires Inv(s) && s.sys.mu == None && At(s.sys, t) == Idle && Judge(s.sys.config, request).Admit?
    ensures Run(s, actions) == Some(e) && Inv(e) && e.hist == s.hist
    ensures e.sys == Goto(s.sys, t, Locked(Judge(s.sys.config, request).job)).(mu := Some(t))
  {
    var job := Judge(s.sys.config, request).job;
    var ready := State(Goto(s.sys, t, Ready(job)), s.hist);
    Arrives(s, t, request, job);
    Acquires(s, t, job);
    RunSnoc(s, [], Arrive(t, request));
    RunSnoc(s, [] + [Arrive(t, request)], Acquire(t));
    actions, e := [] + [Arrive(t, request)] + [Acquire(t)], Next(ready, Acquire(t));
    RunInv(s, actions);
  }

  /** A write that changes the map. */
  lemma SoloWrite(s: State, t: nat, request: Request, op: Op) returns (actions: seq<Action>, e: State)
    requires Inv(s) && s.sys.mu == None && At(s.sys, t) == Idle
    requires Judge(s.sys.config, request) == Admit(Write(op)) && (op.Remove? ==> op.id in s.sys.store)
    ensures Run(s, actions) == Some(e) && SavedAs(s, e, op)
    ensures e.sys.mu == None && At(e.sys, t) == Done(Stored(op)) && SameOthers(s.sys, e.sys, t)
    ensures e.sys.store == Apply(s.sys.store, op) && e.hist.log == s.hist.log + [op]
  {
    var enter, locked := EnterRun(s, t, request);
    var changed := Next(locked, ChangeMap(t));
    RunSnoc(s, enter, ChangeMap(t));
    StepInv(locked, ChangeMap(t));
    var rest;
    rest, e := SaveRun(changed, t, op);
    RunAppend(s, enter + [ChangeMap(t)], rest);
    actions := enter + [ChangeMap(t)] + rest;
  }

  /** One step to the answer, then the lock is released. */
  lemma FinishRun(s: State, before: seq<Action>, mid: State, t: nat, a: Action, reply: Reply)
    returns (actions: seq<Action>, e: State)
    requires Run(s, before) == Some(mid) && Enabled(mid.sys, a) && !reply.Stored?
    requires Next(mid, a) == State(Goto(mid.sys, t, Finished(reply)), mid.hist)
    ensures Run(s, actions) == Some(e)
    ensures e == State(Goto(mid.sys, t, Done(reply)).(mu := None), mid.hist)
  {
    var finished := Next(mid, a);
    RunSnoc(s, before, a);
    RunSnoc(s, before + [a], Release(t));
    actions, e := before + [a] + [Release(t)], Next(finished, Release(t));
    assert finished.sys.threads[t := Done(reply)] == mid.sys.threads[t := Done(reply)];
  }

  predicate LeavesMap(s: System, request: Request) {
    match Judge(s.config, request)
    case Admit(Write(op)) => op.Remove? && op.id !in s.store
    case _ => true
  }

  /** A read, or a delete of an unknown node. */
  lemma SoloAdmitted(s: State, t: nat, request: Request, job: Job) returns (actions: seq<Action>, e: State)
    requires Inv(s) && s.sys.mu == None && At(s.sys, t) == Idle
    requires Judge(s.sys.config, request) == Admit(job) && LeavesMap(s.sys, request)
    ensures Run(s, actions) == Some(e) && e.hist == s.hist && e.sys.mu == None && SameOthers(s.sys, e.sys, t)
    ensures e.sys.store == s.sys.store && e.sys.path == s.sys.path && e.sys.tmp == s.sys.tmp
    ensures At(e.sys, t).Done? && if job.Read? then At(e.sys, t).reply.Listed? else At(e.sys, t).reply == NotFound
    ensures job.Read? ==> IsListing(At(e.sys, t).reply.nodes, s.sys.store)
  {
    var enter, locked := EnterRun(s, t, request);
    ReplayInvariant(s.hist.base, s.hist.log);
    if job.Read? {
      var nodes := ListingExists(s.sys.store);
      actions, e := FinishRun(s, enter, locked, t, TakeListing(t, nodes), Listed(nodes));
    } else {
      actions, e := FinishRun(s, enter, locked, t, ChangeMap(t), NotFound);
    }
  }

  lemma ServeKeeps(s: System, request: Request, job: Job)
    requires Judge(s.config, request) == Admit(job) && LeavesMap(s, request)
    ensures Serve(s.config, s.store, request) == (s.store, if job.Read? then ReadStatus(request) else 404)
  {
  }

  lemma ServeRefuses(s: System, request: Request, status: nat)
    requires Judge(s.config, request) == Refuse(status)
    ensures Serve(s.config, s.store, request) == (s.store, status)
  {
  }

  lemma RefusedOthers(s: System, t: nat, status: nat)
    ensures SameOthers(s, Goto(s, t, Done(Refused(status))), t)
  {
  }

  lemma SoloRefused(s: State, t: nat, request: Request) returns (actions: seq<Action>, e: State)
    requires At(s.sys, t) == Idle && Judge(s.sys.config, request).Refuse?
    ensures Run(s, actions) == Some(e) && e.hist == s.hist
    ensures e.sys == Goto(s.sys, t, Done(Refused(Judge(s.sys.config, request).status)))
  {
    RunOne(s, Arrive(t, request));
    actions, e := [Arrive(t, request)], Next(s, Arrive(t, request));
  }

  /** A request that leaves the map alone: refused, a delete of an unknown node, or a read. */
  lemma SoloKeep(s: State, t: nat, request: Request) returns (actions: seq<Action>, e: State)
    requires Inv(s) && s.sys.mu == None && At(s.sys, t) == Idle && LeavesMap(s.sys, request)
    ensures Run(s, actions) == Some(e) && e.hist == s.hist
    ensures e.sys.mu == None && At(e.sys, t).Done? && !At(e.sys, t).reply.Stored? && SameOthers(s.sys, e.sys, t)
    ensures e.sys.store == s.sys.store && e.sys.path == s.sys.path && e.sys.tmp == s.sys.tmp
    ensures Status(request, At(e.sys, t).reply) == Serve(s.sys.config, s.sys.store, request).1
    ensures At(e.sys, t).reply.Listed? ==> IsListing(At(e.sys, t).reply.nodes, s.sys.store)
  {
    hide Run, IsListing, Inv, Serve, SameOthers, Judge, LeavesMap, ReadStatus;
    match Judge(s.sys.config, request)
    case Refuse(status) =>
      ServeRefuses(s.sys, request, status);
      actions, e := SoloRefused(s, t, request);
      RefusedOthers(s.sys, t, status);
    case Admit(job) =>
      ServeKeeps(s.sys, request, job);
      actions, e := SoloAdmitted(s, t, request, job);
  }

  /** With the lock free and no step failing, a handler's own steps have the effect and the status of the sequential
      service, and a write answered 200 is in the file. */
  lemma SoloServes(s: State, t: nat, request: Request) returns (actions: seq<Action>, e: State)
    requires Inv(s) && s.sys.mu == None && At(s.sys, t) == Idle
    ensures Run(s, actions) == Some(e) && e.sys.mu == None && At(e.sys, t).Done? && SameOthers(s.sys, e.sys, t)
    ensures (e.sys.store, Status(request, At(e.sys, t).reply)) == Serve(s.sys.config, s.sys.store, request)
    ensures At(e.sys, t).reply.Stored? ==> SavedAs(s, e, At(e.sys, t).reply.op)
    ensures !At(e.sys, t).reply.Stored? ==> e.sys.path == s.sys.path && e.hist == s.hist
    ensures At(e.sys, t).reply.Listed? ==> IsListing(At(e.sys, t).reply.nodes, e.sys.store)
  {
    hide Run, IsListing, Inv, SavedAs, SameOthers;
    match Judge(s.sys.config, request)
    case Admit(Write(op)) =>
      if op.Put? || op.id in s.sys.store {
        actions, e := SoloWrite(s, t, request, op);
      } else {
        actions, e := SoloKeep(s, t, request);
      }
    case _ =>
      actions, e := SoloKeep(s, t, request);
  }

  lemma BlindRestart(s: State)
    requires Inv(s)
    ensures var n := Next(s, Crash(false));
            && Inv(n) && n.sys.mu == None && n.sys.config == s.sys.config && n.sys.store == map[]
            && n.hist == s.hist.(base := map[], log := [], blind := true) && At(n.sys, 0) == Idle
  {
    StepInv(s, Crash(false));
  }

  lemma RestartKnowsFile(e: State)
    requires e.sys.path.Holds? && WellKeyed(e.sys.store) && IsListing(e.sys.path.content, e.sys.store)
    ensures Next(e, Crash(true)).sys.store == e.sys.store
  {
    RebuildListing(e.sys.path.content, e.sys.store);
  }

  /** The condition of recovery is needed, from every state: after a restart that could not read the file and one more
      registration answered 200, the file stands for exactly that one node. Every other node, though its registration
      was answered 200, is gone for good. */
  lemma UnreadableRestartLosesWrites(s: State, b: Request, op: Op) returns (actions: seq<Action>, e: State)
    requires Inv(s) && Judge(s.sys.config, b) == Admit(Write(op)) && op.Put?
    ensures Run(s, actions) == Some(e) && s.hist.acked <= e.hist.acked
    ensures Next(e, Crash(true)).sys.store == map[op.node.nodeID := op.node]
    ensures forall ack :: ack in s.hist.acked && ack.1.Put? && ack.1.node.nodeID != op.node.nodeID
                          ==> ack.1.node.nodeID !in Next(e, Crash(true)).sys.store
  {
    BlindRestart(s);
    var started := Next(s, Crash(false));
    RunOne(s, Crash(false));
    var rest;
    rest, e := SoloWrite(started, 0, b, op);
    RunAppend(s, [Crash(false)], rest);
    actions := [Crash(false)] + rest;
    RestartKnowsFile(e);
  }
}
