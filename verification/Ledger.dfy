/** The history of a concurrent run read off its actions: which map changes count, in what order, and whose they are. */
module Ledger {
  import opened Text
  import opened Store
  import opened Admission
  import opened Machine
  import opened Recovery

  // ----- the last action of a kind -----

  /** The index of the last action of a kind; -1 if there is none. */
  function LastIndex(actions: seq<Action>, p: Action -> bool): (r: int)
    ensures -1 <= r < |actions|
    ensures r >= 0 ==> p(actions[r])
  {
    if actions == [] then -1
    else if p(actions[|actions| - 1]) then |actions| - 1
    else LastIndex(actions[..|actions| - 1], p)
  }

  lemma LastSnoc(init: seq<Action>, a: Action, p: Action -> bool)
    ensures LastIndex(init + [a], p) == if p(a) then |init| else LastIndex(init, p)
  {
    assert (init + [a])[..|init|] == init;
  }

  lemma {:induction false} LastIsMax(actions: seq<Action>, p: Action -> bool, i: nat)
    requires i < |actions| && p(actions[i])
    ensures i <= LastIndex(actions, p)
  {
    if i < |actions| - 1 { LastIsMax(actions[..|actions| - 1], p, i); }
  }

  function IsCrash(): Action -> bool { (a: Action) => a.Crash? }

  function IsRename(): Action -> bool { (a: Action) => a.Rename? }

  function IsAcquire(): Action -> bool { (a: Action) => a.Acquire? }

  function IsBy(t: nat): Action -> bool { (a: Action) => ActionThread(a) == Some(t) }

  // ----- the ledger -----

  function StateAt(boot: State, actions: seq<Action>, i: nat): State
    requires i <= |actions|
  {
    Run(boot, actions[..i]).GetOr(boot)
  }

  /** Action `i` is a write that changes the map: a registration, or a deletion of a node that is there. */
  predicate ChangesAt(boot: State, actions: seq<Action>, i: nat)
    requires i < |actions|
  {
    var s := StateAt(boot, actions, i).sys;
    actions[i].ChangeMap? && Enabled(s, actions[i]) &&
    var op := At(s, actions[i].t).job.op;
    op.Put? || op.id in s.store
  }

  /** The operation of such an action. */
  function OpAt(boot: State, actions: seq<Action>, i: nat): Op
    requires i < |actions|
  {
    if ChangesAt(boot, actions, i) then At(StateAt(boot, actions, i).sys, actions[i].t).job.op else Remove("")
  }

  /** All such actions from position `start` on, in order. */
  function ChangesSince(boot: State, actions: seq<Action>, start: nat): (r: seq<nat>)
    ensures forall n :: 0 <= n < |r| ==> start <= r[n] < |actions|
  {
    if |actions| <= start then []
    else
      ChangesSince(boot, actions[..|actions| - 1], start) +
      if ChangesAt(boot, actions, |actions| - 1) then [|actions| - 1] else []
  }

  /** A map to start from, and the changes on top of it, as positions in the run. */
  datatype Account = Account(base: Table, changes: seq<nat>)

  predicate Bounded(account: Account, n: nat) {
    forall i :: 0 <= i < |account.changes| ==> account.changes[i] < n
  }

  function Continued(account: Account, more: seq<nat>): Account {
    Account(account.base, account.changes + more)
  }

  /** What a process starts from: everything on file, or nothing when it could not read. */
  function Start(boot: State, actions: seq<Action>, c: int): (r: Account)
    requires -1 <= c < |actions| && (c >= 0 ==> actions[c].Crash?)
    ensures Bounded(r, c + 1)
    decreases |actions|, 1
  {
    if c < 0 then Account(Load(boot.sys.path), [])
    else if actions[c].readable then OnFile(boot, actions[..c])
    else Account(map[], [])
  }

  /** What the memory stands for: the changes since the last restart, on top of what that restart read. */
  function InMemory(boot: State, actions: seq<Action>): (r: Account)
    ensures Bounded(r, |actions|)
    decreases |actions|, 2
  {
    var c := LastIndex(actions, IsCrash());
    Continued(Start(boot, actions, c), ChangesSince(boot, actions, c + 1))
  }

  /** What the data file stands for: what the memory stood for at the last rename. */
  function OnFile(boot: State, actions: seq<Action>): (r: Account)
    ensures Bounded(r, |actions|)
    decreases |actions|, 0
  {
    var r := LastIndex(actions, IsRename());
    if r < 0 then Account(Load(boot.sys.path), []) else InMemory(boot, actions[..r])
  }

  function Ops(boot: State, actions: seq<Action>, changes: seq<nat>): (r: seq<Op>)
    requires forall i :: 0 <= i < |changes| ==> changes[i] < |actions|
    ensures |r| == |changes| && forall i :: 0 <= i < |changes| ==> r[i] == OpAt(boot, actions, changes[i])
  {
    seq(|changes|, i requires 0 <= i < |changes| => OpAt(boot, actions, changes[i]))
  }

  // ----- the ledger, one action at a time -----

  lemma EarlierSame(boot: State, init: seq<Action>, a: Action, i: nat)
    requires i < |init|
    ensures ChangesAt(boot, init + [a], i) == ChangesAt(boot, init, i) &&
            OpAt(boot, init + [a], i) == OpAt(boot, init, i)
  {
    assert (init + [a])[..i] == init[..i] && (init + [a])[i] == init[i];
  }

  lemma ChangesSinceSnoc(boot: State, init: seq<Action>, a: Action, start: nat)
    requires start <= |init|
    ensures ChangesSince(boot, init + [a], start) ==
            ChangesSince(boot, init, start) + if ChangesAt(boot, init + [a], |init|) then [|init|] else []
  {
    assert (init + [a])[..|init|] == init;
  }

  lemma StartSame(boot: State, init: seq<Action>, a: Action, c: int)
    requires -1 <= c < |init| && (c >= 0 ==> init[c].Crash?)
    ensures c >= 0 ==> (init + [a])[c] == init[c]
    ensures Start(boot, init + [a], c) == Start(boot, init, c)
  {
    if c >= 0 { assert (init + [a])[..c] == init[..c] && (init + [a])[c] == init[c]; }
  }

  lemma InMemoryCrash(boot: State, init: seq<Action>, a: Action)
    requires a.Crash?
    ensures InMemory(boot, init + [a]) == if a.readable then OnFile(boot, init) else Account(map[], [])
  {
    var actions := init + [a];
    LastSnoc(init, a, IsCrash());
    assert actions[..|init|] == init && actions[|init|] == a;
    var start := Start(boot, actions, |init|);
    assert Continued(start, []).changes == start.changes;
  }

  lemma ContinuedTwice(account: Account, more: seq<nat>, last: seq<nat>)
    ensures Continued(account, more + last) == Continued(Continued(account, more), last)
  {
    Associate(account.changes, more, last);
  }

  lemma InMemoryStep(boot: State, init: seq<Action>, a: Action)
    requires !a.Crash?
    ensures InMemory(boot, init + [a]) ==
            Continued(InMemory(boot, init), if ChangesAt(boot, init + [a], |init|) then [|init|] else [])
  {
    hide Start, ChangesSince, ChangesAt, Continued, Run;
    var c := LastIndex(init, IsCrash());
    var last := if ChangesAt(boot, init + [a], |init|) then [|init|] else [];
    LastSnoc(init, a, IsCrash());
    StartSame(boot, init, a, c);
    ChangesSinceSnoc(boot, init, a, c + 1);
    ContinuedTwice(Start(boot, init, c), ChangesSince(boot, init, c + 1), last);
  }

  lemma OnFileSnoc(boot: State, init: seq<Action>, a: Action)
    ensures OnFile(boot, init + [a]) == if a.Rename? then InMemory(boot, init) else OnFile(boot, init)
  {
    var actions := init + [a];
    LastSnoc(init, a, IsRename());
    var r := LastIndex(actions, IsRename());
    if r >= 0 { assert actions[..r] == init[..r]; }
  }

  lemma OpsSame(boot: State, init: seq<Action>, a: Action, changes: seq<nat>)
    requires forall i :: 0 <= i < |changes| ==> changes[i] < |init|
    ensures Ops(boot, init + [a], changes) == Ops(boot, init, changes)
  {
    hide *;
    forall i | 0 <= i < |changes| ensures OpAt(boot, init + [a], changes[i]) == OpAt(boot, init, changes[i]) {
      EarlierSame(boot, init, a, changes[i]);
    }
  }

  lemma OpsLast(boot: State, actions: seq<Action>, changes: seq<nat>, n: nat)
    requires n < |actions| && forall i :: 0 <= i < |changes| ==> changes[i] < |actions|
    ensures Ops(boot, actions, changes + [n]) == Ops(boot, actions, changes) + [OpAt(boot, actions, n)]
  {
  }

  /** The record a run keeps is the ledger. */
  predicate Tracked(boot: State, actions: seq<Action>, h: History) {
    && h.base == InMemory(boot, actions).base && h.log == Ops(boot, actions, InMemory(boot, actions).changes)
    && h.fileBase == OnFile(boot, actions).base && h.durable == Ops(boot, actions, OnFile(boot, actions).changes)
  }

  lemma LastState(boot: State, init: seq<Action>, a: Action, s: State)
    requires Run(boot, init) == Some(s)
    ensures StateAt(boot, init + [a], |init|) == s
  {
    assert (init + [a])[..|init|] == init;
  }

  /** What one step adds to the record. */
  lemma RecordOf(s: State, a: Action)
    requires Enabled(s.sys, a)
    ensures var n := Next(s, a).hist;
            if a.Crash? then
              n.base == (if a.readable then s.hist.fileBase else map[]) &&
              n.log == (if a.readable then s.hist.durable else [])
            else
              n.base == s.hist.base &&
              n.log == s.hist.log +
                (if a.ChangeMap? && (At(s.sys, a.t).job.op.Put? || At(s.sys, a.t).job.op.id in s.sys.store)
                 then [At(s.sys, a.t).job.op] else [])
    ensures Next(s, a).hist.fileBase == (if a.Rename? then s.hist.base else s.hist.fileBase)
    ensures Next(s, a).hist.durable == (if a.Rename? then s.hist.log else s.hist.durable)
  {
    if a.ChangeMap? { ChangeStep(s, a.t); }
  }

  lemma StepMemoryTracked(boot: State, init: seq<Action>, a: Action, s: State)
    requires Run(boot, init) == Some(s) && Enabled(s.sys, a) && Tracked(boot, init, s.hist)
    ensures Next(s, a).hist.base == InMemory(boot, init + [a]).base
    ensures Next(s, a).hist.log == Ops(boot, init + [a], InMemory(boot, init + [a]).changes)
  {
    var actions := init + [a];
    RecordOf(s, a);
    LastState(boot, init, a, s);
    var changes := InMemory(boot, init).changes;
    if a.Crash? {
      InMemoryCrash(boot, init, a);
      OpsSame(boot, init, a, OnFile(boot, init).changes);
    } else {
      InMemoryStep(boot, init, a);
      OpsSame(boot, init, a, changes);
      if ChangesAt(boot, actions, |init|) {
        OpsLast(boot, actions, changes, |init|);
      } else {
        assert changes + [] == changes;
      }
    }
  }

  lemma StepFileTracked(boot: State, init: seq<Action>, a: Action, s: State)
    requires Run(boot, init) == Some(s) && Enabled(s.sys, a) && Tracked(boot, init, s.hist)
    ensures Next(s, a).hist.fileBase == OnFile(boot, init + [a]).base
    ensures Next(s, a).hist.durable == Ops(boot, init + [a], OnFile(boot, init + [a]).changes)
  {
    RecordOf(s, a);
    OnFileSnoc(boot, init, a);
    OpsSame(boot, init, a, InMemory(boot, init).changes);
    OpsSame(boot, init, a, OnFile(boot, init).changes);
  }

  lemma {:induction false} RunTracked(config: Config, path: NodeFile, tmp: NodeFile, actions: seq<Action>, s: State)
    requires Run(Boot(config, path, tmp), actions) == Some(s)
    ensures Tracked(Boot(config, path, tmp), actions, s.hist) && s.sys.config == config
  {
    var boot := Boot(config, path, tmp);
    if actions != [] {
      var init, a := actions[..|actions| - 1], actions[|actions| - 1];
      assert actions == init + [a];
      var before := Run(boot, init).value;
      RunTracked(config, path, tmp, init, before);
      StepMemoryTracked(boot, init, a, before);
      StepFileTracked(boot, init, a, before);
    }
  }

  /** In every run the map is the replay of the changes since the last restart, each once and in the order of the run,
      saved or not, on top of what that restart read; and the file is the same for the run up to its last rename. */
  lemma MemoryIsReplay(config: Config, path: NodeFile, tmp: NodeFile, actions: seq<Action>, s: State)
    requires Run(Boot(config, path, tmp), actions) == Some(s)
    ensures var boot := Boot(config, path, tmp);
            && s.sys.store == Replay(InMemory(boot, actions).base, Ops(boot, actions, InMemory(boot, actions).changes))
            && Load(s.sys.path) == Replay(OnFile(boot, actions).base, Ops(boot, actions, OnFile(boot, actions).changes))
  {
    RunTracked(config, path, tmp, actions, s);
    BootInv(config, path, tmp);
    RunInv(Boot(config, path, tmp), actions);
  }

  // ----- whose change, and in what order -----

  /** Where the thread of action `i` took the lock it then holds. */
  function Acquired(actions: seq<Action>, i: nat): (r: int)
    requires i < |actions| && ActionThread(actions[i]).Some?
    ensures -1 <= r < i
  {
    LastIndex(actions[..i], IsBy(ActionThread(actions[i]).value))
  }

  /** Where the request of action `i` arrived. */
  function Arrived(actions: seq<Action>, i: nat): (r: int)
    requires i < |actions| && ActionThread(actions[i]).Some?
    ensures -1 <= r && (r >= 0 ==> r < Acquired(actions, i))
  {
    var j := Acquired(actions, i);
    if j < 0 then -1 else LastIndex(actions[..j], IsBy(ActionThread(actions[i]).value))
  }

  predicate Admitted(config: Config, a: Action, job: Job) {
    a.Arrive? && Judge(config, a.request) == Admit(job)
  }

  /** What the actions of a run say about a thread that has a job. */
  predicate Ticket(config: Config, actions: seq<Action>, t: nat, th: Thread) {
    var j := LastIndex(actions, IsBy(t));
    match th
    case Ready(job) => j >= 0 && Admitted(config, actions[j], job) && LastIndex(actions, IsCrash()) < j
    case Locked(job) =>
      && j >= 0 && actions[j] == Acquire(t) && LastIndex(actions, IsAcquire()) == j && LastIndex(actions, IsCrash()) < j
      && (var k := LastIndex(actions[..j], IsBy(t));
          k >= 0 && Admitted(config, actions[k], job) && LastIndex(actions[..j], IsCrash()) < k)
    case _ => true
  }

  predicate Tickets(actions: seq<Action>, s: System) {
    forall t :: t in s.threads ==> Ticket(s.config, actions, t, s.threads[t])
  }

  /** Another thread's step that takes no lock leaves a ticket alone. */
  lemma TicketKept(config: Config, init: seq<Action>, a: Action, t: nat, th: Thread)
    requires Ticket(config, init, t, th) && (a.Acquire? ==> !th.Locked?)
    requires ActionThread(a).Some? && ActionThread(a) != Some(t)
    ensures Ticket(config, init + [a], t, th)
  {
    LastSnoc(init, a, IsBy(t));
    LastSnoc(init, a, IsCrash());
    LastSnoc(init, a, IsAcquire());
    var j := LastIndex(init, IsBy(t));
    if j >= 0 { assert (init + [a])[j] == init[j] && (init + [a])[..j] == init[..j]; }
  }

  lemma TicketArrives(s: State, init: seq<Action>, t: nat, request: Request)
    requires Enabled(s.sys, Arrive(t, request))
    ensures Ticket(s.sys.config, init + [Arrive(t, request)], t, At(Step(s.sys, Arrive(t, request)), t))
  {
    var a := Arrive(t, request);
    LastSnoc(init, a, IsBy(t));
    LastSnoc(init, a, IsCrash());
  }

  lemma TicketAcquires(s: State, init: seq<Action>, t: nat)
    requires Enabled(s.sys, Acquire(t)) && Ticket(s.sys.config, init, t, At(s.sys, t))
    ensures Ticket(s.sys.config, init + [Acquire(t)], t, At(Step(s.sys, Acquire(t)), t))
  {
    var a := Acquire(t);
    LastSnoc(init, a, IsBy(t));
    LastSnoc(init, a, IsCrash());
    LastSnoc(init, a, IsAcquire());
    var actions := init + [a];
    assert actions[..|init|] == init && actions[|init|] == a;
    var k := LastIndex(init, IsBy(t));
    assert actions[k] == init[k];
  }

  /** After its own step a thread is ready or locked only by arriving or acquiring. */
  lemma OwnStep(s: System, a: Action, t: nat)
    requires Enabled(s, a) && ActionThread(a) == Some(t) && !a.Arrive? && !a.Acquire?
    ensures !At(Step(s, a), t).Ready? && !At(Step(s, a), t).Locked?
  {
  }

  lemma OthersKeep(s: System, a: Action, t: nat)
    requires Enabled(s, a) && ActionThread(a).Some? && ActionThread(a) != Some(t) && t in Step(s, a).threads
    ensures t in s.threads && Step(s, a).threads[t] == s.threads[t]
  {
  }

  lemma StepTickets(s: State, init: seq<Action>, a: Action)
    requires Inv(s) && Tickets(init, s.sys) && Enabled(s.sys, a)
    ensures Tickets(init + [a], Next(s, a).sys)
  {
    var n := Step(s.sys, a);
    forall t | t in n.threads ensures Ticket(n.config, init + [a], t, n.threads[t]) {
      if ActionThread(a) != Some(t) {
        OthersKeep(s.sys, a, t);
        TicketKept(s.sys.config, init, a, t, s.sys.threads[t]);
      } else if a.Arrive? {
        TicketArrives(s, init, t, a.request);
      } else if a.Acquire? {
        TicketAcquires(s, init, t);
      } else {
        OwnStep(s.sys, a, t);
      }
    }
  }

  lemma {:induction false} RunTickets(config: Config, path: NodeFile, tmp: NodeFile, actions: seq<Action>, s: State)
    requires Run(Boot(config, path, tmp), actions) == Some(s)
    ensures Tickets(actions, s.sys)
  {
    var boot := Boot(config, path, tmp);
    if actions != [] {
      var init, a := actions[..|actions| - 1], actions[|actions| - 1];
      assert actions == init + [a];
      var before := Run(boot, init).value;
      RunTickets(config, path, tmp, init, before);
      BootInv(config, path, tmp);
      RunInv(boot, init);
      StepTickets(before, init, a);
    }
  }

  lemma {:induction false} PrefixRuns(boot: State, actions: seq<Action>, i: nat)
    requires Run(boot, actions).Some? && i <= |actions|
    ensures Run(boot, actions[..i]) == Some(StateAt(boot, actions, i))
  {
    if i < |actions| {
      PrefixRuns(boot, actions[..|actions| - 1], i);
      assert actions[..|actions| - 1][..i] == actions[..i];
    } else {
      assert actions[..i] == actions;
    }
  }

  /** The actions before a thread's step, with the lock held for a job, tell where the lock was taken and the job
      arrived. */
  lemma TicketRead(config: Config, actions: seq<Action>, i: nat, t: nat, job: Job)
    requires i < |actions| && ActionThread(actions[i]) == Some(t) && Ticket(config, actions[..i], t, Locked(job))
    ensures 0 <= Arrived(actions, i) < Acquired(actions, i) < i && actions[Acquired(actions, i)] == Acquire(t)
    ensures Admitted(config, actions[Arrived(actions, i)], job) && ActionThread(actions[Arrived(actions, i)]) == Some(t)
    ensures LastIndex(actions[..i], IsAcquire()) == Acquired(actions, i)
    ensures LastIndex(actions[..i], IsCrash()) < Acquired(actions, i)
  {
    var j := Acquired(actions, i);
    assert actions[..i][..j] == actions[..j] && actions[..i][j] == actions[j];
  }

  lemma ChangeLocked(boot: State, actions: seq<Action>, i: nat)
    requires i < |actions| && ChangesAt(boot, actions, i)
    ensures At(StateAt(boot, actions, i).sys, actions[i].t) == Locked(Write(OpAt(boot, actions, i)))
    ensures actions[i].t in StateAt(boot, actions, i).sys.threads
  {
  }

  /** Every change of the map was asked for: its thread took the lock, before that the request arrived that was
      admitted for just this operation, and since then nobody took the lock, the thread did nothing else and the
      process lived on. */
  lemma ChangeIsAdmitted(config: Config, path: NodeFile, tmp: NodeFile, actions: seq<Action>, i: nat)
    requires Run(Boot(config, path, tmp), actions).Some? && i < |actions| &&
             ChangesAt(Boot(config, path, tmp), actions, i)
    ensures 0 <= Arrived(actions, i) < Acquired(actions, i) < i
    ensures actions[Acquired(actions, i)] == Acquire(actions[i].t)
    ensures Admitted(config, actions[Arrived(actions, i)], Write(OpAt(Boot(config, path, tmp), actions, i)))
    ensures ActionThread(actions[Arrived(actions, i)]) == Some(actions[i].t)
    ensures LastIndex(actions[..i], IsAcquire()) == Acquired(actions, i)
    ensures LastIndex(actions[..i], IsCrash()) < Acquired(actions, i)
  {
    var boot := Boot(config, path, tmp);
    var s := StateAt(boot, actions, i);
    PrefixRuns(boot, actions, i);
    RunTickets(config, path, tmp, actions[..i], s);
    RunTracked(config, path, tmp, actions[..i], s);
    ChangeLocked(boot, actions, i);
    TicketRead(config, actions, i, actions[i].t, Write(OpAt(boot, actions, i)));
  }

  /** The lock is taken for the later action only after the earlier one. */
  lemma LaterLock(actions: seq<Action>, i: nat, a: nat, t: nat, j: nat, b: nat, u: nat)
    requires a < i < j < |actions| && b < j && actions[a] == Acquire(t) && actions[b] == Acquire(u)
    requires ActionThread(actions[i]) == Some(t) && !actions[i].Acquire?
    requires LastIndex(actions[..i], IsAcquire()) == a && LastIndex(actions[..j], IsAcquire()) == b
    requires LastIndex(actions[..j], IsBy(u)) == b
    ensures i < b
  {
    assert actions[..j][i] == actions[i] && actions[..j][a] == actions[a];
    LastIsMax(actions[..j], IsAcquire(), a);
    if t == u { LastIsMax(actions[..j], IsBy(t), i); }
    if b < i {
      assert actions[..i][b] == actions[b];
      LastIsMax(actions[..i], IsAcquire(), b);
    }
  }

  lemma OtherArrival(actions: seq<Action>, i: nat, k: nat, t: nat, b: nat, l: nat, u: nat)
    requires k < i < b < |actions| && l < b && ActionThread(actions[i]) == Some(t)
    requires ActionThread(actions[k]) == Some(t) && ActionThread(actions[l]) == Some(u)
    requires LastIndex(actions[..b], IsBy(u)) == l
    ensures k != l
  {
    assert actions[..b][i] == actions[i];
    if t == u { LastIsMax(actions[..b], IsBy(t), i); }
  }

  /** Changes happen in the order in which the lock was taken: the later one's thread took it after the earlier
      change. And they answer different requests. */
  lemma ChangesInLockOrder(config: Config, path: NodeFile, tmp: NodeFile, actions: seq<Action>, i: nat, j: nat)
    requires Run(Boot(config, path, tmp), actions).Some? && i < j < |actions|
    requires ChangesAt(Boot(config, path, tmp), actions, i) && ChangesAt(Boot(config, path, tmp), actions, j)
    ensures i < Acquired(actions, j) && Arrived(actions, i) != Arrived(actions, j)
  {
    ChangeIsAdmitted(config, path, tmp, actions, i);
    ChangeIsAdmitted(config, path, tmp, actions, j);
    var t, u := actions[i].t, actions[j].t;
    LaterLock(actions, i, Acquired(actions, i), t, j, Acquired(actions, j), u);
    OtherArrival(actions, i, Arrived(actions, i), t, Acquired(actions, j), Arrived(actions, j), u);
  }

  lemma {:induction false} SinceAre(boot: State, actions: seq<Action>, start: nat)
    ensures forall n :: 0 <= n < |ChangesSince(boot, actions, start)| ==>
              ChangesAt(boot, actions, ChangesSince(boot, actions, start)[n])
    ensures forall m, n :: 0 <= m < n < |ChangesSince(boot, actions, start)| ==>
              ChangesSince(boot, actions, start)[m] < ChangesSince(boot, actions, start)[n]
    ensures forall i :: start <= i < |actions| && ChangesAt(boot, actions, i) ==>
            i in ChangesSince(boot, actions, start)
  {
    hide *;
    if |actions| > start {
      var init, a := actions[..|actions| - 1], actions[|actions| - 1];
      assert actions == init + [a];
      SinceAre(boot, init, start);
      ChangesSinceSnoc(boot, init, a, start);
      forall i | 0 <= i < |init| ensures ChangesAt(boot, actions, i) == ChangesAt(boot, init, i) {
        EarlierSame(boot, init, a, i);
      }
    }
  }

  /** The changes an account lists are changes of the run, in its order. */
  predicate InOrder(boot: State, actions: seq<Action>, changes: seq<nat>) {
    (forall n :: 0 <= n < |changes| ==> changes[n] < |actions| && ChangesAt(boot, actions, changes[n])) &&
    (forall m, n :: 0 <= m < n < |changes| ==> changes[m] < changes[n])
  }

  lemma InOrderLater(boot: State, actions: seq<Action>, k: nat, changes: seq<nat>)
    requires k <= |actions| && InOrder(boot, actions[..k], changes)
    ensures InOrder(boot, actions, changes)
  {
    forall n | 0 <= n < |changes| ensures ChangesAt(boot, actions, changes[n]) {
      assert actions[..k][..changes[n]] == actions[..changes[n]] && actions[..k][changes[n]] == actions[changes[n]];
    }
  }

  lemma InOrderJoined(boot: State, actions: seq<Action>, earlier: seq<nat>, later: seq<nat>, k: nat)
    requires InOrder(boot, actions, earlier) && InOrder(boot, actions, later)
    requires forall n :: 0 <= n < |earlier| ==> earlier[n] < k
    requires forall n :: 0 <= n < |later| ==> k <= later[n]
    ensures InOrder(boot, actions, earlier + later)
  {
  }

  lemma SinceInOrder(boot: State, actions: seq<Action>, start: nat)
    ensures InOrder(boot, actions, ChangesSince(boot, actions, start))
  {
    SinceAre(boot, actions, start);
  }

  lemma {:induction false} StartInOrder(boot: State, actions: seq<Action>, c: int)
    requires -1 <= c < |actions| && (c >= 0 ==> actions[c].Crash?)
    ensures InOrder(boot, actions, Start(boot, actions, c).changes)
    decreases |actions|, 1
  {
    if c >= 0 && actions[c].readable {
      FileInOrder(boot, actions[..c]);
      InOrderLater(boot, actions, c, OnFile(boot, actions[..c]).changes);
    }
  }

  lemma {:induction false} MemoryInOrder(boot: State, actions: seq<Action>)
    ensures InOrder(boot, actions, InMemory(boot, actions).changes)
    decreases |actions|, 2
  {
    hide Start, ChangesSince, InOrder, Run;
    var c := LastIndex(actions, IsCrash());
    StartInOrder(boot, actions, c);
    SinceInOrder(boot, actions, c + 1);
    InOrderJoined(boot, actions, Start(boot, actions, c).changes, ChangesSince(boot, actions, c + 1), c + 1);
  }

  lemma {:induction false} FileInOrder(boot: State, actions: seq<Action>)
    ensures InOrder(boot, actions, OnFile(boot, actions).changes)
    decreases |actions|, 0
  {
    var r := LastIndex(actions, IsRename());
    if r >= 0 {
      MemoryInOrder(boot, actions[..r]);
      InOrderLater(boot, actions, r, InMemory(boot, actions[..r]).changes);
    }
  }

  /** The log is the run's changes in lock order, each for its own admitted request: a refused request is in it
      nowhere, an admitted one at most once. A later entry's lock was taken after the earlier entry's change; so a
      write answered before another request arrived comes before it in the log. */
  lemma OnlyAdmittedRequestsCount(config: Config, path: NodeFile, tmp: NodeFile, actions: seq<Action>, s: State,
                                  m: nat, n: nat)
    requires Run(Boot(config, path, tmp), actions) == Some(s) && m < |s.hist.log| && n < |s.hist.log|
    ensures var boot := Boot(config, path, tmp);
            var changes := InMemory(boot, actions).changes;
            && |changes| == |s.hist.log| && s.hist.log[m] == OpAt(boot, actions, changes[m])
            && ActionThread(actions[changes[m]]).Some? && ActionThread(actions[changes[n]]).Some?
            && 0 <= Arrived(actions, changes[m]) < Acquired(actions, changes[m]) < changes[m]
            && Admitted(config, actions[Arrived(actions, changes[m])], Write(s.hist.log[m]))
            && (m < n ==> changes[m] < Acquired(actions, changes[n]))
            && (m != n ==> Arrived(actions, changes[m]) != Arrived(actions, changes[n]))
            && (Arrived(actions, changes[n]) > changes[m] ==> m < n)
  {
    var boot := Boot(config, path, tmp);
    var changes := InMemory(boot, actions).changes;
    RunTracked(config, path, tmp, actions, s);
    MemoryInOrder(boot, actions);
    ChangeIsAdmitted(config, path, tmp, actions, changes[m]);
    ChangeIsAdmitted(config, path, tmp, actions, changes[n]);
    if m < n { ChangesInLockOrder(config, path, tmp, actions, changes[m], changes[n]); }
    if n < m { ChangesInLockOrder(config, path, tmp, actions, changes[n], changes[m]); }
  }
}
