/** The answers of a concurrent run: a write that was answered 200 is in the data file for good. */
module Answers {
  import opened Text
  import opened Store
  import opened Admission
  import opened Machine
  import opened Recovery
  import opened Ledger

  function IsChange(t: nat): Action -> bool { (a: Action) => a == ChangeMap(t) }

  function IsArrival(t: nat): Action -> bool { (a: Action) => a.Arrive? && a.t == t }

  /** The last arrival on a thread is its last step, or before that. */
  lemma {:induction false} LastArrivalAmong(actions: seq<Action>, t: nat)
    ensures var j := LastIndex(actions, IsBy(t));
            LastIndex(actions, IsArrival(t)) ==
            if j < 0 || actions[j].Arrive? then j else LastIndex(actions[..j], IsArrival(t))
  {
    if actions != [] && ActionThread(actions[|actions| - 1]) != Some(t) {
      var init := actions[..|actions| - 1];
      LastArrivalAmong(init, t);
      var j := LastIndex(init, IsBy(t));
      if j >= 0 { assert init[..j] == actions[..j]; }
    }
  }

  // ----- the account of the file only grows -----

  lemma SavesNotBlind(init: seq<Action>, a: Action)
    requires !SavesBlind(init + [a])
    ensures !SavesBlind(init) && (a.Rename? ==> !StartedBlind(init))
    ensures !StartedBlind(init + [a]) ==> if a.Crash? then a.readable else !StartedBlind(init)
  {
    SavesBlindLast(init, a);
  }

  lemma QuietStep(boot: State, init: seq<Action>, a: Action)
    ensures !a.ChangeMap? ==> !ChangesAt(boot, init + [a], |init|)
  {
  }

  /** What is on file is in memory, unless the process could not read the file. */
  lemma {:induction false} FileInMemory(boot: State, actions: seq<Action>)
    requires !SavesBlind(actions) && !StartedBlind(actions)
    ensures OnFile(boot, actions).changes <= InMemory(boot, actions).changes
  {
    hide InMemory, OnFile, ChangesAt, SavesBlind, StartedBlind;
    if actions == [] {
      NothingOnFile(boot);
    } else {
      var init, a := actions[..|actions| - 1], actions[|actions| - 1];
      assert actions == init + [a];
      SavesNotBlind(init, a);
      OnFileSnoc(boot, init, a);
      QuietStep(boot, init, a);
      if a.Crash? {
        InMemoryCrash(boot, init, a);
      } else {
        InMemoryStep(boot, init, a);
        FileInMemory(boot, init);
      }
    }
  }

  lemma NothingOnFile(boot: State)
    ensures OnFile(boot, []).changes == []
  {
  }

  /** A change once on file stays there, as long as no process that could not read the file replaces it. */
  lemma {:induction false} FileGrows(boot: State, actions: seq<Action>, k: nat)
    requires !SavesBlind(actions) && k <= |actions|
    ensures OnFile(boot, actions[..k]).changes <= OnFile(boot, actions).changes
  {
    hide InMemory, OnFile, SavesBlind, StartedBlind;
    if k == |actions| {
      assert actions[..k] == actions;
    } else {
      var init, a := actions[..|actions| - 1], actions[|actions| - 1];
      assert actions == init + [a] && init[..k] == actions[..k];
      SavesNotBlind(init, a);
      FileGrows(boot, init, k);
      OnFileSnoc(boot, init, a);
      if a.Rename? { FileInMemory(boot, init); }
    }
  }

  // ----- what each thread has done -----

  /** The thread's last change did `op`, and it is for the last request that arrived on this thread. */
  predicate Changed(boot: State, actions: seq<Action>, t: nat, op: Op) {
    var c := LastIndex(actions, IsChange(t));
    c >= 0 && ChangesAt(boot, actions, c) && OpAt(boot, actions, c) == op &&
    LastIndex(actions, IsArrival(t)) == Arrived(actions, c)
  }

  predicate ChangedIn(boot: State, actions: seq<Action>, t: nat, op: Op, changes: seq<nat>) {
    Changed(boot, actions, t, op) && LastIndex(actions, IsChange(t)) in changes
  }

  /** From its change on the thread's change is in memory; once stored it is on file. */
  predicate Course(boot: State, actions: seq<Action>, t: nat, th: Thread) {
    match th
    case Applied(op) => ChangedIn(boot, actions, t, op, InMemory(boot, actions).changes)
    case Sorted(op, _) => ChangedIn(boot, actions, t, op, InMemory(boot, actions).changes)
    case Writing(op, _) => ChangedIn(boot, actions, t, op, InMemory(boot, actions).changes)
    case Written(op, _) => ChangedIn(boot, actions, t, op, InMemory(boot, actions).changes)
    case Finished(Stored(op)) => ChangedIn(boot, actions, t, op, OnFile(boot, actions).changes)
    case Done(Stored(op)) => ChangedIn(boot, actions, t, op, OnFile(boot, actions).changes)
    case _ => true
  }

  predicate Courses(boot: State, actions: seq<Action>, s: System) {
    forall t :: t in s.threads ==> Course(boot, actions, t, s.threads[t])
  }

  /** A step that is neither an arrival nor a change of this thread leaves its past alone. */
  lemma ChangedKept(boot: State, init: seq<Action>, a: Action, t: nat, op: Op)
    requires Changed(boot, init, t, op) && a != ChangeMap(t) && !IsArrival(t)(a)
    ensures Changed(boot, init + [a], t, op) && LastIndex(init + [a], IsChange(t)) == LastIndex(init, IsChange(t))
  {
    var actions := init + [a];
    var c := LastIndex(init, IsChange(t));
    LastSnoc(init, a, IsChange(t));
    LastSnoc(init, a, IsArrival(t));
    EarlierSame(boot, init, a, c);
    assert actions[c] == init[c] && actions[..c] == init[..c];
    var j := Acquired(init, c);
    if j >= 0 { assert actions[..j] == init[..j]; }
  }

  /** Everything in memory or on file is still there after one more step of the same process. */
  lemma AccountsKept(boot: State, init: seq<Action>, a: Action)
    requires !a.Crash? && !SavesBlind(init + [a])
    ensures InMemory(boot, init).changes <= InMemory(boot, init + [a]).changes
    ensures OnFile(boot, init).changes <= OnFile(boot, init + [a]).changes
    ensures a.Rename? ==> OnFile(boot, init + [a]) == InMemory(boot, init)
  {
    hide InMemory, OnFile, SavesBlind, StartedBlind, ChangesAt;
    SavesNotBlind(init, a);
    InMemoryStep(boot, init, a);
    OnFileSnoc(boot, init, a);
    if a.Rename? { FileInMemory(boot, init); }
  }

  /** The request behind the change that a lock holder makes is the last that arrived on its thread. */
  lemma LastArrival(config: Config, init: seq<Action>, t: nat, job: Job)
    requires Ticket(config, init, t, Locked(job))
    ensures LastIndex(init + [ChangeMap(t)], IsArrival(t)) == Arrived(init + [ChangeMap(t)], |init|)
  {
    hide LastIndex, Judge;
    var actions := init + [ChangeMap(t)];
    assert actions[..|init|] == init && actions[|init|] == ChangeMap(t);
    LastSnoc(init, ChangeMap(t), IsArrival(t));
    LastArrivalAmong(init, t);
    var j := LastIndex(init, IsBy(t));
    assert actions[..j] == init[..j];
    LastArrivalAmong(init[..j], t);
  }

  lemma ChangeEntered(s: State, boot: State, init: seq<Action>, t: nat)
    requires Run(boot, init) == Some(s) && Enabled(s.sys, ChangeMap(t))
    requires Ticket(s.sys.config, init, t, At(s.sys, t))
    ensures Course(boot, init + [ChangeMap(t)], t, At(Step(s.sys, ChangeMap(t)), t))
  {
    var a := ChangeMap(t);
    var actions := init + [a];
    LastState(boot, init, a, s);
    LastArrival(s.sys.config, init, t, At(s.sys, t).job);
    LastSnoc(init, a, IsChange(t));
    InMemoryStep(boot, init, a);
    var op := At(s.sys, t).job.op;
    if op.Put? || op.id in s.sys.store {
      assert actions[|init|] == a && ChangesAt(boot, actions, |init|);
      var memory := InMemory(boot, actions).changes;
      assert memory[|memory| - 1] == |init|;
    }
  }

  lemma CourseKept(s: State, boot: State, init: seq<Action>, a: Action, t: nat)
    requires Enabled(s.sys, a) && !a.Crash? && !SavesBlind(init + [a]) && a != ChangeMap(t)
    requires t in s.sys.threads && Course(boot, init, t, s.sys.threads[t]) && t in Step(s.sys, a).threads
    ensures Course(boot, init + [a], t, Step(s.sys, a).threads[t])
  {
    hide InMemory, OnFile, SavesBlind, Changed, Judge, Apply, IsListing, LastIndex, ChangesAt, OpAt;
    AccountsKept(boot, init, a);
    forall op | Changed(boot, init, t, op) && !IsArrival(t)(a)
      ensures Changed(boot, init + [a], t, op) && LastIndex(init + [a], IsChange(t)) == LastIndex(init, IsChange(t))
    {
      ChangedKept(boot, init, a, t, op);
    }
  }

  lemma StepCourses(s: State, boot: State, init: seq<Action>, a: Action)
    requires Run(boot, init) == Some(s) && Enabled(s.sys, a) && !SavesBlind(init + [a])
    requires Courses(boot, init, s.sys) && Tickets(init, s.sys)
    ensures Courses(boot, init + [a], Step(s.sys, a))
  {
    hide Course, Ticket, SavesBlind, Run;
    if !a.Crash? {
      forall t | t in Step(s.sys, a).threads ensures Course(boot, init + [a], t, Step(s.sys, a).threads[t]) {
        if a == ChangeMap(t) {
          ChangeEntered(s, boot, init, t);
        } else if t in s.sys.threads {
          CourseKept(s, boot, init, a, t);
        } else {
          ArrivalCourse(s, boot, init, a, t);
        }
      }
    }
  }

  lemma ArrivalCourse(s: State, boot: State, init: seq<Action>, a: Action, t: nat)
    requires Enabled(s.sys, a) && t !in s.sys.threads && t in Step(s.sys, a).threads
    ensures Course(boot, init + [a], t, Step(s.sys, a).threads[t])
  {
    hide InMemory, OnFile, ChangedIn;
  }

  lemma {:induction false} RunCourses(config: Config, path: NodeFile, tmp: NodeFile, actions: seq<Action>, s: State)
    requires Run(Boot(config, path, tmp), actions) == Some(s) && !SavesBlind(actions)
    ensures Courses(Boot(config, path, tmp), actions, s.sys)
  {
    hide SavesBlind, Course, Ticket;
    var boot := Boot(config, path, tmp);
    if actions != [] {
      var init, a := actions[..|actions| - 1], actions[|actions| - 1];
      assert actions == init + [a];
      var before := Run(boot, init).value;
      SavesNotBlind(init, a);
      RunCourses(config, path, tmp, init, before);
      RunTickets(config, path, tmp, init, before);
      StepCourses(before, boot, init, a);
    }
  }

  // ----- what an answer means -----

  /** Action `i` sends the answer 200 to a write. */
  predicate Answers(boot: State, actions: seq<Action>, i: nat, op: Op)
    requires i < |actions|
  {
    actions[i].Leave? && At(StateAt(boot, actions, i).sys, actions[i].t) == Done(Stored(op))
  }

  /** The change its thread made before. */
  function OwnChange(actions: seq<Action>, i: nat): (c: int)
    requires i < |actions| && actions[i].Leave?
    ensures -1 <= c < i
  {
    LastIndex(actions[..i], IsChange(actions[i].t))
  }

  lemma SavesBlindLater(actions: seq<Action>, k: nat)
    requires k <= |actions| && !SavesBlind(actions)
    ensures !SavesBlind(actions[..k])
  {
    forall i | 0 <= i < k ensures actions[..k][..i] == actions[..i] && actions[..k][i] == actions[i] { }
  }

  lemma ChangeAtPrefix(boot: State, actions: seq<Action>, k: nat, c: nat)
    requires c < k <= |actions|
    ensures ChangesAt(boot, actions[..k], c) == ChangesAt(boot, actions, c)
    ensures OpAt(boot, actions[..k], c) == OpAt(boot, actions, c)
    ensures actions[..k][c] == actions[c]
    ensures ActionThread(actions[c]).Some? ==> Arrived(actions[..k], c) == Arrived(actions, c)
  {
    assert actions[..k][..c] == actions[..c] && actions[..k][c] == actions[c];
    if ActionThread(actions[c]).Some? {
      var j := Acquired(actions, c);
      if j >= 0 { assert actions[..k][..j] == actions[..j]; }
    }
  }

  /** Unless a process that could not read the file replaces it, before or after: the change made for a request that
      was answered 200 is one of those the data file stands for, at every later moment. It did what the request asked
      for, and the request is the last that arrived on its thread. */
  lemma AnsweredWriteIsOnFile(config: Config, path: NodeFile, tmp: NodeFile, actions: seq<Action>, i: nat, op: Op)
    requires Run(Boot(config, path, tmp), actions).Some? && !SavesBlind(actions)
    requires i < |actions| && Answers(Boot(config, path, tmp), actions, i, op)
    ensures var boot, c := Boot(config, path, tmp), OwnChange(actions, i);
            && 0 <= c < i && ChangesAt(boot, actions, c) && OpAt(boot, actions, c) == op
            && c in OnFile(boot, actions).changes
            && 0 <= Arrived(actions, c) == LastIndex(actions[..i], IsArrival(actions[i].t))
            && Admitted(config, actions[Arrived(actions, c)], Write(op))
  {
    hide SavesBlind, OnFile, InMemory, Run, OpAt, LastIndex, ChangesAt, StateAt, Arrived, Admitted;
    var boot, c := Boot(config, path, tmp), OwnChange(actions, i);
    PrefixRuns(boot, actions, i);
    SavesBlindLater(actions, i);
    RunCourses(config, path, tmp, actions[..i], StateAt(boot, actions, i));
    ChangeAtPrefix(boot, actions, i, c);
    FileGrows(boot, actions, i);
    ChangeIsAdmitted(config, path, tmp, actions, c);
  }

  /** No later change of the file is about the same node. */
  predicate Latest(boot: State, actions: seq<Action>, c: nat, id: string) {
    forall n :: 0 <= n < |OnFile(boot, actions).changes| && OnFile(boot, actions).changes[n] > c ==>
      OpID(OpAt(boot, actions, OnFile(boot, actions).changes[n])) != id
  }

  lemma LatestUntouched(boot: State, actions: seq<Action>, m: nat, id: string)
    requires m < |OnFile(boot, actions).changes| && Latest(boot, actions, OnFile(boot, actions).changes[m], id)
    ensures Untouched(Ops(boot, actions, OnFile(boot, actions).changes), m + 1, id)
  {
    FileInOrder(boot, actions);
  }

  lemma AnswerLeaves(boot: State, actions: seq<Action>, i: nat, op: Op)
    requires i < |actions| && Answers(boot, actions, i, op)
    ensures actions[i].Leave?
  {
  }

  lemma FileBounded(boot: State, actions: seq<Action>)
    ensures forall n :: 0 <= n < |OnFile(boot, actions).changes| ==> OnFile(boot, actions).changes[n] < |actions|
  {
  }

  lemma RestartLoads(s: State)
    ensures Next(s, Crash(true)).sys.store == Load(s.sys.path)
  {
  }

  /** So on the same condition, after any restart that can read the file, a registration answered 200 is found and a
      deletion answered 200 has held, unless a later request on the same node also reached the file. */
  lemma AnsweredWriteSurvives(config: Config, path: NodeFile, tmp: NodeFile, actions: seq<Action>, s: State,
                              i: nat, op: Op)
    requires Run(Boot(config, path, tmp), actions) == Some(s) && !SavesBlind(actions)
    requires i < |actions| && Answers(Boot(config, path, tmp), actions, i, op) && OwnChange(actions, i) >= 0
    requires Latest(Boot(config, path, tmp), actions, OwnChange(actions, i), OpID(op))
    ensures Reflects(Next(s, Crash(true)).sys.store, op)
  {
    hide *;
    var boot := Boot(config, path, tmp);
    AnswerLeaves(boot, actions, i, op);
    var c := OwnChange(actions, i);
    AnsweredWriteIsOnFile(config, path, tmp, actions, i, op);
    var account := OnFile(boot, actions);
    FileBounded(boot, actions);
    var m :| 0 <= m < |account.changes| && account.changes[m] == c;
    LatestUntouched(boot, actions, m, OpID(op));
    MemoryIsReplay(config, path, tmp, actions, s);
    RestartLoads(s);
    SurvivorIsKept(account.base, Ops(boot, actions, account.changes), m + 1, op);
  }
}
