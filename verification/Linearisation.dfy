/** Every run of the concurrent registry is a sequential one: served one after the other, in the order in which they
    took the lock, the requests get the same answers and leave the same map. */
module Linearisation {
  import opened Text
  import opened Nodes
  import opened Store
  import opened Admission
  import opened Machine
  import opened Recovery
  import opened Ledger
  import opened Solo

  // ----- the turns of a run -----

  /** One handler's turn with the lock: its thread, where its request arrived, where it took and released the lock,
      and the answer it sends. */
  datatype Turn = Turn(t: nat, asked: int, taken: int, released: nat, request: Request, reply: Reply)

  function ReplyOf(th: Thread): Reply {
    if th.Finished? || th.Done? then th.reply else NotFound
  }

  function RequestAt(actions: seq<Action>, k: int): Request {
    if 0 <= k < |actions| && actions[k].Arrive? then actions[k].request else ListNodes("", Same(""))
  }

  /** Where the request arrived for which thread `t` took the lock at `taken`. */
  function AskedFor(actions: seq<Action>, taken: int, t: nat): (k: int)
    requires taken < |actions|
    ensures -1 <= k && (k >= 0 ==> k < taken)
  {
    if taken < 0 then -1 else LastIndex(actions[..taken], IsBy(t))
  }

  /** The turn that ends when thread `t` releases the lock after these actions. */
  function TurnOf(boot: State, init: seq<Action>, t: nat): Turn {
    var taken := LastIndex(init, IsAcquire());
    var asked := AskedFor(init, taken, t);
    Turn(t, asked, taken, |init|, RequestAt(init, asked), ReplyOf(At(StateAt(boot, init, |init|).sys, t)))
  }

  /** The finished turns of the running process, in the order of their releases. */
  function Turns(boot: State, actions: seq<Action>): seq<Turn> {
    if actions == [] then []
    else
      var init, a := actions[..|actions| - 1], actions[|actions| - 1];
      if a.Crash? then [] else if a.Release? then Turns(boot, init) + [TurnOf(boot, init, a.t)] else Turns(boot, init)
  }

  /** The map the running process started with. */
  function Origin(boot: State, actions: seq<Action>): Table {
    StateAt(boot, actions, LastIndex(actions, IsCrash()) + 1).sys.store
  }

  /** Their requests served one after the other. */
  function ServeAll(config: Config, store: Table, turns: seq<Turn>): Table {
    if turns == [] then store
    else Serve(config, ServeAll(config, store, turns[..|turns| - 1]), turns[|turns| - 1].request).0
  }

  /** The answer is the one the sequential service gives to the request on this map; a save that fails is answered
      500, with the map of one that succeeds. */
  predicate Answered(config: Config, before: Table, request: Request, reply: Reply) {
    && Serve(config, before, request).1 == (if reply.SaveFailed? then 200 else Status(request, reply))
    && (reply.Stored? || reply.SaveFailed? ==> Judge(config, request) == Admit(Write(reply.op)))
    && (reply.Listed? ==> IsListing(reply.nodes, before))
  }

  /** Every turn's answer is the sequential one at its place. */
  predicate AllAnswered(config: Config, store: Table, turns: seq<Turn>) {
    forall n :: 0 <= n < |turns| ==>
      Answered(config, ServeAll(config, store, turns[..n]), turns[n].request, turns[n].reply)
  }

  /** A turn is the request's own, and of the running process. */
  predicate Fits(actions: seq<Action>, turn: Turn) {
    && LastIndex(actions, IsCrash()) < turn.asked < turn.taken < turn.released < |actions|
    && actions[turn.asked] == Arrive(turn.t, turn.request)
    && actions[turn.taken] == Acquire(turn.t) && actions[turn.released] == Release(turn.t)
    && LastIndex(actions[..turn.taken], IsBy(turn.t)) == turn.asked
  }

  predicate InTurn(actions: seq<Action>, turns: seq<Turn>) {
    (forall n :: 0 <= n < |turns| ==> Fits(actions, turns[n])) &&
    (forall m, n :: 0 <= m < n < |turns| ==> turns[m].released < turns[n].taken)
  }

  // ----- inside a turn -----

  /** Where the holder stands tells what the sequential service does with its request on the map it found. */
  predicate Section(config: Config, request: Request, before: Table, store: Table, th: Thread) {
    match th
    case Locked(job) => Judge(config, request) == Admit(job) && store == before
    case Applied(op) => Written200(config, request, before, store, op)
    case Sorted(op, _) => Written200(config, request, before, store, op)
    case Writing(op, _) => Written200(config, request, before, store, op)
    case Written(op, _) => Written200(config, request, before, store, op)
    case Finished(reply) => store == Serve(config, before, request).0 && Answered(config, before, request, reply)
    case _ => false
  }

  predicate Written200(config: Config, request: Request, before: Table, store: Table, op: Op) {
    Judge(config, request) == Admit(Write(op)) && Serve(config, before, request) == (store, 200)
  }

  lemma SectionChange(s: System, t: nat, request: Request, before: Table)
    requires Enabled(s, ChangeMap(t)) && Section(s.config, request, before, s.store, At(s, t))
    ensures Section(s.config, request, before, Step(s, ChangeMap(t)).store, At(Step(s, ChangeMap(t)), t))
  {
    hide Judge, Apply;
  }

  lemma SectionRead(s: System, t: nat, request: Request, before: Table, nodes: seq<Node>)
    requires Enabled(s, TakeListing(t, nodes)) && At(s, t).Locked? &&
             Section(s.config, request, before, s.store, At(s, t))
    ensures Section(s.config, request, before, s.store, Finished(Listed(nodes)))
  {
    hide Judge, Apply, IsListing;
  }

  lemma SectionAnswer(config: Config, request: Request, before: Table, store: Table, reply: Reply)
    requires reply.Stored? || reply.SaveFailed?
    requires Written200(config, request, before, store, reply.op)
    ensures Section(config, request, before, store, Finished(reply))
  {
    hide Judge, Serve;
  }

  lemma SectionStep(s: System, a: Action, t: nat, request: Request, before: Table)
    requires Enabled(s, a) && ActionThread(a) == Some(t) && !a.Release?
    requires Section(s.config, request, before, s.store, At(s, t))
    ensures Section(s.config, request, before, Step(s, a).store, At(Step(s, a), t))
  {
    hide Judge, Apply, Serve, Answered;
    if a.ChangeMap? {
      SectionChange(s, t, request, before);
    } else if a.TakeListing? && At(s, t).Locked? {
      SectionRead(s, t, request, before, a.nodes);
    } else if a.Rename? {
      SectionAnswer(s.config, request, before, s.store, Stored(At(s, t).op));
    } else if a.FailSave? {
      SectionAnswer(s.config, request, before, s.store, SaveFailed(At(s, t).op));
    }
  }

  /** Where the lock was taken that is now held, and where the request arrived it was taken for. */
  predicate Entered(actions: seq<Action>, t: nat, j: int, k: int) {
    j == LastIndex(actions, IsAcquire()) && k == AskedFor(actions, j, t) &&
    LastIndex(actions, IsCrash()) < k < j && actions[j] == Acquire(t) &&
    actions[k].Arrive? && actions[k].t == t
  }

  predicate InSection(boot: State, actions: seq<Action>, s: System) {
    s.mu.Some? ==>
      var t, j := s.mu.value, LastIndex(actions, IsAcquire());
      var k := AskedFor(actions, j, t);
      && Entered(actions, t, j, k)
      && Section(s.config, RequestAt(actions, k), StateAt(boot, actions, j).sys.store, s.store, At(s, t))
  }

  lemma EnteredKept(init: seq<Action>, a: Action, t: nat, j: int, k: int)
    requires Entered(init, t, j, k) && !a.Acquire? && !a.Crash?
    ensures Entered(init + [a], t, j, k)
    ensures RequestAt(init + [a], k) == RequestAt(init, k) && (init + [a])[..j] == init[..j]
  {
    LastSnoc(init, a, IsAcquire());
    LastSnoc(init, a, IsCrash());
    assert (init + [a])[..j] == init[..j];
  }

  lemma TakesSection(s: State, boot: State, init: seq<Action>, t: nat)
    requires Run(boot, init) == Some(s) && Enabled(s.sys, Acquire(t)) && Ticket(s.sys.config, init, t, At(s.sys, t))
    ensures InSection(boot, init + [Acquire(t)], Step(s.sys, Acquire(t)))
  {
    var a := Acquire(t);
    var actions := init + [a];
    LastSnoc(init, a, IsAcquire());
    LastSnoc(init, a, IsCrash());
    LastState(boot, init, a, s);
    assert actions[..|init|] == init && actions[|init|] == a;
    var k := LastIndex(init, IsBy(t));
    assert actions[k] == init[k];
  }

  /** Only the holder changes the map, and only from inside. */
  lemma OthersOutside(s: State, a: Action, t: nat)
    requires Inv(s) && Enabled(s.sys, a) && s.sys.mu == Some(t) && ActionThread(a).Some? && ActionThread(a) != Some(t)
    ensures !a.Acquire? && !a.Release?
    ensures Step(s.sys, a).store == s.sys.store && Step(s.sys, a).mu == s.sys.mu &&
            At(Step(s.sys, a), t) == At(s.sys, t)
  {
  }

  lemma HolderStays(s: State, a: Action, t: nat)
    requires Inv(s) && Enabled(s.sys, a) && s.sys.mu == Some(t) && ActionThread(a) == Some(t)
    ensures !a.Acquire? && (a.Release? ==> Step(s.sys, a).mu == None) && (!a.Release? ==> Step(s.sys, a).mu == Some(t))
    ensures a.Release? ==> Step(s.sys, a).store == s.sys.store
  {
  }

  lemma StepSection(s: State, boot: State, init: seq<Action>, a: Action)
    requires Inv(s) && Run(boot, init) == Some(s) && Enabled(s.sys, a)
    requires InSection(boot, init, s.sys) && Tickets(init, s.sys)
    ensures InSection(boot, init + [a], Step(s.sys, a))
  {
    hide Inv, Section, Ticket, Run, Entered, RequestAt;
    if a.Acquire? {
      TakesSection(s, boot, init, a.t);
    } else if !a.Crash? && s.sys.mu.Some? {
      var t, j := s.sys.mu.value, LastIndex(init, IsAcquire());
      var k := AskedFor(init, j, t);
      EnteredKept(init, a, t, j, k);
      EnteredIs(init + [a], t, j, k);
      if ActionThread(a) == Some(t) {
        HolderStays(s, a, t);
        if !a.Release? { SectionStep(s.sys, a, t, RequestAt(init, k), StateAt(boot, init, j).sys.store); }
      } else {
        OthersOutside(s, a, t);
      }
    } else if !a.Crash? {
      LockStaysFree(s, a);
    }
  }

  lemma EnteredIs(actions: seq<Action>, t: nat, j: int, k: int)
    requires Entered(actions, t, j, k)
    ensures j == LastIndex(actions, IsAcquire()) && k == AskedFor(actions, j, t) && 0 <= k < j < |actions|
  {
  }

  lemma LockStaysFree(s: State, a: Action)
    requires Inv(s) && Enabled(s.sys, a) && s.sys.mu == None && !a.Acquire? && !a.Crash?
    ensures Step(s.sys, a).mu == None && Step(s.sys, a).store == s.sys.store && !a.Release?
  {
  }

  lemma {:induction false} RunSections(config: Config, path: NodeFile, tmp: NodeFile, actions: seq<Action>, s: State)
    requires Run(Boot(config, path, tmp), actions) == Some(s)
    ensures InSection(Boot(config, path, tmp), actions, s.sys)
  {
    hide InSection, Tickets, Inv, Step, Enabled, Run;
    var boot := Boot(config, path, tmp);
    if actions == [] {
      RunNone(boot);
      NoSection(config, path, tmp);
    } else {
      var init, a := actions[..|actions| - 1], actions[|actions| - 1];
      assert actions == init + [a];
      LastStep(boot, init, a, s);
      var before := Run(boot, init).value;
      RunSections(config, path, tmp, init, before);
      RunTickets(config, path, tmp, init, before);
      BootInv(config, path, tmp);
      RunInv(boot, init);
      StepSection(before, boot, init, a);
    }
  }

  lemma NoSection(config: Config, path: NodeFile, tmp: NodeFile)
    ensures InSection(Boot(config, path, tmp), [], Boot(config, path, tmp).sys)
  {
  }

  // ----- turn after turn -----

  /** The map while nobody holds the lock; while somebody does, the map it found. */
  function Settled(boot: State, actions: seq<Action>, s: System): Table {
    var j := LastIndex(actions, IsAcquire());
    if s.mu == None || j < 0 then s.store else StateAt(boot, actions, j).sys.store
  }

  /** The finished turns come one after the other, each is answered as the sequential service answers it, and together
      they account for the map. */
  predicate Serialised(boot: State, actions: seq<Action>, s: System) {
    var turns, origin := Turns(boot, actions), Origin(boot, actions);
    && InTurn(actions, turns) && AllAnswered(s.config, origin, turns)
    && Settled(boot, actions, s) == ServeAll(s.config, origin, turns)
    && (s.mu.Some? ==> ReleasedBefore(turns, LastIndex(actions, IsAcquire())))
  }

  predicate ReleasedBefore(turns: seq<Turn>, j: int) {
    forall n :: 0 <= n < |turns| ==> turns[n].released < j
  }

  lemma TurnsSnoc(boot: State, init: seq<Action>, a: Action)
    ensures Turns(boot, init + [a]) ==
            if a.Crash? then []
            else if a.Release? then Turns(boot, init) + [TurnOf(boot, init, a.t)]
            else Turns(boot, init)
  {
    assert (init + [a])[..|init|] == init;
  }

  lemma OriginSnoc(boot: State, init: seq<Action>, a: Action)
    requires !a.Crash?
    ensures Origin(boot, init + [a]) == Origin(boot, init)
  {
    hide Run, LastIndex;
    LastSnoc(init, a, IsCrash());
    var c := LastIndex(init, IsCrash()) + 1;
    assert (init + [a])[..c] == init[..c];
  }

  lemma OriginCrash(s: State, boot: State, init: seq<Action>, a: Action)
    requires Run(boot, init) == Some(s) && Enabled(s.sys, a) && a.Crash?
    ensures Origin(boot, init + [a]) == Step(s.sys, a).store
  {
    hide Judge, Apply, LastIndex, Load;
    LastSnoc(init, a, IsCrash());
    RunSnoc(boot, init, a);
    assert (init + [a])[..|init| + 1] == init + [a];
  }

  lemma FitsKept(init: seq<Action>, a: Action, turn: Turn)
    requires Fits(init, turn) && !a.Crash?
    ensures Fits(init + [a], turn)
  {
    LastSnoc(init, a, IsCrash());
    assert (init + [a])[..turn.taken] == init[..turn.taken];
  }

  lemma InTurnKept(init: seq<Action>, a: Action, turns: seq<Turn>)
    requires InTurn(init, turns) && !a.Crash?
    ensures InTurn(init + [a], turns)
  {
    forall n | 0 <= n < |turns| ensures Fits(init + [a], turns[n]) { FitsKept(init, a, turns[n]); }
  }

  lemma InTurnSnoc(actions: seq<Action>, turns: seq<Turn>, turn: Turn)
    requires InTurn(actions, turns) && Fits(actions, turn) && ReleasedBefore(turns, turn.taken)
    ensures InTurn(actions, turns + [turn])
  {
    hide Fits;
  }

  lemma AnsweredSnoc(config: Config, origin: Table, turns: seq<Turn>, turn: Turn)
    requires AllAnswered(config, origin, turns)
    requires Answered(config, ServeAll(config, origin, turns), turn.request, turn.reply)
    ensures AllAnswered(config, origin, turns + [turn])
    ensures ServeAll(config, origin, turns + [turn]) == Serve(config, ServeAll(config, origin, turns), turn.request).0
  {
    hide Answered, Serve;
    var all := turns + [turn];
    assert all[..|turns|] == turns;
    forall n | 0 <= n < |all|
      ensures Answered(config, ServeAll(config, origin, all[..n]), all[n].request, all[n].reply)
    {
      if n < |turns| { assert all[..n] == turns[..n] && all[n] == turns[n]; }
    }
  }

  /** The turn that a release ends is the holder's own, and its answer is the sequential one. */
  lemma TurnEnds(s: State, boot: State, init: seq<Action>, t: nat)
    requires Inv(s) && Run(boot, init) == Some(s) && Enabled(s.sys, Release(t)) && InSection(boot, init, s.sys)
    ensures s.sys.mu == Some(t) && LastIndex(init, IsAcquire()) == TurnOf(boot, init, t).taken
    ensures Fits(init + [Release(t)], TurnOf(boot, init, t))
    ensures var turn := TurnOf(boot, init, t);
            && Answered(s.sys.config, Settled(boot, init, s.sys), turn.request, turn.reply)
            && s.sys.store == Serve(s.sys.config, Settled(boot, init, s.sys), turn.request).0
  {
    hide Serve, Answered, Replayed, Complete, HolderFacts, Acked;
    var a := Release(t);
    var j := LastIndex(init, IsAcquire());
    assert s.sys.mu == Some(t) && init[..|init|] == init;
    LastSnoc(init, a, IsCrash());
    var actions := init + [a];
    assert actions[..j] == init[..j] && actions[|init|] == a;
  }

  lemma TakesSerialised(s: State, boot: State, init: seq<Action>, t: nat)
    requires Run(boot, init) == Some(s) && Enabled(s.sys, Acquire(t)) && Serialised(boot, init, s.sys)
    ensures Serialised(boot, init + [Acquire(t)], Step(s.sys, Acquire(t)))
  {
    hide AllAnswered, ServeAll, Fits;
    var a := Acquire(t);
    TurnsSnoc(boot, init, a);
    OriginSnoc(boot, init, a);
    InTurnKept(init, a, Turns(boot, init));
    LastSnoc(init, a, IsAcquire());
    LastState(boot, init, a, s);
    AllReleased(init, Turns(boot, init));
  }

  lemma AllReleased(actions: seq<Action>, turns: seq<Turn>)
    requires InTurn(actions, turns)
    ensures ReleasedBefore(turns, |actions|)
  {
  }

  lemma ReleaseSerialised(s: State, boot: State, init: seq<Action>, t: nat)
    requires Inv(s) && Run(boot, init) == Some(s) && Enabled(s.sys, Release(t))
    requires InSection(boot, init, s.sys) && Serialised(boot, init, s.sys)
    ensures Serialised(boot, init + [Release(t)], Step(s.sys, Release(t)))
  {
    hide AllAnswered, ServeAll, Fits, Answered, Serve, Inv, InSection, InTurn, ReleasedBefore, TurnOf;
    var a := Release(t);
    var turns, turn := Turns(boot, init), TurnOf(boot, init, t);
    TurnEnds(s, boot, init, t);
    TurnsSnoc(boot, init, a);
    OriginSnoc(boot, init, a);
    InTurnKept(init, a, turns);
    InTurnSnoc(init + [a], turns, turn);
    SettledHeld(boot, init, s.sys);
    AnsweredSnoc(s.sys.config, Origin(boot, init), turns, turn);
  }

  lemma SettledHeld(boot: State, actions: seq<Action>, s: System)
    ensures s.mu == None ==> Settled(boot, actions, s) == s.store
  {
  }

  /** While no lock is taken, the settled map and the last lock stay, and a held lock does not pass on. */
  lemma SettledKept(s: State, boot: State, init: seq<Action>, a: Action)
    requires Inv(s) && Run(boot, init) == Some(s) && Enabled(s.sys, a) && !a.Acquire? && !a.Release? && !a.Crash?
    requires InSection(boot, init, s.sys)
    ensures Settled(boot, init + [a], Step(s.sys, a)) == Settled(boot, init, s.sys)
    ensures LastIndex(init + [a], IsAcquire()) == LastIndex(init, IsAcquire())
    ensures Step(s.sys, a).mu.Some? ==> s.sys.mu.Some?
  {
    hide Inv, Enabled, LastIndex, Section;
    LastSnoc(init, a, IsAcquire());
    if s.sys.mu == None {
      LockStaysFree(s, a);
    } else {
      var t, j := s.sys.mu.value, LastIndex(init, IsAcquire());
      assert (init + [a])[..j] == init[..j];
      if ActionThread(a) == Some(t) { HolderStays(s, a, t); } else { OthersOutside(s, a, t); }
    }
  }

  lemma OtherSerialised(s: State, boot: State, init: seq<Action>, a: Action)
    requires Inv(s) && Run(boot, init) == Some(s) && Enabled(s.sys, a) && !a.Acquire? && !a.Release? && !a.Crash?
    requires Serialised(boot, init, s.sys) && InSection(boot, init, s.sys)
    ensures Serialised(boot, init + [a], Step(s.sys, a))
  {
    hide AllAnswered, ServeAll, Fits, Inv, InTurn, Section, ReleasedBefore, Settled, InSection, Enabled, LastIndex;
    hide Turns, Origin, Run;
    TurnsSnoc(boot, init, a);
    OriginSnoc(boot, init, a);
    InTurnKept(init, a, Turns(boot, init));
    SettledKept(s, boot, init, a);
    ConfigKept(s.sys, a);
  }

  lemma ConfigKept(s: System, a: Action)
    requires Enabled(s, a)
    ensures Step(s, a).config == s.config
  {
  }

  lemma CrashSerialised(s: State, boot: State, init: seq<Action>, a: Action)
    requires Run(boot, init) == Some(s) && Enabled(s.sys, a) && a.Crash?
    ensures Serialised(boot, init + [a], Step(s.sys, a))
  {
    TurnsSnoc(boot, init, a);
    OriginCrash(s, boot, init, a);
  }

  lemma {:induction false} RunSerialised(config: Config, path: NodeFile, tmp: NodeFile, actions: seq<Action>, s: State)
    requires Run(Boot(config, path, tmp), actions) == Some(s)
    ensures Serialised(Boot(config, path, tmp), actions, s.sys)
  {
    hide Serialised, InSection, Inv, Step, Record, Boot, Enabled;
    var boot := Boot(config, path, tmp);
    if actions == [] {
      NothingServed(config, path, tmp);
    } else {
      var init, a := actions[..|actions| - 1], actions[|actions| - 1];
      assert actions == init + [a];
      var before := Run(boot, init).value;
      RunSerialised(config, path, tmp, init, before);
      RunSections(config, path, tmp, init, before);
      BootInv(config, path, tmp);
      RunInv(boot, init);
      match a
      case Crash(_) => CrashSerialised(before, boot, init, a);
      case Acquire(t) => TakesSerialised(before, boot, init, t);
      case Release(t) => ReleaseSerialised(before, boot, init, t);
      case _ => OtherSerialised(before, boot, init, a);
    }
  }

  lemma NothingServed(config: Config, path: NodeFile, tmp: NodeFile)
    ensures Serialised(Boot(config, path, tmp), [], Boot(config, path, tmp).sys)
  {
  }

  // ----- the result -----

  /** In every run the turns since the last restart come one after the other. Served sequentially in this order, from
      the map the process started with, every request gets just its answer, the listing included - or 500 where its
      save failed, with the same map - and when nobody holds the lock the result is the map. */
  lemma Linearisable(config: Config, path: NodeFile, tmp: NodeFile, actions: seq<Action>, s: State)
    requires Run(Boot(config, path, tmp), actions) == Some(s)
    ensures var boot := Boot(config, path, tmp);
            var turns, origin := Turns(boot, actions), Origin(boot, actions);
            && InTurn(actions, turns) && AllAnswered(config, origin, turns)
            && (s.sys.mu == None ==> s.sys.store == ServeAll(config, origin, turns))
  {
    hide InTurn, AllAnswered, ServeAll, Run;
    RunSerialised(config, path, tmp, actions, s);
    RunTracked(config, path, tmp, actions, s);
  }

  /** The order is that of real time: who is answered before another request arrives is served before it. And no
      request is served twice. */
  lemma TurnsInRealTime(actions: seq<Action>, turns: seq<Turn>, m: nat, n: nat)
    requires InTurn(actions, turns) && m < |turns| && n < |turns|
    ensures turns[m].released < turns[n].asked ==> m < n
    ensures m != n ==> turns[m].asked != turns[n].asked
  {
    if m != n && turns[m].asked == turns[n].asked {
      var a, b := turns[if m < n then m else n], turns[if m < n then n else m];
      assert actions[..b.taken][a.released] == actions[a.released];
      LastIsMax(actions[..b.taken], IsBy(a.t), a.released);
    }
  }

  /** A thread about to answer was either refused when its request arrived, or had its turn. */
  predicate Accounted(config: Config, boot: State, actions: seq<Action>, t: nat, th: Thread) {
    th.Done? ==>
      var j := LastIndex(actions, IsBy(t));
      j >= 0 &&
      if actions[j].Arrive? then th.reply.Refused? && Judge(config, actions[j].request) == Refuse(th.reply.status)
      else exists n :: 0 <= n < |Turns(boot, actions)| && EndsAs(Turns(boot, actions)[n], t, j, th.reply)
  }

  predicate EndsAs(turn: Turn, t: nat, j: int, reply: Reply) {
    turn.t == t && turn.released == j && turn.reply == reply
  }

  lemma AccountedKept(config: Config, boot: State, init: seq<Action>, a: Action, t: nat, th: Thread)
    requires Accounted(config, boot, init, t, th) && !a.Crash? && ActionThread(a) != Some(t)
    ensures Accounted(config, boot, init + [a], t, th)
  {
    hide Judge, EndsAs;
    LastSnoc(init, a, IsBy(t));
    TurnsSnoc(boot, init, a);
    if th.Done? && !init[LastIndex(init, IsBy(t))].Arrive? {
      var turns, j := Turns(boot, init), LastIndex(init, IsBy(t));
      var n :| 0 <= n < |turns| && EndsAs(turns[n], t, j, th.reply);
      assert Turns(boot, init + [a])[n] == turns[n];
    }
  }

  lemma AccountedNow(s: State, boot: State, init: seq<Action>, a: Action, t: nat)
    requires Run(boot, init) == Some(s) && Enabled(s.sys, a) && ActionThread(a) == Some(t)
    ensures Accounted(s.sys.config, boot, init + [a], t, At(Step(s.sys, a), t))
  {
    hide Apply;
    LastSnoc(init, a, IsBy(t));
    TurnsSnoc(boot, init, a);
    if a.Release? {
      var turns := Turns(boot, init + [a]);
      assert init[..|init|] == init;
      assert EndsAs(turns[|turns| - 1], t, |init|, At(s.sys, t).reply);
    }
  }

  predicate AllAccounted(boot: State, actions: seq<Action>, s: System) {
    forall t :: t in s.threads ==> Accounted(s.config, boot, actions, t, s.threads[t])
  }

  lemma StepAccounted(s: State, boot: State, init: seq<Action>, a: Action)
    requires Run(boot, init) == Some(s) && Enabled(s.sys, a) && AllAccounted(boot, init, s.sys)
    ensures AllAccounted(boot, init + [a], Step(s.sys, a))
  {
    hide Accounted, Run;
    forall t | t in Step(s.sys, a).threads
      ensures Accounted(s.sys.config, boot, init + [a], t, Step(s.sys, a).threads[t])
    {
      if ActionThread(a) == Some(t) {
        AccountedNow(s, boot, init, a, t);
      } else {
        OthersKeep(s.sys, a, t);
        AccountedKept(s.sys.config, boot, init, a, t, s.sys.threads[t]);
      }
    }
  }

  lemma NobodyAccounted(config: Config, path: NodeFile, tmp: NodeFile)
    ensures AllAccounted(Boot(config, path, tmp), [], Boot(config, path, tmp).sys)
  {
  }

  lemma {:induction false} RunAccounted(config: Config, path: NodeFile, tmp: NodeFile, actions: seq<Action>, s: State)
    requires Run(Boot(config, path, tmp), actions) == Some(s)
    ensures AllAccounted(Boot(config, path, tmp), actions, s.sys)
  {
    hide Accounted, AllAccounted, Step, Enabled, Run;
    var boot := Boot(config, path, tmp);
    if actions == [] {
      RunNone(boot);
      NobodyAccounted(config, path, tmp);
    } else {
      var init, a := actions[..|actions| - 1], actions[|actions| - 1];
      assert actions == init + [a];
      LastStep(boot, init, a, s);
      RunAccounted(config, path, tmp, init, Run(boot, init).value);
      StepAccounted(Run(boot, init).value, boot, init, a);
    }
  }

  /** Every answer of the running process is accounted for: a refusal is the one the sequential service gives on any
      map, and every other answer is that of one of the turns. */
  lemma EveryAnswerHasItsPlace(config: Config, path: NodeFile, tmp: NodeFile, actions: seq<Action>, s: State, t: nat,
                               store: Table)
    requires Run(Boot(config, path, tmp), actions) == Some(s) && At(s.sys, t).Done?
    ensures var boot, j := Boot(config, path, tmp), LastIndex(actions, IsBy(t));
            && j >= 0
            && if actions[j].Arrive? then
                 Serve(config, store, actions[j].request) == (store, Status(actions[j].request, At(s.sys, t).reply))
               else
                 exists n :: 0 <= n < |Turns(boot, actions)| &&
                             EndsAs(Turns(boot, actions)[n], t, j, At(s.sys, t).reply)
  {
    RunAccounted(config, path, tmp, actions, s);
    RunTracked(config, path, tmp, actions, s);
    assert t in s.sys.threads;
  }
}
