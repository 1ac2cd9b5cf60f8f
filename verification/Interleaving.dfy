/** The Worker under concurrency: any number of requests, interleaved at the granularity of their database
    statements. */
module Interleaving {
  import opened Text
  import opened Admission
  import opened Worker
  import D1 = Database

  /** Where a request stands: about to issue its first statement; about to delete the row it has seen; answered. */
  datatype Phase =
    | Busy(request: Request)
    | Seen(request: Request, id: string)
    | Answered(request: Request, status: nat)

  datatype State = State(rows: seq<D1.Row>, phases: map<nat, Phase>)

  datatype Action =
    | Arrive(t: nat, request: Request)
    | Issue(t: nat, at: Bytes)                     // the next statement, with the clock it binds
    | Leave(t: nat)                                // the answer is sent

  /** The statement a request issues next. */
  function NextStatement(tokens: Tokens, phase: Phase, at: Bytes): D1.Statement
    requires !phase.Answered?
  {
    if phase.Seen? then D1.Delete(phase.id)
    else
      match Assign(tokens, phase.request)
      case Storing(node) => D1.Upsert(node, at)
      case Removing(id) => D1.Select(id)
      case _ => D1.SelectAll
  }

  predicate Enabled(s: State, a: Action) {
    match a
    case Arrive(t, _) => t !in s.phases
    case Issue(t, _) => t in s.phases && !s.phases[t].Answered?
    case Leave(t) => t in s.phases && s.phases[t].Answered?
  }

  /** What a request does with the answer to its statement: a delete that has found its row goes on, everything else is
      answered. */
  function Proceed(tokens: Tokens, rows: seq<D1.Row>, phase: Phase): Phase
    requires !phase.Answered?
  {
    var r := phase.request;
    if phase.Seen? then Answered(r, 200)
    else
      match Assign(tokens, r)
      case Answer(status) => Answered(r, status)
      case Storing(_) => Answered(r, 200)
      case Removing(id) => if D1.Lookup(rows, id) == None then Answered(r, 404) else Seen(r, id)
      case Listing => Answered(r, 200)
      case Printing(format) => Answered(r, if Printed(format, rows) == None then 400 else 200)
  }

  function Next(tokens: Tokens, s: State, a: Action): State
    requires Enabled(s, a)
  {
    match a
    case Arrive(t, request) =>
      var task := Assign(tokens, request);
      State(s.rows, s.phases[t := if task.Answer? then Answered(request, task.status) else Busy(request)])
    case Issue(t, at) =>
      State(D1.Execute(s.rows, NextStatement(tokens, s.phases[t], at)),
            s.phases[t := Proceed(tokens, s.rows, s.phases[t])])
    case Leave(t) => State(s.rows, s.phases - {t})
  }

  const EMPTY := State([], map[])

  /** The state a run ends in; None when some step is not enabled. */
  function Run(tokens: Tokens, actions: seq<Action>): Option<State> {
    if actions == [] then Some(EMPTY)
    else
      var before :- Run(tokens, actions[..|actions| - 1]);
      if Enabled(before, actions[|actions| - 1]) then Some(Next(tokens, before, actions[|actions| - 1])) else None
  }

  /** The statements of a run, in the order in which they are executed. */
  function Statements(tokens: Tokens, actions: seq<Action>): seq<D1.Statement>
    requires Run(tokens, actions).Some?
  {
    if actions == [] then []
    else
      var init, a := actions[..|actions| - 1], actions[|actions| - 1];
      Statements(tokens, init) +
      if a.Issue? then [NextStatement(tokens, Run(tokens, init).value.phases[a.t], a.at)] else []
  }

  // ----- what every step keeps -----

  /** A request that goes on has something to do; one that has seen its row is a delete of it. */
  predicate Fitting(tokens: Tokens, phase: Phase) {
    match phase
    case Busy(request) => !Assign(tokens, request).Answer?
    case Seen(request, id) => Assign(tokens, request) == Removing(id)
    case Answered(_, _) => true
  }

  predicate Inv(tokens: Tokens, s: State) {
    forall t :: t in s.phases ==> Fitting(tokens, s.phases[t])
  }

  lemma StepInv(tokens: Tokens, s: State, a: Action)
    requires Inv(tokens, s) && Enabled(s, a)
    ensures Inv(tokens, Next(tokens, s, a))
  {
    hide Assign, D1.Execute, D1.Lookup, Printed;
  }

  lemma {:induction false} RunInv(tokens: Tokens, actions: seq<Action>)
    requires Run(tokens, actions).Some?
    ensures Inv(tokens, Run(tokens, actions).value)
  {
    hide Inv, Enabled, Next;
    if actions == [] {
      EmptyInv(tokens);
    } else {
      var init := actions[..|actions| - 1];
      RunInv(tokens, init);
      StepInv(tokens, Run(tokens, init).value, actions[|actions| - 1]);
    }
  }

  lemma EmptyInv(tokens: Tokens)
    ensures Inv(tokens, EMPTY)
  {
  }

  // ----- the table -----

  /** The table is what the executed statements leave, one after the other, in the order of their execution. */
  lemma {:induction false} TableIsSerial(tokens: Tokens, actions: seq<Action>)
    requires Run(tokens, actions).Some?
    ensures Run(tokens, actions).value.rows == D1.After(Statements(tokens, actions))
  {
    hide NextStatement, Proceed, D1.Execute, Assign;
    if actions != [] {
      var init, a := actions[..|actions| - 1], actions[|actions| - 1];
      TableIsSerial(tokens, init);
      var before := Statements(tokens, init);
      if a.Issue? {
        var statement := NextStatement(tokens, Run(tokens, init).value.phases[a.t], a.at);
        assert (before + [statement])[..|before|] == before;
      } else {
        assert before + [] == before;
      }
    }
  }

  /** So at any moment the row of a node is the one that its upserts and deletes, in the order of their execution, ask
      for. */
  lemma RowOfEveryRun(tokens: Tokens, actions: seq<Action>, id: string)
    requires Run(tokens, actions).Some?
    ensures D1.Lookup(Run(tokens, actions).value.rows, id) == D1.Expected(Statements(tokens, actions), id)
  {
    TableIsSerial(tokens, actions);
    D1.RowHistory(Statements(tokens, actions), id);
  }

  // ----- the answers -----

  lemma {:induction false} DeleteAbsent(rows: seq<D1.Row>, id: string)
    requires D1.Lookup(rows, id) == None
    ensures D1.DeleteRows(rows, id) == rows
  {
    if rows != [] {
      DeleteAbsent(rows[1..], id);
      assert rows == [rows[0]] + rows[1..];
    }
  }

  /** A delete whose row another delete has removed in the meantime. */
  predicate Overtaken(rows: seq<D1.Row>, phase: Phase) {
    phase.Seen? && D1.Lookup(rows, phase.id) == None
  }

  /** What one statement does, in any run: it takes a delete on from the row it has found, or it answers its request,
      with the table that the request served on its own would leave - and with its status, except that a delete which
      has been overtaken is answered 200 instead of 404. */
  lemma StatementServes(tokens: Tokens, actions: seq<Action>, s: State, t: nat, at: Bytes)
    requires Run(tokens, actions) == Some(s) && Enabled(s, Issue(t, at))
    ensures var phase, n := s.phases[t], Next(tokens, s, Issue(t, at));
            var serial := WorkerServe(tokens, s.rows, phase.request, at);
            if n.phases[t].Seen? then
              n.rows == s.rows && phase.Busy? && Assign(tokens, phase.request) == Removing(n.phases[t].id) &&
              D1.Lookup(s.rows, n.phases[t].id).Some?
            else
              && n.phases[t].Answered? && n.phases[t].request == phase.request && n.rows == serial.0
              && (n.phases[t].status == serial.1 <==> !Overtaken(s.rows, phase))
              && (Overtaken(s.rows, phase) ==> n.phases[t].status == 200 && serial.1 == 404)
  {
    var phase := s.phases[t];
    RunInv(tokens, actions);
    assert Fitting(tokens, phase);
    hide Run;
    if Overtaken(s.rows, phase) { DeleteAbsent(s.rows, phase.id); }
    hide Assign, D1.UpsertRow, D1.DeleteRows, D1.Lookup, Printed;
  }

  /** A request refused on arrival is refused by the sequential service on every table. */
  lemma RefusalServes(tokens: Tokens, s: State, t: nat, request: Request, rows: seq<D1.Row>, at: Bytes)
    requires Enabled(s, Arrive(t, request)) && Next(tokens, s, Arrive(t, request)).phases[t].Answered?
    ensures WorkerServe(tokens, rows, request, at) == (rows, Next(tokens, s, Arrive(t, request)).phases[t].status)
  {
    hide Assign;
  }

  // ----- the two statements of a delete -----

  predicate IsDelete(tokens: Tokens, request: Request, id: string) { Assign(tokens, request) == Removing(id) }

  /** A delete is answered 404 exactly when its own select finds no row; otherwise it is answered 200, and right after
      its own delete there is none. */
  lemma DeleteAnswers(tokens: Tokens, actions: seq<Action>, s: State, t: nat, at: Bytes, id: string)
    requires Run(tokens, actions) == Some(s) && Enabled(s, Issue(t, at)) && IsDelete(tokens, s.phases[t].request, id)
    ensures var phase, n := s.phases[t], Next(tokens, s, Issue(t, at));
            if phase.Busy? then
              n.rows == s.rows &&
              n.phases[t] ==
              if D1.Lookup(s.rows, id) == None then Answered(phase.request, 404) else Seen(phase.request, id)
            else
              n.phases[t] == Answered(phase.request, 200) && D1.Lookup(n.rows, id) == None
  {
    RunInv(tokens, actions);
    assert Fitting(tokens, s.phases[t]);
    hide Run;
    D1.LookupDelete(s.rows, id, id);
    hide Assign, D1.DeleteRows, D1.Lookup;
  }

  lemma SecondDeleteFails(tokens: Tokens, rows: seq<D1.Row>, a: Request, b: Request, id: string, at: Bytes)
    requires IsDelete(tokens, a, id) && IsDelete(tokens, b, id)
    ensures WorkerServe(tokens, WorkerServe(tokens, rows, a, at).0, b, at).1 == 404
  {
    D1.LookupDelete(rows, id, id);
    hide Assign, Printed, D1.DeleteRows, D1.Lookup;
  }

  /** Two deletes of one node can both be answered 200: both see the row before either deletes it. */
  lemma BothDeletesSucceed(tokens: Tokens, s: State, t: nat, u: nat, a: Request, b: Request, id: string, at: Bytes)
    returns (e: State)
    requires t != u && t !in s.phases && u !in s.phases && D1.Lookup(s.rows, id).Some?
    requires IsDelete(tokens, a, id) && IsDelete(tokens, b, id)
    ensures Follow(tokens, s, [Arrive(t, a), Arrive(u, b), Issue(t, at), Issue(u, at), Issue(t, at), Issue(u, at)]) ==
            Some(e)
    ensures e.phases[t := Answered(a, 200)] == e.phases && e.phases[u := Answered(b, 200)] == e.phases
    ensures D1.Lookup(e.rows, id) == None
    ensures WorkerServe(tokens, WorkerServe(tokens, s.rows, a, at).0, b, at).1 == 404
  {
    hide Assign, WorkerServe, Printed, D1.DeleteRows, D1.Lookup;
    SecondDeleteFails(tokens, s.rows, a, b, id, at);
    D1.LookupDelete(D1.DeleteRows(s.rows, id), id, id);
    var s1 := Next(tokens, s, Arrive(t, a));
    var s2 := Next(tokens, s1, Arrive(u, b));
    var s3 := Next(tokens, s2, Issue(t, at));
    var s4 := Next(tokens, s3, Issue(u, at));
    var s5 := Next(tokens, s4, Issue(t, at));
    e := Next(tokens, s5, Issue(u, at));
    assert Follow(tokens, s5, [Issue(u, at)]) == Some(e);
    assert Follow(tokens, s4, [Issue(t, at), Issue(u, at)]) == Some(e);
    assert Follow(tokens, s3, [Issue(u, at), Issue(t, at), Issue(u, at)]) == Some(e);
    assert Follow(tokens, s2, [Issue(t, at), Issue(u, at), Issue(t, at), Issue(u, at)]) == Some(e);
    assert Follow(tokens, s1, [Arrive(u, b), Issue(t, at), Issue(u, at), Issue(t, at), Issue(u, at)]) == Some(e);
  }

  /** A run from any state, first action first. */
  function Follow(tokens: Tokens, s: State, actions: seq<Action>): Option<State>
    decreases |actions|
  {
    if actions == [] then Some(s)
    else if Enabled(s, actions[0]) then Follow(tokens, Next(tokens, s, actions[0]), actions[1..])
    else None
  }
}
