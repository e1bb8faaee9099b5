/** The workflow engine: role-gated transitions applied to documents, and the action log. */
module WorkflowEngine {
  import opened Prelude

  type DocId = nat
  type UserId = nat

  datatype State = State(name: string, docstatus: int)

  datatype Transition = Transition(from: string, action: string, to: string, role: string)

  datatype Workflow = Workflow(initial: string, states: seq<State>, transitions: seq<Transition>)

  datatype Document = Document(state: Option<string>, docstatus: int)

  datatype LogRow = LogRow(doc: DocId, action: string, from: string, to: string, user: UserId)

  datatype Refusal = NoWorkflow | NotAllowed | NoTargetState

  datatype Store = Store(docs: map<DocId, Document>, log: seq<LogRow>)

  // A missing or empty state counts as the initial one.
  function CurrentState(wf: Workflow, doc: Document): string {
    if doc.state.Some? && doc.state.value != "" then doc.state.value else wf.initial
  }

  // A user without roles is looked up under the empty role.
  function RolesOf(roles: seq<string>): seq<string> {
    if roles == [] then [""] else roles
  }

  function Available(transitions: seq<Transition>, from: string, roles: seq<string>): seq<Transition> {
    if transitions == [] then []
    else
      var last := transitions[|transitions|-1];
      Available(transitions[..|transitions|-1], from, roles)
      + if last.from == from && last.role in RolesOf(roles) then [last] else []
  }

  function FirstFor(ts: seq<Transition>, action: string): (r: Option<Transition>)
    ensures r.Some? ==> r.value in ts && r.value.action == action
  {
    if ts == [] then None else if ts[0].action == action then Some(ts[0]) else FirstFor(ts[1..], action)
  }

  function FindState(states: seq<State>, name: string): (r: Option<State>)
    ensures r.Some? ==> r.value in states && r.value.name == name
  {
    if states == [] then None else if states[0].name == name then Some(states[0]) else FindState(states[1..], name)
  }

  // One of the user's roles is the transition's; a user without roles has the empty one.
  predicate Allows(t: Transition, roles: seq<string>) {
    t.role in roles || (roles == [] && t.role == "")
  }

  lemma {:induction false} AvailableMeans(transitions: seq<Transition>, from: string, roles: seq<string>, t: Transition)
    ensures t in Available(transitions, from, roles) <==>
      t in transitions && t.from == from && Allows(t, roles)
  {
    if transitions != [] {
      var front, last := transitions[..|transitions|-1], transitions[|transitions|-1];
      AvailableMeans(front, from, roles, t);
      assert transitions == front + [last];
    }
  }

  ghost function Offered(from: string, roles: seq<string>): Transition -> bool {
    (t: Transition) => t.from == from && Allows(t, roles)
  }

  ghost predicate Copies(all: seq<Transition>, ks: seq<nat>, ts: seq<Transition>) {
    |ts| == |ks| && forall j | 0 <= j < |ks| :: ks[j] < |all| && ts[j] == all[ks[j]]
  }

  /** The available transitions are the declared ones that qualify, each once, in the sequence of the
      declarations. */
  lemma {:induction false} AvailableInOrder(transitions: seq<Transition>, from: string, roles: seq<string>)
    returns (ks: seq<nat>)
    ensures Kept(transitions, Offered(from, roles), ks) && Copies(transitions, ks, Available(transitions, from, roles))
  {
    hide *;
    ks := [];
    if transitions == [] {
      NothingAvailable(from, roles);
    } else {
      var front, last := transitions[..|transitions|-1], transitions[|transitions|-1];
      ks := AvailableInOrder(front, from, roles);
      KeptSnoc(front, last, Offered(from, roles), ks);
      AvailableSnoc(front, last, from, roles);
      CopiesSnoc(front, last, ks, Available(front, from, roles));
      assert transitions == front + [last];
      if Offered(from, roles)(last) {
        ks := ks + [|front|];
      }
    }
  }

  lemma NothingAvailable(from: string, roles: seq<string>)
    ensures Available([], from, roles) == [] && Kept([], Offered(from, roles), []) && Copies([], [], [])
  {
  }

  lemma AvailableSnoc(front: seq<Transition>, last: Transition, from: string, roles: seq<string>)
    ensures Available(front + [last], from, roles) ==
      Available(front, from, roles) + if Offered(from, roles)(last) then [last] else []
  {
    assert (front + [last])[..|front|] == front;
  }

  lemma CopiesSnoc(front: seq<Transition>, last: Transition, ks: seq<nat>, ts: seq<Transition>)
    requires Copies(front, ks, ts)
    ensures Copies(front + [last], ks, ts + []) && Copies(front + [last], ks + [|front|], ts + [last])
  {
    assert (front + [last])[|front|] == last;
    assert ts + [] == ts;
  }

  // --- Applying an action ---

  function Verdict(wf: Option<Workflow>, doc: Document, action: string, roles: seq<string>): Result<State, Refusal> {
    if wf.None? then Err(NoWorkflow)
    else
      var t := FirstFor(Available(wf.value.transitions, CurrentState(wf.value, doc), roles), action);
      if t.None? then Err(NotAllowed)
      else
        var target := FindState(wf.value.states, t.value.to);
        if target.None? then Err(NoTargetState) else Ok(target.value)
  }

  function Applied(s: Store, wf: Option<Workflow>, id: DocId, action: string, user: UserId, roles: seq<string>): Store
    requires id in s.docs
  {
    match Verdict(wf, s.docs[id], action, roles)
    case Err(_) => s
    case Ok(target) =>
      Store(s.docs[id := Document(Some(target.name), target.docstatus)],
            s.log + [LogRow(id, action, CurrentState(wf.value, s.docs[id]), target.name, user)])
  }

  class Engine {
    const workflow: Option<Workflow>
    var docs: map<DocId, Document>
    var log: seq<LogRow>

    function Now(): Store
      reads this
    {
      Store(docs, log)
    }

    method GetTransitions(from: string, roles: seq<string>) returns (ts: seq<Transition>)
      requires workflow.Some?
      ensures ts == Available(workflow.value.transitions, from, roles)
    {
      var all := workflow.value.transitions;
      ts := [];
      for i := 0 to |all|
        invariant ts == Available(all[..i], from, roles)
      {
        assert all[..i+1][..i] == all[..i];
        if all[i].from == from && all[i].role in RolesOf(roles) {
          ts := ts + [all[i]];
        }
      }
      assert all[..|all|] == all;
    }

    method ApplyAction(id: DocId, action: string, user: UserId, roles: seq<string>) returns (r: Result<(), Refusal>)
      requires id in docs
      modifies this
      ensures Now() == Applied(old(Now()), workflow, id, action, user, roles)
      ensures match Verdict(workflow, old(docs[id]), action, roles)
        case Ok(_) => r == Ok(())
        case Err(e) => r == Err(e)
    {
      if workflow.None? {
        return Err(NoWorkflow);
      }
      var current := CurrentState(workflow.value, docs[id]);
      var candidates := GetTransitions(current, roles);
      var transition := FirstFor(candidates, action);
      if transition.None? {
        return Err(NotAllowed);
      }
      var target := FindState(workflow.value.states, transition.value.to);
      if target.None? {
        return Err(NoTargetState);
      }
      docs := docs[id := docs[id].(state := Some(target.value.name))];
      docs := docs[id := docs[id].(docstatus := target.value.docstatus)];
      log := log + [LogRow(id, action, current, target.value.name, user)];
      return Ok(());
    }
  }

  // --- Runs ---

  // One request, made by a user whose roles are looked up in a directory.
  datatype Request = Request(doc: DocId, action: string, user: UserId)

  type Directory = map<UserId, seq<string>>

  function RolesIn(dir: Directory, user: UserId): seq<string> {
    if user in dir then dir[user] else []
  }

  function Serve(s: Store, wf: Workflow, dir: Directory, q: Request): Store {
    if q.doc in s.docs then Applied(s, Some(wf), q.doc, q.action, q.user, RolesIn(dir, q.user)) else s
  }

  function Run(s: Store, wf: Workflow, dir: Directory, qs: seq<Request>): Store {
    if qs == [] then s else Serve(Run(s, wf, dir, qs[..|qs|-1]), wf, dir, qs[|qs|-1])
  }

  function RowsOf(log: seq<LogRow>, id: DocId): seq<LogRow> {
    if log == [] then []
    else
      var last := log[|log|-1];
      RowsOf(log[..|log|-1], id) + if last.doc == id then [last] else []
  }

  // Following the rows from a state; None where a row does not start where the last ended.
  function Replay(start: string, rows: seq<LogRow>): Option<string> {
    if rows == [] then Some(start)
    else
      var last := rows[|rows|-1];
      if Replay(start, rows[..|rows|-1]) == Some(last.from) then Some(last.to) else None
  }

  // A declared transition that the acting user's roles allow.
  ghost predicate Warranted(wf: Workflow, dir: Directory, row: LogRow) {
    exists t <- wf.transitions ::
      && t.from == row.from && t.action == row.action && t.to == row.to
      && Allows(t, if row.user in dir then dir[row.user] else [])
  }

  ghost predicate StatusMatches(wf: Workflow, doc: Document, start: Document, rows: seq<LogRow>) {
    if rows == [] then doc == start
    else
      var target := FindState(wf.states, rows[|rows|-1].to);
      target.Some? && doc == Document(Some(target.value.name), target.value.docstatus)
  }

  lemma {:induction false} FirstIsFound(states: seq<State>, name: string)
    requires FindState(states, name).Some?
    ensures FindState(states, FindState(states, name).value.name) == FindState(states, name)
  {
  }

  // No row leads to a state with an empty name, which the engine would take for "no state yet".
  ghost predicate NeverNameless(wf: Workflow, rows: seq<LogRow>) {
    wf.initial == "" || forall row <- rows :: row.to != ""
  }

  /** Over every run from a store with an empty log: replaying a document's log rows, each of
      which must start where the last one ended, from its first state gives its present one
      if and only if no row led to a nameless state; in any case its docstatus is that of the
      last state reached, and every row is a declared transition that the roles of the acting
      user allow. */
  lemma {:induction false} LogReplaysToState(s: Store, wf: Workflow, dir: Directory, qs: seq<Request>, id: DocId)
    requires s.log == [] && id in s.docs
    ensures var t := Run(s, wf, dir, qs);
      var rows := RowsOf(t.log, id);
      && t.docs.Keys == s.docs.Keys
      && (Replay(CurrentState(wf, s.docs[id]), rows) == Some(CurrentState(wf, t.docs[id])) <==> NeverNameless(wf, rows))
      && StatusMatches(wf, t.docs[id], s.docs[id], rows)
      && forall row <- t.log :: Warranted(wf, dir, row)
  {
    hide Verdict, FindState, Warranted, NeverNameless, RowsOf, Replay, Applied;
    EmptyLog(wf, CurrentState(wf, s.docs[id]), id);
    if qs != [] {
      var before, q := Run(s, wf, dir, qs[..|qs|-1]), qs[|qs|-1];
      LogReplaysToState(s, wf, dir, qs[..|qs|-1], id);
      if q.doc in before.docs && Verdict(Some(wf), before.docs[q.doc], q.action, RolesIn(dir, q.user)).Ok? {
        ServeExtends(before, wf, dir, q, id);
        if q.doc == id {
          var from := CurrentState(wf, before.docs[id]);
          var target := Verdict(Some(wf), before.docs[id], q.action, RolesIn(dir, q.user)).value;
          var row := LogRow(id, q.action, from, target.name, q.user);
          ReplaySnoc(CurrentState(wf, s.docs[id]), RowsOf(before.log, id), row);
          NamelessSnoc(wf, RowsOf(before.log, id), row);
        } else {
          assert RowsOf(before.log, id) + [] == RowsOf(before.log, id);
        }
      } else {
        RefusedIsNoOp(before, wf, dir, q);
      }
    }
  }

  lemma EmptyLog(wf: Workflow, start: string, id: DocId)
    ensures RowsOf([], id) == [] && Replay(start, []) == Some(start) && NeverNameless(wf, [])
  {
  }

  lemma ReplaySnoc(start: string, rows: seq<LogRow>, row: LogRow)
    ensures Replay(start, rows + [row]) == if Replay(start, rows) == Some(row.from) then Some(row.to) else None
  {
    assert (rows + [row])[..|rows|] == rows;
  }

  lemma NamelessSnoc(wf: Workflow, rows: seq<LogRow>, row: LogRow)
    ensures NeverNameless(wf, rows + [row]) <==> NeverNameless(wf, rows) && (wf.initial == "" || row.to != "")
  {
    assert forall r <- rows :: r in rows + [row];
    assert row in rows + [row];
  }

  // An accepted request appends one warranted row.
  lemma ServeExtends(s: Store, wf: Workflow, dir: Directory, q: Request, id: DocId)
    requires q.doc in s.docs && Verdict(Some(wf), s.docs[q.doc], q.action, RolesIn(dir, q.user)).Ok?
    ensures var t := Serve(s, wf, dir, q);
      var target := Verdict(Some(wf), s.docs[q.doc], q.action, RolesIn(dir, q.user)).value;
      var row := LogRow(q.doc, q.action, CurrentState(wf, s.docs[q.doc]), target.name, q.user);
      && t.docs == s.docs[q.doc := Document(Some(target.name), target.docstatus)]
      && t.log == s.log + [row] && Warranted(wf, dir, row)
      && FindState(wf.states, target.name) == Some(target) && target in wf.states
      && RowsOf(t.log, id) == RowsOf(s.log, id) + if q.doc == id then [row] else []
  {
    var roles := RolesIn(dir, q.user);
    var from := CurrentState(wf, s.docs[q.doc]);
    var t := FirstFor(Available(wf.transitions, from, roles), q.action).value;
    AvailableMeans(wf.transitions, from, roles, t);
    FirstIsFound(wf.states, t.to);
    var log := Serve(s, wf, dir, q).log;
    assert log[..|log|-1] == s.log;
  }

  lemma RefusedIsNoOp(s: Store, wf: Workflow, dir: Directory, q: Request)
    requires q.doc in s.docs ==> Verdict(Some(wf), s.docs[q.doc], q.action, RolesIn(dir, q.user)).Err?
    ensures Serve(s, wf, dir, q) == s
  {
  }

  // --- Which definitions make every run replay ---

  predicate Fits(t: Transition, from: string, action: string, roles: seq<string>) {
    t.from == from && t.action == action && Allows(t, roles)
  }

  lemma {:induction false} FirstForConcat(a: seq<Transition>, b: seq<Transition>, action: string)
    ensures FirstFor(a + b, action) == if FirstFor(a, action).Some? then FirstFor(a, action) else FirstFor(b, action)
  {
    if a == [] {
      assert a + b == b;
    } else {
      assert (a + b)[1..] == a[1..] + b;
      FirstForConcat(a[1..], b, action);
    }
  }

  ghost predicate Earliest(ts: seq<Transition>, from: string, action: string, roles: seq<string>, k: nat) {
    k < |ts| && Fits(ts[k], from, action, roles)
    && forall j | 0 <= j < k :: !Fits(ts[j], from, action, roles)
  }

  ghost predicate NoneFits(ts: seq<Transition>, from: string, action: string, roles: seq<string>) {
    forall j | 0 <= j < |ts| :: !Fits(ts[j], from, action, roles)
  }

  lemma EarliestSnoc(front: seq<Transition>, last: Transition, from: string, action: string, roles: seq<string>)
    ensures forall k: nat | Earliest(front, from, action, roles, k) ::
      Earliest(front + [last], from, action, roles, k) && (front + [last])[k] == front[k]
    ensures NoneFits(front, from, action, roles) ==>
      if Fits(last, from, action, roles) then Earliest(front + [last], from, action, roles, |front|)
      else NoneFits(front + [last], from, action, roles)
  {
    hide Fits;
    assert forall j | 0 <= j < |front| :: (front + [last])[j] == front[j];
  }

  // The transition that serves an action is the earliest one that fits.
  lemma {:induction false} EarliestServes(ts: seq<Transition>, from: string, action: string, roles: seq<string>)
    ensures var t := FirstFor(Available(ts, from, roles), action);
      && (t.None? ==> NoneFits(ts, from, action, roles))
      && (t.Some? ==> exists k: nat :: Earliest(ts, from, action, roles, k) && ts[k] == t.value)
  {
    if ts == [] {
      assert Available(ts, from, roles) == [];
    } else {
      hide Available, FirstFor, Fits, RolesOf, Earliest, NoneFits;
      var front, last := ts[..|ts|-1], ts[|ts|-1];
      EarliestServes(front, from, action, roles);
      EarliestSnoc(front, last, from, action, roles);
      assert ts == front + [last];
      FirstForSnoc(front, last, from, action, roles);
    }
  }

  lemma FirstForSnoc(front: seq<Transition>, last: Transition, from: string, action: string, roles: seq<string>)
    ensures var t := FirstFor(Available(front, from, roles), action);
      FirstFor(Available(front + [last], from, roles), action) ==
        if t.Some? then t else if Fits(last, from, action, roles) then Some(last) else None
  {
    assert (front + [last])[..|front|] == front;
    var added := if last.from == from && last.role in RolesOf(roles) then [last] else [];
    FirstForConcat(Available(front, from, roles), added, action);
  }

  // --- What one request comes to ---

  // A document without a state, or with an empty one, stands at the initial state.
  predicate StandsAt(wf: Workflow, doc: Document, state: string) {
    if doc.state == None || doc.state == Some("") then state == wf.initial else doc.state == Some(state)
  }

  ghost predicate FirstState(states: seq<State>, name: string, j: nat) {
    j < |states| && states[j].name == name && forall i | 0 <= i < j :: states[i].name != name
  }

  lemma {:induction false} FindStateMeans(states: seq<State>, name: string)
    ensures var r := FindState(states, name);
      if r.Some? then exists j: nat :: FirstState(states, name, j) && states[j] == r.value
      else forall st <- states :: st.name != name
  {
    if states != [] {
      FindStateMeans(states[1..], name);
      if states[0].name == name {
        assert FirstState(states, name, 0);
      } else if FindState(states[1..], name).Some? {
        var j: nat :| FirstState(states[1..], name, j) && states[1..][j] == FindState(states[1..], name).value;
        assert FirstState(states, name, j + 1);
      }
    }
  }

  // The document goes where the earliest fitting transition leads, and one row says so.
  ghost predicate Moved(s: Store, t: Store, wf: Workflow, from: string, id: DocId, action: string, user: UserId, k: nat, j: nat)
    requires id in s.docs && k < |wf.transitions| && j < |wf.states|
  {
    var to := wf.transitions[k].to;
    && FirstState(wf.states, to, j)
    && t.docs == s.docs[id := Document(Some(to), wf.states[j].docstatus)]
    && t.log == s.log + [LogRow(id, action, from, to, user)]
  }

  /** An action is refused exactly when no transition from where the document stands, with that
      action and one of the user's roles, is declared, or the earliest of those leads to a state that is
      not. Otherwise the document takes that state and its docstatus, and one row logs the move. */
  lemma ActionOutcome(s: Store, wf: Workflow, id: DocId, action: string, user: UserId, roles: seq<string>, from: string)
    requires id in s.docs && StandsAt(wf, s.docs[id], from)
    ensures var v, t := Verdict(Some(wf), s.docs[id], action, roles), Applied(s, Some(wf), id, action, user, roles);
      && (v == Err(NotAllowed) <==> NoneFits(wf.transitions, from, action, roles))
      && (v == Err(NoTargetState) <==>
            exists k: nat :: Earliest(wf.transitions, from, action, roles, k)
                             && forall st <- wf.states :: st.name != wf.transitions[k].to)
      && v != Err(NoWorkflow)
      && (v.Err? ==> t == s)
      && (v.Ok? ==> exists k: nat, j: nat ::
            Earliest(wf.transitions, from, action, roles, k) && j < |wf.states| && Moved(s, t, wf, from, id, action, user, k, j))
    ensures Verdict(None, s.docs[id], action, roles) == Err(NoWorkflow)
  {
    hide Available, FirstFor, FindState, Fits;
    assert CurrentState(wf, s.docs[id]) == from;
    EarliestServes(wf.transitions, from, action, roles);
    if k: nat :| Earliest(wf.transitions, from, action, roles, k) {
      EarliestIsOne(wf.transitions, from, action, roles);
      FindStateMeans(wf.states, wf.transitions[k].to);
      if FindState(wf.states, wf.transitions[k].to).Some? {
        var j: nat :| FirstState(wf.states, wf.transitions[k].to, j) && wf.states[j] == FindState(wf.states, wf.transitions[k].to).value;
        assert Moved(s, Applied(s, Some(wf), id, action, user, roles), wf, from, id, action, user, k, j);
      }
    }
  }

  lemma EarliestIsOne(ts: seq<Transition>, from: string, action: string, roles: seq<string>)
    ensures forall k: nat, l: nat ::
      Earliest(ts, from, action, roles, k) && Earliest(ts, from, action, roles, l) ==> k == l
  {
    hide Fits;
  }

  // A transition to the nameless state, from a named one, that no earlier transition with the
  // same start, action and role hides.
  predicate LeadsNowhere(ts: seq<Transition>, k: nat) {
    k < |ts| && ts[k].from != "" && ts[k].to == ""
    && forall j | 0 <= j < k :: !(ts[j].from == ts[k].from && ts[j].action == ts[k].action && ts[j].role == ts[k].role)
  }

  predicate Hazard(wf: Workflow) {
    wf.initial != "" && FindState(wf.states, "").Some?
    && exists k | 0 <= k < |wf.transitions| :: LeadsNowhere(wf.transitions, k)
  }

  lemma NamelessIsHazard(s: Store, wf: Workflow, dir: Directory, q: Request)
    requires q.doc in s.docs && wf.initial != ""
    requires var target := Verdict(Some(wf), s.docs[q.doc], q.action, RolesIn(dir, q.user));
      target.Ok? && target.value.name == ""
    ensures Hazard(wf)
  {
    hide Available, FindState, FirstFor;
    var from, roles, ts := CurrentState(wf, s.docs[q.doc]), RolesIn(dir, q.user), wf.transitions;
    EarliestServes(ts, from, q.action, roles);
    var k: nat :| Earliest(ts, from, q.action, roles, k)
      && ts[k] == FirstFor(Available(ts, from, roles), q.action).value;
    assert LeadsNowhere(ts, k);
  }

  lemma {:induction false} NoHazardNeverNameless(s: Store, wf: Workflow, dir: Directory, qs: seq<Request>)
    requires s.log == [] && !Hazard(wf)
    ensures NeverNameless(wf, Run(s, wf, dir, qs).log)
  {
    hide Verdict, Hazard, FindState;
    if qs != [] {
      var before, q := Run(s, wf, dir, qs[..|qs|-1]), qs[|qs|-1];
      NoHazardNeverNameless(s, wf, dir, qs[..|qs|-1]);
      if q.doc in before.docs && Verdict(Some(wf), before.docs[q.doc], q.action, RolesIn(dir, q.user)).Ok? {
        if wf.initial != "" && Verdict(Some(wf), before.docs[q.doc], q.action, RolesIn(dir, q.user)).value.name == "" {
          NamelessIsHazard(before, wf, dir, q);
        }
      }
    }
  }

  lemma {:induction false} RowsComeFromLog(log: seq<LogRow>, id: DocId)
    ensures forall row <- RowsOf(log, id) :: row in log
  {
    if log != [] {
      RowsComeFromLog(log[..|log|-1], id);
    }
  }

  ghost predicate Replays(s: Store, wf: Workflow, dir: Directory, qs: seq<Request>, id: DocId)
    requires s.log == [] && id in s.docs
  {
    var t := Run(s, wf, dir, qs);
    id in t.docs && Replay(CurrentState(wf, s.docs[id]), RowsOf(t.log, id)) == Some(CurrentState(wf, t.docs[id]))
  }

  // A user with just the transition's role takes a document there in one request.
  lemma HazardStrikes(wf: Workflow, k: nat)
    requires wf.initial != "" && FindState(wf.states, "").Some? && LeadsNowhere(wf.transitions, k)
    ensures var t := wf.transitions[k];
      !Replays(Store(map[0 := Document(Some(t.from), 0)], []), wf, map[0 := [t.role]], [Request(0, t.action, 0)], 0)
  {
    hide Available, FirstFor, Replay, FindState;
    var t := wf.transitions[k];
    var s, dir, q := Store(map[0 := Document(Some(t.from), 0)], []), map[0 := [t.role]], Request(0, t.action, 0);
    EarliestServes(wf.transitions, t.from, t.action, [t.role]);
    assert Fits(t, t.from, t.action, [t.role]);
    assert FirstFor(Available(wf.transitions, t.from, [t.role]), t.action) == Some(t);
    assert [q][..0] == [] && Run(s, wf, dir, []) == s;
    LogReplaysToState(s, wf, dir, [q], 0);
    var row := LogRow(0, t.action, t.from, "", 0);
    assert Run(s, wf, dir, [q]).log == [row];
    assert [row][..0] == [] && RowsOf([row], 0) == [row];
    assert row in [row];
  }

  /** A definition makes every run replay, wherever the documents stand at first, if and only if
      it has no nameless state, or its initial state is nameless too, or every transition to it
      starts nowhere or is hidden by an earlier one. */
  lemma AnyStoreReplaysIff(wf: Workflow)
    ensures (forall s: Store, dir: Directory, qs: seq<Request>, id: DocId | s.log == [] && id in s.docs ::
               Replays(s, wf, dir, qs, id))
       <==> !Hazard(wf)
  {
    hide Replay, RowsOf, FindState, Run;
    if Hazard(wf) {
      var k :| 0 <= k < |wf.transitions| && LeadsNowhere(wf.transitions, k);
      HazardStrikes(wf, k);
    } else {
      forall s: Store, dir: Directory, qs: seq<Request>, id: DocId | s.log == [] && id in s.docs
        ensures Replays(s, wf, dir, qs, id)
      {
        LogReplaysToState(s, wf, dir, qs, id);
        NoHazardNeverNameless(s, wf, dir, qs);
        RowsComeFromLog(Run(s, wf, dir, qs).log, id);
      }
    }
  }

  // --- Documents that begin without a state ---

  // A transition that a user with just its role can take, from a named state.
  predicate Takeable(wf: Workflow, k: nat) {
    k < |wf.transitions| && wf.transitions[k].from != "" && FindState(wf.states, wf.transitions[k].to).Some?
    && forall j | 0 <= j < k ::
         !Fits(wf.transitions[j], wf.transitions[k].from, wf.transitions[k].action, [wf.transitions[k].role])
  }

  // The transitions lead, one after the other, from the initial state to the given one.
  ghost predicate Route(wf: Workflow, ks: seq<nat>, to: string) {
    if ks == [] then to == wf.initial
    else
      var last := ks[|ks|-1];
      Takeable(wf, last) && wf.transitions[last].to == to
      && Route(wf, ks[..|ks|-1], wf.transitions[last].from)
  }

  // A nameless state can be reached from a named initial one.
  ghost predicate LosesTrack(wf: Workflow) {
    wf.initial != "" && exists ks :: Route(wf, ks, "")
  }

  ghost predicate Stateless(s: Store) {
    s.log == [] && forall id <- s.docs :: s.docs[id].state.None? || s.docs[id].state.value == ""
  }

  // Whatever is served is a takeable transition out of the present state.
  lemma ServedIsTakeable(wf: Workflow, doc: Document, action: string, roles: seq<string>) returns (k: nat)
    requires wf.initial != "" && Verdict(Some(wf), doc, action, roles).Ok?
    ensures Takeable(wf, k) && wf.transitions[k].from == CurrentState(wf, doc)
    ensures wf.transitions[k].to == Verdict(Some(wf), doc, action, roles).value.name
  {
    hide Available, FindState, FirstFor;
    var from, ts := CurrentState(wf, doc), wf.transitions;
    EarliestServes(ts, from, action, roles);
    k :| Earliest(ts, from, action, roles, k) && ts[k] == FirstFor(Available(ts, from, roles), action).value;
    forall j | 0 <= j < k
      ensures !Fits(ts[j], ts[k].from, ts[k].action, [ts[k].role])
    {
      assert !Fits(ts[j], from, action, roles);
    }
  }

  lemma RouteSnoc(wf: Workflow, ks: seq<nat>, k: nat)
    requires Takeable(wf, k) && Route(wf, ks, wf.transitions[k].from)
    ensures Route(wf, ks + [k], wf.transitions[k].to)
  {
    assert (ks + [k])[..|ks|] == ks;
  }

  ghost predicate OnRoute(wf: Workflow, doc: Document) {
    exists ks :: Route(wf, ks, CurrentState(wf, doc))
  }

  lemma ServedStaysOnRoute(wf: Workflow, doc: Document, action: string, roles: seq<string>)
    requires wf.initial != "" && !LosesTrack(wf) && OnRoute(wf, doc) && Verdict(Some(wf), doc, action, roles).Ok?
    ensures var target := Verdict(Some(wf), doc, action, roles).value;
      target.name != "" && OnRoute(wf, Document(Some(target.name), target.docstatus))
  {
    hide Verdict, Fits, FindState;
    var k := ServedIsTakeable(wf, doc, action, roles);
    var ks :| Route(wf, ks, CurrentState(wf, doc));
    RouteSnoc(wf, ks, k);
    var doc' := Document(Some(wf.transitions[k].to), Verdict(Some(wf), doc, action, roles).value.docstatus);
    assert Route(wf, ks + [k], wf.transitions[k].to);
    assert Route(wf, ks + [k], CurrentState(wf, doc'));
  }

  ghost predicate Tracked(wf: Workflow, s: Store) {
    (forall id <- s.docs :: OnRoute(wf, s.docs[id])) && forall row <- s.log :: row.to != ""
  }

  lemma ServedStaysTracked(s: Store, wf: Workflow, dir: Directory, q: Request)
    requires wf.initial != "" && !LosesTrack(wf) && Tracked(wf, s)
    ensures Tracked(wf, Serve(s, wf, dir, q))
  {
    hide Verdict, LosesTrack, OnRoute;
    if q.doc in s.docs && Verdict(Some(wf), s.docs[q.doc], q.action, RolesIn(dir, q.user)).Ok? {
      ServedStaysOnRoute(wf, s.docs[q.doc], q.action, RolesIn(dir, q.user));
    }
  }

  lemma {:induction false} TrackKept(s: Store, wf: Workflow, dir: Directory, qs: seq<Request>)
    requires Stateless(s) && wf.initial != "" && !LosesTrack(wf)
    ensures Tracked(wf, Run(s, wf, dir, qs))
  {
    hide LosesTrack, OnRoute, Serve;
    if qs == [] {
      forall id | id in s.docs
        ensures OnRoute(wf, s.docs[id])
      {
        InitialOnRoute(wf, s.docs[id]);
      }
    } else {
      TrackKept(s, wf, dir, qs[..|qs|-1]);
      ServedStaysTracked(Run(s, wf, dir, qs[..|qs|-1]), wf, dir, qs[|qs|-1]);
    }
  }

  lemma InitialOnRoute(wf: Workflow, doc: Document)
    requires doc.state.None? || doc.state.value == ""
    ensures OnRoute(wf, doc)
  {
    assert Route(wf, [], CurrentState(wf, doc));
  }

  // One user for every transition, with just its role.
  function Clerks(wf: Workflow): Directory {
    map k: nat | k < |wf.transitions| :: [wf.transitions[k].role]
  }

  function RequestsAlong(wf: Workflow, ks: seq<nat>): seq<Request>
    requires forall k <- ks :: k < |wf.transitions|
  {
    seq(|ks|, i requires 0 <= i < |ks| => assert ks[i] in ks; Request(0, wf.transitions[ks[i]].action, ks[i]))
  }

  lemma {:induction false} RouteInRange(wf: Workflow, ks: seq<nat>, to: string)
    requires Route(wf, ks, to)
    ensures forall k <- ks :: k < |wf.transitions|
  {
    hide Fits, FindState;
    if ks != [] {
      RouteInRange(wf, ks[..|ks|-1], wf.transitions[ks[|ks|-1]].from);
      assert ks == ks[..|ks|-1] + [ks[|ks|-1]];
    }
  }

  lemma TakeableIsServed(wf: Workflow, doc: Document, k: nat)
    requires Takeable(wf, k) && CurrentState(wf, doc) == wf.transitions[k].from
    ensures var v := Verdict(Some(wf), doc, wf.transitions[k].action, [wf.transitions[k].role]);
      v.Ok? && v.value.name == wf.transitions[k].to
  {
    hide Available, FirstFor, FindState;
    var t := wf.transitions[k];
    EarliestServes(wf.transitions, t.from, t.action, [t.role]);
    assert Fits(t, t.from, t.action, [t.role]);
  }

  /** The requests along a route take a document without a state to its end. */
  lemma {:induction false} RouteIsRun(wf: Workflow, ks: seq<nat>, to: string)
    requires Route(wf, ks, to) && forall k <- ks :: k < |wf.transitions|
    ensures var t := Run(FRESH, wf, Clerks(wf), RequestsAlong(wf, ks));
      && 0 in t.docs && (to != "" ==> CurrentState(wf, t.docs[0]) == to)
      && (ks != [] ==> t.log != [] && t.log[|t.log|-1].doc == 0 && t.log[|t.log|-1].to == to)
  {
    hide Verdict, Fits, FindState;
    if ks != [] {
      var front, last := ks[..|ks|-1], ks[|ks|-1];
      assert forall k <- front :: k in ks;
      RouteIsRun(wf, front, wf.transitions[last].from);
      var before := Run(FRESH, wf, Clerks(wf), RequestsAlong(wf, front));
      TakeableIsServed(wf, before.docs[0], last);
      var qs := RequestsAlong(wf, ks);
      assert qs[..|qs|-1] == RequestsAlong(wf, front);
    }
  }

  lemma LostTrackShows(wf: Workflow, ks: seq<nat>)
    requires wf.initial != "" && Route(wf, ks, "") && forall k <- ks :: k < |wf.transitions|
    ensures !Replays(FRESH, wf, Clerks(wf), RequestsAlong(wf, ks), 0)
  {
    hide Run, Replay, Clerks, RequestsAlong, FindState;
    assert ks != [];
    RouteIsRun(wf, ks, "");
    var log := Run(FRESH, wf, Clerks(wf), RequestsAlong(wf, ks)).log;
    LastRowOf(log, 0);
    LogReplaysToState(FRESH, wf, Clerks(wf), RequestsAlong(wf, ks), 0);
  }

  lemma LastRowOf(log: seq<LogRow>, id: DocId)
    requires log != [] && log[|log|-1].doc == id
    ensures log[|log|-1] in RowsOf(log, id)
  {
  }

  /** For documents that begin without a state: a definition makes every run replay if and only
      if no route of takeable transitions leads from its initial state to a nameless one. */
  lemma AlwaysReplaysIff(wf: Workflow)
    ensures (forall s: Store, dir: Directory, qs: seq<Request>, id: DocId | Stateless(s) && id in s.docs ::
               Replays(s, wf, dir, qs, id))
       <==> !LosesTrack(wf)
  {
    hide Replay, RowsOf, FindState, Run, Route;
    if LosesTrack(wf) {
      var ks :| Route(wf, ks, "");
      RouteInRange(wf, ks, "");
      LostTrackShows(wf, ks);
      assert Stateless(FRESH) && 0 in FRESH.docs;
    } else {
      forall s: Store, dir: Directory, qs: seq<Request>, id: DocId | Stateless(s) && id in s.docs
        ensures Replays(s, wf, dir, qs, id)
      {
        LogReplaysToState(s, wf, dir, qs, id);
        if wf.initial != "" {
          TrackKept(s, wf, dir, qs);
        }
        RowsComeFromLog(Run(s, wf, dir, qs).log, id);
      }
    }
  }

  // A nameless state that only a state out of reach leads to.
  const ASIDE := Workflow("Draft", [State("Draft", 0), State("X", 0), State("", 1)], [Transition("X", "Go", "", "Clerk")])

  /** It does no harm to documents that begin without a state, and does to one that stands there. */
  lemma OutOfReachIsHarmless()
    ensures !LosesTrack(ASIDE) && Hazard(ASIDE)
  {
    var t := ASIDE.transitions[0];
    assert ASIDE.transitions == [t] && "X" != "" && "Draft" != "" && "X"[0] != "Draft"[0];
    forall ks: seq<nat> | Route(ASIDE, ks, "")
      ensures false
    {
      NoWayToX(ks[..|ks|-1]);
    }
    assert ASIDE.states[1..] == [State("X", 0), State("", 1)] && ASIDE.states[1..][1..] == [State("", 1)];
    assert FindState([State("", 1)], "").Some?;
    assert FindState(ASIDE.states[1..], "").Some?;
    assert LeadsNowhere(ASIDE.transitions, 0);
  }

  lemma NoWayToX(ks: seq<nat>)
    ensures !Route(ASIDE, ks, "X")
  {
    assert "X"[0] != "Draft"[0] && "X" != "";
    if ks != [] && Takeable(ASIDE, ks[|ks|-1]) {
      assert ks[|ks|-1] == 0;
    }
  }

  /** In particular with names for all states that transitions lead to. */
  lemma NamedStatesReplay(s: Store, wf: Workflow, dir: Directory, qs: seq<Request>, id: DocId)
    requires s.log == [] && id in s.docs && forall t <- wf.transitions :: t.to != ""
    ensures Replays(s, wf, dir, qs, id)
  {
    hide Replays;
    AnyStoreReplaysIff(wf);
    assert forall k | 0 <= k < |wf.transitions| :: wf.transitions[k] in wf.transitions;
  }

  // A definition with a nameless state, and a document that is sent there and on again.
  const BLANK := Workflow("Draft", [State("Draft", 0), State("", 1)], [Transition("Draft", "Go", "", "Clerk")])
  const CLERK: Directory := map[0 := ["Clerk"]]
  const FRESH := Store(map[0 := Document(None, 0)], [])
  const GO := Request(0, "Go", 0)
  const GONE := LogRow(0, "Go", "Draft", "", 0)

  lemma BlankVerdict(doc: Document)
    requires CurrentState(BLANK, doc) == "Draft"
    ensures Verdict(Some(BLANK), doc, "Go", ["Clerk"]) == Ok(State("", 1))
  {
    var t := BLANK.transitions[0];
    assert BLANK.transitions == [t] && [t][..0] == [];
    assert Available([], "Draft", ["Clerk"]) == [];
    assert Available([t], "Draft", ["Clerk"]) == [t];
    assert FirstFor([t], "Go") == Some(t);
    assert BLANK.states[1..] == [State("", 1)] && FindState([State("", 1)], "") == Some(State("", 1));
    assert "Draft" != "";
  }

  /** Two accepted requests: the second row starts at "Draft" although the first one ended
      nowhere, so the log does not replay at all. */
  lemma BlankStateBreaksLog()
    ensures Run(FRESH, BLANK, CLERK, [GO, GO]).log == [GONE, GONE]
    ensures Replay("Draft", RowsOf([GONE, GONE], 0)) == None
  {
    hide Serve, Replay, RowsOf;
    assert [GO, GO][..1] == [GO] && [GO][..0] == [];
    assert Run(FRESH, BLANK, CLERK, []) == FRESH;
    BlankServe(FRESH);
    BlankServe(Serve(FRESH, BLANK, CLERK, GO));
    assert [] + [GONE] == [GONE] && [GONE] + [GONE] == [GONE, GONE];
    TwoRowsTorn();
  }

  lemma BlankServe(s: Store)
    requires 0 in s.docs && CurrentState(BLANK, s.docs[0]) == "Draft"
    ensures Serve(s, BLANK, CLERK, GO) == Store(s.docs[0 := Document(Some(""), 1)], s.log + [GONE])
    ensures CurrentState(BLANK, Document(Some(""), 1)) == "Draft"
  {
    hide Verdict;
    BlankVerdict(s.docs[0]);
  }

  lemma TwoRowsTorn()
    ensures Replay("Draft", RowsOf([GONE, GONE], 0)) == None
  {
    assert [GONE, GONE][..1] == [GONE] && [GONE][..0] == [];
    assert RowsOf([], 0) == [] && RowsOf([GONE], 0) == [GONE];
    assert RowsOf([GONE, GONE], 0) == [GONE, GONE];
    assert Replay("Draft", []) == Some("Draft") && Replay("Draft", [GONE]) == Some("");
    assert "Draft" != "";
  }

  // A refused request changes nothing; it is refused when no declared transition fits.
  lemma RefusedChangesNothing(s: Store, wf: Workflow, dir: Directory, q: Request)
    requires q.doc in s.docs
    requires forall t <- wf.transitions ::
      !(t.from == CurrentState(wf, s.docs[q.doc]) && t.action == q.action
        && Allows(t, RolesIn(dir, q.user)))
    ensures Serve(s, wf, dir, q) == s
    ensures Verdict(Some(wf), s.docs[q.doc], q.action, RolesIn(dir, q.user)) == Err(NotAllowed)
  {
    var roles := RolesIn(dir, q.user);
    var from := CurrentState(wf, s.docs[q.doc]);
    var t := FirstFor(Available(wf.transitions, from, roles), q.action);
    if t.Some? {
      AvailableMeans(wf.transitions, from, roles, t.value);
    }
  }
}
