/** Reserving names in concurrent transactions: the upsert locks the counter row of its series
    until its transaction commits or aborts, and an abort undoes it. */
module NamingProtocol {
  import opened NamingSeries

  type Tx = nat

  // A number handed to a transaction.
  datatype Grant = Grant(series: Series, value: nat)

  // A locked counter row as its holder sees it.
  datatype Hold = Hold(tx: Tx, current: nat)

  datatype Db = Db(committed: map<Series, nat>, locks: map<Series, Hold>,
                   pending: map<Tx, seq<Grant>>, history: seq<Grant>)

  datatype Action = Reserve(tx: Tx, series: Series) | Commit(tx: Tx) | Abort(tx: Tx)

  const EMPTY := Db(map[], map[], map[], [])

  function PendingOf(db: Db, tx: Tx): seq<Grant> {
    if tx in db.pending then db.pending[tx] else []
  }

  // The counter value that a statement of this transaction reads.
  function Visible(db: Db, tx: Tx, s: Series): nat {
    if s in db.locks && db.locks[s].tx == tx then db.locks[s].current else CounterOf(db.committed, s)
  }

  // A row locked by another transaction makes the upsert wait.
  predicate Blocked(db: Db, tx: Tx, s: Series) {
    s in db.locks && db.locks[s].tx != tx
  }

  function Held(db: Db, tx: Tx): set<Series> {
    set s | s in db.locks && db.locks[s].tx == tx
  }

  function Next(db: Db, a: Action): Db {
    match a
    case Reserve(tx, s) =>
      if Blocked(db, tx, s) then db
      else
        var value := Visible(db, tx, s) + 1;
        db.(locks := db.locks[s := Hold(tx, value)],
            pending := db.pending[tx := PendingOf(db, tx) + [Grant(s, value)]])
    case Commit(tx) =>
      Db(db.committed + map s | s in Held(db, tx) :: db.locks[s].current,
         db.locks - Held(db, tx), db.pending - {tx}, db.history + PendingOf(db, tx))
    case Abort(tx) =>
      db.(locks := db.locks - Held(db, tx), pending := db.pending - {tx})
  }

  function Run(actions: seq<Action>): Db {
    if actions == [] then EMPTY else Next(Run(actions[..|actions|-1]), actions[|actions|-1])
  }

  // The numbers granted in one series, in order.
  function Values(gs: seq<Grant>, s: Series): seq<nat> {
    if gs == [] then []
    else
      var last := gs[|gs|-1];
      Values(gs[..|gs|-1], s) + if last.series == s then [last.value] else []
  }

  function From(lo: nat, hi: nat): seq<nat>
    requires lo <= hi
  {
    seq(hi - lo, i requires 0 <= i => lo + 1 + i)
  }

  lemma {:induction false} ValuesConcat(a: seq<Grant>, b: seq<Grant>, s: Series)
    ensures Values(a + b, s) == Values(a, s) + Values(b, s)
  {
    if b == [] {
      assert a + b == a;
    } else {
      assert (a + b)[..|a + b| - 1] == a + b[..|b|-1];
      ValuesConcat(a, b[..|b|-1], s);
    }
  }

  // Committed numbers run from 1 to the counter; the holder of the row, and nobody else, has
  // those from there to the value it sees.
  ghost predicate InOrder(db: Db, s: Series) {
    && Values(db.history, s) == From(0, CounterOf(db.committed, s))
    && forall tx: Tx ::
        && CounterOf(db.committed, s) <= Visible(db, tx, s)
        && Values(PendingOf(db, tx), s) == From(CounterOf(db.committed, s), Visible(db, tx, s))
  }

  predicate Holds(db: Db, tx: Tx, s: Series) {
    s in db.locks && db.locks[s].tx == tx
  }

  // A reservation that does not wait gives its transaction one more number and the row.
  lemma AfterReserve(db: Db, tx: Tx, r: Series, s: Series, t: Tx)
    requires !Blocked(db, tx, r)
    ensures var db' := Next(db, Reserve(tx, r));
      && db'.committed == db.committed && db'.history == db.history
      && PendingOf(db', t) ==
           (if t == tx then PendingOf(db, t) + [Grant(r, Visible(db, tx, r) + 1)] else PendingOf(db, t))
      && Visible(db', t, s) == (if t == tx && s == r then Visible(db, tx, r) + 1 else Visible(db, t, s))
  {
  }

  lemma ValuesSnoc(gs: seq<Grant>, g: Grant, s: Series)
    ensures Values(gs + [g], s) == Values(gs, s) + if g.series == s then [g.value] else []
  {
    assert (gs + [g])[..|gs|] == gs;
  }

  lemma FromSnoc(lo: nat, hi: nat)
    requires lo <= hi
    ensures From(lo, hi + 1) == From(lo, hi) + [hi + 1]
  {
  }

  lemma ReserveInOrder(db: Db, tx: Tx, r: Series, s: Series)
    requires InOrder(db, s)
    ensures InOrder(Next(db, Reserve(tx, r)), s)
  {
    if Blocked(db, tx, r) {
      assert Next(db, Reserve(tx, r)) == db;
    } else {
      hide Next, Visible, PendingOf, CounterOf, Values, Blocked, From;
      var db' := Next(db, Reserve(tx, r));
      var c := CounterOf(db.committed, s);
      AfterReserve(db, tx, r, s, tx);
      forall t: Tx
        ensures c <= Visible(db', t, s) && Values(PendingOf(db', t), s) == From(c, Visible(db', t, s))
      {
        AfterReserve(db, tx, r, s, t);
        if t == tx {
          ValuesSnoc(PendingOf(db, tx), Grant(r, Visible(db, tx, r) + 1), s);
          FromSnoc(c, Visible(db, tx, s));
        }
      }
    }
  }

  // After a commit the transaction has nothing pending and sees the counter; if it held the
  // row, so does everybody, and otherwise nothing changes for the others.
  lemma AfterCommit(db: Db, tx: Tx, s: Series, t: Tx)
    ensures var db' := Next(db, Commit(tx));
      && PendingOf(db', t) == (if t == tx then [] else PendingOf(db, t))
      && CounterOf(db'.committed, s) == Visible(db, tx, s)
      && Visible(db', t, s) ==
           (if t == tx || Holds(db, tx, s) then Visible(db, tx, s) else Visible(db, t, s))
      && (!Holds(db, t, s) ==> Visible(db, t, s) == CounterOf(db.committed, s))
      && (Holds(db, tx, s) && t != tx ==> !Holds(db, t, s))
      && Values([], s) == []
  {
  }

  lemma FromConcat(lo: nat, mid: nat, hi: nat)
    requires lo <= mid <= hi
    ensures From(lo, mid) + From(mid, hi) == From(lo, hi) && From(hi, hi) == []
  {
  }

  lemma CommitInOrder(db: Db, tx: Tx, s: Series)
    requires InOrder(db, s)
    ensures InOrder(Next(db, Commit(tx)), s)
  {
    hide Next, Visible, PendingOf, CounterOf, Values, From, Holds;
    var db' := Next(db, Commit(tx));
    var c, c' := CounterOf(db.committed, s), CounterOf(db'.committed, s);
    AfterCommit(db, tx, s, tx);
    CommittedHistory(db, tx, s);
    FromConcat(0, c, c');
    forall t: Tx
      ensures c' <= Visible(db', t, s) && Values(PendingOf(db', t), s) == From(c', Visible(db', t, s))
    {
      AfterCommit(db, tx, s, t);
      FromConcat(c, c, c);
      FromConcat(c', c', c');
    }
  }

  lemma CommittedHistory(db: Db, tx: Tx, s: Series)
    ensures Values(Next(db, Commit(tx)).history, s) == Values(db.history, s) + Values(PendingOf(db, tx), s)
  {
    ValuesConcat(db.history, PendingOf(db, tx), s);
  }

  lemma AbortInOrder(db: Db, tx: Tx, s: Series)
    requires InOrder(db, s)
    ensures InOrder(Next(db, Abort(tx)), s)
  {
    var db' := Next(db, Abort(tx));
    var c := CounterOf(db.committed, s);
    forall t: Tx
      ensures c <= Visible(db', t, s) && Values(PendingOf(db', t), s) == From(c, Visible(db', t, s))
    {
      assert c <= Visible(db, t, s) && Values(PendingOf(db, t), s) == From(c, Visible(db, t, s));
    }
  }

  /** Over every interleaving of reservations, commits and aborts, the numbers committed in a
      series are 1, 2, ... up to its counter, each exactly once and without gaps, and those
      held by an open transaction follow on directly. */
  lemma {:induction false} GapFree(actions: seq<Action>, s: Series)
    ensures InOrder(Run(actions), s)
  {
    if actions != [] {
      GapFree(actions[..|actions|-1], s);
      var db := Run(actions[..|actions|-1]);
      match actions[|actions|-1]
      case Reserve(tx, r) => ReserveInOrder(db, tx, r, s);
      case Commit(tx) => CommitInOrder(db, tx, s);
      case Abort(tx) => AbortInOrder(db, tx, s);
    }
  }

  // What the last grant adds to the numbers from 1 on.
  lemma DropLast(gs: seq<Grant>, s: Series, c: nat)
    requires gs != [] && Values(gs, s) == From(0, c)
    ensures var front, last := gs[..|gs|-1], gs[|gs|-1];
      if last.series == s then c >= 1 && last.value == c && Values(front, s) == From(0, c - 1)
      else Values(front, s) == From(0, c)
  {
    var front, last := gs[..|gs|-1], gs[|gs|-1];
    if last.series == s {
      assert Values(gs, s) == Values(front, s) + [last.value];
      FromSnoc(0, c - 1);
      assert Values(front, s) == (Values(front, s) + [last.value])[..c-1] == From(0, c - 1);
    } else {
      assert Values(gs, s) == Values(front, s) + [];
    }
  }

  // Positions in the history that belong to one series carry increasing numbers.
  lemma {:induction false} LaterIsLarger(gs: seq<Grant>, s: Series, c: nat, i: nat, j: nat)
    requires Values(gs, s) == From(0, c)
    requires i < j < |gs| && gs[i].series == gs[j].series == s
    ensures gs[i].value < gs[j].value <= c
  {
    hide Values, From;
    var last := |gs| - 1;
    var before := if gs[last].series == s then c - 1 else c;
    DropLast(gs, s, c);
    if j == last {
      AtMost(gs[..last], s, before, i);
    } else {
      LaterIsLarger(gs[..last], s, before, i, j);
    }
  }

  lemma {:induction false} AtMost(gs: seq<Grant>, s: Series, c: nat, i: nat)
    requires Values(gs, s) == From(0, c) && i < |gs| && gs[i].series == s
    ensures 1 <= gs[i].value <= c
  {
    hide Values, From;
    var last := |gs| - 1;
    DropLast(gs, s, c);
    if i < last {
      AtMost(gs[..last], s, if gs[last].series == s then c - 1 else c, i);
    }
  }

  /** No two committed documents of a series ever carry the same name, whatever widths their
      patterns asked for. */
  lemma NamesUnique(actions: seq<Action>, i: nat, j: nat, digits: nat, digits': nat)
    requires i < j < |Run(actions).history|
    requires var h := Run(actions).history; h[i].series == h[j].series
    ensures var h := Run(actions).history;
      FormatName(h[i].series.prefix, h[i].value, digits) != FormatName(h[j].series.prefix, h[j].value, digits')
  {
    var h, s := Run(actions).history, Run(actions).history[i].series;
    GapFree(actions, s);
    LaterIsLarger(h, s, CounterOf(Run(actions).committed, s), i, j);
    if FormatName(s.prefix, h[i].value, digits) == FormatName(s.prefix, h[j].value, digits') {
      WidthsNeverCollide(s.prefix, h[i].value, h[j].value, digits, digits');
    }
  }

  // Nobody else can hold a number of a series that an open transaction has reserved in.
  lemma OpenReservationsExclusive(actions: seq<Action>, s: Series, tx: Tx, other: Tx)
    requires tx != other && Values(PendingOf(Run(actions), tx), s) != []
    ensures Values(PendingOf(Run(actions), other), s) == []
    ensures forall v <- Values(PendingOf(Run(actions), tx), s) :: v !in Values(Run(actions).history, s)
  {
    var db := Run(actions);
    GapFree(actions, s);
    var c := CounterOf(db.committed, s);
    assert Values(PendingOf(db, tx), s) == From(c, Visible(db, tx, s));
    assert Values(PendingOf(db, other), s) == From(c, Visible(db, other, s));
    assert forall v <- From(c, Visible(db, tx, s)) :: v > c;
    assert forall v <- From(0, c) :: v <= c;
  }

  function RunFrom(db: Db, actions: seq<Action>): Db {
    if actions == [] then db else Next(RunFrom(db, actions[..|actions|-1]), actions[|actions|-1])
  }

  // Nothing comes between: the transaction is idle, and either it holds the row already or
  // the row is unlocked and nobody reserves in the series.
  ghost predicate Undisturbed(db: Db, tx: Tx, s: Series, actions: seq<Action>) {
    && (forall a <- actions :: a.tx != tx)
    && ((s in db.locks && db.locks[s].tx == tx)
        || (s !in db.locks && forall a <- actions :: a.Reserve? ==> a.series != s))
  }

  lemma OthersPass(db: Db, tx: Tx, s: Series, a: Action)
    requires a.tx != tx && !Blocked(db, tx, s)
    requires s in db.locks || (a.Reserve? ==> a.series != s)
    ensures var t := Next(db, a);
      && !Blocked(t, tx, s) && (s in t.locks <==> s in db.locks)
      && Visible(t, tx, s) == Visible(db, tx, s)
  {
  }

  lemma ReserveObtains(db: Db, tx: Tx, s: Series)
    requires !Blocked(db, tx, s)
    ensures PendingOf(Next(db, Reserve(tx, s)), tx) == PendingOf(db, tx) + [Grant(s, Visible(db, tx, s) + 1)]
  {
  }

  /** What a transaction was shown as the next number is what its reservation obtains, however
      many other transactions ran meanwhile without disturbing the series. */
  lemma {:induction false} PeekIsNext(db: Db, tx: Tx, s: Series, actions: seq<Action>)
    requires Undisturbed(db, tx, s, actions)
    ensures var t := RunFrom(db, actions);
      && !Blocked(t, tx, s) && (s in t.locks <==> s in db.locks)
      && Visible(t, tx, s) == Visible(db, tx, s)
      && PendingOf(Next(t, Reserve(tx, s)), tx) == PendingOf(t, tx) + [Grant(s, Visible(db, tx, s) + 1)]
  {
    hide Next, Visible, PendingOf;
    if actions != [] {
      var front := actions[..|actions|-1];
      assert forall a <- front :: a in actions;
      assert actions[|actions|-1] in actions;
      PeekIsNext(db, tx, s, front);
      OthersPass(RunFrom(db, front), tx, s, actions[|actions|-1]);
    }
    ReserveObtains(RunFrom(db, actions), tx, s);
  }

  /** Whoever waits for a row goes on when its holder ends: after a commit with the number after the
      holder's last one, after an abort with the first number that the holder gave back. */
  lemma EndFreesRow(db: Db, holder: Tx, other: Tx, s: Series)
    requires Holds(db, holder, s) && other != holder
    ensures Blocked(db, other, s) && Next(db, Reserve(other, s)) == db
    ensures var t := Next(Next(db, Commit(holder)), Reserve(other, s));
      && PendingOf(t, other) == PendingOf(db, other) + [Grant(s, Visible(db, holder, s) + 1)]
      && PendingOf(t, holder) == [] && t.history == db.history + PendingOf(db, holder)
    ensures var t := Next(Next(db, Abort(holder)), Reserve(other, s));
      && PendingOf(t, other) == PendingOf(db, other) + [Grant(s, CounterOf(db.committed, s) + 1)]
      && PendingOf(t, holder) == [] && t.history == db.history
  {
    hide Next;
    HolderEnds(db, holder, other, s);
    ReserveObtains(Next(db, Commit(holder)), other, s);
    ReserveObtains(Next(db, Abort(holder)), other, s);
    AfterReserve(Next(db, Commit(holder)), other, s, s, holder);
    AfterReserve(Next(db, Abort(holder)), other, s, s, holder);
    WaitingIsNoOp(db, other, s);
  }

  lemma WaitingIsNoOp(db: Db, tx: Tx, s: Series)
    requires Blocked(db, tx, s)
    ensures Next(db, Reserve(tx, s)) == db
  {
  }

  lemma HolderEnds(db: Db, holder: Tx, other: Tx, s: Series)
    requires Holds(db, holder, s) && other != holder
    ensures var t := Next(db, Commit(holder));
      && !Blocked(t, other, s) && Visible(t, other, s) == Visible(db, holder, s)
      && PendingOf(t, other) == PendingOf(db, other) && PendingOf(t, holder) == []
      && t.history == db.history + PendingOf(db, holder)
    ensures var t := Next(db, Abort(holder));
      && !Blocked(t, other, s) && Visible(t, other, s) == CounterOf(db.committed, s)
      && PendingOf(t, other) == PendingOf(db, other) && PendingOf(t, holder) == [] && t.history == db.history
  {
  }
}
