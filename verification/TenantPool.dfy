/**
 Tenant and worker transactions over a shared pool, as interleaved calls: each event is one statement of
 one call, any of them may fail, and the connection may die with it.
 */
module TenantPool {
  import opened Common

  // ---------------------------------------------------------------- sessions of the server

  datatype Write = Write(call: nat, data: string)

  /** client and worker are the transaction-local settings app.client_id and app.worker_id. */
  datatype Session = Session(alive: bool, inTx: bool, aborted: bool,
                             client: Option<string>, worker: Option<string>, pending: seq<Write>)
  {
    /** Nothing a later user of the connection could see or inherit. */
    predicate Clean() { !inTx && !aborted && client == None && worker == None && pending == [] }

    /** COMMIT and ROLLBACK both end the transaction and drop what was local to it. */
    function Ended(): Session { Session(alive, false, false, None, None, []) }

    function Died(): Session { Session(false, false, false, None, None, []) }

    /** A failed statement: the transaction can only be rolled back, or the connection is gone. */
    function Hurt(dead: bool): Session { if dead || !alive then Died() else this.(aborted := inTx) }
  }

  const FRESH := Session(true, false, false, None, None, [])

  // ---------------------------------------------------------------- calls

  datatype Kind = Tenant(id: string) | Worker(id: string)

  datatype Error = InvalidTenantId | ConnectFailed | StatementFailed(statement: string) | CallbackError(message: string)

  datatype Outcome = Returned | Thrown(error: Error)

  datatype Pc =
    | Invoked
    | Connected(conn: nat)
    | Began(conn: nat)
    | Running(conn: nat)
    | Committing(conn: nat)
    | RollingBack(conn: nat, error: Error)
    | Releasing(conn: nat, outcome: Outcome, destroy: bool)
    | Done(outcome: Outcome)
  {
    predicate Holds() { !Invoked? && !Done? }
  }

  /** issued, failed, landed, replyLost and raised are history: the queries that succeeded, whether one failed and
      took the transaction with it (a query that fails before it reaches the server does not), whether the commit took
      effect, whether it did so although COMMIT reported an error, and the first error. */
  datatype Call = Call(kind: Kind, pc: Pc, issued: seq<Write>,
                       failed: bool, landed: bool, replyLost: bool, raised: Option<Error>)

  /** What a callback query found in the two settings. */
  datatype Seen = Seen(call: nat, client: Option<string>, worker: Option<string>)

  datatype State = State(sessions: map<nat, Session>, idle: set<nat>, committed: seq<Write>, seen: seq<Seen>,
                         calls: map<nat, Call>)

  datatype Step =
    | Connect(conn: nat) | ConnectFails
    | Begin | BeginFails(begun: bool, dead: bool)
    | SetConfig | SetConfigFails(dead: bool)
    | Query(data: string) | QueryFails(dead: bool, aborts: bool)
    | Return | Throw(error: Error)
    | Commit | CommitFails(dead: bool, applied: bool)
    | Rollback | RollbackFails(dead: bool)
    | Release

  datatype Event = Invoke(call: nat, kind: Kind) | Do(call: nat, step: Step)

  predicate IsHex(c: char) { '0' <= c <= '9' || 'a' <= c <= 'f' || 'A' <= c <= 'F' }

  predicate IsUuid(s: string) {
    |s| == 36 && forall i :: 0 <= i < 36 ==> if i in {8, 13, 18, 23} then s[i] == '-' else IsHex(s[i])
  }

  function SetLocal(session: Session, kind: Kind): Session {
    match kind case Tenant(id) => session.(client := Some(id)) case Worker(id) => session.(worker := Some(id))
  }

  /** The call gives up with an error: the first one is kept. */
  function Raise(call: Call, pc: Pc, e: Error): Call {
    call.(pc := pc, raised := if call.raised == None then Some(e) else call.raised)
  }

  function Started(kind: Kind): Call { Call(kind, Invoked, [], false, false, false, None) }

  /** What one statement does: to its session, to its call, and to what all sessions share. */
  datatype Change = Change(session: Session, call: Call, committed: seq<Write>, seen: seq<Seen>)

  function Quiet(session: Session, call: Call): Option<Change> { Some(Change(session, call, [], [])) }

  function Statement(id: nat, call: Call, session: Session, a: Step): Option<Change>
    requires call.pc.Holds()
  {
    var c := call.pc.conn;
    match (call.pc, a)
    case (Connected(_), Begin) => if session.alive then Quiet(session.(inTx := true), call.(pc := Began(c))) else None
    case (Connected(_), BeginFails(begun, dead)) =>
      var after := if dead || !session.alive then session.Died() else if begun then session.(inTx := true) else session;
      Quiet(after, Raise(call, Releasing(c, Thrown(StatementFailed("BEGIN")), false), StatementFailed("BEGIN")))
    case (Began(_), SetConfig) =>
      if session.alive && !session.aborted then Quiet(SetLocal(session, call.kind), call.(pc := Running(c))) else None
    case (Began(_), SetConfigFails(dead)) =>
      var e := StatementFailed("set_config");
      Quiet(session.Hurt(dead), Raise(call, RollingBack(c, e), e))
    case (Running(_), Query(data)) =>
      if session.alive && !session.aborted then
        var w := Write(id, data);
        Some(Change(session.(pending := session.pending + [w]), call.(issued := call.issued + [w]),
                    [], [Seen(id, session.client, session.worker)]))
      else None
    case (Running(_), QueryFails(dead, aborts)) =>
      if dead || aborts || !session.alive then Quiet(session.Hurt(dead), call.(failed := true))
      else Quiet(session, call)
    case (Running(_), Return) => Quiet(session, call.(pc := Committing(c)))
    case (Running(_), Throw(e)) => Quiet(session, Raise(call, RollingBack(c, e), e))
    case (Committing(_), Commit) =>
      if !session.alive then None
      else if session.aborted then Quiet(session.Ended(), call.(pc := Releasing(c, Returned, false)))
      else
        Some(Change(session.Ended(), call.(pc := Releasing(c, Returned, false), landed := true), session.pending, []))
    case (Committing(_), CommitFails(dead, applied)) =>
      var after := if dead || !session.alive then session.Died() else session.Ended();
      var gone := Raise(call, RollingBack(c, StatementFailed("COMMIT")), StatementFailed("COMMIT"));
      if applied && session.alive && !session.aborted then
        Some(Change(after, gone.(landed := true, replyLost := true), session.pending, []))
      else Quiet(after, gone)
    case (RollingBack(_, e), Rollback) =>
      if session.alive then Quiet(session.Ended(), call.(pc := Releasing(c, Thrown(e), false))) else None
    case (RollingBack(_, e), RollbackFails(dead)) =>
      Quiet(session.Hurt(dead), Raise(call, Releasing(c, Thrown(e), true), StatementFailed("ROLLBACK")))
    case _ => None
  }

  function Invocation(kind: Kind): Call {
    if kind.Tenant? && !IsUuid(kind.id) then Raise(Started(kind), Done(Thrown(InvalidTenantId)), InvalidTenantId)
    else Started(kind)
  }

  function Next(s: State, e: Event): Option<State> {
    match e
    case Invoke(id, kind) => if id in s.calls then None else Some(s.(calls := s.calls[id := Invocation(kind)]))
    case Do(id, a) =>
      if id !in s.calls then None
      else if s.calls[id].pc.Invoked? then Connecting(s, id, a)
      else if s.calls[id].pc.Done? then None
      else if s.calls[id].pc.Releasing? then (if a == Release then Some(Released(s, id)) else None)
      else if s.calls[id].pc.conn !in s.sessions then None
      else match Statement(id, s.calls[id], s.sessions[s.calls[id].pc.conn], a)
        case None => None
        case Some(x) => Some(Changed(s, id, x))
  }

  /** pool.connect(): an idle connection, or a new one. */
  function Connecting(s: State, id: nat, a: Step): Option<State>
    requires id in s.calls
  {
    match a
    case Connect(c) =>
      var calls := s.calls[id := s.calls[id].(pc := Connected(c))];
      if c in s.idle then Some(s.(idle := s.idle - {c}, calls := calls))
      else if c !in s.sessions then Some(s.(sessions := s.sessions[c := FRESH], calls := calls))
      else None
    case ConnectFails =>
      Some(s.(calls := s.calls[id := Raise(s.calls[id], Done(Thrown(ConnectFailed)), ConnectFailed)]))
    case _ => None
  }

  /** client.release(): back to the pool, or destroyed. */
  function Released(s: State, id: nat): State
    requires id in s.calls && s.calls[id].pc.Releasing?
  {
    var pc := s.calls[id].pc;
    s.(calls := s.calls[id := s.calls[id].(pc := Done(pc.outcome))],
       idle := if pc.destroy then s.idle else s.idle + {pc.conn})
  }

  function Changed(s: State, id: nat, x: Change): State
    requires id in s.calls && s.calls[id].pc.Holds()
  {
    State(s.sessions[s.calls[id].pc.conn := x.session], s.idle, s.committed + x.committed, s.seen + x.seen,
          s.calls[id := x.call])
  }

  function Run(s: State, events: seq<Event>): Option<State> {
    if events == [] then Some(s)
    else match Run(s, events[..|events| - 1])
      case None => None
      case Some(t) => Next(t, events[|events| - 1])
  }

  const EMPTY := State(map[], {}, [], [], map[])

  // ---------------------------------------------------------------- what every step keeps

  /** The settings a callback of this kind must find, and no other. */
  predicate OwnSettings(client: Option<string>, worker: Option<string>, kind: Kind) {
    match kind
    case Tenant(id) => client == Some(id) && worker == None
    case Worker(id) => client == None && worker == Some(id)
  }

  function WritesOf(ws: seq<Write>, id: nat): seq<Write> {
    if ws == [] then []
    else WritesOf(ws[..|ws| - 1], id) + if ws[|ws| - 1].call == id then [ws[|ws| - 1]] else []
  }

  predicate OwnWrites(ws: seq<Write>, id: nat) { forall i :: 0 <= i < |ws| ==> ws[i].call == id }

  /** A transaction in which the callback runs, or may still be committed. */
  ghost predicate InCallback(call: Call, session: Session) {
    && !call.landed
    && (if session.alive then
          session.inTx && OwnSettings(session.client, session.worker, call.kind) && (session.aborted <==> call.failed)
          && (!session.aborted ==> session.pending == call.issued)
        else call.failed)
  }

  ghost predicate OutcomeOk(call: Call, outcome: Outcome) {
    match outcome
    case Returned => call.raised == None && (call.landed <==> !call.failed) && !call.replyLost
    case Thrown(e) => call.raised == Some(e) && (call.landed <==> call.replyLost)
  }

  ghost predicate PcOk(call: Call, session: Session) {
    match call.pc
    case Connected(_) =>
      && session.Clean() && !call.landed && !call.failed && !call.replyLost
      && call.issued == [] && call.raised == None
    case Began(_) =>
      && session == Session(true, true, false, None, None, []) && !call.landed && !call.failed && call.issued == []
      && call.raised == None && !call.replyLost
    case Running(_) => InCallback(call, session) && call.raised == None && !call.replyLost
    case Committing(_) => InCallback(call, session) && call.raised == None && !call.replyLost
    case RollingBack(_, e) => OutcomeOk(call, Thrown(e))
    case Releasing(_, outcome, destroy) => (!destroy ==> session.Clean()) && OutcomeOk(call, outcome)
    case _ => true
  }

  ghost predicate CallOk(s: State, id: nat, call: Call) {
    && OwnWrites(call.issued, id)
    && WritesOf(s.committed, id) == (if call.landed then call.issued else [])
    && match call.pc
       case Invoked => call == Started(call.kind)
       case Done(outcome) => OutcomeOk(call, outcome)
       case _ => call.pc.conn in s.sessions && call.pc.conn !in s.idle && PcOk(call, s.sessions[call.pc.conn])
  }

  /** Every idle connection is clean: no open transaction, no setting. */
  ghost predicate PoolClean(s: State) { forall c :: c in s.idle ==> c in s.sessions && s.sessions[c].Clean() }

  ghost predicate CallsOk(s: State) { forall id :: id in s.calls ==> CallOk(s, id, s.calls[id]) }

  /** No connection has two holders. */
  ghost predicate HoldersDistinct(s: State) {
    forall id, other :: id in s.calls && other in s.calls && id != other ==>
      s.calls[id].pc.Holds() && s.calls[other].pc.Holds() ==> s.calls[id].pc.conn != s.calls[other].pc.conn
  }

  /** Every callback query found the settings of its own call. */
  ghost predicate SeenOwn(s: State) {
    forall i :: 0 <= i < |s.seen| ==>
      s.seen[i].call in s.calls && OwnSettings(s.seen[i].client, s.seen[i].worker, s.calls[s.seen[i].call].kind)
  }

  ghost predicate CommittedKnown(s: State) { forall i :: 0 <= i < |s.committed| ==> s.committed[i].call in s.calls }

  ghost predicate Inv(s: State) { PoolClean(s) && CallsOk(s) && HoldersDistinct(s) && SeenOwn(s) && CommittedKnown(s) }

  /** BEGIN is never reported as failed after the server has opened the transaction. */
  predicate HonestBegin(e: Event) { e.Do? && e.step.BeginFails? ==> !e.step.begun }

  lemma {:induction false} WritesOfAppend(xs: seq<Write>, ys: seq<Write>, id: nat, owner: nat)
    requires OwnWrites(ys, owner)
    ensures WritesOf(xs + ys, id) == WritesOf(xs, id) + if id == owner then ys else []
  {
    if ys == [] {
      assert xs + ys == xs;
      assert WritesOf(xs, id) + [] == WritesOf(xs, id);
    } else {
      var n := |ys| - 1;
      assert (xs + ys)[..|xs + ys| - 1] == xs + ys[..n];
      WritesOfAppend(xs, ys[..n], id, owner);
      assert ys == ys[..n] + [ys[n]];
    }
  }

  lemma {:induction false} NoWritesOf(ws: seq<Write>, id: nat)
    requires forall i :: 0 <= i < |ws| ==> ws[i].call != id
    ensures WritesOf(ws, id) == []
  {
    if ws == [] {
    } else {
      NoWritesOf(ws[..|ws| - 1], id);
    }
  }

  /** One statement keeps what its own call and connection promise. */
  lemma StatementKeeps(id: nat, call: Call, session: Session, a: Step)
    requires call.pc.Holds() && !call.pc.Releasing? && PcOk(call, session) && OwnWrites(call.issued, id)
    requires HonestBegin(Do(id, a)) && Statement(id, call, session, a).Some?
    ensures var x := Statement(id, call, session, a).value;
            && x.call.pc.Holds() && x.call.pc.conn == call.pc.conn && x.call.kind == call.kind
            && PcOk(x.call, x.session) && OwnWrites(x.call.issued, id) && OwnWrites(x.committed, id)
            && (if x.call.landed then
                  (if call.landed then x.committed == [] && x.call.issued == call.issued
                   else x.committed == x.call.issued)
                else x.committed == [] && !call.landed)
            && forall i :: 0 <= i < |x.seen| ==>
                 x.seen[i].call == id && OwnSettings(x.seen[i].client, x.seen[i].worker, call.kind)
  {
  }

  /** Another call is untouched when its connection and its committed writes are. */
  lemma OtherKeeps(s: State, t: State, id: nat)
    requires id in s.calls && id in t.calls && t.calls[id] == s.calls[id] && CallOk(s, id, s.calls[id])
    requires WritesOf(t.committed, id) == WritesOf(s.committed, id)
    requires s.calls[id].pc.Holds() ==>
               var c := s.calls[id].pc.conn; c in t.sessions && t.sessions[c] == s.sessions[c] && c !in t.idle
    ensures CallOk(t, id, t.calls[id])
  {
    hide PcOk, WritesOf, OwnWrites, OutcomeOk;
  }

  ghost predicate CanChange(s: State, id: nat, a: Step) {
    && id in s.calls && s.calls[id].pc.Holds() && !s.calls[id].pc.Releasing? && HonestBegin(Do(id, a))
    && s.calls[id].pc.conn in s.sessions && Statement(id, s.calls[id], s.sessions[s.calls[id].pc.conn], a).Some?
  }

  ghost function AfterStatement(s: State, id: nat, a: Step): State
    requires CanChange(s, id, a)
  {
    Changed(s, id, Statement(id, s.calls[id], s.sessions[s.calls[id].pc.conn], a).value)
  }

  lemma ChangedCalls(s: State, id: nat, a: Step)
    requires Inv(s) && CanChange(s, id, a)
    ensures CallsOk(AfterStatement(s, id, a))
  {
    var call, c := s.calls[id], s.calls[id].pc.conn;
    assert CallOk(s, id, call);
    var x := Statement(id, call, s.sessions[c], a).value;
    StatementKeeps(id, call, s.sessions[c], a);
    WritesOfAppend(s.committed, x.committed, id, id);
    hide Statement, PcOk, HonestBegin, OwnSettings, OutcomeOk, SeenOwn, PoolClean, CommittedKnown, WritesOf;
    hide HoldersDistinct;
    ActorOk(s, id, x);
    OthersChanged(s, id, x);
  }

  lemma OthersChanged(s: State, id: nat, x: Change)
    requires CallsOk(s) && HoldersDistinct(s) && id in s.calls && s.calls[id].pc.Holds() && OwnWrites(x.committed, id)
    ensures var t := Changed(s, id, x);
            forall other :: other in s.calls && other != id ==> CallOk(t, other, t.calls[other])
  {
    var c, t := s.calls[id].pc.conn, Changed(s, id, x);
    hide PcOk, OutcomeOk, WritesOf;
    forall other | other in s.calls && other != id ensures CallOk(t, other, t.calls[other]) {
      WritesOfAppend(s.committed, x.committed, other, id);
      assert WritesOf(s.committed, other) + [] == WritesOf(s.committed, other);
      assert s.calls[other].pc.Holds() ==> s.calls[other].pc.conn != c;
      assert CallOk(s, other, s.calls[other]);
      hide HoldersDistinct, OwnWrites;
      OtherKeeps(s, t, other);
    }
  }

  lemma ActorOk(s: State, id: nat, x: Change)
    requires id in s.calls && CallOk(s, id, s.calls[id]) && s.calls[id].pc.Holds()
    requires x.call.pc.Holds() && x.call.pc.conn == s.calls[id].pc.conn && PcOk(x.call, x.session)
             && OwnWrites(x.call.issued, id)
    requires WritesOf(s.committed + x.committed, id) == WritesOf(s.committed, id) + x.committed
    requires if x.call.landed then (if s.calls[id].landed then x.committed == [] && x.call.issued == s.calls[id].issued
                                    else x.committed == x.call.issued)
             else x.committed == [] && !s.calls[id].landed
    ensures CallOk(Changed(s, id, x), id, x.call)
  {
    hide PcOk, WritesOf, OwnWrites, OutcomeOk;
  }

  // The shared parts of the invariant, for any step of one call.

  lemma SeenFrame(s: State, t: State, extra: seq<Seen>)
    requires SeenOwn(s) && t.seen == s.seen + extra
    requires forall k :: k in s.calls ==> k in t.calls && t.calls[k].kind == s.calls[k].kind
    requires forall i :: 0 <= i < |extra| ==>
               extra[i].call in t.calls && OwnSettings(extra[i].client, extra[i].worker, t.calls[extra[i].call].kind)
    ensures SeenOwn(t)
  {
    hide OwnSettings;
  }

  lemma CommittedFrame(s: State, t: State, id: nat, extra: seq<Write>)
    requires CommittedKnown(s) && t.committed == s.committed + extra && OwnWrites(extra, id)
    requires s.calls.Keys <= t.calls.Keys && id in t.calls
    ensures CommittedKnown(t)
  {
  }

  lemma HoldersFrame(s: State, t: State, id: nat)
    requires HoldersDistinct(s) && forall k :: k in t.calls && k != id ==> k in s.calls && t.calls[k] == s.calls[k]
    requires id in t.calls && t.calls[id].pc.Holds() ==>
               forall k :: k in s.calls && k != id && s.calls[k].pc.Holds() ==>
                   s.calls[k].pc.conn != t.calls[id].pc.conn
    ensures HoldersDistinct(t)
  {
  }

  /** What the shared parts of the invariant need to know of one statement. */
  ghost predicate Modest(s: State, id: nat, x: Change) {
    && id in s.calls && s.calls[id].pc.Holds() && s.calls[id].pc.conn !in s.idle
    && x.call.pc.Holds() && x.call.pc.conn == s.calls[id].pc.conn && x.call.kind == s.calls[id].kind
    && OwnWrites(x.committed, id)
    && forall i :: 0 <= i < |x.seen| ==>
         x.seen[i].call == id && OwnSettings(x.seen[i].client, x.seen[i].worker, s.calls[id].kind)
  }

  lemma ChangeIsModest(s: State, id: nat, a: Step)
    requires CallsOk(s) && CanChange(s, id, a)
    ensures Modest(s, id, Statement(id, s.calls[id], s.sessions[s.calls[id].pc.conn], a).value)
  {
    var call, session := s.calls[id], s.sessions[s.calls[id].pc.conn];
    assert CallOk(s, id, call);
    StatementKeeps(id, call, session, a);
    hide Statement, PcOk, OwnWrites, OwnSettings, WritesOf, HonestBegin;
  }

  lemma ChangedPool(s: State, id: nat, x: Change)
    requires PoolClean(s) && Modest(s, id, x)
    ensures PoolClean(Changed(s, id, x))
  {
    hide OwnWrites, OwnSettings;
  }

  lemma ChangedHolders(s: State, id: nat, x: Change)
    requires HoldersDistinct(s) && Modest(s, id, x)
    ensures HoldersDistinct(Changed(s, id, x))
  {
    assert forall k :: k in s.calls && k != id && s.calls[k].pc.Holds() ==> s.calls[k].pc.conn != s.calls[id].pc.conn;
    hide HoldersDistinct, OwnWrites, OwnSettings;
    HoldersFrame(s, Changed(s, id, x), id);
  }

  lemma ChangedHistory(s: State, id: nat, x: Change)
    requires SeenOwn(s) && CommittedKnown(s) && Modest(s, id, x)
    ensures SeenOwn(Changed(s, id, x)) && CommittedKnown(Changed(s, id, x))
  {
    hide SeenOwn, CommittedKnown, OwnWrites, OwnSettings;
    SeenFrame(s, Changed(s, id, x), x.seen);
    CommittedFrame(s, Changed(s, id, x), id, x.committed);
  }

  lemma ChangedShared(s: State, id: nat, a: Step)
    requires Inv(s) && CanChange(s, id, a)
    ensures var t := AfterStatement(s, id, a); PoolClean(t) && HoldersDistinct(t) && SeenOwn(t) && CommittedKnown(t)
  {
    hide PoolClean, HoldersDistinct, SeenOwn, CommittedKnown, CallsOk, Statement, Modest, Changed, HonestBegin;
    ChangeIsModest(s, id, a);
    var x := Statement(id, s.calls[id], s.sessions[s.calls[id].pc.conn], a).value;
    ChangedPool(s, id, x);
    ChangedHolders(s, id, x);
    ChangedHistory(s, id, x);
  }

  lemma ConnectingKeeps(s: State, id: nat, a: Step)
    requires Inv(s) && id in s.calls && s.calls[id].pc.Invoked? && Connecting(s, id, a).Some?
    ensures Inv(Connecting(s, id, a).value)
  {
    assert CallOk(s, id, s.calls[id]);
    ConnectedOk(s, id, a);
    OthersConnected(s, id, a);
    ConnectingShared(s, id, a);
    hide PoolClean, SeenOwn, CommittedKnown, HoldersDistinct, CallOk;
  }

  lemma ConnectingShared(s: State, id: nat, a: Step)
    requires Inv(s) && id in s.calls && s.calls[id].pc.Invoked? && Connecting(s, id, a).Some?
    ensures var t := Connecting(s, id, a).value; PoolClean(t) && HoldersDistinct(t) && SeenOwn(t) && CommittedKnown(t)
  {
    hide Connecting, CallsOk, PoolClean, HoldersDistinct, SeenOwn, CommittedKnown;
    ConnectingPool(s, id, a);
    ConnectingHolders(s, id, a);
    ConnectingHistory(s, id, a);
  }

  lemma ConnectingHolders(s: State, id: nat, a: Step)
    requires CallsOk(s) && HoldersDistinct(s) && id in s.calls && Connecting(s, id, a).Some?
    ensures HoldersDistinct(Connecting(s, id, a).value)
  {
    NoHolder(s);
    hide CallsOk, HoldersDistinct;
    HoldersFrame(s, Connecting(s, id, a).value, id);
  }

  lemma ConnectingHistory(s: State, id: nat, a: Step)
    requires SeenOwn(s) && CommittedKnown(s) && id in s.calls && Connecting(s, id, a).Some?
    ensures SeenOwn(Connecting(s, id, a).value) && CommittedKnown(Connecting(s, id, a).value)
  {
    var t := Connecting(s, id, a).value;
    NothingIsOwn(id);
    hide SeenOwn, CommittedKnown, OwnSettings, OwnWrites;
    assert t.seen == s.seen + [] && t.committed == s.committed + [];
    SeenFrame(s, t, []);
    CommittedFrame(s, t, id, []);
  }

  lemma ConnectingPool(s: State, id: nat, a: Step)
    requires PoolClean(s) && id in s.calls && Connecting(s, id, a).Some?
    ensures PoolClean(Connecting(s, id, a).value)
  {
  }

  /** A connection that is idle, or does not exist yet, has no holder. */
  lemma NoHolder(s: State)
    requires CallsOk(s)
    ensures forall k :: k in s.calls && s.calls[k].pc.Holds() ==>
              s.calls[k].pc.conn in s.sessions && s.calls[k].pc.conn !in s.idle
  {
    hide PcOk, WritesOf, OwnWrites, OutcomeOk;
    forall k | k in s.calls && s.calls[k].pc.Holds()
      ensures s.calls[k].pc.conn in s.sessions && s.calls[k].pc.conn !in s.idle
    {
      assert CallOk(s, k, s.calls[k]);
    }
  }

  lemma NothingIsOwn(id: nat)
    ensures OwnWrites([], id)
  {
  }

  lemma OthersConnected(s: State, id: nat, a: Step)
    requires Inv(s) && id in s.calls && s.calls[id].pc.Invoked? && Connecting(s, id, a).Some?
    ensures var t := Connecting(s, id, a).value;
            forall other :: other in s.calls && other != id ==> CallOk(t, other, t.calls[other])
  {
    var t := Connecting(s, id, a).value;
    hide PoolClean, SeenOwn, CommittedKnown, OwnSettings, PcOk, WritesOf, OwnWrites, OutcomeOk, HoldersDistinct;
    forall other | other in s.calls && other != id ensures CallOk(t, other, t.calls[other]) {
      assert CallOk(s, other, s.calls[other]);
      OtherKeeps(s, t, other);
    }
  }

  lemma ConnectedOk(s: State, id: nat, a: Step)
    requires PoolClean(s) && id in s.calls && s.calls[id].pc.Invoked? && CallOk(s, id, s.calls[id])
             && Connecting(s, id, a).Some?
    ensures CallOk(Connecting(s, id, a).value, id, Connecting(s, id, a).value.calls[id])
  {
    hide WritesOf;
  }

  lemma ReleasedKeeps(s: State, id: nat)
    requires Inv(s) && id in s.calls && s.calls[id].pc.Releasing?
    ensures Inv(Released(s, id))
  {
    assert CallOk(s, id, s.calls[id]);
    ReleasedOk(s, id);
    OthersReleased(s, id);
    ReleasedShared(s, id);
    hide PoolClean, SeenOwn, CommittedKnown, HoldersDistinct, CallOk;
  }

  lemma ReleasedOk(s: State, id: nat)
    requires id in s.calls && s.calls[id].pc.Releasing? && CallOk(s, id, s.calls[id])
    ensures CallOk(Released(s, id), id, Released(s, id).calls[id])
  {
    hide WritesOf, OwnWrites;
  }

  /** A connection that goes back is clean: only a failed ROLLBACK leaves another one, and that one is destroyed. */
  lemma ReleasedPool(s: State, id: nat)
    requires PoolClean(s) && id in s.calls && s.calls[id].pc.Releasing? && CallOk(s, id, s.calls[id])
    ensures PoolClean(Released(s, id))
  {
    hide WritesOf, OwnWrites, OutcomeOk;
  }

  lemma ReleasedHistory(s: State, id: nat)
    requires SeenOwn(s) && CommittedKnown(s) && id in s.calls && s.calls[id].pc.Releasing?
    ensures SeenOwn(Released(s, id)) && CommittedKnown(Released(s, id))
  {
    var t := Released(s, id);
    NothingIsOwn(id);
    hide SeenOwn, CommittedKnown, OwnWrites, OwnSettings;
    assert t.seen == s.seen + [] && t.committed == s.committed + [];
    SeenFrame(s, t, []);
    CommittedFrame(s, t, id, []);
  }

  lemma ReleasedHolders(s: State, id: nat)
    requires HoldersDistinct(s) && id in s.calls && s.calls[id].pc.Releasing?
    ensures HoldersDistinct(Released(s, id))
  {
    hide HoldersDistinct;
    HoldersFrame(s, Released(s, id), id);
  }

  lemma ReleasedShared(s: State, id: nat)
    requires Inv(s) && id in s.calls && s.calls[id].pc.Releasing?
    ensures var t := Released(s, id); PoolClean(t) && HoldersDistinct(t) && SeenOwn(t) && CommittedKnown(t)
  {
    assert CallOk(s, id, s.calls[id]);
    hide Released, PoolClean, SeenOwn, CommittedKnown, HoldersDistinct, CallOk, CallsOk;
    ReleasedPool(s, id);
    ReleasedHolders(s, id);
    ReleasedHistory(s, id);
  }

  lemma OthersReleased(s: State, id: nat)
    requires Inv(s) && id in s.calls && s.calls[id].pc.Releasing?
    ensures var t := Released(s, id);
            forall other :: other in s.calls && other != id ==> CallOk(t, other, t.calls[other])
  {
    var t := Released(s, id);
    hide PoolClean, PcOk, WritesOf, OwnWrites, OutcomeOk, OwnSettings, SeenOwn, CommittedKnown;
    forall other | other in s.calls && other != id ensures CallOk(t, other, t.calls[other]) {
      assert CallOk(s, other, s.calls[other]);
      assert s.calls[other].pc.Holds() ==> s.calls[other].pc.conn != s.calls[id].pc.conn;
      OtherKeeps(s, t, other);
    }
  }

  lemma InvokeKeeps(s: State, id: nat, kind: Kind)
    requires Inv(s) && id !in s.calls
    ensures Inv(s.(calls := s.calls[id := Invocation(kind)]))
  {
    var t := s.(calls := s.calls[id := Invocation(kind)]);
    NewCallOk(s, id, kind);
    hide WritesOf, PcOk, OwnSettings, OwnWrites, OutcomeOk, IsUuid, SeenOwn, CommittedKnown, HoldersDistinct;
    assert PoolClean(t);
    hide PoolClean;
    assert t.seen == s.seen + [] && t.committed == s.committed + [];
    HoldersFrame(s, t, id);
    SeenFrame(s, t, []);
    assert OwnWrites([], id) by { NothingIsOwn(id); }
    CommittedFrame(s, t, id, []);
    forall other | other in s.calls ensures CallOk(t, other, t.calls[other]) {
      assert CallOk(s, other, s.calls[other]);
      OtherKeeps(s, t, other);
    }
  }

  lemma NewCallOk(s: State, id: nat, kind: Kind)
    requires CommittedKnown(s) && id !in s.calls
    ensures CallOk(s.(calls := s.calls[id := Invocation(kind)]), id, Invocation(kind))
  {
    assert forall i :: 0 <= i < |s.committed| ==> s.committed[i].call != id;
    NoWritesOf(s.committed, id);
    hide WritesOf, PcOk, IsUuid;
  }

  lemma StepKeepsInv(s: State, e: Event)
    requires Inv(s) && HonestBegin(e) && Next(s, e).Some?
    ensures Inv(Next(s, e).value)
  {
    hide PoolClean, CallsOk, HoldersDistinct, SeenOwn, CommittedKnown, Connecting, Released, Changed, Statement;
    hide Invocation;
    match e
    case Invoke(id, kind) => InvokeKeeps(s, id, kind);
    case Do(id, a) =>
      var pc := s.calls[id].pc;
      if pc.Invoked? { ConnectingKeeps(s, id, a); }
      else if pc.Releasing? { ReleasedKeeps(s, id); }
      else { ChangedCalls(s, id, a); ChangedShared(s, id, a); }
  }

  lemma {:induction false} ReachableInv(events: seq<Event>)
    requires (forall e :: e in events ==> HonestBegin(e)) && Run(EMPTY, events).Some?
    ensures Inv(Run(EMPTY, events).value)
  {
    if events == [] {
    } else {
      var n := |events| - 1;
      assert events[n] in events && forall e :: e in events[..n] ==> e in events;
      ReachableInv(events[..n]);
      StepKeepsInv(Run(EMPTY, events[..n]).value, events[n]);
      hide Inv;
    }
  }

  // ---------------------------------------------------------------- what the events alone say of a call

  /** The error an event raises for a call. */
  function ErrorOf(e: Event, id: nat): Option<Error> {
    match e
    case Invoke(other, kind) =>
      if other == id && kind.Tenant? && !IsUuid(kind.id) then Some(InvalidTenantId) else None
    case Do(other, a) =>
      if other != id then None
      else match a
        case Throw(x) => Some(x)
        case ConnectFails => Some(ConnectFailed)
        case BeginFails(_, _) => Some(StatementFailed("BEGIN"))
        case SetConfigFails(_) => Some(StatementFailed("set_config"))
        case CommitFails(_, _) => Some(StatementFailed("COMMIT"))
        case RollbackFails(_) => Some(StatementFailed("ROLLBACK"))
        case _ => None
  }

  function FirstError(events: seq<Event>, id: nat): Option<Error> {
    if events == [] then None else First(FirstError(events[..|events| - 1], id), ErrorOf(events[|events| - 1], id))
  }

  function First(x: Option<Error>, y: Option<Error>): Option<Error> { if x != None then x else y }

  /** The write of a query that succeeded. */
  function WriteOf(e: Event, id: nat): seq<Write> {
    if e.Do? && e.call == id && e.step.Query? then [Write(id, e.step.data)] else []
  }

  function Issued(events: seq<Event>, id: nat): seq<Write> {
    if events == [] then [] else Issued(events[..|events| - 1], id) + WriteOf(events[|events| - 1], id)
  }

  predicate Spoils(e: Event, id: nat) {
    e.Do? && e.call == id && e.step.QueryFails? && (e.step.dead || e.step.aborts)
  }

  /** A query failed and took the transaction with it. */
  predicate Spoiled(events: seq<Event>, id: nat) { exists e :: e in events && Spoils(e, id) }

  predicate Loses(e: Event, id: nat) { e.Do? && e.call == id && e.step.CommitFails? && e.step.applied }

  /** COMMIT took effect on an unspoiled transaction, and reported an error. */
  predicate ReplyLost(events: seq<Event>, id: nat) {
    exists k :: 0 <= k < |events| && Loses(events[k], id) && !Spoiled(events[..k], id)
  }

  predicate FailsRollback(e: Event, id: nat) { e.Do? && e.call == id && e.step.RollbackFails? }

  predicate RollbackFailed(events: seq<Event>, id: nat) { exists e :: e in events && FailsRollback(e, id) }

  function QueryCount(events: seq<Event>): nat {
    if events == [] then 0
    else
      var e := events[|events| - 1];
      QueryCount(events[..|events| - 1]) + if e.Do? && e.step.Query? then 1 else 0
  }

  lemma {:induction false} HistorySnoc(events: seq<Event>, e: Event, id: nat)
    ensures FirstError(events + [e], id) == First(FirstError(events, id), ErrorOf(e, id))
    ensures Issued(events + [e], id) == Issued(events, id) + WriteOf(e, id)
    ensures Spoiled(events + [e], id) <==> Spoiled(events, id) || Spoils(e, id)
    ensures RollbackFailed(events + [e], id) <==> RollbackFailed(events, id) || FailsRollback(e, id)
    ensures ReplyLost(events + [e], id) <==> ReplyLost(events, id) || (Loses(e, id) && !Spoiled(events, id))
  {
    hide ErrorOf, WriteOf, Spoils, FailsRollback, Loses, First;
    var all := events + [e];
    assert all[..|events|] == events && all[|events|] == e;
    hide Spoiled;
    assert forall k :: 0 <= k < |events| ==> all[k] == events[k] && all[..k] == events[..k];
    if ReplyLost(events, id) {
      var k :| 0 <= k < |events| && Loses(events[k], id) && !Spoiled(events[..k], id);
      assert Loses(all[k], id) && !Spoiled(all[..k], id);
    }
  }

  /** The fields of a call that record its history. */
  datatype Record = Record(raised: Option<Error>, issued: seq<Write>, failed: bool, replyLost: bool)

  function RecordOf(s: State, id: nat): Record {
    var call := if id in s.calls then s.calls[id] else Started(Worker(""));
    Record(call.raised, call.issued, call.failed, call.replyLost)
  }

  /** What the events say they are. */
  ghost function Told(events: seq<Event>, id: nat): Record {
    Record(FirstError(events, id), Issued(events, id), Spoiled(events, id), ReplyLost(events, id))
  }

  function With(r: Record, e: Event, id: nat): Record {
    Record(First(r.raised, ErrorOf(e, id)), r.issued + WriteOf(e, id), r.failed || Spoils(e, id),
           r.replyLost || (Loses(e, id) && !r.failed))
  }

  lemma StatementRecorded(id: nat, call: Call, session: Session, a: Step)
    requires call.pc.Holds() && PcOk(call, session) && Statement(id, call, session, a).Some?
    ensures var x := Statement(id, call, session, a).value.call;
            Record(x.raised, x.issued, x.failed, x.replyLost)
            == With(Record(call.raised, call.issued, call.failed, call.replyLost), Do(id, a), id)
  {
  }

  lemma EventRecorded(s: State, e: Event, id: nat)
    requires Inv(s) && Next(s, e).Some?
    ensures RecordOf(Next(s, e).value, id) == With(RecordOf(s, id), e, id)
  {
    hide IsUuid, Statement, PoolClean, HoldersDistinct, SeenOwn, CommittedKnown, PcOk, WritesOf, OwnWrites, OutcomeOk;
    if e.Do? && e.call == id && id in s.calls && s.calls[id].pc.Holds() && !s.calls[id].pc.Releasing? {
      assert CallOk(s, id, s.calls[id]);
      StatementRecorded(id, s.calls[id], s.sessions[s.calls[id].pc.conn], e.step);
    }
  }

  lemma {:induction false} RunRecorded(events: seq<Event>, id: nat)
    requires Honest(events) && Run(EMPTY, events).Some?
    ensures RecordOf(Run(EMPTY, events).value, id) == Told(events, id)
  {
    if events == [] {
    } else {
      var n := |events| - 1;
      var e := events[n];
      assert events == events[..n] + [e];
      RunRecorded(events[..n], id);
      ReachableInv(events[..n]);
      EventRecorded(Run(EMPTY, events[..n]).value, e, id);
      HistorySnoc(events[..n], e, id);
      hide Next, Inv, RecordOf, FirstError, Issued, Spoiled, ReplyLost;
    }
  }

  /** A connection is marked for destruction by a failed ROLLBACK and by nothing else. */
  ghost predicate Marked(s: State, id: nat, failed: bool) {
    && (failed ==> id in s.calls && (s.calls[id].pc.Releasing? || s.calls[id].pc.Done?))
    && (id in s.calls && s.calls[id].pc.Releasing? ==> (s.calls[id].pc.destroy <==> failed))
  }

  lemma EventMarks(s: State, e: Event, id: nat, failed: bool)
    requires Marked(s, id, failed) && Next(s, e).Some?
    ensures Marked(Next(s, e).value, id, failed || FailsRollback(e, id))
  {
    hide IsUuid, SetLocal;
  }

  lemma {:induction false} RunMarks(events: seq<Event>, id: nat)
    requires Run(EMPTY, events).Some?
    ensures Marked(Run(EMPTY, events).value, id, RollbackFailed(events, id))
  {
    if events == [] {
    } else {
      var n := |events| - 1;
      var e := events[n];
      assert events == events[..n] + [e];
      RunMarks(events[..n], id);
      EventMarks(Run(EMPTY, events[..n]).value, e, id, RollbackFailed(events[..n], id));
      HistorySnoc(events[..n], e, id);
      hide Next, Marked, RollbackFailed;
    }
  }

  lemma {:induction false} RunSees(events: seq<Event>)
    requires Run(EMPTY, events).Some?
    ensures |Run(EMPTY, events).value.seen| == QueryCount(events)
  {
    if events == [] {
    } else {
      var n := |events| - 1;
      RunSees(events[..n]);
      EventSees(Run(EMPTY, events[..n]).value, events[n]);
      hide Next;
    }
  }

  lemma EventSees(s: State, e: Event)
    requires Next(s, e).Some?
    ensures |Next(s, e).value.seen| == |s.seen| + if e.Do? && e.step.Query? then 1 else 0
  {
    hide IsUuid, SetLocal;
  }

  // ---------------------------------------------------------------- what follows for every run

  ghost predicate Honest(events: seq<Event>) { forall e :: e in events ==> HonestBegin(e) }

  /** Whatever fails and however calls interleave: idle connections carry no transaction and no setting, none of them is
      held, no connection has two holders, a callback whose connection is alive runs in a transaction with its own id
      and nothing else, and each of its queries that succeeded found just that. */
  lemma PoolIsolation(events: seq<Event>)
    requires Honest(events) && Run(EMPTY, events).Some?
    ensures var s := Run(EMPTY, events).value;
            && (forall c :: c in s.idle ==> c in s.sessions && s.sessions[c].Clean())
            && (forall id :: id in s.calls && s.calls[id].pc.Holds() ==>
                  s.calls[id].pc.conn in s.sessions && s.calls[id].pc.conn !in s.idle)
            && (forall id, other :: id in s.calls && other in s.calls && id != other ==>
                  s.calls[id].pc.Holds() && s.calls[other].pc.Holds() ==> s.calls[id].pc.conn != s.calls[other].pc.conn)
            && (forall id :: id in s.calls && s.calls[id].pc.Running? && s.sessions[s.calls[id].pc.conn].alive ==>
                  var session := s.sessions[s.calls[id].pc.conn];
                  session.inTx && OwnSettings(session.client, session.worker, s.calls[id].kind))
            && |s.seen| == QueryCount(events)
            && forall i :: 0 <= i < |s.seen| ==>
                 && s.seen[i].call in s.calls
                 && OwnSettings(s.seen[i].client, s.seen[i].worker, s.calls[s.seen[i].call].kind)
  {
    ReachableInv(events);
    RunSees(events);
    var s := Run(EMPTY, events).value;
    NoHolder(s);
    RunningOwn(s);
    hide Run, CallsOk, OwnSettings;
  }

  lemma RunningOwn(s: State)
    requires CallsOk(s)
    ensures forall id :: id in s.calls && s.calls[id].pc.Running? ==>
              && s.calls[id].pc.conn in s.sessions
              && var session := s.sessions[s.calls[id].pc.conn];
                 session.alive ==>
                   session.inTx && OwnSettings(session.client, session.worker, s.calls[id].kind)
  {
    forall id | id in s.calls && s.calls[id].pc.Running?
      ensures s.calls[id].pc.conn in s.sessions && InCallback(s.calls[id], s.sessions[s.calls[id].pc.conn])
    {
      assert CallOk(s, id, s.calls[id]);
    }
    hide CallsOk, OwnSettings;
  }

  /** What a finished call leaves behind, told from the events alone. It throws exactly the first error raised, whatever
      happens to the ROLLBACK, and returns if there is none. A normal return persists every write of its callback unless
      one of its queries failed, took the transaction with it, and the callback went on; an error persists none, unless
      the reply to a COMMIT that took effect was lost. */
  lemma {:induction false} FinishedCall(events: seq<Event>, id: nat)
    requires Honest(events) && Run(EMPTY, events).Some? && id in Run(EMPTY, events).value.calls
    requires Run(EMPTY, events).value.calls[id].pc.Done?
    ensures var s := Run(EMPTY, events).value;
            && (match FirstError(events, id)
                case None => s.calls[id].pc == Done(Returned)
                case Some(e) => s.calls[id].pc == Done(Thrown(e)))
            && WritesOf(s.committed, id)
               == if (if FirstError(events, id) == None then !Spoiled(events, id) else ReplyLost(events, id))
                  then Issued(events, id) else []
  {
    var s := Run(EMPTY, events).value;
    assert CallsOk(s) by { ReachableInv(events); }
    RunRecorded(events, id);
    hide Run, WritesOf, CallsOk, RecordOf, Honest, FirstError, Issued, Spoiled, ReplyLost;
    DoneCall(s, id, Told(events, id));
  }

  lemma DoneCall(s: State, id: nat, r: Record)
    requires CallsOk(s) && id in s.calls && s.calls[id].pc.Done? && RecordOf(s, id) == r
    ensures s.calls[id].pc == Done(if r.raised == None then Returned else Thrown(r.raised.value))
    ensures WritesOf(s.committed, id)
            == if (if r.raised == None then !r.failed else r.replyLost) then r.issued else []
  {
    assert CallOk(s, id, s.calls[id]);
    hide WritesOf, OwnWrites, PcOk, CallsOk;
  }

  /** So the writes persist exactly on a normal return, if and only if no query failure that ends the transaction was
      swallowed and no reply was lost. */
  lemma PersistsExactlyOnReturn(events: seq<Event>, id: nat)
    requires Honest(events) && Run(EMPTY, events).Some? && id in Run(EMPTY, events).value.calls
    requires Run(EMPTY, events).value.calls[id].pc.Done? && Issued(events, id) != []
    ensures var s := Run(EMPTY, events).value;
            ((WritesOf(s.committed, id) == Issued(events, id) <==> s.calls[id].pc == Done(Returned))
             <==> if FirstError(events, id) == None then !Spoiled(events, id) else !ReplyLost(events, id))
  {
    FinishedCall(events, id);
    hide Run, WritesOf, FirstError, Issued, Spoiled, ReplyLost;
  }

  /** A released connection goes back to the pool, unless its ROLLBACK failed: application errors do not churn it. */
  lemma ReleasedUnlessRollbackFailed(events: seq<Event>, id: nat)
    requires Run(EMPTY, events).Some? && Next(Run(EMPTY, events).value, Do(id, Release)).Some?
    ensures var s := Run(EMPTY, events).value;
            var t := Next(s, Do(id, Release)).value;
            && id in s.calls && s.calls[id].pc.Holds()
            && t.idle == s.idle + if RollbackFailed(events, id) then {} else {s.calls[id].pc.conn}
  {
    RunMarks(events, id);
    hide Run, RollbackFailed;
  }

  /** A callback can return or throw at any point, and any statement can fail; it succeeds while the connection lives,
      a query only in a transaction that is not aborted. */
  predicate Offered(pc: Pc, session: Session, a: Step) {
    match pc
    case Connected(_) => a.BeginFails? || (a == Begin && session.alive)
    case Began(_) => a.SetConfigFails? || a == SetConfig
    case Running(_) =>
      a == Return || a.Throw? || a.QueryFails? || (a.Query? && session.alive && !session.aborted)
    case Committing(_) => a.CommitFails? || (a == Commit && session.alive)
    case RollingBack(_, _) => a.RollbackFails? || (a == Rollback && session.alive)
    case Releasing(_, _, _) => a == Release
    case _ => false
  }

  /** Those are the steps of a call that holds a connection, and no others. */
  lemma StepsOffered(events: seq<Event>, id: nat, a: Step)
    requires Honest(events) && Run(EMPTY, events).Some? && id in Run(EMPTY, events).value.calls
    requires Run(EMPTY, events).value.calls[id].pc.Holds()
    ensures var s := Run(EMPTY, events).value;
            && s.calls[id].pc.conn in s.sessions
            && (Next(s, Do(id, a)).Some? <==> Offered(s.calls[id].pc, s.sessions[s.calls[id].pc.conn], a))
  {
    ReachableInv(events);
    var s := Run(EMPTY, events).value;
    assert CallOk(s, id, s.calls[id]);
    hide Run, Inv, WritesOf, OwnWrites, PcOk, Statement;
    if !s.calls[id].pc.Releasing? {
      hide Offered;
      StatementOffered(id, s.calls[id], s.sessions[s.calls[id].pc.conn], a);
    }
  }

  lemma StatementOffered(id: nat, call: Call, session: Session, a: Step)
    requires call.pc.Holds() && !call.pc.Releasing? && PcOk(call, session)
    ensures Statement(id, call, session, a).Some? <==> Offered(call.pc, session, a)
  {
  }

  /** The tenant ids let through: hexadecimal groups of 8, 4, 4, 4 and 12 digits, in either case. */
  lemma UuidMeaning(s: string)
    ensures IsUuid(s) <==> exists a, b, c, d, e :: UuidOf(a, b, c, d, e) == s && HexGroups(a, b, c, d, e)
  {
    HexDigits();
    hide IsHex, HexDigit;
    if IsUuid(s) {
      var a, b, c, d, e := s[..8], s[9..13], s[14..18], s[19..23], s[24..];
      assert UuidOf(a, b, c, d, e) == s;
      assert HexGroups(a, b, c, d, e);
    }
    if a, b, c, d, e :| UuidOf(a, b, c, d, e) == s && HexGroups(a, b, c, d, e) {
      forall i | 0 <= i < 36 ensures if i in {8, 13, 18, 23} then s[i] == '-' else IsHex(s[i]) {
        assert i !in {8, 13, 18, 23} ==> s[i] in a || s[i] in b || s[i] in c || s[i] in d || s[i] in e;
      }
    }
  }

  predicate HexDigit(c: char) { c in "0123456789abcdefABCDEF" }

  lemma HexDigits()
    ensures forall c :: IsHex(c) <==> HexDigit(c)
  {
  }

  function UuidOf(a: string, b: string, c: string, d: string, e: string): string {
    a + "-" + b + "-" + c + "-" + d + "-" + e
  }

  predicate HexGroups(a: string, b: string, c: string, d: string, e: string) {
    && (|a|, |b|, |c|, |d|, |e|) == (8, 4, 4, 4, 12)
    && forall x :: x in a || x in b || x in c || x in d || x in e ==> HexDigit(x)
  }

  /** A callback that catches a failed query and returns: COMMIT ends an aborted transaction without an error, so the
      call returns normally, and what it wrote is there exactly when the failure left the transaction alone. */
  lemma SwallowedFailure(s: State, id: nat, aborts: bool)
    requires id in s.calls && s.calls[id].pc.Running? && s.calls[id].pc.conn in s.sessions
    requires s.sessions[s.calls[id].pc.conn].alive && s.sessions[s.calls[id].pc.conn].inTx
    ensures var r := Run(s, [Do(id, QueryFails(false, aborts)), Do(id, Return), Do(id, Commit), Do(id, Release)]);
            var session := s.sessions[s.calls[id].pc.conn];
            && r.Some? && id in r.value.calls && r.value.calls[id].pc == Done(Returned)
            && r.value.calls[id].issued == s.calls[id].issued
            && r.value.committed == s.committed + if aborts || session.aborted then [] else session.pending
  {
    hide Run, Next, Changed, Statement;
    var conn := s.calls[id].pc.conn;
    var a, b, c, d := Do(id, QueryFails(false, aborts)), Do(id, Return), Do(id, Commit), Do(id, Release);
    EndStatements(id, s.calls[id], s.sessions[conn], aborts);
    var s1 := StatementAt(s, id, QueryFails(false, aborts));
    EndStatements(id, s1.calls[id], s1.sessions[conn], aborts);
    var s2 := StatementAt(s1, id, Return);
    EndStatements(id, s2.calls[id], s2.sessions[conn], aborts);
    var s3 := StatementAt(s2, id, Commit);
    var s4 := Released(s3, id);
    NextRelease(s3, id);
    RunFour(s, a, b, c, d, s1, s2, s3, s4);
  }

  /** The statements of a callback that goes on after a failed query. */
  lemma EndStatements(id: nat, call: Call, session: Session, aborts: bool)
    requires call.pc.Holds() && session.alive && session.inTx
    ensures call.pc.Running? ==>
              && Statement(id, call, session, QueryFails(false, aborts))
                 == Quiet(if aborts then session.(aborted := true) else session,
                          if aborts then call.(failed := true) else call)
              && Statement(id, call, session, Return) == Quiet(session, call.(pc := Committing(call.pc.conn)))
    ensures call.pc.Committing? ==>
              var x := Statement(id, call, session, Commit);
              && x.Some? && x.value.call.pc == Releasing(call.pc.conn, Returned, false)
                 && x.value.call.issued == call.issued
              && x.value.committed == if session.aborted then [] else session.pending
  {
  }

  /** And those up to its first query. */
  lemma OpeningStatements(id: nat, call: Call, session: Session, data: string)
    requires call.pc.Holds() && session.alive && !session.aborted
    ensures call.pc.Connected? ==>
              Statement(id, call, session, Begin) == Quiet(session.(inTx := true), call.(pc := Began(call.pc.conn)))
    ensures call.pc.Began? ==>
              Statement(id, call, session, SetConfig)
              == Quiet(SetLocal(session, call.kind), call.(pc := Running(call.pc.conn)))
    ensures call.pc.Running? ==>
              var x := Statement(id, call, session, Query(data));
              && x.Some? && x.value.call == call.(issued := call.issued + [Write(id, data)]) && x.value.committed == []
              && x.value.session == session.(pending := session.pending + [Write(id, data)])
  {
  }

  /** One statement of a call, in a run. */
  lemma StatementAt(s: State, id: nat, a: Step) returns (t: State)
    requires id in s.calls && s.calls[id].pc.Holds() && !s.calls[id].pc.Releasing? && s.calls[id].pc.conn in s.sessions
    requires Statement(id, s.calls[id], s.sessions[s.calls[id].pc.conn], a).Some?
    ensures Next(s, Do(id, a)) == Some(t) && t.calls.Keys == s.calls.Keys && t.sessions.Keys == s.sessions.Keys
    ensures var x := Statement(id, s.calls[id], s.sessions[s.calls[id].pc.conn], a).value;
            && t.calls[id] == x.call && t.sessions[s.calls[id].pc.conn] == x.session
            && t.committed == s.committed + x.committed
  {
    hide Statement;
    NextStatement(s, id, a);
    t := Next(s, Do(id, a)).value;
  }

  lemma RunFour(s: State, a: Event, b: Event, c: Event, d: Event, s1: State, s2: State, s3: State, s4: State)
    requires Next(s, a) == Some(s1) && Next(s1, b) == Some(s2) && Next(s2, c) == Some(s3) && Next(s3, d) == Some(s4)
    ensures Run(s, [a, b, c, d]) == Some(s4)
  {
    hide Next, Run;
    RunSnoc(s, [], a);
    assert [] + [a] == [a];
    RunSnoc(s, [a], b);
    assert [a] + [b] == [a, b];
    RunSnoc(s, [a, b], c);
    assert [a, b] + [c] == [a, b, c];
    RunSnoc(s, [a, b, c], d);
    assert [a, b, c] + [d] == [a, b, c, d];
  }

  /** The statements up to one callback query, from an empty pool. */
  function Opening(client: string, data: string): seq<Event> {
    [Invoke(0, Tenant(client)), Do(0, Connect(0)), Do(0, Begin), Do(0, SetConfig)] + [Do(0, Query(data))]
  }

  lemma OpeningRuns(client: string, data: string)
    requires IsUuid(client)
    ensures var r := Run(EMPTY, Opening(client, data));
            && r.Some? && r.value.committed == [] && r.value.calls.Keys == {0} && r.value.sessions.Keys == {0}
            && r.value.calls[0].pc == Running(0) && r.value.calls[0].issued == [Write(0, data)]
            && r.value.sessions[0] == Session(true, true, false, Some(client), None, [Write(0, data)])
  {
    hide IsUuid, Run, Changed, Statement;
    var a, b, c, d := Invoke(0, Tenant(client)), Do(0, Connect(0)), Do(0, Begin), Do(0, SetConfig);
    var s1 := EMPTY.(calls := map[0 := Started(Tenant(client))]);
    var s2 := s1.(calls := map[0 := Started(Tenant(client)).(pc := Connected(0))], sessions := map[0 := FRESH]);
    FirstSteps(client, s1, s2);
    hide Next;
    OpeningStatements(0, s2.calls[0], s2.sessions[0], data);
    var s3 := StatementAt(s2, 0, Begin);
    OpeningStatements(0, s3.calls[0], s3.sessions[0], data);
    var s4 := StatementAt(s3, 0, SetConfig);
    RunFour(EMPTY, a, b, c, d, s1, s2, s3, s4);
    OpeningStatements(0, s4.calls[0], s4.sessions[0], data);
    var s5 := StatementAt(s4, 0, Query(data));
    RunSnoc(EMPTY, [a, b, c, d], Do(0, Query(data)));
  }

  lemma FirstSteps(client: string, s1: State, s2: State)
    requires IsUuid(client) && s1 == EMPTY.(calls := map[0 := Started(Tenant(client))])
    requires s2 == s1.(calls := map[0 := Started(Tenant(client)).(pc := Connected(0))], sessions := map[0 := FRESH])
    ensures Next(EMPTY, Invoke(0, Tenant(client))) == Some(s1) && Next(s1, Do(0, Connect(0))) == Some(s2)
  {
    hide IsUuid;
    assert EMPTY.calls[0 := Started(Tenant(client))] == s1.calls;
    assert s1.calls[0 := s1.calls[0].(pc := Connected(0))] == s2.calls;
  }

  /** It does happen: for every tenant and every write there is a run in which the call returns normally and the write,
      which succeeded, is not there. */
  lemma SwallowedWitness(client: string, data: string)
    requires IsUuid(client)
    ensures var events := Opening(client, data)
                          + [Do(0, QueryFails(false, true)), Do(0, Return), Do(0, Commit), Do(0, Release)];
            var r := Run(EMPTY, events);
            && Honest(events) && r.Some? && 0 in r.value.calls && r.value.calls[0].pc == Done(Returned)
            && r.value.calls[0].issued == [Write(0, data)] && r.value.committed == []
  {
    OpeningRuns(client, data);
    var s := Run(EMPTY, Opening(client, data)).value;
    var rest := [Do(0, QueryFails(false, true)), Do(0, Return), Do(0, Commit), Do(0, Release)];
    SwallowedFailure(s, 0, true);
    hide Opening;
    RunConcat(EMPTY, Opening(client, data), rest);
    hide Run;
    HonestOpening(client, data);
  }

  lemma HonestOpening(client: string, data: string)
    ensures Honest(Opening(client, data))
  {
  }

  lemma {:induction false} RunConcat(s: State, before: seq<Event>, after: seq<Event>)
    ensures Run(s, before + after) == match Run(s, before) case None => None case Some(t) => Run(t, after)
  {
    hide Next;
    if after == [] {
      assert before + after == before;
    } else {
      var n := |after| - 1;
      assert (before + after)[..|before + after| - 1] == before + after[..n];
      RunConcat(s, before, after[..n]);
    }
  }

  lemma NextStatement(s: State, id: nat, a: Step)
    requires id in s.calls && s.calls[id].pc.Holds() && !s.calls[id].pc.Releasing? && s.calls[id].pc.conn in s.sessions
    requires Statement(id, s.calls[id], s.sessions[s.calls[id].pc.conn], a).Some?
    ensures Next(s, Do(id, a))
            == Some(Changed(s, id, Statement(id, s.calls[id], s.sessions[s.calls[id].pc.conn], a).value))
  {
    hide Statement;
  }

  lemma NextRelease(s: State, id: nat)
    requires id in s.calls && s.calls[id].pc.Releasing?
    ensures Next(s, Do(id, Release)) == Some(Released(s, id))
  {
  }

  lemma RunSnoc(s: State, events: seq<Event>, e: Event)
    ensures Run(s, []) == Some(s)
    ensures Run(s, events + [e]) == match Run(s, events) case None => None case Some(t) => Next(t, e)
  {
    assert (events + [e])[..|events|] == events;
    hide Next;
  }

  /** Isolation needs an honest BEGIN: one that opens the transaction and still reports an error sends it back to the
      pool. */
  lemma DishonestBeginLeaks(s: State, id: nat)
    requires id in s.calls && s.calls[id].pc.Connected? && s.calls[id].pc.conn in s.sessions
             && s.sessions[s.calls[id].pc.conn].alive
    ensures var r := Run(s, [Do(id, BeginFails(true, false)), Do(id, Release)]);
            && r.Some? && s.calls[id].pc.conn in r.value.idle && s.calls[id].pc.conn in r.value.sessions
            && r.value.sessions[s.calls[id].pc.conn].inTx
  {
    var a, b := Do(id, BeginFails(true, false)), Do(id, Release);
    assert [a, b][..1] == [a] && [a][..0] == [];
    var s1 := Next(s, a).value;
    assert Run(s, [a]) == Some(s1) && s1.calls[id].pc.Releasing?;
  }
}
