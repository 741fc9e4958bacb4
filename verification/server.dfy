/** The per-socket handlers registered in `io.on('connection', …)`, as one pure
    transition: the shared log, the socket that raised an event and the event
    give the next log and the messages emitted, each addressed to the sender,
    to every socket, or to every socket but the sender. */
module Server {
  import opened Values
  import opened DrawingState

  /** What a socket can raise. `PathEnd` is sent by the shipped client but has
      no handler on the server, so socket.io drops it. */
  datatype Event =
    | Connect
    | PathStart(op: Json)
    | PathContinue(data: Json)
    | PathEnd(data: Json)
    | UndoRequest
    | CursorMove(pos: map<string, Json>)
    | Disconnect

  /** `socket.emit`, `io.emit` and `socket.broadcast.emit`. */
  datatype Audience = ToSender | ToEveryone | ToOthers

  datatype Message =
    | StateInit(ops: seq<Operation>)
    | StateOperation(op: Operation)
    | PathContinueRelay(data: Json)
    | StateUndo(undoneOperationId: OpId)
    | CursorUpdate(fields: map<string, Json>)

  datatype Emit = Emit(to: Audience, msg: Message)

  /** `threw` records that the handler raised a TypeError part-way through. */
  datatype Outcome = Outcome(next: State, emits: seq<Emit>, threw: bool)

  /** Whether socket `me` receives an emit made while handling an event of `sender`. */
  predicate Receives(me: string, sender: string, to: Audience) {
    match to
    case ToSender => me == sender
    case ToEveryone => true
    case ToOthers => me != sender
  }

  /** The cursor relay `{ userId, ...pos }`: the sender's id, then every field of
      the payload, a payload field of the same name overriding it. */
  function CursorFields(sid: string, pos: map<string, Json>): (f: map<string, Json>)
    ensures f.Keys == pos.Keys + {"userId"}
    ensures forall k :: k in pos ==> f[k] == pos[k]
    ensures "userId" !in pos ==> f["userId"] == JStr(sid)
  {
    map["userId" := JStr(sid)] + pos
  }

  function Step(s: State, sid: string, ev: Event, clock: Clock): (r: Outcome)
    // connection: a full snapshot of the canvas to the new socket alone
    ensures ev.Connect? ==> r.next == s && r.emits == [Emit(ToSender, StateInit(GetCanvasState(s)))]
    // path:start: the counter always advances; a null payload throws before anything is appended
    ensures ev.PathStart? ==> r.next.opCounter == s.opCounter + 1
    ensures ev.PathStart? ==> (r.threw <==> ev.op == JNull)
    ensures ev.PathStart? && r.threw ==> r.next.history == s.history && r.emits == []
    ensures ev.PathStart? && !r.threw ==>
      && |r.next.history| == |s.history| + 1
      && r.next.history[..|s.history|] == s.history
      && BuiltFrom(r.next.history[|s.history|], r.next.opCounter, sid, JStr("draw"), ev.op, clock)
      && r.emits == [Emit(ToEveryone, StateOperation(r.next.history[|s.history|]))]
    // path:continue: relayed untouched to the others, the log untouched
    ensures ev.PathContinue? ==> r.next == s && r.emits == [Emit(ToOthers, PathContinueRelay(ev.data))]
    // undo:request: a broadcast exactly when something was undone
    ensures ev.UndoRequest? ==> (r.emits == [] <==> NoneActive(s.history))
    ensures ev.UndoRequest? && NoneActive(s.history) ==> r.next == s
    ensures ev.UndoRequest? ==> forall i :: IsLastActive(s.history, i) ==>
      && r.next.history == s.history[i := Deactivated(s.history[i])]
      && r.next.opCounter == s.opCounter
      && r.emits == [Emit(ToEveryone, StateUndo(s.history[i].id))]
    // cursor:move: the position with the sender's id, to the others
    ensures ev.CursorMove? ==> r.next == s && r.emits == [Emit(ToOthers, CursorUpdate(CursorFields(sid, ev.pos)))]
    // disconnect, and path:end which has no handler: nothing at all
    ensures ev.Disconnect? || ev.PathEnd? ==> r.next == s && r.emits == []
    ensures !ev.PathStart? ==> !r.threw
  {
    match ev
    case Connect =>
      Outcome(s, [Emit(ToSender, StateInit(GetCanvasState(s)))], false)
    case PathStart(op) =>
      var c := CreateOperation(s, sid, JStr("draw"), op, clock);
      (match c.op
       case None => Outcome(c.next, [], true)
       case Some(full) => Outcome(AddOperation(c.next, full), [Emit(ToEveryone, StateOperation(full))], false))
    case PathContinue(data) =>
      Outcome(s, [Emit(ToOthers, PathContinueRelay(data))], false)
    case PathEnd(_) =>
      Outcome(s, [], false)
    case UndoRequest =>
      var u := UndoLastOperation(s);
      (match u.undone
       case None => Outcome(u.next, [], false)
       case Some(id) => Outcome(u.next, [Emit(ToEveryone, StateUndo(id))], false))
    case CursorMove(pos) =>
      Outcome(s, [Emit(ToOthers, CursorUpdate(CursorFields(sid, pos)))], false)
    case Disconnect =>
      Outcome(s, [], false)
  }

  /** Every step keeps the log valid and only appends or clears flags: order,
      ids and every other field of existing entries are never touched. */
  lemma StepPreservesValid(s: State, sid: string, ev: Event, clock: Clock)
    requires Valid(s)
    ensures Valid(Step(s, sid, ev, clock).next)
    ensures Evolves(s.history, Step(s, sid, ev, clock).next.history)
    ensures Step(s, sid, ev, clock).next.opCounter >= s.opCounter
  {
    match ev
    case PathStart(op) =>
      if op != JNull {
        CreateThenAddPreservesValid(s, sid, JStr("draw"), op, clock);
      }
    case UndoRequest =>
      UndoPreservesValid(s);
    case _ =>
  }

  /** A committed operation is authored by the socket that sent `path:start`,
      whatever author the payload claims, and its id is new to the log. */
  lemma PathStartAuthorIsSender(s: State, sid: string, m: map<string, Json>, clock: Clock)
    requires Valid(s)
    ensures var r := Step(s, sid, PathStart(JObj(m)), clock);
      && !r.threw
      && r.emits[0].msg.op.userId == sid
      && r.emits[0].msg.op.isActive
      && (forall i :: 0 <= i < |s.history| ==> s.history[i].id != r.emits[0].msg.op.id)
  {
  }

  /** Undo is global: the outcome does not depend on which socket asks, so any
      socket can undo the newest active stroke of any other. */
  lemma UndoIgnoresRequester(s: State, a: string, b: string, ca: Clock, cb: Clock)
    ensures Step(s, a, UndoRequest, ca) == Step(s, b, UndoRequest, cb)
  {
  }

  /** An undo request from one socket deactivates the newest active stroke even
      when another socket drew it, and tells everyone which one. */
  lemma UndoCrossesAuthors(s: State, sid: string, clock: Clock)
    requires GetCanvasState(s) != []
    ensures var c := GetCanvasState(s); var r := Step(s, sid, UndoRequest, clock);
      && r.emits == [Emit(ToEveryone, StateUndo(c[|c| - 1].id))]
      && GetCanvasState(r.next) == c[..|c| - 1]
  {
    UndoPopsCanvas(s);
  }

  // A worked exchange. Socket "s1" starts a stroke at the origin and then sends
  // `path:end` with two points; socket "s2" asks for undo; socket "s3" joins.

  const Origin: Json := JObj(map["x" := JNum(0.0), "y" := JNum(0.0)])
  const StartPayload: Json := JObj(map["id" := JStr("a"), "points" := JArr([Origin])])
  const EndPayload: Json :=
    JObj(map["id" := JStr("a"), "points" := JArr([Origin, JObj(map["x" := JNum(10.0), "y" := JNum(10.0)])])])

  /** The record the first `path:start` of the exchange commits. */
  function FirstStroke(t: Clock): Operation {
    Operation(OpId(1, t.idMillis), "s1", JStr("draw"), JStr("brush"), JStr("#000000"), JNum(5.0), JArr([Origin]), true, t.stampMillis)
  }

  /** The stroke is committed and broadcast to everyone when it starts, carrying
      only its origin, the default style and the first id; its `path:end`
      changes nothing. */
  lemma ScenarioStrokeStarts(t: Clock)
    ensures Step(Init(), "s1", PathStart(StartPayload), t)
         == Outcome(State([FirstStroke(t)], 1), [Emit(ToEveryone, StateOperation(FirstStroke(t)))], false)
    ensures Step(State([FirstStroke(t)], 1), "s1", PathEnd(EndPayload), t)
         == Outcome(State([FirstStroke(t)], 1), [], false)
  {
    assert Property(StartPayload, "points") == Some(JArr([Origin]));
    assert Property(StartPayload, "tool") == None;
    assert Property(StartPayload, "color") == None;
    assert Property(StartPayload, "width") == None;
  }

  /** Another socket's undo removes the stroke and tells everyone its id; a late
      joiner then receives an empty canvas. */
  lemma ScenarioForeignUndoThenLateJoin(t: Clock)
    ensures Step(State([FirstStroke(t)], 1), "s2", UndoRequest, t)
         == Outcome(State([Deactivated(FirstStroke(t))], 1), [Emit(ToEveryone, StateUndo(OpId(1, t.idMillis)))], false)
    ensures Step(State([Deactivated(FirstStroke(t))], 1), "s3", Connect, t)
         == Outcome(State([Deactivated(FirstStroke(t))], 1), [Emit(ToSender, StateInit([]))], false)
  {
    assert IsLastActive([FirstStroke(t)], 0);
    assert ActiveOps([Deactivated(FirstStroke(t))]) == ActiveOps([]);
  }

  // ---------------------------------------------------------------------------
  // Runs of events

  /** One event as the server sees it: who raised it, what it is, and the clock
      readings its handler would take. */
  datatype Input = Input(sid: string, ev: Event, clock: Clock)

  function Run(s: State, inputs: seq<Input>): State
    decreases |inputs|
  {
    if |inputs| == 0 then s
    else Run(Step(s, inputs[0].sid, inputs[0].ev, inputs[0].clock).next, inputs[1..])
  }

  /** Any run from a valid log keeps it valid and only ever appends entries or
      clears flags. */
  lemma {:induction false} RunPreservesValid(s: State, inputs: seq<Input>)
    requires Valid(s)
    ensures Valid(Run(s, inputs))
    ensures Evolves(s.history, Run(s, inputs).history)
    decreases |inputs|
  {
    if |inputs| > 0 {
      var next := Step(s, inputs[0].sid, inputs[0].ev, inputs[0].clock).next;
      StepPreservesValid(s, inputs[0].sid, inputs[0].ev, inputs[0].clock);
      RunPreservesValid(next, inputs[1..]);
      EvolvesTransitive(s.history, next.history, Run(next, inputs[1..]).history);
    }
  }

  /** The operation a step announces with `state:operation`, if any. */
  function Announcement(s: State, inp: Input): (a: seq<Operation>)
    ensures |a| <= 1
    ensures forall k :: 0 <= k < |a| ==> a[k].id.counter == s.opCounter + 1
  {
    var r := Step(s, inp.sid, inp.ev, inp.clock);
    if inp.ev.PathStart? && !r.threw then [r.emits[0].msg.op] else []
  }

  /** The operations announced with `state:operation` during a run, in order. */
  function Announced(s: State, inputs: seq<Input>): seq<Operation>
    decreases |inputs|
  {
    if |inputs| == 0 then []
    else
      Announcement(s, inputs[0])
        + Announced(Step(s, inputs[0].sid, inputs[0].ev, inputs[0].clock).next, inputs[1..])
  }

  /** Counters that lie in `(lo, hi]` and strictly increase along `a`. */
  ghost predicate FreshRange(a: seq<Operation>, lo: int, hi: int) {
    && (forall k :: 0 <= k < |a| ==> lo < a[k].id.counter <= hi)
    && (forall k, l :: 0 <= k < l < |a| ==> a[k].id.counter < a[l].id.counter)
  }

  lemma FreshRangeConcat(a: seq<Operation>, b: seq<Operation>, lo: int, mid: int, hi: int)
    requires lo <= mid <= hi
    requires FreshRange(a, lo, mid) && FreshRange(b, mid, hi)
    ensures FreshRange(a + b, lo, hi)
  {
    var ab := a + b;
    forall k | 0 <= k < |ab| ensures lo < ab[k].id.counter <= hi {
      if k >= |a| { assert ab[k] == b[k - |a|]; }
    }
    forall k, l | 0 <= k < l < |ab| ensures ab[k].id.counter < ab[l].id.counter {
      if l < |a| {
      } else if k >= |a| {
        assert ab[k] == b[k - |a|] && ab[l] == b[l - |a|];
      } else {
        assert ab[l] == b[l - |a|];
      }
    }
  }

  /** Ids announced during a run strictly increase, so no two announcements
      share an id, and all lie above the counter the run started from, so none
      reuses an id already in a valid log. */
  lemma {:induction false} AnnouncedIdsAreFresh(s: State, inputs: seq<Input>)
    ensures FreshRange(Announced(s, inputs), s.opCounter, Run(s, inputs).opCounter)
    decreases |inputs|
  {
    if |inputs| > 0 {
      var next := Step(s, inputs[0].sid, inputs[0].ev, inputs[0].clock).next;
      var head := Announcement(s, inputs[0]);
      AnnouncedIdsAreFresh(next, inputs[1..]);
      RunCounterGrows(next, inputs[1..]);
      assert FreshRange(head, s.opCounter, next.opCounter);
      FreshRangeConcat(head, Announced(next, inputs[1..]), s.opCounter, next.opCounter, Run(next, inputs[1..]).opCounter);
    }
  }

  /** No id announced during a run from a valid log names a record that was
      already in that log. */
  lemma AnnouncedIdsAreNew(s: State, inputs: seq<Input>)
    requires Valid(s)
    ensures var a := Announced(s, inputs);
      forall k, i :: 0 <= k < |a| && 0 <= i < |s.history| ==> a[k].id != s.history[i].id
  {
    AnnouncedIdsAreFresh(s, inputs);
  }

  lemma {:induction false} RunCounterGrows(s: State, inputs: seq<Input>)
    ensures s.opCounter <= Run(s, inputs).opCounter
    decreases |inputs|
  {
    if |inputs| > 0 {
      RunCounterGrows(Step(s, inputs[0].sid, inputs[0].ev, inputs[0].clock).next, inputs[1..]);
    }
  }
}
