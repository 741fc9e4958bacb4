/** The client's local copy of the log (`canvasManager.pathHistory`) and the
    handlers that keep it in step with the server's broadcasts. The client
    renders the active entries of its copy, in order; the point of this module
    is that those are exactly the server's canvas. */
module ClientMirror {
  import opened Values
  import opened DrawingState
  import opened Server

  /** One message's effect on the copy. `state:init` replaces it; `state:operation`
      appends, whoever authored the stroke; `state:undo` clears the flag of the
      first entry with that id, or does nothing if there is none. The
      `path:continue` handler is empty, and `cursor:update` touches only the
      cursor layer. */
  function Receive(mirror: seq<Operation>, msg: Message): (r: seq<Operation>)
    ensures msg.StateInit? ==> r == msg.ops
    ensures msg.StateOperation? ==> r == mirror + [msg.op]
    ensures msg.StateUndo? ==> |r| == |mirror|
    ensures msg.StateUndo? ==> forall i :: 0 <= i < |mirror| ==>
      r[i] == (if IsFirstWithId(mirror, msg.undoneOperationId, i) then Deactivated(mirror[i]) else mirror[i])
    ensures msg.PathContinueRelay? || msg.CursorUpdate? ==> r == mirror
  {
    match msg
    case StateInit(ops) => ops
    case StateOperation(op) => mirror + [op]
    case StateUndo(id) => ClearFirst(mirror, id)
    case PathContinueRelay(_) => mirror
    case CursorUpdate(_) => mirror
  }

  /** The `state:undo` handler: `find` by id, then clear that entry's flag. */
  function ClearFirst(mirror: seq<Operation>, id: OpId): seq<Operation> {
    match FindIndex(mirror, id)
    case None => mirror
    case Some(i) => mirror[i := Deactivated(mirror[i])]
  }

  /** The copy after the emits of one step, keeping those addressed to `me`. */
  function ReceiveAll(mirror: seq<Operation>, me: string, sender: string, emits: seq<Emit>): seq<Operation>
    decreases |emits|
  {
    if |emits| == 0 then mirror
    else
      var m := if Receives(me, sender, emits[0].to) then Receive(mirror, emits[0].msg) else mirror;
      ReceiveAll(m, me, sender, emits[1..])
  }

  /** Whether `inp` is the `disconnect` of socket `me`. */
  predicate Leaves(me: string, inp: Input) {
    inp.sid == me && inp.ev.Disconnect?
  }

  /** The copy held by socket `me` after the server has handled `inputs`. Once
      `me` has disconnected, socket.io delivers nothing more to it, so the copy
      stays as it was (a reconnecting client is a new socket with a new id). */
  function Follow(mirror: seq<Operation>, me: string, s: State, inputs: seq<Input>): seq<Operation>
    decreases |inputs|
  {
    if |inputs| == 0 || Leaves(me, inputs[0]) then mirror
    else
      var r := Step(s, inputs[0].sid, inputs[0].ev, inputs[0].clock);
      Follow(ReceiveAll(mirror, me, inputs[0].sid, r.emits), me, r.next, inputs[1..])
  }

  /** Whether `me` stays connected throughout `inputs`. */
  ghost predicate StaysConnected(me: string, inputs: seq<Input>) {
    forall k :: 0 <= k < |inputs| ==> !Leaves(me, inputs[k])
  }

  /** After its own `disconnect` a client's copy no longer changes, whatever
      the other sockets do. */
  lemma FollowStopsAtDisconnect(mirror: seq<Operation>, me: string, s: State, clock: Clock, inputs: seq<Input>)
    ensures Follow(mirror, me, s, [Input(me, Disconnect, clock)] + inputs) == mirror
  {
  }

  // ---------------------------------------------------------------------------
  // The copy as a selection of the log

  /** The entries of `h` whose `keep` flag is set, in order. */
  function Select(h: seq<Operation>, keep: seq<bool>): seq<Operation>
    requires |keep| == |h|
  {
    if |h| == 0 then []
    else Select(h[..|h| - 1], keep[..|h| - 1]) + (if keep[|h| - 1] then [h[|h| - 1]] else [])
  }

  /** The copy is the log with some entries left out, never an active one: it
      lacks only strokes that were already undone when the client joined. */
  ghost predicate Tracks(h: seq<Operation>, mirror: seq<Operation>, keep: seq<bool>) {
    && |keep| == |h|
    && mirror == Select(h, keep)
    && forall i :: 0 <= i < |h| && h[i].isActive ==> keep[i]
  }

  function ActiveFlags(h: seq<Operation>): (r: seq<bool>)
    ensures |r| == |h|
    ensures forall i :: 0 <= i < |h| ==> r[i] == h[i].isActive
  {
    if |h| == 0 then [] else ActiveFlags(h[..|h| - 1]) + [h[|h| - 1].isActive]
  }

  lemma {:induction false} SelectActiveFlags(h: seq<Operation>)
    ensures Select(h, ActiveFlags(h)) == ActiveOps(h)
  {
    if |h| > 0 {
      var h0 := h[..|h| - 1];
      SelectActiveFlags(h0);
      assert ActiveFlags(h)[..|h| - 1] == ActiveFlags(h0);
    }
  }

  /** Every element of a selection comes from a position of the log. */
  lemma {:induction false} SelectFrom(h: seq<Operation>, keep: seq<bool>)
    requires |keep| == |h|
    ensures forall x :: x in Select(h, keep) ==> exists j :: 0 <= j < |h| && h[j] == x
  {
    if |h| > 0 {
      var h0 := h[..|h| - 1];
      SelectFrom(h0, keep[..|h| - 1]);
      forall x | x in Select(h, keep)
        ensures exists j :: 0 <= j < |h| && h[j] == x
      {
        if x in Select(h0, keep[..|h| - 1]) {
          var j :| 0 <= j < |h0| && h0[j] == x;
          assert h[j] == x;
        } else {
          assert h[|h| - 1] == x;
        }
      }
    }
  }

  /** Every kept entry is in the selection. */
  lemma {:induction false} SelectHasKept(h: seq<Operation>, keep: seq<bool>, i: int)
    requires |keep| == |h|
    requires 0 <= i < |h| && keep[i]
    ensures h[i] in Select(h, keep)
  {
    var h0 := h[..|h| - 1];
    if i < |h| - 1 {
      SelectHasKept(h0, keep[..|h| - 1], i);
      assert h0[i] == h[i];
    }
  }

  /** A selection that keeps every active entry has the same canvas as the log. */
  lemma {:induction false} SelectKeepsCanvas(h: seq<Operation>, keep: seq<bool>)
    requires |keep| == |h|
    requires forall i :: 0 <= i < |h| && h[i].isActive ==> keep[i]
    ensures ActiveOps(Select(h, keep)) == ActiveOps(h)
  {
    if |h| > 0 {
      var n := |h|;
      var h0 := h[..n - 1];
      var k0 := keep[..n - 1];
      SelectKeepsCanvas(h0, k0);
      var s0 := Select(h0, k0);
      if keep[n - 1] {
        assert Select(h, keep) == s0 + [h[n - 1]];
        assert (s0 + [h[n - 1]])[..|s0|] == s0;
      } else {
        assert Select(h, keep) == s0;
      }
    }
  }

  /** Appending the same operation to the log and the copy keeps the copy a
      selection. */
  lemma SelectAppend(h: seq<Operation>, keep: seq<bool>, op: Operation)
    requires |keep| == |h|
    ensures Select(h + [op], keep + [true]) == Select(h, keep) + [op]
  {
  }

  /** No entry selected from a log holds an id that no entry of the log holds. */
  lemma SelectLacksAbsentId(h: seq<Operation>, keep: seq<bool>, id: OpId)
    requires |keep| == |h|
    requires forall j :: 0 <= j < |h| ==> h[j].id != id
    ensures FindIndex(Select(h, keep), id).None?
  {
    var m := Select(h, keep);
    SelectFrom(h, keep);
    forall p | 0 <= p < |m|
      ensures m[p].id != id
    {
      assert m[p] in m;
      var j :| 0 <= j < |h| && h[j] == m[p];
    }
  }

  /** Clearing the flag of the log's last entry, when kept and its id is unique,
      has the same effect on the log and on the copy. */
  lemma SelectUndoLast(h: seq<Operation>, keep: seq<bool>)
    requires |keep| == |h| && |h| > 0 && keep[|h| - 1]
    requires forall j :: 0 <= j < |h| - 1 ==> h[j].id != h[|h| - 1].id
    ensures var i := |h| - 1;
      ClearFirst(Select(h, keep), h[i].id) == Select(h[i := Deactivated(h[i])], keep)
  {
    var n := |h|;
    var i := n - 1;
    var id := h[i].id;
    var h0 := h[..n - 1];
    var k0 := keep[..n - 1];
    var s0 := Select(h0, k0);
    var d := h[i := Deactivated(h[i])];
    SelectLacksAbsentId(h0, k0, id);
    assert FindIndex([h[i]], id) == Some(0);
    FindIndexPastPrefix(s0, [h[i]], id);
    assert Select(h, keep) == s0 + [h[i]];
    assert d[..n - 1] == h0;
    assert Select(d, keep) == s0 + [d[n - 1]];
  }

  /** The inductive step of `SelectUndo` for an entry before the last: the
      entries after it do not disturb the search for its id. */
  lemma SelectUndoBeforeLast(h: seq<Operation>, keep: seq<bool>, i: int)
    requires |keep| == |h|
    requires 0 <= i < |h| - 1 && keep[i]
    requires var n := |h|;
      ClearFirst(Select(h[..n - 1], keep[..n - 1]), h[i].id)
        == Select(h[..n - 1][i := Deactivated(h[i])], keep[..n - 1])
    ensures ClearFirst(Select(h, keep), h[i].id) == Select(h[i := Deactivated(h[i])], keep)
  {
    var n := |h|;
    var id := h[i].id;
    var h0 := h[..n - 1];
    var k0 := keep[..n - 1];
    var s0 := Select(h0, k0);
    var d := h[i := Deactivated(h[i])];
    var tail := if keep[n - 1] then [h[n - 1]] else [];
    assert Select(h, keep) == s0 + tail;
    SelectHasKept(h0, k0, i);
    var p := FindIndex(s0, id);
    assert p.Some?;
    FindIndexInPrefix(s0, tail, id);
    assert d[..n - 1] == h0[i := Deactivated(h[i])];
    assert Select(d, keep) == Select(h0[i := Deactivated(h[i])], k0) + tail;
    assert (s0 + tail)[p.value := Deactivated(s0[p.value])] == s0[p.value := Deactivated(s0[p.value])] + tail;
  }

  /** Clearing the flag of a kept entry whose id no other entry holds has the same
      effect on the log and on the copy. */
  lemma {:induction false} SelectUndo(h: seq<Operation>, keep: seq<bool>, i: int)
    requires |keep| == |h|
    requires 0 <= i < |h| && keep[i]
    requires forall j :: 0 <= j < |h| && j != i ==> h[j].id != h[i].id
    ensures ClearFirst(Select(h, keep), h[i].id) == Select(h[i := Deactivated(h[i])], keep)
  {
    var n := |h|;
    if i == n - 1 {
      SelectUndoLast(h, keep);
    } else {
      var h0 := h[..n - 1];
      SelectUndo(h0, keep[..n - 1], i);
      assert h0[i] == h[i];
      SelectUndoBeforeLast(h, keep, i);
    }
  }

  /** One server step keeps the copy of a connected client a selection of the log
      that keeps every active entry. */
  lemma MirrorStep(s: State, inp: Input, me: string, mirror: seq<Operation>, keep: seq<bool>)
    returns (keep': seq<bool>)
    requires Valid(s)
    requires Tracks(s.history, mirror, keep)
    ensures var r := Step(s, inp.sid, inp.ev, inp.clock);
      Tracks(r.next.history, ReceiveAll(mirror, me, inp.sid, r.emits), keep')
  {
    var r := Step(s, inp.sid, inp.ev, inp.clock);
    var h := s.history;
    match inp.ev
    case Connect =>
      if me == inp.sid {
        keep' := ActiveFlags(h);
        SelectActiveFlags(h);
      } else {
        keep' := keep;
      }
    case PathStart(op) =>
      if r.threw {
        keep' := keep;
      } else {
        var full := r.next.history[|h|];
        assert r.next.history == h + [full];
        keep' := keep + [true];
        SelectAppend(h, keep, full);
      }
    case UndoRequest =>
      keep' := keep;
      var last := LastActive(h);
      if last.Some? {
        ValidIdsAreUnique(s);
        SelectUndo(h, keep, last.value);
      }
    case _ =>
      keep' := keep;
  }

  /** Once a client has joined, its copy stays a selection of the log that keeps
      every active entry, however the events of all sockets interleave. */
  lemma {:induction false} MirrorRun(s: State, inputs: seq<Input>, me: string, mirror: seq<Operation>, keep: seq<bool>)
    requires Valid(s)
    requires Tracks(s.history, mirror, keep)
    requires StaysConnected(me, inputs)
    ensures ActiveOps(Follow(mirror, me, s, inputs)) == GetCanvasState(Run(s, inputs))
    decreases |inputs|
  {
    if |inputs| == 0 {
      SelectKeepsCanvas(s.history, keep);
    } else {
      var inp := inputs[0];
      assert !Leaves(me, inputs[0]);
      assert forall k :: 0 <= k < |inputs[1..]| ==> inputs[1..][k] == inputs[k + 1];
      var r := Step(s, inp.sid, inp.ev, inp.clock);
      var keep' := MirrorStep(s, inp, me, mirror, keep);
      StepPreservesValid(s, inp.sid, inp.ev, inp.clock);
      MirrorRun(r.next, inputs[1..], me, ReceiveAll(mirror, me, inp.sid, r.emits), keep');
    }
  }

  /** The reconciliation contract: a client that has connected, whatever it held
      before, renders exactly the server's canvas — the same active strokes in
      the same order — after any interleaving of events from any sockets, for
      as long as it stays connected. */
  lemma MirrorConverges(s: State, me: string, clock: Clock, inputs: seq<Input>, mirror: seq<Operation>)
    requires Valid(s)
    requires StaysConnected(me, inputs)
    ensures var all := [Input(me, Connect, clock)] + inputs;
      ActiveOps(Follow(mirror, me, s, all)) == GetCanvasState(Run(s, all))
  {
    var all := [Input(me, Connect, clock)] + inputs;
    var c := GetCanvasState(s);
    assert all[1..] == inputs;
    assert !Leaves(me, all[0]);
    assert Step(s, me, Connect, clock) == Outcome(s, [Emit(ToSender, StateInit(c))], false);
    assert ReceiveAll(mirror, me, me, [Emit(ToSender, StateInit(c))]) == c;
    SelectActiveFlags(s.history);
    MirrorRun(s, inputs, me, c, ActiveFlags(s.history));
  }
}
