/** The server's authoritative drawing log (`GlobalDrawingState`): an
    append-only history of operation records with soft-delete undo, and the
    counter that numbers them. */
module DrawingState {
  import opened Values

  /** The id string `op-<counter>-<millis>`. Its counter part alone makes ids
      of one log distinct; the clock part is an opaque reading. */
  datatype OpId = OpId(counter: nat, millis: int)

  /** One stroke record. `kind` is the JavaScript field `type`, renamed because
      `type` is a Dafny keyword. `kind`, `tool`, `color`, `width` and `points`
      are whatever the client sent (or the defaults): the log never interprets
      them. */
  datatype Operation = Operation(
    id: OpId,
    userId: string,
    kind: Json,
    tool: Json,
    color: Json,
    width: Json,
    points: Json,
    isActive: bool,
    timestamp: int)

  /** The two `Date.now()` readings `createOperation` takes: one for the id
      string, one for the timestamp field. */
  datatype Clock = Clock(idMillis: int, stampMillis: int)

  datatype State = State(history: seq<Operation>, opCounter: nat)

  /** Counters in the log are positive, no larger than the counter, and strictly
      increase with position (entries are appended in creation order). */
  ghost predicate Valid(s: State) {
    && (forall i :: 0 <= i < |s.history| ==> 0 < s.history[i].id.counter <= s.opCounter)
    && (forall i, j :: 0 <= i < j < |s.history| ==> s.history[i].id.counter < s.history[j].id.counter)
  }

  /** No two positions of the log hold the same id. */
  ghost predicate UniqueIds(h: seq<Operation>) {
    forall i, j :: 0 <= i < j < |h| ==> h[i].id != h[j].id
  }

  lemma ValidIdsAreUnique(s: State)
    requires Valid(s)
    ensures UniqueIds(s.history)
  {
  }

  /** The constructor: empty history, counter at zero. */
  function Init(): (s: State)
    ensures Valid(s)
    ensures |s.history| == 0
  {
    State([], 0)
  }

  // ---------------------------------------------------------------------------
  // createOperation / addOperation

  /** What `createOperation` builds with counter value `n`: the server's id and
      author, active, and each style field falling back to its default when the
      client's value is missing or falsy. */
  ghost predicate BuiltFrom(op: Operation, n: nat, userId: string, kind: Json, pathData: Json, clock: Clock) {
    && op.id == OpId(n, clock.idMillis)
    && op.userId == userId
    && op.isActive
    && op.timestamp == clock.stampMillis
    && FallsBack(Some(kind), JStr("draw"), op.kind)
    && FallsBack(Property(pathData, "tool"), JStr("brush"), op.tool)
    && FallsBack(Property(pathData, "color"), JStr("#000000"), op.color)
    && FallsBack(Property(pathData, "width"), JNum(5.0), op.width)
    && FallsBack(Property(pathData, "points"), JArr([]), op.points)
  }

  /** The result of `createOperation`: the counter has been advanced even when
      reading a field of a null payload throws (`op` is `None` then). */
  datatype Creation = Creation(next: State, op: Option<Operation>)

  function CreateOperation(s: State, userId: string, kind: Json, pathData: Json, clock: Clock): (r: Creation)
    ensures r.next.history == s.history
    ensures r.next.opCounter == s.opCounter + 1
    ensures r.op.None? <==> pathData == JNull
    ensures r.op.Some? ==> BuiltFrom(r.op.value, r.next.opCounter, userId, kind, pathData, clock)
    ensures r.op.Some? ==> Truthy(r.op.value.tool) && Truthy(r.op.value.color) && Truthy(r.op.value.width)
  {
    var n := s.opCounter + 1;
    var next := s.(opCounter := n);
    if pathData == JNull then
      Creation(next, None)
    else
      Creation(next, Some(Operation(
        OpId(n, clock.idMillis),
        userId,
        OrElse(Some(kind), JStr("draw")),
        OrElse(Property(pathData, "tool"), JStr("brush")),
        OrElse(Property(pathData, "color"), JStr("#000000")),
        OrElse(Property(pathData, "width"), JNum(5.0)),
        OrElse(Property(pathData, "points"), JArr([])),
        true,
        clock.stampMillis)))
  }

  /** The client's own `id` and any `userId` it sends play no part in the record:
      removing them from the payload object changes nothing. */
  lemma CreateIgnoresClientIds(s: State, userId: string, kind: Json, m: map<string, Json>, clock: Clock)
    ensures CreateOperation(s, userId, kind, JObj(m), clock)
         == CreateOperation(s, userId, kind, JObj(m - {"id", "userId"}), clock)
  {
    var drop := {"id", "userId"};
    PropertyIgnoresOtherKeys(m, drop, "tool");
    PropertyIgnoresOtherKeys(m, drop, "color");
    PropertyIgnoresOtherKeys(m, drop, "width");
    PropertyIgnoresOtherKeys(m, drop, "points");
  }

  function AddOperation(s: State, op: Operation): (r: State)
    ensures |r.history| == |s.history| + 1
    ensures r.history[..|s.history|] == s.history
    ensures r.history[|s.history|] == op
    ensures r.opCounter == s.opCounter
  {
    s.(history := s.history + [op])
  }

  /** Creating then appending, as `path:start` does, keeps the log valid, and the
      new id differs from every id already in the log. */
  lemma CreateThenAddPreservesValid(s: State, userId: string, kind: Json, pathData: Json, clock: Clock)
    requires Valid(s)
    requires pathData != JNull
    ensures var c := CreateOperation(s, userId, kind, pathData, clock);
      && Valid(AddOperation(c.next, c.op.value))
      && (forall i :: 0 <= i < |s.history| ==> s.history[i].id != c.op.value.id)
  {
  }

  // ---------------------------------------------------------------------------
  // updateOperationPoints

  /** `Array.prototype.find` by id: the first index holding `id`. */
  function FindIndex(h: seq<Operation>, id: OpId): (r: Option<nat>)
    ensures r.None? <==> forall i :: 0 <= i < |h| ==> h[i].id != id
    ensures r.Some? ==> r.value < |h| && h[r.value].id == id
    ensures r.Some? ==> forall j :: 0 <= j < r.value ==> h[j].id != id
    decreases |h|
  {
    if |h| == 0 then None
    else if h[0].id == id then Some(0)
    else
      match FindIndex(h[1..], id)
      case None => None
      case Some(k) => Some(k + 1)
  }

  /** A hit in a prefix is the hit in the whole sequence. */
  lemma FindIndexInPrefix(a: seq<Operation>, b: seq<Operation>, id: OpId)
    requires FindIndex(a, id).Some?
    ensures FindIndex(a + b, id) == FindIndex(a, id)
  {
    var p := FindIndex(a, id).value;
    assert (a + b)[p].id == id;
    assert forall j :: 0 <= j < p ==> (a + b)[j] == a[j];
  }

  /** A miss in a prefix moves the search past it. */
  lemma {:induction false} FindIndexPastPrefix(a: seq<Operation>, b: seq<Operation>, id: OpId)
    requires FindIndex(a, id).None?
    requires FindIndex(b, id).Some?
    ensures FindIndex(a + b, id) == Some(|a| + FindIndex(b, id).value)
    decreases |a|
  {
    if |a| == 0 {
      assert a + b == b;
    } else {
      assert a[0].id != id;
      assert (a + b)[0] == a[0];
      assert (a + b)[1..] == a[1..] + b;
      FindIndexPastPrefix(a[1..], b, id);
    }
  }

  /** Whether `i` is the first index of `h` holding `id`. */
  ghost predicate IsFirstWithId(h: seq<Operation>, id: OpId, i: int) {
    0 <= i < |h| && h[i].id == id && forall j :: 0 <= j < i ==> h[j].id != id
  }

  /** The result of `updateOperationPoints`: the updated record, or `None` for null. */
  datatype Update = Update(next: State, updated: Option<Operation>)

  function UpdateOperationPoints(s: State, id: OpId, finalPoints: Json): (r: Update)
    ensures r.updated.None? <==> forall i :: 0 <= i < |s.history| ==> s.history[i].id != id
    ensures r.updated.None? ==> r.next == s
    ensures r.next.opCounter == s.opCounter
    ensures |r.next.history| == |s.history|
    ensures forall i :: 0 <= i < |s.history| ==>
      r.next.history[i] == (if IsFirstWithId(s.history, id, i) then s.history[i].(points := finalPoints) else s.history[i])
    ensures r.updated.Some? ==>
      && r.updated.value.id == id
      && r.updated.value.points == finalPoints
      && r.updated.value in r.next.history
    ensures forall i :: IsFirstWithId(s.history, id, i) ==> r.updated == Some(r.next.history[i])
  {
    match FindIndex(s.history, id)
    case None => Update(s, None)
    case Some(i) =>
      var op := s.history[i].(points := finalPoints);
      Update(s.(history := s.history[i := op]), Some(op))
  }

  /** Recording the same final points twice is the same as recording them once,
      and the record found by id is then the updated one. */
  lemma UpdateIsIdempotent(s: State, id: OpId, finalPoints: Json)
    ensures var u := UpdateOperationPoints(s, id, finalPoints);
      UpdateOperationPoints(u.next, id, finalPoints) == u
  {
  }

  /** Updating points keeps the log valid: ids, flags and order are untouched. */
  lemma UpdatePreservesValid(s: State, id: OpId, finalPoints: Json)
    requires Valid(s)
    ensures Valid(UpdateOperationPoints(s, id, finalPoints).next)
  {
  }

  // ---------------------------------------------------------------------------
  // getCanvasState

  /** `history.filter(op => op.isActive)`. */
  function ActiveOps(h: seq<Operation>): (r: seq<Operation>)
    ensures |r| <= |h|
    ensures forall k :: 0 <= k < |r| ==> r[k].isActive
  {
    if |h| == 0 then []
    else ActiveOps(h[..|h| - 1]) + (if h[|h| - 1].isActive then [h[|h| - 1]] else [])
  }

  /** The canvas holds every active entry and nothing that is not in the log. */
  lemma {:induction false} ActiveOpsMembers(h: seq<Operation>)
    ensures forall x :: x in ActiveOps(h) ==> x in h && x.isActive
    ensures forall i :: 0 <= i < |h| && h[i].isActive ==> h[i] in ActiveOps(h)
  {
    if |h| > 0 {
      var h0 := h[..|h| - 1];
      ActiveOpsMembers(h0);
      assert forall x :: x in h0 ==> x in h;
      forall i | 0 <= i < |h| && h[i].isActive
        ensures h[i] in ActiveOps(h)
      {
        if i < |h| - 1 {
          assert h[i] == h0[i];
        }
      }
    }
  }

  /** The canvas a joining client is sent. */
  function GetCanvasState(s: State): seq<Operation> {
    ActiveOps(s.history)
  }

  /** The positions of the active entries, in increasing order: an independent
      description of which entries the canvas holds. */
  function ActivePositions(h: seq<Operation>): (r: seq<nat>)
    ensures forall k :: 0 <= k < |r| ==> r[k] < |h| && h[r[k]].isActive
    ensures forall k, l :: 0 <= k < l < |r| ==> r[k] < r[l]
    ensures forall i :: 0 <= i < |h| && h[i].isActive ==> i in r
  {
    if |h| == 0 then []
    else ActivePositions(h[..|h| - 1]) + (if h[|h| - 1].isActive then [|h| - 1] else [])
  }

  /** The canvas is exactly the active entries, in history order: its k-th
      element is the entry at the k-th active position. */
  lemma {:induction false} CanvasIsProjection(h: seq<Operation>)
    ensures |ActiveOps(h)| == |ActivePositions(h)|
    ensures forall k :: 0 <= k < |ActiveOps(h)| ==> ActiveOps(h)[k] == h[ActivePositions(h)[k]]
  {
    if |h| > 0 {
      var h0 := h[..|h| - 1];
      CanvasIsProjection(h0);
      var a0 := ActiveOps(h0);
      var p0 := ActivePositions(h0);
      var last := h[|h| - 1];
      assert ActiveOps(h) == a0 + (if last.isActive then [last] else []);
      assert ActivePositions(h) == p0 + (if last.isActive then [|h| - 1] else []);
      forall k | 0 <= k < |ActiveOps(h)|
        ensures ActiveOps(h)[k] == h[ActivePositions(h)[k]]
      {
        if k < |a0| {
          assert ActiveOps(h)[k] == a0[k] == h0[p0[k]];
          assert ActivePositions(h)[k] == p0[k];
        }
      }
    }
  }

  /** The canvas is empty exactly when no entry is active. */
  lemma CanvasEmptyIffNoneActive(h: seq<Operation>)
    ensures ActiveOps(h) == [] <==> NoneActive(h)
  {
  }

  /** Appending an entry extends the canvas by that entry exactly when it is active. */
  lemma CanvasAfterAdd(s: State, op: Operation)
    ensures GetCanvasState(AddOperation(s, op)) == GetCanvasState(s) + (if op.isActive then [op] else [])
  {
  }

  // ---------------------------------------------------------------------------
  // undoLastOperation

  ghost predicate NoneActive(h: seq<Operation>) {
    forall i :: 0 <= i < |h| ==> !h[i].isActive
  }

  /** `i` is the highest index holding an active entry. */
  ghost predicate IsLastActive(h: seq<Operation>, i: int) {
    0 <= i < |h| && h[i].isActive && forall j :: i < j < |h| ==> !h[j].isActive
  }

  /** The backwards scan of `undoLastOperation`. */
  function LastActive(h: seq<Operation>): (r: Option<nat>)
    ensures r.None? <==> NoneActive(h)
    ensures r.Some? ==> IsLastActive(h, r.value)
  {
    if |h| == 0 then None
    else if h[|h| - 1].isActive then Some(|h| - 1)
    else LastActive(h[..|h| - 1])
  }

  /** An entry with its flag cleared: the whole of what undo does to a record. */
  function Deactivated(op: Operation): Operation {
    op.(isActive := false)
  }

  /** The result of `undoLastOperation`: the undone id, or `None` for null. */
  datatype Undo = Undo(next: State, undone: Option<OpId>)

  function UndoLastOperation(s: State): (r: Undo)
    ensures r.undone.None? <==> NoneActive(s.history)
    ensures r.undone.None? ==> r.next == s
    ensures forall i :: IsLastActive(s.history, i) ==>
      && r.undone == Some(s.history[i].id)
      && r.next == s.(history := s.history[i := Deactivated(s.history[i])])
  {
    match LastActive(s.history)
    case None => Undo(s, None)
    case Some(i) => Undo(s.(history := s.history[i := Deactivated(s.history[i])]), Some(s.history[i].id))
  }

  /** Deactivating the last active entry removes exactly the last element of
      the canvas. */
  lemma {:induction false} DeactivateLastActivePops(h: seq<Operation>, i: int)
    requires IsLastActive(h, i)
    ensures ActiveOps(h) != []
    ensures ActiveOps(h)[|ActiveOps(h)| - 1] == h[i]
    ensures ActiveOps(h[i := Deactivated(h[i])]) == ActiveOps(h)[..|ActiveOps(h)| - 1]
  {
    var n := |h|;
    var h0 := h[..n - 1];
    var d := h[i := Deactivated(h[i])];
    if i == n - 1 {
      assert d[..n - 1] == h0;
      assert ActiveOps(d) == ActiveOps(h0);
      assert ActiveOps(h) == ActiveOps(h0) + [h[i]];
    } else {
      assert IsLastActive(h0, i);
      DeactivateLastActivePops(h0, i);
      assert d[..n - 1] == h0[i := Deactivated(h0[i])];
      assert ActiveOps(h) == ActiveOps(h0);
      assert ActiveOps(d) == ActiveOps(d[..n - 1]);
    }
  }

  /** Undo pops the canvas: it returns the id of the canvas's last element and
      leaves the rest of the canvas as it was, or returns `None` on an empty
      canvas. */
  lemma UndoPopsCanvas(s: State)
    ensures GetCanvasState(s) == [] ==> UndoLastOperation(s).undone.None?
    ensures GetCanvasState(s) != [] ==>
      UndoLastOperation(s).undone == Some(GetCanvasState(s)[|GetCanvasState(s)| - 1].id)
    ensures GetCanvasState(s) != [] ==>
      GetCanvasState(UndoLastOperation(s).next) == GetCanvasState(s)[..|GetCanvasState(s)| - 1]
  {
    CanvasEmptyIffNoneActive(s.history);
    match LastActive(s.history)
    case None =>
    case Some(i) =>
      DeactivateLastActivePops(s.history, i);
  }

  /** Undo changes no id, no position and no field but one `isActive` flag,
      which it clears, so it keeps the log valid. */
  lemma UndoPreservesValid(s: State)
    requires Valid(s)
    ensures Valid(UndoLastOperation(s).next)
    ensures Evolves(s.history, UndoLastOperation(s).next.history)
    ensures |UndoLastOperation(s).next.history| == |s.history|
  {
  }

  /** `k` undo requests in a row, with the id each returned. */
  datatype Undos = Undos(next: State, results: seq<Option<OpId>>)

  function UndoRepeatedly(s: State, k: nat): (r: Undos)
    ensures |r.results| == k
    decreases k
  {
    if k == 0 then Undos(s, [])
    else
      var u := UndoLastOperation(s);
      var rest := UndoRepeatedly(u.next, k - 1);
      Undos(rest.next, [u.undone] + rest.results)
  }

  /** One more undo in front of `k - 1` of them. */
  lemma UndoRepeatedlyUnfolds(s: State, k: nat)
    requires k > 0
    ensures UndoRepeatedly(s, k).next == UndoRepeatedly(UndoLastOperation(s).next, k - 1).next
    ensures UndoRepeatedly(s, k).results
         == [UndoLastOperation(s).undone] + UndoRepeatedly(UndoLastOperation(s).next, k - 1).results
  {
  }

  /** After `k` undos the canvas has lost exactly its last `k` elements. */
  lemma {:induction false} RepeatedUndoShrinksCanvas(s: State, k: nat)
    requires k <= |GetCanvasState(s)|
    ensures GetCanvasState(UndoRepeatedly(s, k).next) == GetCanvasState(s)[..|GetCanvasState(s)| - k]
    decreases k
  {
    var c := GetCanvasState(s);
    var n := |c|;
    if k == 0 {
      assert c[..n] == c;
    } else {
      var u := UndoLastOperation(s);
      UndoPopsCanvas(s);
      RepeatedUndoShrinksCanvas(u.next, k - 1);
      UndoRepeatedlyUnfolds(s, k);
      assert c[..n - 1][..(n - 1) - (k - 1)] == c[..n - k];
    }
  }

  /** The ids of `c`, newest first. */
  function NewestFirstIds(c: seq<Operation>): (r: seq<Option<OpId>>)
    ensures |r| == |c|
    ensures forall t :: 0 <= t < |c| ==> r[t] == Some(c[|c| - 1 - t].id)
  {
    if |c| == 0 then [] else [Some(c[|c| - 1].id)] + NewestFirstIds(c[..|c| - 1])
  }

  lemma NewestFirstIdsPrefix(c: seq<Operation>, k: nat)
    requires 0 < k <= |c|
    ensures NewestFirstIds(c)[..k] == [Some(c[|c| - 1].id)] + NewestFirstIds(c[..|c| - 1])[..k - 1]
  {
  }

  /** Repeated undo deactivates the canvas's entries newest first, one per call,
      whoever drew them (and by `UndoPopsCanvas`, once the canvas is empty the
      next undo returns `None`). */
  lemma {:induction false} RepeatedUndoReversesOrder(s: State, k: nat)
    requires k <= |GetCanvasState(s)|
    ensures UndoRepeatedly(s, k).results == NewestFirstIds(GetCanvasState(s))[..k]
    decreases k
  {
    if k > 0 {
      var c := GetCanvasState(s);
      var u := UndoLastOperation(s);
      UndoPopsCanvas(s);
      RepeatedUndoReversesOrder(u.next, k - 1);
      UndoRepeatedlyUnfolds(s, k);
      NewestFirstIdsPrefix(c, k);
    }
  }

  // ---------------------------------------------------------------------------
  // How the server may change the log

  /** `h'` keeps every entry of `h` in place, at most clearing its flag, and may
      append more: ids, authors, styles and points never change, order never
      changes, nothing is removed and nothing is reactivated. */
  ghost predicate Evolves(h: seq<Operation>, h': seq<Operation>) {
    && |h| <= |h'|
    && forall i :: 0 <= i < |h| ==> h'[i] == h[i] || h'[i] == Deactivated(h[i])
  }

  lemma EvolvesTransitive(h1: seq<Operation>, h2: seq<Operation>, h3: seq<Operation>)
    requires Evolves(h1, h2) && Evolves(h2, h3)
    ensures Evolves(h1, h3)
  {
  }
}
