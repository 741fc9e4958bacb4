# Collaborative canvas: the server's drawing log and its socket protocol

This project models the core of a real-time shared whiteboard server in Dafny:

- **`DrawingState`** is the authoritative drawing log (`GlobalDrawingState`). It is an
  append-only history of stroke records. Each record has a server-made id, its author,
  its style fields, its points and an `isActive` flag. A counter numbers the records.
  Undo is a soft delete: it clears the flag of the newest active record, whoever drew it.
  The canvas state is the list of active records in history order. `GetCanvasState` is
  a function of the log, so two reads with no step between them agree.
- **`Server`** models the handlers that each connection registers. They form one pure
  transition, `Step(log, socket id, event, clock)`. It returns the next log, the messages
  emitted, and whether the handler threw. Each message goes to the sender only
  (`socket.emit`), to every socket (`io.emit`), or to every socket but the sender
  (`socket.broadcast.emit`).
- **`ClientMirror`** models the client's copy of the log and its four message handlers.
  Its main theorem (`MirrorConverges`) covers a client that has connected, under any
  interleaving of events from any sockets, for as long as it stays connected. After
  those events, the active records the client holds are exactly the server's canvas:
  the same strokes in the same order. After its own `disconnect` the client receives
  nothing more, and its copy stays as it was (`FollowStopsAtDisconnect`).
- **`Values`** holds payloads as parsed JSON and JavaScript truthiness. The server reads
  payload fields with `obj.key` and `x || default`, and these definitions give those
  reads their meaning.

Design decisions that follow the code:

- The server registers no `path:end` handler. The client sends `path:end`, and socket.io
  drops it (`Event.PathEnd` is a no-op). `updateOperationPoints` is modelled, but no step
  calls it, so points never change after a stroke starts (see `Evolves`). A stroke from
  the client carries only its first point at `path:start` (client/main.js:175-182), and
  the client draws nothing for a record with fewer than two points (client/canvas.js:46).
  So a full redraw shows none of the committed strokes, and the mirror theorem is about
  the records the client holds, not about what is on screen.
- The `state:operation` broadcast happens at `path:start`. It carries the points the
  client sent, usually just the origin.
- The client's own `id` in `path:start` is ignored (`CreateIgnoresClientIds`). The
  author is always the socket id.
- The client listens for a `user:update` roster (client/main.js:249-259), but no server
  handler sends one and the server keeps no session registry, so neither is modelled.
- The id string `op-<counter>-<Date.now()>` is modelled as `OpId(counter, millis)`. The
  string form is injective on such pairs when millis is non-negative, so id equality
  agrees. Uniqueness comes from the counter alone (`Valid`, `ValidIdsAreUnique`), modelled as unbounded (see "Left out").
- `createOperation` runs `++this.opCounter` before it reads any payload field. So a
  `path:start` with a null or missing payload advances the counter, appends nothing,
  emits nothing, and throws (`Outcome.threw`).
- The cursor relay `{ userId, ...pos }` lets a payload field named `userId` override the
  sender's id. `CursorFields` states this.

## Model

| member | source | states |
|---|---|---|
| Values.OrElse | server/drawing-state.js:20-24 | `a \|\| d` gives the read value when it is truthy, else the default; a truthy default gives a truthy result |
| Values.PropertyIgnoresOtherKeys | server/drawing-state.js:21-24 | a field read depends on that key alone: removing any other keys from a payload object leaves every read of that key unchanged |
| DrawingState.Init | server/drawing-state.js:4-8 | a new log is empty and satisfies the id invariant |
| DrawingState.ValidIdsAreUnique | server/drawing-state.js:7-16 | in a valid log, no two positions hold the same id |
| DrawingState.CreateOperation | server/drawing-state.js:14-28 | the counter grows by exactly one and the history is untouched; the record is active, carries the given author and the id made from the new counter, and falls back to `'draw'`, `'brush'`, `'#000000'`, 5 and `[]` for missing or falsy fields (a field read is `Property`: an own key of an object, `undefined` otherwise); reading a field of a null payload throws after the counter has advanced |
| DrawingState.CreateIgnoresClientIds | server/drawing-state.js:14-28 | the payload's own `id` and `userId` keys do not affect the record that is built |
| DrawingState.AddOperation | server/drawing-state.js:33-35 | exactly one entry is appended at the end; every earlier entry keeps its position and value; the counter is unchanged |
| DrawingState.CreateThenAddPreservesValid | server/drawing-state.js:14-35 | creating and then appending keeps ids unique and increasing; the new id differs from every id already in the log |
| DrawingState.FindIndex | server/drawing-state.js:42 | `find` by id returns the first index holding the id, or nothing exactly when no entry holds it |
| DrawingState.UpdateOperationPoints | server/drawing-state.js:41-48 | on a present id, only the first matching entry's points are replaced, and that entry is returned; its id, flag, position, the other entries and the length are unchanged; the entry returned is the updated entry at that first matching position; on an absent id it returns null and changes nothing |
| DrawingState.UpdateIsIdempotent | server/drawing-state.js:41-48 | recording the same final points twice has the same effect and result as recording them once |
| DrawingState.UpdatePreservesValid | server/drawing-state.js:41-48 | replacing points keeps the id invariant |
| DrawingState.ActiveOps | server/drawing-state.js:53-56 | `GetCanvasState` is `ActiveOps` of the history: the canvas is no longer than the history, and every entry in it is active |
| DrawingState.ActiveOpsMembers | server/drawing-state.js:53-56 | the canvas holds every active entry of the history and nothing that is not in the history |
| DrawingState.ActivePositions | server/drawing-state.js:53-56 | the positions of the active entries, strictly increasing, are exactly those positions |
| DrawingState.CanvasIsProjection | server/drawing-state.js:53-56 | the k-th canvas element is the entry at the k-th active position, so the canvas keeps history order |
| DrawingState.CanvasEmptyIffNoneActive | server/drawing-state.js:53-56 | the canvas is empty exactly when no entry is active |
| DrawingState.CanvasAfterAdd | server/drawing-state.js:33-56 | appending an entry extends the canvas by that entry exactly when the entry is active |
| DrawingState.LastActive | server/drawing-state.js:63-69 | the backward scan finds the highest-index active entry, or nothing exactly when no entry is active |
| DrawingState.UndoLastOperation | server/drawing-state.js:61-70 | the highest-index active entry, of any author, has its flag cleared and its id is returned; all else is unchanged; null is returned exactly when nothing is active, and then nothing changes |
| DrawingState.DeactivateLastActivePops | server/drawing-state.js:61-67 | clearing the last active entry removes exactly the last element of the canvas |
| DrawingState.UndoPopsCanvas | server/drawing-state.js:61-70 | undo returns the id of the canvas's last element and leaves the rest of the canvas as it was; on an empty canvas it returns null |
| DrawingState.UndoPreservesValid | server/drawing-state.js:61-70 | undo keeps the id invariant and the length, and only clears one flag |
| DrawingState.RepeatedUndoShrinksCanvas | server/drawing-state.js:61-70 | after k undos the canvas has lost exactly its last k elements |
| DrawingState.RepeatedUndoReversesOrder | server/drawing-state.js:61-70 | k undos in a row return the ids of the canvas's k newest elements, newest first: reverse insertion order, one per call (`NewestFirstIds` lists the t-th newest id at index t) |
| Server.CursorFields | server/server.js:50-52 | the relayed cursor record has the payload's keys plus `userId`; payload values are copied unchanged; `userId` is the sender's id unless the payload sets its own |
| Server.Step | server/server.js:17-58 | connection sends `state:init` with the canvas to the new socket alone and leaves the log unchanged. `path:start` advances the counter and appends one active record authored by the socket, then sends it as `state:operation` to all sockets, sender included; a null payload throws and appends nothing. `path:continue` relays its payload unchanged to the others. `undo:request` sends `state:undo` to all exactly when something was undone. `cursor:move` relays to the others. `disconnect` and `path:end` do nothing |
| Server.StepPreservesValid | server/server.js:25-47 | every handler keeps the id invariant; it only appends entries or clears flags, never reorders, removes or reactivates; the counter never decreases |
| Server.PathStartAuthorIsSender | server/server.js:19-32 | a committed stroke's author is the sending socket, whatever the payload says; it is active and its id is new to the log |
| Server.UndoIgnoresRequester | server/server.js:41-47 | an undo's outcome does not depend on which socket sent it |
| Server.UndoCrossesAuthors | server/server.js:41-47 | any socket's undo deactivates the newest active stroke, whoever drew it, and broadcasts that stroke's id |
| Server.ScenarioStrokeStarts | server/server.js:25-32 | a concrete run. A stroke started at the origin by socket "s1" is committed and sent to everyone with the first id, the default style and only its origin point. Its `path:end` with two points changes nothing |
| Server.ScenarioForeignUndoThenLateJoin | server/server.js:22-47 | continuing the run, an undo from socket "s2" deactivates that stroke and sends its id to everyone. A socket joining afterwards receives an empty canvas |
| Server.RunPreservesValid | server/server.js:17-58 | any run of events keeps the log valid, and only appends entries or clears flags |
| Server.AnnouncedIdsAreFresh | server/server.js:25-32 | ids broadcast with `state:operation` over a run strictly increase, and all lie above the counter the run started from and at most the counter it ends with |
| Server.AnnouncedIdsAreNew | server/server.js:25-32 | no id broadcast with `state:operation` during a run from a valid log names a record already in that log |
| ClientMirror.Receive | client/main.js:220-243 | `state:init` replaces the copy; `state:operation` appends to it; `state:undo` clears the flag of only the first entry with that id; `path:continue` and `cursor:update` leave the copy unchanged |
| ClientMirror.SelectUndo | client/main.js:239-243 | clearing a uniquely identified kept entry has the same effect on the log and on a copy that selects from it |
| ClientMirror.MirrorStep | client/main.js:220-243 | after any server step, a copy that leaves out only inactive entries still leaves out only inactive entries |
| ClientMirror.FollowStopsAtDisconnect | client/main.js:220-243 | after the client's own `disconnect` its copy no longer changes, whatever other sockets do |
| ClientMirror.MirrorRun | client/main.js:220-243 | such a copy, followed through any run in which the client stays connected, has exactly the server's canvas as its active entries |
| ClientMirror.MirrorConverges | client/main.js:220-243 | once a client has connected, whatever it held before, its active entries equal the server's canvas after any interleaving of events during which it stays connected |

## Left out

- Express static serving, the `http` server, socket.io transport, `listen` and `PORT`, and console logging (server/server.js:1-14, 60-61). These are I/O plumbing. Delivery to a connected socket is modelled as lossless and in emit order; a socket that has disconnected receives nothing.
- `Date.now()`: both readings `createOperation` takes are the `Clock` parameter of `Step`. They are opaque and play no part in uniqueness or ordering.
- Concurrency: Node runs one handler at a time to completion, so a run is modelled as a sequence of `Input`s. Any interleaving of sockets is one such sequence.
- After a handler throws, Node may end the process. A run in this model keeps stepping from the state `Outcome.threw` leaves, which over-approximates: if the process ends, the later steps never happen, and every property of a run holds for its prefix up to the throw.
- JavaScript numbers are modelled as reals. A JSON number parses to a double, and can be negative zero (`-0`), which the model does not separate from 0. The server tests numbers with `||`, stores them in the log, and sends them on in `state:init`, `state:operation`, `path:continue` and `cursor:update`.
- Server.Step and ClientMirror.MirrorConverges: `Json` cannot hold a non-finite number. A payload literal such as `1e400` parses to an infinity, which the server keeps in its log, while socket.io serializes it with `JSON.stringify` and clients receive `null`. For such payloads the real relays are not unchanged and client copies differ from the server log in that field; the model does not cover them.
- DrawingState.ValidIdsAreUnique: the counter is an unbounded `nat`. In JavaScript `++this.opCounter` stops changing the number once it reaches 2^53, after which ids would repeat. Reaching that needs 2^53 strokes, so the model ignores it.
- ClientMirror.MirrorRun and ClientMirror.MirrorConverges assume lossless delivery. socket.io by default delivers each message at most once, so a message lost in transit, for example during a transport reconnect that keeps the socket id, would leave the real copy stale. The theorems do not cover that.
- Property reads cover a payload's own keys. Inherited object properties are not modelled; none of the keys the server reads (`tool`, `color`, `width`, `points`) is one.
- Server.CursorFields: a `cursor:move` payload that is not an object is not modelled. Spreading a string or an array would add index keys; this model takes the payload as a key-value map.
- server/index.js, an earlier draft server with a different event set, is not part of this model.
- client/canvas.js and client/cursor-manager.js are rendering code. The client side's UI wiring, pointer math and timer-based `throttle` (client/main.js:1-215) are also left out. The mirror renders the active entries of its copy in order (client/canvas.js:33-41); that is `ActiveOps` of the copy.
- Redo, a session registry and a per-stroke temporary-id map are not in the code, so they are not modelled.
