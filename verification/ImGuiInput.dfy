/**
  updateInput: the edges of every mapped button, key and mouse button become ImGui events.
  The mapping tables are a parameter; ImGuiKeys has the ones in use.
 */
module ImGuiInput {
  import opened Input
  import opened ImGuiKeys

  datatype Tables = Tables(npad: seq<Mapping>, mouse: seq<Mapping>, keys: seq<Mapping>) {
    function Rows(): seq<Mapping> { npad + mouse + keys }
  }

  /** npad_mapping, mouse_mapping and key_mapping. */
  function Mappings(): Tables {
    Tables(NpadMapping(), MouseMapping(), KeyMapping())
  }

  datatype IoEvent = Level(target: Target, down: bool) | Wheel(x: int, y: int)

  function RowEvents(h: Helper, m: Mapping): seq<IoEvent> {
    if Press(h, m.channel) then [Level(m.target, true)]
    else if Release(h, m.channel) then [Level(m.target, false)]
    else []
  }

  function TableEvents(h: Helper, table: seq<Mapping>): seq<IoEvent> {
    if table == [] then []
    else TableEvents(h, table[..|table| - 1]) + RowEvents(h, table[|table| - 1])
  }

  function WheelEvents(h: Helper): seq<IoEvent> {
    if h.curMouse.wheelDeltaX > 0 || h.curMouse.wheelDeltaY > 0
    then [Wheel(h.curMouse.wheelDeltaX, h.curMouse.wheelDeltaY)]
    else []
  }

  function Forwarded(h: Helper, m: Tables): seq<IoEvent> {
    TableEvents(h, m.npad) + WheelEvents(h) + TableEvents(h, m.mouse) + TableEvents(h, m.keys)
  }

  /** Everything one call of updateInput sends. */
  function InputEvents(h: Helper, m: Tables): seq<IoEvent> {
    if h.toggle then Forwarded(h, m) else []
  }

  /** ImGuiKey_None is no key: ImGui ignores events for it. */
  predicate IsKey(t: Target) {
    t != KeyTarget(NoKey)
  }

  /** ImGui's own view: a key is as its latest event left it. */
  function DownAfter(events: seq<IoEvent>, t: Target, down: bool): bool {
    if events == [] then down
    else
      var last := events[|events| - 1];
      if last.Level? && last.target == t && IsKey(t) then last.down
      else DownAfter(events[..|events| - 1], t, down)
  }

  lemma {:induction false} DownAfterConcat(a: seq<IoEvent>, b: seq<IoEvent>, t: Target, down: bool)
    ensures DownAfter(a + b, t, down) == DownAfter(b, t, DownAfter(a, t, down))
  {
    if b == [] {
      assert a + b == a;
    } else {
      assert (a + b)[..|a + b| - 1] == a + b[..|b| - 1];
      DownAfterConcat(a, b[..|b| - 1], t, down);
    }
  }

  /** The level an edge announces, or the old level when there is no edge. */
  function Announced(h: Helper, c: Channel, down: bool): bool {
    if Press(h, c) then true else if Release(h, c) then false else down
  }

  /** Whatever is sent, ImGuiKey_None keeps its level. */
  lemma {:induction false} NoKeyNeverMoves(events: seq<IoEvent>, down: bool)
    ensures DownAfter(events, KeyTarget(NoKey), down) == down
  {
    if events != [] { NoKeyNeverMoves(events[..|events| - 1], down); }
  }

  lemma RowOutcome(h: Helper, m: Mapping, t: Target, down: bool)
    requires IsKey(t)
    ensures DownAfter(RowEvents(h, m), t, down) == if m.target == t then Announced(h, m.channel, down) else down
  {
    var e := RowEvents(h, m);
    if e != [] { assert DownAfter(e[..0], t, down) == down; }
  }

  /** One more row at the end of a table. */
  lemma LastRowOutcome(h: Helper, table: seq<Mapping>, t: Target, down: bool)
    requires table != [] && IsKey(t)
    ensures var n := |table| - 1; var before := DownAfter(TableEvents(h, table[..n]), t, down);
      DownAfter(TableEvents(h, table), t, down)
        == if table[n].target == t then Announced(h, table[n].channel, before) else before
  {
    var n := |table| - 1;
    RowOutcome(h, table[n], t, DownAfter(TableEvents(h, table[..n]), t, down));
    DownAfterConcat(TableEvents(h, table[..n]), RowEvents(h, table[n]), t, down);
  }

  ghost predicate Absent(table: seq<Mapping>, t: Target) {
    forall i | 0 <= i < |table| :: table[i].target != t
  }

  lemma {:induction false} AbsentTargetUntouched(h: Helper, table: seq<Mapping>, t: Target, down: bool)
    requires Absent(table, t) && IsKey(t)
    ensures DownAfter(TableEvents(h, table), t, down) == down
  {
    if table != [] {
      AbsentTargetUntouched(h, table[..|table| - 1], t, down);
      LastRowOutcome(h, table, t, down);
    }
  }

  /** The row is the only one with its target. */
  ghost predicate OnlyRow(table: seq<Mapping>, row: nat) {
    row < |table| && forall i | 0 <= i < |table| && i != row :: table[i].target != table[row].target
  }

  lemma OnlyRowEarlier(table: seq<Mapping>, row: nat)
    requires OnlyRow(table, row) && row < |table| - 1
    ensures OnlyRow(table[..|table| - 1], row) && table[|table| - 1].target != table[row].target
  {
  }

  lemma OnlyRowLast(table: seq<Mapping>, row: nat)
    requires OnlyRow(table, row) && row == |table| - 1
    ensures Absent(table[..row], table[row].target)
  {
  }

  lemma {:induction false} OnlyRowDecides(h: Helper, table: seq<Mapping>, row: nat, t: Target, down: bool)
    requires OnlyRow(table, row) && table[row].target == t && IsKey(t)
    ensures DownAfter(TableEvents(h, table), t, down) == Announced(h, table[row].channel, down)
  {
    LastRowOutcome(h, table, t, down);
    if row < |table| - 1 {
      OnlyRowEarlier(table, row);
      OnlyRowDecides(h, table[..|table| - 1], row, t, down);
    } else {
      OnlyRowLast(table, row);
      AbsentTargetUntouched(h, table[..row], t, down);
    }
  }

  lemma {:induction false} TableEventsConcat(h: Helper, a: seq<Mapping>, b: seq<Mapping>)
    ensures TableEvents(h, a + b) == TableEvents(h, a) + TableEvents(h, b)
  {
    if b == [] {
      assert a + b == a;
    } else {
      var n := |b| - 1;
      assert (a + b)[..|a + b| - 1] == a + b[..n];
      TableEventsConcat(h, a, b[..n]);
    }
  }

  lemma WheelKeepsKeys(h: Helper, t: Target, down: bool)
    ensures DownAfter(WheelEvents(h), t, down) == down
  {
    var e := WheelEvents(h);
    if e != [] { assert DownAfter(e[..0], t, down) == down; }
  }

  /** The wheel event in the middle does not matter to keys: the rows act as one table. */
  lemma ForwardedOutcome(h: Helper, m: Tables, t: Target, down: bool)
    ensures DownAfter(Forwarded(h, m), t, down) == DownAfter(TableEvents(h, m.Rows()), t, down)
  {
    var a, w, b, c := TableEvents(h, m.npad), WheelEvents(h), TableEvents(h, m.mouse), TableEvents(h, m.keys);
    DownAfterConcat(a, w, t, down);
    DownAfterConcat(a + w, b, t, down);
    DownAfterConcat(a + w + b, c, t, down);
    WheelKeepsKeys(h, t, DownAfter(a, t, down));
    TableEventsConcat(h, m.npad, m.mouse);
    TableEventsConcat(h, m.npad + m.mouse, m.keys);
    DownAfterConcat(a, b, t, down);
    DownAfterConcat(a + b, c, t, down);
  }

  /** The target is a key, exactly one row of the tables is about it, and that row follows the channel. */
  ghost predicate Feeds(m: Tables, c: Channel, t: Target) {
    IsKey(t) && exists row: nat :: OnlyRow(m.Rows(), row) && m.Rows()[row] == Mapping(t, c)
  }

  /** One frame of input: a key with a row of its own is left at its announced level, or as it was. */
  lemma FrameOutcome(h: Helper, m: Tables, c: Channel, t: Target, down: bool)
    requires Feeds(m, c, t)
    ensures DownAfter(InputEvents(h, m), t, down) == if h.toggle then Announced(h, c, down) else down
  {
    if h.toggle {
      var row: nat :| OnlyRow(m.Rows(), row) && m.Rows()[row] == Mapping(t, c);
      ForwardedOutcome(h, m, t, down);
      OnlyRowDecides(h, m.Rows(), row, t, down);
    }
  }

  /** In the tables in use, every row that names a key is the only one to name it. */
  lemma EveryRowFeeds(row: nat)
    requires row < |Mappings().Rows()| && IsKey(Mappings().Rows()[row].target)
    ensures Feeds(Mappings(), Mappings().Rows()[row].channel, Mappings().Rows()[row].target)
  {
    TablesNumbered();
    NumberedRowsFeed(Mappings(), row);
  }

  lemma NumberedRowsFeed(m: Tables, row: nat)
    requires NumberedFrom(m.Rows(), 0) && row < |m.Rows()| && IsKey(m.Rows()[row].target)
    ensures Feeds(m, m.Rows()[row].channel, m.Rows()[row].target)
  {
    var rows := m.Rows();
    forall i | 0 <= i < |rows| && i != row ensures rows[i].target != rows[row].target {
      assert RowOf(rows[i].target) == i && RowOf(rows[row].target) == row;
    }
    assert OnlyRow(rows, row) && rows[row] == Mapping(rows[row].target, rows[row].channel);
  }

  // ---- Frames without an edge ----------------------------------------------------

  ghost predicate NoEdges(h: Helper) {
    forall c :: !Press(h, c) && !Release(h, c)
  }

  lemma {:induction false} NoEdgesNoTableEvents(h: Helper, table: seq<Mapping>)
    requires NoEdges(h)
    ensures TableEvents(h, table) == []
  {
    if table != [] {
      var last := table[|table| - 1];
      assert !Press(h, last.channel) && !Release(h, last.channel);
      NoEdgesNoTableEvents(h, table[..|table| - 1]);
    }
  }

  predicate OnlyWheel(events: seq<IoEvent>) {
    forall i | 0 <= i < |events| :: events[i].Wheel?
  }

  /** A frame in which no device shows an edge sends at most a wheel event. */
  lemma NoEdgesOnlyWheel(h: Helper, m: Tables)
    requires NoEdges(h)
    ensures OnlyWheel(InputEvents(h, m))
  {
    NoEdgesNoTableEvents(h, m.npad);
    NoEdgesNoTableEvents(h, m.mouse);
    NoEdgesNoTableEvents(h, m.keys);
  }

  lemma {:induction false} OnlyWheelKeepsKeys(events: seq<IoEvent>, t: Target, down: bool)
    requires OnlyWheel(events)
    ensures DownAfter(events, t, down) == down
  {
    if events != [] { OnlyWheelKeepsKeys(events[..|events| - 1], t, down); }
  }

  // ---- The code ---------------------------------------------------------------

  lemma Regroup(e: seq<IoEvent>, a: seq<IoEvent>, b: seq<IoEvent>, c: seq<IoEvent>, d: seq<IoEvent>)
    ensures e + a + b + c + d == e + (a + b + c + d)
  {
    assert e + a + b == e + (a + b);
    assert e + (a + b) + c == e + (a + b + c);
  }

  /** The part of ImGuiIO that receives input. */
  class ImGuiIO {
    var events: seq<IoEvent>
    var mouseX: int
    var mouseY: int

    constructor ()
      ensures events == []
    {
      events, mouseX, mouseY := [], 0, 0;
    }

    method AddEvent(e: IoEvent)
      modifies this`events
      ensures events == old(events) + [e]
    {
      events := events + [e];
    }

    /** One of the three mapping loops. */
    method ForwardTable(helper: InputHelper, table: seq<Mapping>)
      modifies this`events
      ensures events == old(events) + TableEvents(helper.State(), table)
    {
      ghost var h := helper.State();
      for i := 0 to |table|
        invariant events == old(events) + TableEvents(h, table[..i])
      {
        assert table[..i + 1][..i] == table[..i];
        if Press(helper.State(), table[i].channel) {
          AddEvent(Level(table[i].target, true));
        } else if Release(helper.State(), table[i].channel) {
          AddEvent(Level(table[i].target, false));
        }
      }
      assert table[..|table|] == table;
    }

    /** The mouse position and the wheel. */
    method ForwardPointer(helper: InputHelper)
      modifies this
      ensures events == old(events) + WheelEvents(helper.State())
      ensures mouseX == helper.curMouseState.x && mouseY == helper.curMouseState.y
    {
      mouseX, mouseY := helper.curMouseState.x, helper.curMouseState.y;
      var dx, dy := helper.curMouseState.wheelDeltaX, helper.curMouseState.wheelDeltaY;
      if dx > 0 || dy > 0 {
        AddEvent(Wheel(dx, dy));
      }
    }

    /** The three loops, with the mouse in between. */
    method Forward(helper: InputHelper, m: Tables)
      modifies this
      ensures events == old(events) + Forwarded(helper.State(), m)
      ensures mouseX == helper.curMouseState.x && mouseY == helper.curMouseState.y
    {
      ghost var h, e := helper.State(), events;
      ForwardTable(helper, m.npad);
      assert events == e + TableEvents(h, m.npad);
      ForwardPointer(helper);
      assert events == e + TableEvents(h, m.npad) + WheelEvents(h);
      ForwardTable(helper, m.mouse);
      assert events == e + TableEvents(h, m.npad) + WheelEvents(h) + TableEvents(h, m.mouse);
      ForwardTable(helper, m.keys);
      Regroup(e, TableEvents(h, m.npad), WheelEvents(h), TableEvents(h, m.mouse), TableEvents(h, m.keys));
    }

    method UpdateInput(helper: InputHelper)
      modifies this
      ensures events == old(events) + InputEvents(helper.State(), Mappings())
      ensures helper.toggleInput ==> mouseX == helper.curMouseState.x && mouseY == helper.curMouseState.y
      ensures !helper.toggleInput ==> unchanged(this)
    {
      if !helper.toggleInput {
        return;
      }
      Forward(helper, Mappings());
    }
  }
}
