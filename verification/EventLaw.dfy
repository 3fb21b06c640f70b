/**
  What one frame of input sends, said without the mapping loops: which events there are,
  by the names of flags and keys, and in which order they come.
 */
module EventLaw {
  import opened Input
  import opened ImGuiInput
  import opened ImGuiKeys
  import opened KeyMeaning

  /** The flag has just gone down, or up. */
  predicate Edge(h: Helper, c: Channel, down: bool) {
    if down then Press(h, c) else Release(h, c)
  }

  // ---- Which events -----------------------------------------------------------

  ghost predicate HasEdgeRow(h: Helper, table: seq<Mapping>, t: Target, down: bool) {
    exists i | 0 <= i < |table| :: table[i].target == t && Edge(h, table[i].channel, down)
  }

  lemma HasEdgeRowConcat(h: Helper, a: seq<Mapping>, b: seq<Mapping>, t: Target, down: bool)
    ensures HasEdgeRow(h, a + b, t, down) <==> HasEdgeRow(h, a, t, down) || HasEdgeRow(h, b, t, down)
  {
    var all := a + b;
    if i :| 0 <= i < |all| && all[i].target == t && Edge(h, all[i].channel, down) {
      assert if i < |a| then all[i] == a[i] else all[i] == b[i - |a|];
    }
    if i :| 0 <= i < |a| && a[i].target == t && Edge(h, a[i].channel, down) {
      assert all[i] == a[i];
    }
    if i :| 0 <= i < |b| && b[i].target == t && Edge(h, b[i].channel, down) {
      assert all[|a| + i] == b[i];
    }
  }

  /** A mapping loop sends an event exactly for a row whose flag shows that edge. */
  lemma {:induction false} TableSendsIff(h: Helper, table: seq<Mapping>, t: Target, down: bool)
    ensures Level(t, down) in TableEvents(h, table) <==> HasEdgeRow(h, table, t, down)
  {
    if table != [] {
      var n := |table| - 1;
      TableSendsIff(h, table[..n], t, down);
      HasEdgeRowConcat(h, table[..n], [table[n]], t, down);
      assert table == table[..n] + [table[n]];
      assert HasEdgeRow(h, [table[n]], t, down) <==> table[n].target == t && Edge(h, table[n].channel, down);
    }
  }

  lemma ForwardsIff(h: Helper, m: Tables, t: Target, down: bool)
    ensures Level(t, down) in Forwarded(h, m) <==> HasEdgeRow(h, m.Rows(), t, down)
  {
    TableSendsIff(h, m.npad, t, down);
    TableSendsIff(h, m.mouse, t, down);
    TableSendsIff(h, m.keys, t, down);
    HasEdgeRowConcat(h, m.npad, m.mouse, t, down);
    HasEdgeRowConcat(h, m.npad + m.mouse, m.keys, t, down);
  }

  /** Tables that say what the names say: every row, and a row for every name. */
  ghost predicate SaysTheNames(m: Tables) {
    && Agrees(m.Rows())
    && forall t | Named(t) :: exists i | 0 <= i < |m.Rows()| :: m.Rows()[i].target == t
  }

  lemma RowsAreTheNames(h: Helper, m: Tables, t: Target, down: bool)
    requires SaysTheNames(m)
    ensures HasEdgeRow(h, m.Rows(), t, down) <==> Named(t) && Edge(h, FlagOf(t), down)
  {
  }

  /** The tables in use do. */
  lemma TablesSayTheNames()
    ensures SaysTheNames(Mappings())
  {
    TablesAgree();
    TablesNumbered();
    NumberedRowsName(Mappings());
  }

  lemma NumberedRowsName(m: Tables)
    requires NumberedFrom(m.Rows(), 0) && |m.Rows()| == 127 && Agrees(m.Rows())
    ensures SaysTheNames(m)
  {
    var rows := m.Rows();
    forall t | Named(t) ensures exists i | 0 <= i < |rows| :: rows[i].target == t {
      RowOfInRange(t);
      var i := RowOf(t);
      assert RowOf(rows[i].target) == i;
      RowOfInjective(rows[i].target, t);
    }
  }

  lemma RowOfInRange(t: Target)
    requires Named(t)
    ensures 0 <= RowOf(t) < 127
  {
  }

  // ---- In which order ---------------------------------------------------------

  /** The place of an event in a frame: rows in the order of the tables, the wheel behind the 18 pad rows. */
  function Place(e: IoEvent): int {
    match e
    case Level(t, _) => 2 * RowOf(t) + 1
    case Wheel(_, _) => 36
  }

  ghost predicate InOrder(events: seq<IoEvent>, from: int, to: int) {
    && (forall i | 0 <= i < |events| :: from <= Place(events[i]) < to)
    && (forall i, j | 0 <= i < j < |events| :: Place(events[i]) < Place(events[j]))
  }

  lemma InOrderConcat(a: seq<IoEvent>, b: seq<IoEvent>, from: int, mid: int, to: int)
    requires InOrder(a, from, mid) && InOrder(b, mid, to) && from <= mid <= to
    ensures InOrder(a + b, from, to)
  {
  }

  lemma {:induction false} TableInOrder(h: Helper, table: seq<Mapping>, first: nat)
    requires NumberedFrom(table, first)
    ensures InOrder(TableEvents(h, table), 2 * first + 1, 2 * (first + |table|))
  {
    if table != [] {
      var n := |table| - 1;
      TableInOrder(h, table[..n], first);
      assert RowOf(table[n].target) == first + n;
      InOrderConcat(TableEvents(h, table[..n]), RowEvents(h, table[n]),
                    2 * first + 1, 2 * (first + n) + 1, 2 * (first + |table|));
    }
  }

  lemma ForwardedInOrder(h: Helper, m: Tables)
    requires NumberedFrom(m.npad, 0) && |m.npad| == 18
    requires NumberedFrom(m.mouse, 18) && |m.mouse| == 3
    requires NumberedFrom(m.keys, 21)
    ensures InOrder(Forwarded(h, m), 1, 42 + 2 * |m.keys|)
  {
    var a, w, b, c := TableEvents(h, m.npad), WheelEvents(h), TableEvents(h, m.mouse), TableEvents(h, m.keys);
    TableInOrder(h, m.npad, 0);
    TableInOrder(h, m.mouse, 18);
    TableInOrder(h, m.keys, 21);
    InOrderConcat(a, w, 1, 36, 37);
    InOrderConcat(a + w, b, 1, 37, 42);
    InOrderConcat(a + w + b, c, 1, 42, 42 + 2 * |m.keys|);
  }

  lemma TablesInParts()
    ensures var m := Mappings();
      && NumberedFrom(m.npad, 0) && |m.npad| == 18
      && NumberedFrom(m.mouse, 18) && |m.mouse| == 3
      && NumberedFrom(m.keys, 21) && |m.keys| == 106
  {
    NpadMappingNumbered();
    MouseMappingNumbered();
    KeyMappingNumbered();
  }

  // ---- The law ------------------------------------------------------------------

  predicate StrictlyPlaced(events: seq<IoEvent>) {
    forall i, j | 0 <= i < j < |events| :: Place(events[i]) < Place(events[j])
  }

  /**
    One frame of input, whole. While toggled on: a level event for exactly the named keys
    and buttons whose own flag has an edge, and the wheel's deltas if one is positive; nothing
    else, nothing twice, and in the order of the tables.
   */
  lemma FrameSends(h: Helper)
    ensures forall t, down :: Level(t, down) in InputEvents(h, Mappings()) <==>
      h.toggle && Named(t) && Edge(h, FlagOf(t), down)
    ensures forall x, y :: Wheel(x, y) in InputEvents(h, Mappings()) <==>
      && h.toggle && x == h.curMouse.wheelDeltaX && y == h.curMouse.wheelDeltaY && (x > 0 || y > 0)
    ensures StrictlyPlaced(InputEvents(h, Mappings()))
  {
    TablesSayTheNames();
    TablesInParts();
    FrameSendsWith(h, Mappings());
  }

  lemma FrameSendsWith(h: Helper, m: Tables)
    requires SaysTheNames(m)
    requires NumberedFrom(m.npad, 0) && |m.npad| == 18
    requires NumberedFrom(m.mouse, 18) && |m.mouse| == 3
    requires NumberedFrom(m.keys, 21)
    ensures forall t, down :: Level(t, down) in InputEvents(h, m) <==>
      h.toggle && Named(t) && Edge(h, FlagOf(t), down)
    ensures forall x, y :: Wheel(x, y) in InputEvents(h, m) <==>
      && h.toggle && x == h.curMouse.wheelDeltaX && y == h.curMouse.wheelDeltaY && (x > 0 || y > 0)
    ensures StrictlyPlaced(InputEvents(h, m))
  {
    forall t, down
      ensures Level(t, down) in InputEvents(h, m) <==> h.toggle && Named(t) && Edge(h, FlagOf(t), down)
    {
      ForwardsIff(h, m, t, down);
      RowsAreTheNames(h, m, t, down);
    }
    forall x, y
      ensures Wheel(x, y) in InputEvents(h, m) <==>
        && h.toggle && x == h.curMouse.wheelDeltaX && y == h.curMouse.wheelDeltaY && (x > 0 || y > 0)
    {
      WheelSentIff(h, m, x, y);
    }
    ForwardedInOrder(h, m);
  }

  lemma {:induction false} TableSendsLevels(h: Helper, table: seq<Mapping>, x: int, y: int)
    ensures Wheel(x, y) !in TableEvents(h, table)
  {
    if table != [] { TableSendsLevels(h, table[..|table| - 1], x, y); }
  }

  lemma WheelSentIff(h: Helper, m: Tables, x: int, y: int)
    ensures Wheel(x, y) in Forwarded(h, m) <==>
      x == h.curMouse.wheelDeltaX && y == h.curMouse.wheelDeltaY && (x > 0 || y > 0)
  {
    TableSendsLevels(h, m.npad, x, y);
    TableSendsLevels(h, m.mouse, x, y);
    TableSendsLevels(h, m.keys, x, y);
  }

  // ---- One flag -------------------------------------------------------------------

  ghost predicate OnlyEdge(h: Helper, c: Channel, down: bool) {
    forall c', down' :: Edge(h, c', down') <==> c' == c && down' == down
  }

  /** A single flag that changes is told to ImGui as its own key, once, and as no other. */
  lemma SingleFlag(h: Helper, t: Target, down: bool)
    requires h.toggle && Named(t) && OnlyEdge(h, FlagOf(t), down)
    ensures forall e | e in InputEvents(h, Mappings()) && e.Level? :: e == Level(t, down)
    ensures h.curMouse.wheelDeltaX <= 0 && h.curMouse.wheelDeltaY <= 0 ==>
      InputEvents(h, Mappings()) == [Level(t, down)]
  {
    var events := InputEvents(h, Mappings());
    FrameSends(h);
    assert Edge(h, FlagOf(t), down);
    forall e | e in events && e.Level? ensures e == Level(t, down) {
      assert Level(e.target, e.down) in events;
      FlagOfInjective(e.target, t);
    }
    if h.curMouse.wheelDeltaX <= 0 && h.curMouse.wheelDeltaY <= 0 {
      forall e | e in events ensures e == Level(t, down) {
        match e
        case Level(_, _) =>
        case Wheel(x, y) => assert false;
      }
      OneAtMost(events, Level(t, down));
    }
  }

  lemma OneAtMost(events: seq<IoEvent>, e: IoEvent)
    requires StrictlyPlaced(events) && e in events
    requires forall e' | e' in events :: e' == e
    ensures events == [e]
  {
    if |events| > 1 {
      FirstTwoDiffer(events);
      assert false;
    }
  }

  lemma FirstTwoDiffer(events: seq<IoEvent>)
    requires StrictlyPlaced(events) && |events| > 1
    ensures events[0] in events && events[1] in events && events[0] != events[1]
  {
    assert Place(events[0]) < Place(events[1]);
  }

  /** Every key and button with a name on both sides is fed by its own flag alone. */
  lemma NamedKeyFeeds(t: Target)
    requires Named(t) && IsKey(t)
    ensures Feeds(Mappings(), FlagOf(t), t)
  {
    TablesSayTheNames();
    var i :| 0 <= i < |Mappings().Rows()| && Mappings().Rows()[i].target == t;
    EveryRowFeeds(i);
  }
}
