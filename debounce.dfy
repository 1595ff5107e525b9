/**
 * The hourly actuation: look up the stored schedule rows of the last hour
 * in 15-minute steps and send a command only when those rows disagree.
 */
module Debounce {
  import opened PricePoints

  /** A stored schedule row as the store returns it. */
  datatype Row = Row(site: string, dt: Minute, floorHeating: bool, radiatorHeating: bool)

  /** The states sent to the two heating channels. */
  datatype Command = Command(floor: string, radiator: string)

  datatype Option<T> = None | Some(value: T)

  /** The five lookup times: an hour back from dt, in 15-minute steps, ending at dt. */
  function Window(dt: Minute): (w: seq<Minute>)
    ensures |w| == 5 && w[0] == dt - 60 && w[4] == dt
    ensures forall i :: 0 < i < |w| ==> w[i] == w[i - 1] + 15
  {
    [dt - 60, dt - 45, dt - 30, dt - 15, dt]
  }

  /** The pair of flags that the duplicate check compares. */
  function State(r: Row): (bool, bool)
  {
    (r.floorHeating, r.radiatorHeating)
  }

  /** The distinct (floor, radiator) pairs among the rows. */
  function DistinctStates(rows: seq<Row>): set<(bool, bool)>
  {
    set i | 0 <= i < |rows| :: State(rows[i])
  }

  predicate Disagree(rows: seq<Row>)
  {
    exists i, j :: 0 <= i < |rows| && 0 <= j < |rows| && State(rows[i]) != State(rows[j])
  }

  /** More than one distinct pair exactly when two rows disagree. */
  lemma DistinctStatesDisagree(rows: seq<Row>)
    ensures |DistinctStates(rows)| > 1 <==> Disagree(rows)
  {
    var s := DistinctStates(rows);
    if Disagree(rows) {
      var i, j :| 0 <= i < |rows| && 0 <= j < |rows| && State(rows[i]) != State(rows[j]);
      var pair := {State(rows[i]), State(rows[j])};
      assert pair <= s;
      assert s == pair + (s - pair);
      assert |s| == |pair| + |s - pair|;
    } else if rows == [] {
      assert s == {};
    } else {
      assert s == {State(rows[0])};
    }
  }

  /** The command that a row calls for: floor "on"/"off", radiator "high"/"low". */
  function CommandFor(r: Row): (c: Command)
    ensures (c.floor == "on" || c.floor == "off") && (c.floor == "on" <==> r.floorHeating)
    ensures (c.radiator == "high" || c.radiator == "low") && (c.radiator == "high" <==> r.radiatorHeating)
  {
    assert "on" != "off" by { assert |"on"| != |"off"|; }
    assert "high" != "low" by { assert |"high"| != |"low"|; }
    Command(if r.floorHeating then "on" else "off", if r.radiatorHeating then "high" else "low")
  }

  /** A command tells apart every pair of flags: rows map to the same command exactly when they agree. */
  lemma CommandEncodesState(r1: Row, r2: Row)
    ensures CommandFor(r1) == CommandFor(r2) <==> State(r1) == State(r2)
  {
    assert "on" != "off" by { assert |"on"| != |"off"|; }
    assert "high" != "low" by { assert |"high"| != |"low"|; }
  }

  /**
   * The debounce rule: no command when the rows hold at most one distinct
   * pair; otherwise the command of the first row, which need not be the latest.
   */
  function Decide(rows: seq<Row>): (cmd: Option<Command>)
    ensures cmd.Some? <==> Disagree(rows)
    ensures cmd.Some? ==> |rows| > 0 && cmd.value == CommandFor(rows[0])
  {
    DistinctStatesDisagree(rows);
    if |DistinctStates(rows)| > 1 then Some(CommandFor(rows[0])) else None
  }

  /** Event-name prefixes of the floor and the radiator webhook. */
  const FloorEvent: string := "floor_heating_"
  const RadiatorEvent: string := "radiator_"

  /** The tokens of the two webhook calls for a command, floor first. */
  function WebhookEvents(cmd: Command): (events: seq<string>)
    ensures |events| == 2
    ensures |events[0]| == |FloorEvent| + |cmd.floor| && |events[1]| == |RadiatorEvent| + |cmd.radiator|
    ensures events[0][..|FloorEvent|] == FloorEvent && events[0][|FloorEvent|..] == cmd.floor
    ensures events[1][..|RadiatorEvent|] == RadiatorEvent && events[1][|RadiatorEvent|..] == cmd.radiator
  {
    var floor, radiator := FloorEvent + cmd.floor, RadiatorEvent + cmd.radiator;
    assert floor[..|FloorEvent|] == FloorEvent && floor[|FloorEvent|..] == cmd.floor;
    assert radiator[..|RadiatorEvent|] == RadiatorEvent && radiator[|RadiatorEvent|..] == cmd.radiator;
    [floor, radiator]
  }

  /**
   * One hourly run: select stands for the store lookup of the window's rows;
   * the result is the sequence of webhook tokens posted, empty for no change.
   */
  function ReadScheduleAndSetHeating(dt: Minute, select: seq<Minute> -> seq<Row>): (events: seq<string>)
    ensures var rows := select(Window(dt));
      && (events == [] <==> !Disagree(rows))
      && (events != [] ==> events == WebhookEvents(CommandFor(rows[0])))
  {
    match Decide(select(Window(dt)))
    case None => []
    case Some(cmd) => WebhookEvents(cmd)
  }

  /** Five identical rows send nothing; a window with two states follows its first row. */
  lemma DebounceExamples(dt: Minute)
    ensures var same := seq(5, i requires 0 <= i < 5 => Row("taavis", dt - 60 + 15 * i, true, true));
      Decide(same) == None
    ensures var mixed := [Row("taavis", dt - 15, false, true), Row("taavis", dt, true, true)];
      Decide(mixed) == Some(Command("off", "high"))
  {
    var same := seq(5, i requires 0 <= i < 5 => Row("taavis", dt - 60 + 15 * i, true, true));
    assert forall i :: 0 <= i < 5 ==> State(same[i]) == (true, true);
    var mixed := [Row("taavis", dt - 15, false, true), Row("taavis", dt, true, true)];
    assert State(mixed[0]) != State(mixed[1]);
  }
}
