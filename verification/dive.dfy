/**
 * Day 2, "Dive!": steering the submarine with `forward`, `up` and `down`
 * commands, under the first reading (depth moves directly) and the second
 * (up and down turn the aim, forward dives along it). Depth is kept as a
 * signed y coordinate: `up` raises y, `down` lowers it, and the answer
 * multiplies x by -y.
 */
module Dive {
  import opened Common

  /** One parsed input line: the command word and its unit count. */
  datatype Move = Move(direction: string, units: int)

  /** `move_v1`: a command word other than the three known ones changes nothing. */
  function MoveV1(move: Move, x: int, y: int): (r: (int, int))
    ensures r == (x + Total([move], "forward"), y + Total([move], "up") - Total([move], "down"))
  {
    if move.direction == "forward" then (x + move.units, y)
    else if move.direction == "up" then (x, y + move.units)
    else if move.direction == "down" then (x, y - move.units)
    else (x, y)
  }

  /**
   * The position and aim `move_v2` returns: x moves as under `move_v1`, the
   * aim moves the way `move_v1` moves the depth (-y), and y sinks by the
   * forward units times the aim.
   */
  function StepV2(move: Move, x: int, y: int, aim: int): (r: (int, int, int))
    ensures r.0 == MoveV1(move, x, y).0
    ensures r.2 - aim == -(MoveV1(move, x, y).1 - y)
    ensures r.1 == y - Total([move], "forward") * aim
  {
    if move.direction == "forward" then (x + move.units, y - move.units * aim, aim)
    else if move.direction == "up" then (x, y, aim - move.units)
    else if move.direction == "down" then (x, y, aim + move.units)
    else (x, y, aim)
  }

  /**
   * The state `process_moves` threads through its loop. An absent aim selects
   * `move_v1`, a present one `move_v2`.
   */
  datatype Pose = Pose(x: int, y: int, aim: Option<int>)

  function Step(move: Move, p: Pose): (q: Pose)
    ensures q.aim.Some? == p.aim.Some?
    ensures q.x == p.x + Total([move], "forward")
    ensures p.aim.None? ==> q.y == p.y + Total([move], "up") - Total([move], "down")
    ensures p.aim.Some? ==> q.y == p.y - Total([move], "forward") * p.aim.value
    ensures p.aim.Some? ==> q.aim.value == p.aim.value + Total([move], "down") - Total([move], "up")
  {
    match p.aim
    case None =>
      var (x, y) := MoveV1(move, p.x, p.y);
      Pose(x, y, None)
    case Some(a) =>
      var (x, y, a') := StepV2(move, p.x, p.y, a);
      Pose(x, y, Some(a'))
  }

  /** The pose after applying the moves in order (a left fold of `Step`). */
  function Run(moves: seq<Move>, p: Pose): (q: Pose)
    ensures q.aim.Some? == p.aim.Some?
  {
    if moves == [] then p else Step(moves[|moves| - 1], Run(moves[..|moves| - 1], p))
  }

  /** The positions `process_moves` logs: the position before each move. */
  function PositionLog(moves: seq<Move>, p: Pose): (log: seq<(int, int)>) {
    if moves == [] then []
    else
      var q := Run(moves[..|moves| - 1], p);
      PositionLog(moves[..|moves| - 1], p) + [(q.x, q.y)]
  }

  /** The aims `move_v2` logs: the aim before each move (nothing under `move_v1`). */
  function AimLog(moves: seq<Move>, p: Pose): (log: seq<int>) {
    if moves == [] || p.aim.None? then []
    else
      var q := Run(moves[..|moves| - 1], p);
      AimLog(moves[..|moves| - 1], p) + [q.aim.value]
  }

  /** Sum of the units of the moves whose command word is `direction`. */
  function Total(moves: seq<Move>, direction: string): (sum: int) {
    if moves == [] then 0
    else
      var last := moves[|moves| - 1];
      Total(moves[..|moves| - 1], direction) + (if last.direction == direction then last.units else 0)
  }

  /** Entry k of each log is taken just before move k. */
  lemma {:induction false} LogsAt(moves: seq<Move>, p: Pose, k: nat)
    requires k < |moves|
    ensures |PositionLog(moves, p)| == |moves|
    ensures PositionLog(moves, p)[k] == (Run(moves[..k], p).x, Run(moves[..k], p).y)
    ensures p.aim.Some? ==> |AimLog(moves, p)| == |moves| && AimLog(moves, p)[k] == Run(moves[..k], p).aim.value
    ensures p.aim.None? ==> AimLog(moves, p) == []
  {
    var init := moves[..|moves| - 1];
    if k < |moves| - 1 {
      LogsAt(init, p, k);
      assert init[..k] == moves[..k];
    } else if |init| > 0 {
      LogsAt(init, p, 0);
    }
  }

  /**
   * Under `move_v1` the final position depends only on the totals per
   * command: x grows by all forward units, y by up minus down.
   */
  lemma {:induction false} RunV1Totals(moves: seq<Move>, x: int, y: int)
    ensures Run(moves, Pose(x, y, None)) ==
            Pose(x + Total(moves, "forward"), y + Total(moves, "up") - Total(moves, "down"), None)
  {
    if moves != [] {
      RunV1Totals(moves[..|moves| - 1], x, y);
    }
  }

  /**
   * Under `move_v2` x still grows by all forward units, and the aim ends
   * at the start aim plus down minus up, whatever the order of the moves.
   */
  lemma {:induction false} RunV2Totals(moves: seq<Move>, x: int, y: int, aim: int)
    ensures Run(moves, Pose(x, y, Some(aim))).x == x + Total(moves, "forward")
    ensures Run(moves, Pose(x, y, Some(aim))).aim == Some(aim + Total(moves, "down") - Total(moves, "up"))
  {
    if moves != [] {
      RunV2Totals(moves[..|moves| - 1], x, y, aim);
    }
  }

  /** The second reading's aim is the first reading's depth: starting from zero, aim == -y. */
  lemma {:induction false} AimIsFirstDepth(moves: seq<Move>)
    ensures Run(moves, Pose(0, 0, Some(0))).aim == Some(-Run(moves, Pose(0, 0, None)).y)
    ensures Run(moves, Pose(0, 0, Some(0))).x == Run(moves, Pose(0, 0, None)).x
  {
    RunV1Totals(moves, 0, 0);
    RunV2Totals(moves, 0, 0, 0);
  }

  /** `finalise`: horizontal position times depth, depth being -y. */
  function Finalise(x: int, y: int): (answer: int)
    ensures answer == 0 <==> x == 0 || y == 0
    ensures x > 0 && y < 0 ==> answer > 0
  {
    x * (-y)
  }

  /** Part 1's answer is the forward total times the net descent. */
  lemma Part1Answer(moves: seq<Move>)
    ensures Finalise(Run(moves, Pose(0, 0, None)).x, Run(moves, Pose(0, 0, None)).y) ==
            Total(moves, "forward") * (Total(moves, "down") - Total(moves, "up"))
  {
    RunV1Totals(moves, 0, 0);
  }

  /** `Day2`: the logs of aims and positions that its methods append to. */
  class Submarine {
    var aims: seq<int>
    var positions: seq<(int, int)>

    constructor ()
      ensures aims == [] && positions == []
    {
      aims := [];
      positions := [];
    }

    /** `move_v2`: logs the incoming aim, then steers. */
    method MoveV2(move: Move, x: int, y: int, aim: int) returns (x': int, y': int, aim': int)
      modifies this`aims
      ensures aims == old(aims) + [aim]
      ensures (x', y', aim') == StepV2(move, x, y, aim)
    {
      aims := aims + [aim];
      x', y', aim' := x, y, aim;
      if move.direction == "forward" {
        x' := x' + move.units;
        y' := y' - move.units * aim;
      } else if move.direction == "up" {
        aim' := aim' - move.units;
      } else if move.direction == "down" {
        aim' := aim' + move.units;
      }
    }

    /**
     * `process_moves`: logs each position before its move, and returns the
     * final position. An absent `aim` selects `move_v1`, a present one `move_v2`.
     */
    method ProcessMoves(moves: seq<Move>, x: int, y: int, aim: Option<int>) returns (x': int, y': int)
      modifies this
      ensures positions == old(positions) + PositionLog(moves, Pose(x, y, aim))
      ensures aims == old(aims) + AimLog(moves, Pose(x, y, aim))
      ensures (x', y') == (Run(moves, Pose(x, y, aim)).x, Run(moves, Pose(x, y, aim)).y)
    {
      var start := Pose(x, y, aim);
      var a := aim;
      x', y' := x, y;
      for k := 0 to |moves|
        invariant Pose(x', y', a) == Run(moves[..k], start)
        invariant positions == old(positions) + PositionLog(moves[..k], start)
        invariant aims == old(aims) + AimLog(moves[..k], start)
      {
        assert moves[..k + 1][..k] == moves[..k];
        positions := positions + [(x', y')];
        if a.Some? {
          var na;
          x', y', na := MoveV2(moves[k], x', y', a.value);
          a := Some(na);
        } else {
          var next := MoveV1(moves[k], x', y');
          x', y' := next.0, next.1;
        }
      }
      assert moves[..|moves|] == moves;
    }

    /** Part 1: the product of forward total and net descent. */
    method Part1(moves: seq<Move>) returns (answer: int)
      modifies this
      ensures answer == Total(moves, "forward") * (Total(moves, "down") - Total(moves, "up"))
      ensures positions == old(positions) + PositionLog(moves, Pose(0, 0, None))
      ensures |positions| == |old(positions)| + |moves| && aims == old(aims)
    {
      var x, y := ProcessMoves(moves, 0, 0, None);
      answer := Finalise(x, y);
      Part1Answer(moves);
      if moves != [] {
        LogsAt(moves, Pose(0, 0, None), 0);
      }
    }

    /** Part 2: as part 1, steering by aim from aim zero. */
    method Part2(moves: seq<Move>) returns (answer: int)
      modifies this
      ensures answer == Total(moves, "forward") * -Run(moves, Pose(0, 0, Some(0))).y
      ensures positions == old(positions) + PositionLog(moves, Pose(0, 0, Some(0)))
      ensures aims == old(aims) + AimLog(moves, Pose(0, 0, Some(0)))
      ensures |positions| == |old(positions)| + |moves| && |aims| == |old(aims)| + |moves|
    {
      var x, y := ProcessMoves(moves, 0, 0, Some(0));
      answer := Finalise(x, y);
      RunV2Totals(moves, 0, 0, 0);
      if moves != [] {
        LogsAt(moves, Pose(0, 0, Some(0)), 0);
      }
    }
  }
}
