/**
 * The field engine of av2000_terminator/navigation/base/form.py: field
 * descriptors, the per-field write buffer with the form's shared "modified" flag,
 * the read-only guard, reading a field off the screen, the cursor-seeking routine
 * and the flush protocol.
 *
 * The cursor object belongs to the terminal emulator and is not part of this
 * model: its keystrokes are `Keyed` events whose effect the environment's
 * `motion` oracle decides, and what it types is a `Typed` event. The DELETE key
 * comes from sshterminal's key table, which is not part of this model either, so
 * it is a parameter.
 */
module Form {
  import opened Wrappers
  import opened PyText
  import opened Utf8
  import opened Errors
  import opened Session
  import opened Terminal
  import Py

  /** How many re-polls a cursor move may wait for the cursor to show it. */
  const MaxUpdates: nat := 50

  /** FieldDescriptor; `writable` defaults to True and `screen` to 'main'. */
  datatype Descriptor = Descriptor(line: int, start: int, name: string, size: int, writable: bool, screen: string)

  /** The `end` property: the last column of the field. */
  function End(d: Descriptor): int {
    d.start + d.size - 1
  }

  /** A Field: its descriptor and the value waiting to be written, if any. */
  datatype Field = Field(desc: Descriptor, buffer: Option<string>)

  /** `flush_required`. */
  predicate FlushRequired(f: Field) {
    f.buffer.Some?
  }

  // ---------------------------------------------------------------- data

  /**
   * The `data` setter behind the writable guard: a read-only field raises and
   * changes nothing; otherwise `str(value)` is buffered and the form's shared
   * flag is raised. Returns the field and the flag.
   */
  function Assign(f: Field, modified: bool, v: Py.Value): (r: Result<(Field, bool), Exc>)
    ensures !f.desc.writable ==> r == Err(ReadOnlyField(f.desc.name))
    ensures f.desc.writable ==> r.Ok?
    ensures r.Ok? ==> r.value.1 && r.value.0.desc == f.desc
    ensures r.Ok? ==> FlushRequired(r.value.0) && r.value.0.buffer.value == Py.ToStr(v)
  {
    if !f.desc.writable then Err(ReadOnlyField(f.desc.name))
    else Ok((f.(buffer := Some(Py.ToStr(v))), true))
  }

  /**
   * `_get_data`: the row `line` of the display, columns `start` to `end`
   * inclusive, stripped unless raw. A line outside the display raises IndexError.
   */
  function Read(lines: Display, d: Descriptor, raw: bool): (r: Result<string, Exc>)
    ensures r.Ok? <==> -(Rows as int) <= d.line < Rows
    ensures r.Ok? && !raw ==> r.value == Strip(Slice(Index(lines, d.line).value, d.start, End(d) + 1))
  {
    match Index(lines, d.line)
    case None => Err(IndexError)
    case Some(row) =>
      var cells := Slice(row, d.start, End(d) + 1);
      Ok(if raw then cells else Strip(cells))
  }

  /**
   * A field lying inside its row reads exactly its `size` cells, from `start`:
   * `end` is the last of them.
   */
  lemma ReadCells(lines: Display, d: Descriptor)
    requires 0 <= d.line < Rows && 0 <= d.start && 0 <= d.size && d.start + d.size <= |lines[d.line]|
    ensures Read(lines, d, true) == Ok(lines[d.line][d.start..d.start + d.size])
    ensures |Read(lines, d, true).value| == d.size
    ensures d.size > 0 ==> Read(lines, d, true).value[d.size - 1] == lines[d.line][End(d)]
    ensures Read(lines, d, false) == Ok(Strip(Read(lines, d, true).value))
  {
  }

  /**
   * The form's flag is shared and only ever raised: after a writable field takes
   * a value, a second assignment, to any field, leaves it raised whether that
   * assignment succeeds or raises ReadOnlyFieldException; a writable second field
   * buffers the second value.
   */
  lemma AssignKeepsFlag(f: Field, g: Field, modified: bool, v: Py.Value, w: Py.Value)
    requires f.desc.writable
    ensures var a := Assign(f, modified, v);
      var b := Assign(g, a.value.1, w);
      && a.value.0.buffer == Some(Py.ToStr(v))
      && (if b.Ok? then b.value.1 else a.value.1)
      && (g.desc.writable ==> b.value.0.buffer == Some(Py.ToStr(w)))
      && (!g.desc.writable ==> b == Err(ReadOnlyField(g.desc.name)))
  {
  }

  // ---------------------------------------------------------------- cursor

  /** `is_cursor_here`: the upper bound is `start + end`, not `end`. */
  predicate IsCursorHere(p: Pos, d: Descriptor) {
    p.line == d.line && d.start <= p.col <= d.start + End(d)
  }

  /** `is_cursor_at_start`. */
  predicate IsCursorAtStart(p: Pos, d: Descriptor) {
    p.line == d.line && p.col == d.start
  }

  /**
   * Every cell of the field counts as "here", and so do the `start` cells after
   * its end: with the field away from column 0, a cursor just past it is "here".
   */
  lemma CursorHereWindow(d: Descriptor, col: int)
    requires d.size >= 1 && d.start >= 0
    ensures d.start <= col <= End(d) ==> IsCursorHere(Pos(d.line, col), d)
    ensures d.start >= 1 ==> IsCursorHere(Pos(d.line, End(d) + 1), d)
    ensures IsCursorAtStart(Pos(d.line, col), d) ==> IsCursorHere(Pos(d.line, col), d)
  {
  }

  /** The two phases of the seek: the row first, then the column. */
  datatype Axis = Row | Column

  /** Towards lower coordinates (up, tab back) or higher ones (down, tab forward). */
  datatype Direction = Backward | Forward

  function Coord(p: Pos, axis: Axis): int {
    match axis
    case Row => p.line
    case Column => p.col
  }

  /** The keystroke that moves along an axis. */
  function KeyFor(axis: Axis, dir: Direction): CursorKey {
    match (axis, dir)
    case (Row, Backward) => CursorUp
    case (Row, Forward) => CursorDown
    case (Column, Backward) => TabBack
    case (Column, Forward) => TabFwd
  }

  /** The cursor after moving `n` cells along an axis. */
  function Moved(p: Pos, axis: Axis, dir: Direction, n: nat): (q: Pos)
    ensures Coord(q, axis) == Coord(p, axis) + (if dir == Forward then n as int else -(n as int))
    ensures Coord(q, if axis == Row then Column else Row) == Coord(p, if axis == Row then Column else Row)
  {
    var delta := if dir == Forward then n as int else -(n as int);
    match axis
    case Row => p.(line := p.line + delta)
    case Column => p.(col := p.col + delta)
  }

  /** The texts typed through the cursor, in order. */
  function Typing(log: seq<Event>): seq<string> {
    if log == [] then []
    else if log[0].Typed? then [log[0].text] + Typing(log[1..])
    else Typing(log[1..])
  }

  lemma {:induction false} TypingAppend(a: seq<Event>, b: seq<Event>)
    ensures Typing(a + b) == Typing(a) + Typing(b)
  {
    if a != [] {
      assert (a + b)[1..] == a[1..] + b;
      TypingAppend(a[1..], b);
    } else {
      assert a + b == b;
    }
  }

  /** Events other than typing leave the typed texts alone. */
  lemma TypingSilent(log: seq<Event>, e: Event)
    requires !e.Typed?
    ensures Typing(log + [e]) == Typing(log)
  {
    TypingAppend(log, [e]);
    assert [e][1..] == [];
  }

  /** n copies of the empty send. */
  function EmptySends(n: nat): (r: seq<Bytes>)
    ensures |r| == n
  {
    if n == 0 then [] else EmptySends(n - 1) + [Encode("")]
  }

  /**
   * n calls of `send_seq('')`, the re-polls that give the emulator a chance to
   * show a cursor move.
   */
  function Repoll(t: Term, env: Env, n: nat): (r: Run<()>)
    ensures t.closed && n > 0 ==> Refused(t, r)
    ensures !t.closed ==> r.r.Ok? && !r.t.closed && Sends(r.t.log) == Sends(t.log) + EmptySends(n)
    ensures r.t.cursor == t.cursor && r.t.keystrokes == t.keystrokes && r.t.closed == t.closed
    ensures Typing(r.t.log) == Typing(t.log)
    decreases n
  {
    if n == 0 then Run(t, Ok(()))
    else
      var s := SendSeq(t, env, "");
      if s.r.Err? then s
      else
        SendSeqLog(t, env, "");
        TypingSilent(t.log, Sent(Encode("")));
        TypingSilent(t.log + [Sent(Encode(""))], Updated(|Recv(env.polls(t.updates))|));
        assert s.t.log == t.log + [Sent(Encode(""))] + [Updated(|Recv(env.polls(t.updates))|)];
        var rest := Repoll(s.t, env, n - 1);
        assert EmptySends(n) == [Encode("")] + EmptySends(n - 1) by {
          EmptySendsCons(n);
        }
        rest
  }

  lemma {:induction false} EmptySendsCons(n: nat)
    requires n > 0
    ensures EmptySends(n) == [Encode("")] + EmptySends(n - 1)
  {
    if n > 1 {
      EmptySendsCons(n - 1);
    }
  }

  /** The FieldValueError text: screen row -3 without its 'q's, stripped, after the label. */
  function StuckMessage(name: string, lines: Display): string {
    "Field \"" + name + "\": " + Strip(RemoveChar(lines[Rows - 3], 'q'))
  }

  /** The cursor's answer to the next keystroke along an axis, pressed where it stands. */
  function Answer(t: Term, env: Env, axis: Axis, dir: Direction): Motion {
    env.motion(t.keystrokes, t.cursor, KeyFor(axis, dir))
  }

  /**
   * The move shows within the re-poll budget and changes the coordinate being
   * watched, which is all the re-poll loop looks at.
   */
  predicate Shows(m: Motion, p: Pos, axis: Axis) {
    m.Moves? && m.lag <= MaxUpdates && Coord(m.to, axis) != Coord(p, axis)
  }

  /** Where the cursor stands once the re-poll budget is spent. */
  function Landed(m: Motion, p: Pos): Pos {
    if m.Moves? && m.lag <= MaxUpdates then m.to else p
  }

  /** A cursor keystroke: logged and counted; the screen and the cursor wait for the oracle. */
  function Press(t: Term, key: CursorKey): (r: Term)
    ensures r.keystrokes == t.keystrokes + 1 && r.closed == t.closed && r.cursor == t.cursor
    ensures Sends(r.log) == Sends(t.log) && Typing(r.log) == Typing(t.log)
  {
    TypingSilent(t.log, Keyed(key));
    SendsSnoc(t.log, Keyed(key));
    t.(log := t.log + [Keyed(key)], keystrokes := t.keystrokes + 1)
  }

  /**
   * The re-polls after a keystroke the cursor answers with `m`, pressed at `from`:
   * when the watched coordinate changes within the budget the cursor stands at
   * `m.to`; otherwise all 50 re-polls go by and FieldValueError reports screen
   * row -3, with the cursor wherever the emulator last showed it.
   */
  function Await(t: Term, env: Env, name: string, m: Motion, axis: Axis): (r: Run<()>)
    ensures !t.closed ==> !r.t.closed && (r.r.Ok? <==> Shows(m, t.cursor, axis))
    ensures r.r.Ok? ==> Shows(m, t.cursor, axis) && r.t.cursor == m.to
    ensures !t.closed && r.r.Err? ==>
      && r.r.error == FieldValueError(StuckMessage(name, r.t.lines))
      && r.t.cursor == Landed(m, t.cursor)
      && Sends(r.t.log) == Sends(t.log) + EmptySends(MaxUpdates)
    ensures t.closed ==> r.r.Err? ==> r.r.error == DriverClosed
    ensures r.t.keystrokes == t.keystrokes && r.t.closed == t.closed
    ensures Typing(r.t.log) == Typing(t.log)
  {
    if Shows(m, t.cursor, axis) then
      var p := Repoll(t, env, m.lag);
      if p.r.Err? then p
      else Run(p.t.(cursor := m.to), Ok(()))
    else
      var p := Repoll(t, env, MaxUpdates);
      if p.r.Err? then p
      else Run(p.t.(cursor := Landed(m, t.cursor)), Err(FieldValueError(StuckMessage(name, p.t.lines))))
  }

  /**
   * One turn of `move_cursor`'s loop: note the watched coordinate, press the key,
   * re-poll while that coordinate is unchanged (at most 50 times), and raise
   * FieldValueError if it still is.
   */
  function MoveStep(t: Term, env: Env, name: string, axis: Axis, dir: Direction): (r: Run<()>)
    ensures !t.closed ==> !r.t.closed && (r.r.Ok? <==> Shows(Answer(t, env, axis, dir), t.cursor, axis))
    ensures r.r.Ok? ==>
      && Shows(Answer(t, env, axis, dir), t.cursor, axis)
      && r.t.cursor == Answer(t, env, axis, dir).to
      && Coord(r.t.cursor, axis) != Coord(t.cursor, axis)
    ensures !t.closed && r.r.Err? ==>
      && r.r.error == FieldValueError(StuckMessage(name, r.t.lines))
      && r.t.cursor == Landed(Answer(t, env, axis, dir), t.cursor)
      && Coord(r.t.cursor, axis) == Coord(t.cursor, axis)
      && Sends(r.t.log) == Sends(t.log) + EmptySends(MaxUpdates)
    ensures t.closed ==> r.r.Err? ==> r.r.error == DriverClosed
    ensures r.t.keystrokes == t.keystrokes + 1 && r.t.closed == t.closed
    ensures Typing(r.t.log) == Typing(t.log)
  {
    Await(Press(t, KeyFor(axis, dir)), env, name, Answer(t, env, axis, dir), axis)
  }

  /** The loop condition of `move_cursor`: the cursor is still short of the target. */
  predicate Short(p: Pos, axis: Axis, dir: Direction, target: int) {
    if dir == Backward then Coord(p, axis) > target else Coord(p, axis) < target
  }

  /** Why the seek loop stopped. */
  datatype Stop = Reached | Stalled | Unsettled

  /**
   * Where the seek loop stops and why, read off the cursor oracle alone: follow
   * the answers while they show a change and the cursor is short of the target.
   */
  function Trail(env: Env, k: nat, p: Pos, axis: Axis, dir: Direction, target: int, fuel: nat): (r: (Pos, Stop))
    ensures r.1 == Reached <==> !Short(r.0, axis, dir, target) && r.1 != Stalled
    decreases fuel
  {
    if !Short(p, axis, dir, target) then (p, Reached)
    else if fuel == 0 then (p, Unsettled)
    else
      var m := env.motion(k, p, KeyFor(axis, dir));
      if Shows(m, p, axis) then Trail(env, k + 1, m.to, axis, dir, target, fuel - 1)
      else (Landed(m, p), Stalled)
  }

  /**
   * `move_cursor(move_while, move_method, get_pos)`: step while short of the
   * target. The program keeps stepping for as long as every keystroke shows a
   * change, which need not end (a TAB may wrap behind the cursor); the model
   * follows at most `fuel` keystrokes and reports SeekUnsettled after them.
   */
  function MoveLoop(t: Term, env: Env, name: string, axis: Axis, dir: Direction, target: int, fuel: nat): (r: Run<()>)
    ensures r.r.Ok? ==> !Short(r.t.cursor, axis, dir, target)
    ensures r.r.Err? ==>
      || r.r.error == DriverClosed
      || r.r.error == FieldValueError(StuckMessage(name, r.t.lines))
      || (r.r.error == SeekUnsettled && Short(r.t.cursor, axis, dir, target) && r.t.keystrokes == t.keystrokes + fuel)
    ensures !t.closed && r.r.Err? ==> r.r.error != DriverClosed
    ensures !Short(t.cursor, axis, dir, target) ==> r == Run(t, Ok(()))
    ensures !t.closed ==>
      && r.t.cursor == Trail(env, t.keystrokes, t.cursor, axis, dir, target, fuel).0
      && (r.r.Ok? <==> Trail(env, t.keystrokes, t.cursor, axis, dir, target, fuel).1 == Reached)
      && (r.r == Err(SeekUnsettled) <==> Trail(env, t.keystrokes, t.cursor, axis, dir, target, fuel).1 == Unsettled)
    ensures t.keystrokes <= r.t.keystrokes <= t.keystrokes + fuel
    ensures r.t.closed == t.closed
    ensures Typing(r.t.log) == Typing(t.log)
    decreases fuel
  {
    if !Short(t.cursor, axis, dir, target) then Run(t, Ok(()))
    else if fuel == 0 then Run(t, Err(SeekUnsettled))
    else
      var s := MoveStep(t, env, name, axis, dir);
      if s.r.Err? then s
      else MoveLoop(s.t, env, name, axis, dir, target, fuel - 1)
  }

  /** The exception for a phase that ended off target. */
  function NotReachable(axis: Axis, target: int, reached: int): Exc {
    match axis
    case Row => LineNotReachable(target, reached)
    case Column => ColNotReachable(target, reached)
  }

  /**
   * `to_line` / `to_col`: move towards the target if not there, then insist on
   * the watched coordinate, and on it alone.
   */
  function Seek(t: Term, env: Env, name: string, axis: Axis, target: int): (r: Run<()>)
    ensures r.r.Ok? ==> Coord(r.t.cursor, axis) == target
    ensures r.r.Err? ==>
      || r.r.error == DriverClosed
      || r.r.error == FieldValueError(StuckMessage(name, r.t.lines))
      || (r.r.error == SeekUnsettled && Coord(r.t.cursor, axis) != target)
      || (r.r.error == NotReachable(axis, target, Coord(r.t.cursor, axis)) && Coord(r.t.cursor, axis) != target)
    ensures !t.closed && r.r.Err? ==> r.r.error != DriverClosed
    ensures Coord(t.cursor, axis) == target ==> r == Run(t, Ok(()))
    ensures r.t.closed == t.closed
    ensures Typing(r.t.log) == Typing(t.log)
  {
    var c := Coord(t.cursor, axis);
    var m :=
      if c == target then Run(t, Ok(()))
      else if c > target then MoveLoop(t, env, name, axis, Backward, target, env.seekBudget)
      else MoveLoop(t, env, name, axis, Forward, target, env.seekBudget);
    if m.r.Err? then m
    else if Coord(m.t.cursor, axis) != target then Run(m.t, Err(NotReachable(axis, target, Coord(m.t.cursor, axis))))
    else m
  }

  /**
   * `move_cursor_here`, behind the writable guard: reading the driver's cursor
   * raises DriverClosed on a closed terminal; then the row phase, then the column
   * phase. The column phase checks the column only, so success promises the
   * field's start column and nothing about the row (see `TabWrapLeavesRow`).
   */
  function MoveCursorHere(t: Term, env: Env, d: Descriptor): (r: Run<()>)
    ensures !d.writable ==> r == Run(t, Err(ReadOnlyField(d.name)))
    ensures r.r.Ok? ==> r.t.cursor.col == d.start
    ensures d.writable && r.r.Err? ==>
      || r.r.error == DriverClosed
      || r.r.error == FieldValueError(StuckMessage(d.name, r.t.lines))
      || r.r.error == SeekUnsettled
      || (r.r.error == LineNotReachable(d.line, r.t.cursor.line) && r.t.cursor.line != d.line)
      || (r.r.error == ColNotReachable(d.start, r.t.cursor.col) && r.t.cursor.col != d.start)
    ensures d.writable ==> (r.r.Err? && r.r.error == DriverClosed <==> t.closed)
    ensures d.writable && t.closed ==> r == Run(t, Err(DriverClosed))
    ensures d.writable && !t.closed && t.cursor == Pos(d.line, d.start) ==> r == Run(t, Ok(()))
    ensures r.t.closed == t.closed
    ensures Typing(r.t.log) == Typing(t.log)
  {
    if !d.writable then Run(t, Err(ReadOnlyField(d.name)))
    else if t.closed then Run(t, Err(DriverClosed))
    else
      var a := Seek(t, env, d.name, Row, d.line);
      if a.r.Err? then a
      else Seek(a.t, env, d.name, Column, d.start)
  }

  /**
   * `to_col` checks the column only: a TAB that wraps onto the next row at the
   * field's column ends the seek successfully one row below the field.
   */
  lemma TabWrapLeavesRow(t: Term, env: Env)
    requires !t.closed && t.cursor == Pos(5, 10) && env.seekBudget >= 1
    requires env.motion(t.keystrokes, Pos(5, 10), TabFwd) == Moves(0, Pos(6, 40))
    ensures var r := MoveCursorHere(t, env, Descriptor(5, 40, "code", 10, true, "main"));
      r.r.Ok? && r.t.cursor == Pos(6, 40)
  {
    var d := Descriptor(5, 40, "code", 10, true, "main");
    assert Seek(t, env, d.name, Row, d.line) == Run(t, Ok(()));
    assert Trail(env, t.keystrokes, t.cursor, Column, Forward, 40, env.seekBudget) == (Pos(6, 40), Reached);
  }

  /** The TAB of `CyclingTabNeverSettles`: it swaps the cursor between columns 10 and 20. */
  ghost predicate SwapsTens(env: Env) {
    forall k, p :: env.motion(k, p, TabFwd) == Moves(0, p.(col := 30 - p.col))
  }

  lemma {:induction false} SwapsTensTrail(env: Env, k: nat, p: Pos, fuel: nat)
    requires SwapsTens(env) && (p.col == 10 || p.col == 20)
    ensures Trail(env, k, p, Column, Forward, 40, fuel).1 == Unsettled
    decreases fuel
  {
    if fuel > 0 {
      assert env.motion(k, p, TabFwd) == Moves(0, p.(col := 30 - p.col));
      SwapsTensTrail(env, k + 1, p.(col := 30 - p.col), fuel - 1);
    }
  }

  /**
   * A TAB that only ever swaps the cursor between columns 10 and 20 never brings
   * it to column 40, and it never stops showing a change either: however many
   * keystrokes the model follows, the seek is still unsettled.
   */
  lemma CyclingTabNeverSettles(t: Term, env: Env, name: string, fuel: nat)
    requires !t.closed && (t.cursor.col == 10 || t.cursor.col == 20)
    requires SwapsTens(env)
    ensures MoveLoop(t, env, name, Column, Forward, 40, fuel).r == Err(SeekUnsettled)
  {
    SwapsTensTrail(env, t.keystrokes, t.cursor, fuel);
  }

  /** The other axis. */
  function Other(axis: Axis): Axis {
    if axis == Row then Column else Row
  }

  /** |a - b|. */
  function Dist(a: int, b: int): nat {
    if a >= b then a - b else b - a
  }

  /** A cursor that shows every keystroke at once, one cell along its axis. */
  ghost predicate Obedient(env: Env) {
    forall k, p, axis, dir :: env.motion(k, p, KeyFor(axis, dir)) == Moves(0, Moved(p, axis, dir, 1))
  }

  lemma {:induction false} ObedientTrail(env: Env, k: nat, p: Pos, axis: Axis, dir: Direction, target: int, fuel: nat)
    requires Obedient(env)
    requires dir == Backward ==> Coord(p, axis) >= target
    requires dir == Forward ==> Coord(p, axis) <= target
    requires fuel >= Dist(Coord(p, axis), target)
    ensures Trail(env, k, p, axis, dir, target, fuel).1 == Reached
    ensures Coord(Trail(env, k, p, axis, dir, target, fuel).0, axis) == target
    ensures Coord(Trail(env, k, p, axis, dir, target, fuel).0, Other(axis)) == Coord(p, Other(axis))
    decreases fuel
  {
    if Short(p, axis, dir, target) {
      assert env.motion(k, p, KeyFor(axis, dir)) == Moves(0, Moved(p, axis, dir, 1));
      ObedientTrail(env, k + 1, Moved(p, axis, dir, 1), axis, dir, target, fuel - 1);
    }
  }

  /**
   * With an obedient cursor and keystrokes enough for the distance, the loop stops
   * exactly on the target, raises nothing and leaves the other coordinate alone.
   */
  lemma ObedientLoop(t: Term, env: Env, name: string, axis: Axis, dir: Direction, target: int, fuel: nat)
    requires Obedient(env) && !t.closed
    requires dir == Backward ==> Coord(t.cursor, axis) >= target
    requires dir == Forward ==> Coord(t.cursor, axis) <= target
    requires fuel >= Dist(Coord(t.cursor, axis), target)
    ensures MoveLoop(t, env, name, axis, dir, target, fuel).r.Ok?
    ensures Coord(MoveLoop(t, env, name, axis, dir, target, fuel).t.cursor, axis) == target
    ensures Coord(MoveLoop(t, env, name, axis, dir, target, fuel).t.cursor, Other(axis)) == Coord(t.cursor, Other(axis))
  {
    ObedientTrail(env, t.keystrokes, t.cursor, axis, dir, target, fuel);
  }

  /** With an obedient cursor and budget enough, a phase lands on its target and keeps the other coordinate. */
  lemma ObedientSeek(t: Term, env: Env, name: string, axis: Axis, target: int)
    requires Obedient(env) && !t.closed && env.seekBudget >= Dist(Coord(t.cursor, axis), target)
    ensures Seek(t, env, name, axis, target).r.Ok?
    ensures Coord(Seek(t, env, name, axis, target).t.cursor, axis) == target
    ensures Coord(Seek(t, env, name, axis, target).t.cursor, Other(axis)) == Coord(t.cursor, Other(axis))
    ensures !Seek(t, env, name, axis, target).t.closed
  {
    if Coord(t.cursor, axis) > target {
      ObedientLoop(t, env, name, axis, Backward, target, env.seekBudget);
    } else if Coord(t.cursor, axis) < target {
      ObedientLoop(t, env, name, axis, Forward, target, env.seekBudget);
    }
  }

  /**
   * With an obedient cursor, an open terminal and a seek budget covering both
   * distances, every writable field is reached, at its start.
   */
  lemma ObedientReaches(t: Term, env: Env, d: Descriptor)
    requires Obedient(env) && !t.closed && d.writable
    requires env.seekBudget >= Dist(t.cursor.line, d.line) && env.seekBudget >= Dist(t.cursor.col, d.start)
    ensures MoveCursorHere(t, env, d).r.Ok?
    ensures MoveCursorHere(t, env, d).t.cursor == Pos(d.line, d.start)
  {
    ObedientSeek(t, env, d.name, Row, d.line);
    var a := Seek(t, env, d.name, Row, d.line);
    ObedientSeek(a.t, env, d.name, Column, d.start);
  }

  /** TAB keystrokes never take the cursor off its row. */
  ghost predicate TabsKeepRow(env: Env) {
    forall k, p, dir :: env.motion(k, p, KeyFor(Column, dir)).Moves? ==> env.motion(k, p, KeyFor(Column, dir)).to.line == p.line
  }

  lemma {:induction false} SteadyTrail(env: Env, k: nat, p: Pos, dir: Direction, target: int, fuel: nat)
    requires TabsKeepRow(env)
    ensures Trail(env, k, p, Column, dir, target, fuel).0.line == p.line
    decreases fuel
  {
    if Short(p, Column, dir, target) && fuel > 0 {
      var m := env.motion(k, p, KeyFor(Column, dir));
      assert m.Moves? ==> m.to.line == p.line;
      if Shows(m, p, Column) {
        SteadyTrail(env, k + 1, m.to, dir, target, fuel - 1);
      }
    }
  }

  /** When TABs keep the row, a successful seek on an open terminal leaves the cursor exactly at the field's start. */
  lemma SteadyRowReachesStart(t: Term, env: Env, d: Descriptor)
    requires TabsKeepRow(env) && !t.closed
    ensures MoveCursorHere(t, env, d).r.Ok? ==> MoveCursorHere(t, env, d).t.cursor == Pos(d.line, d.start)
  {
    if d.writable {
      var a := Seek(t, env, d.name, Row, d.line);
      if a.r.Ok? {
        SteadyTrail(env, a.t.keystrokes, a.t.cursor, Backward, d.start, env.seekBudget);
        SteadyTrail(env, a.t.keystrokes, a.t.cursor, Forward, d.start, env.seekBudget);
      }
    }
  }

  /**
   * A cursor that does not show the first row keystroke as a change of row makes
   * a seek towards another row fail with FieldValueError, the cursor wherever the
   * emulator put it.
   */
  lemma StuckCursorFails(t: Term, env: Env, d: Descriptor)
    requires !t.closed && d.writable && t.cursor.line != d.line && env.seekBudget >= 1
    requires !Shows(Answer(t, env, Row, if t.cursor.line > d.line then Backward else Forward), t.cursor, Row)
    ensures MoveCursorHere(t, env, d).r.Err?
    ensures MoveCursorHere(t, env, d).r.error.FieldValueError?
    ensures MoveCursorHere(t, env, d).t.cursor == Landed(Answer(t, env, Row, if t.cursor.line > d.line then Backward else Forward), t.cursor)
  {
  }

  // ---------------------------------------------------------------- flush

  /**
   * `s * n` for a string and an int: empty when n is not positive, otherwise n
   * copies of s one after another, so each character past the first copy repeats
   * the one |s| places before it.
   */
  function RepeatText(s: string, n: int): (r: string)
    ensures n <= 0 ==> r == []
    ensures |r| == (if n <= 0 then 0 else n) * |s|
    ensures forall j :: 0 <= j < |r| ==> r[j] == if j < |s| then s[j] else r[j - |s|]
    decreases n
  {
    if n <= 0 then [] else s + RepeatText(s, n - 1)
  }

  /** `cursor.write(text)`. */
  function Write(t: Term, text: string): (r: Term)
    ensures Typing(r.log) == Typing(t.log) + [text]
    ensures Sends(r.log) == Sends(t.log)
    ensures r.closed == t.closed && r.cursor == t.cursor
  {
    TypingAppend(t.log, [Typed(text)]);
    SendsSnoc(t.log, Typed(text));
    t.(log := t.log + [Typed(text)])
  }

  /** `clear_field`, behind the writable guard: seek the field, then type `size` DELETEs. */
  function ClearField(t: Term, env: Env, d: Descriptor, delete: string): (r: Run<()>)
    ensures !d.writable ==> r == Run(t, Err(ReadOnlyField(d.name)))
    ensures r.r.Ok? ==> Typing(r.t.log) == Typing(t.log) + [RepeatText(delete, d.size)]
    ensures r.r.Ok? ==> r.t.cursor.col == d.start
    ensures r.r.Err? ==> Typing(r.t.log) == Typing(t.log)
    ensures r.t.closed == t.closed
    ensures d.writable ==> (r.r.Err? && r.r.error == DriverClosed <==> t.closed)
    ensures d.writable && t.closed ==> r == Run(t, Err(DriverClosed))
  {
    var m := MoveCursorHere(t, env, d);
    if m.r.Err? then m
    else Run(Write(m.t, RepeatText(delete, d.size)), Ok(()))
  }

  /** The outcome of flushing one field: the terminal, the field, and a value or an exception. */
  datatype FieldRun = FieldRun(t: Term, field: Field, r: Result<(), Exc>)

  /**
   * `Field.flush`, behind the writable guard: nothing to do without a buffer;
   * otherwise seek, clear, type the buffer and empty it.
   */
  function FlushField(t: Term, env: Env, f: Field, delete: string): (r: FieldRun)
    ensures !f.desc.writable ==> r == FieldRun(t, f, Err(ReadOnlyField(f.desc.name)))
    ensures f.desc.writable && !FlushRequired(f) ==> r == FieldRun(t, f, Ok(()))
    ensures r.r.Ok? ==> r.field == f.(buffer := None)
    ensures r.r.Ok? && FlushRequired(f) ==>
      && Typing(r.t.log) == Typing(t.log) + [RepeatText(delete, f.desc.size), f.buffer.value]
      && r.t.cursor.col == f.desc.start
    ensures r.r.Err? ==> r.field == f && Typing(r.t.log) == Typing(t.log)
    ensures r.t.closed == t.closed
    ensures f.desc.writable && FlushRequired(f) ==> (r.r.Err? && r.r.error == DriverClosed <==> t.closed)
    ensures f.desc.writable && FlushRequired(f) && t.closed ==> r == FieldRun(t, f, Err(DriverClosed))
    ensures !t.closed && f.desc.writable ==> r.r.Err? ==> r.r.error != DriverClosed
  {
    if !f.desc.writable then FieldRun(t, f, Err(ReadOnlyField(f.desc.name)))
    else if f.buffer.None? then FieldRun(t, f, Ok(()))
    else
      var m := MoveCursorHere(t, env, f.desc);
      if m.r.Err? then FieldRun(m.t, f, m.r)
      else
        var c := ClearField(m.t, env, f.desc, delete);
        if c.r.Err? then FieldRun(c.t, f, c.r)
        else
          var w := Write(c.t, f.buffer.value);
          FieldRun(w, f.(buffer := None), Ok(()))
  }

  /** What a writable field's assignment buffers is what its flush types, after the DELETEs. */
  lemma AssignThenFlush(t: Term, env: Env, f: Field, modified: bool, v: Py.Value, delete: string)
    requires f.desc.writable
    ensures var g := Assign(f, modified, v).value.0;
      var r := FlushField(t, env, g, delete);
      r.r.Ok? ==> Typing(r.t.log) == Typing(t.log) + [RepeatText(delete, f.desc.size), Py.ToStr(v)] && !FlushRequired(r.field)
  {
  }
}
