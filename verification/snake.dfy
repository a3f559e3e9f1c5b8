/** Snake on a 20×20 grid: every tick the head advances one cell in the pending
    direction, hitting a wall or the body ends the game, and eating the food grows
    the snake by one cell. */
module Snake {
  import opened Chance
  import opened Options

  const ROWS: int := 20
  const COLS: int := 20
  /** Milliseconds between ticks at the start. */
  const INITIAL_SPEED: int := 160
  /** The tick interval never drops below this. */
  const MIN_SPEED: int := 70

  datatype Pos = Pos(x: int, y: int)

  function Add(a: Pos, d: Pos): Pos {
    Pos(a.x + d.x, a.y + d.y)
  }

  predicate InBounds(p: Pos) {
    0 <= p.x < COLS && 0 <= p.y < ROWS
  }

  /** One of the four unit steps. */
  predicate Unit(d: Pos) {
    (d.x == 0 && (d.y == 1 || d.y == -1)) || (d.y == 0 && (d.x == 1 || d.x == -1))
  }

  /** `curr.x + next.x === 0 && curr.y + next.y === 0`. */
  predicate Opposite(a: Pos, b: Pos) {
    a.x + b.x == 0 && a.y + b.y == 0
  }

  datatype Dir = Up | Down | Left | Right

  /** `DIRS`: the arrow keys, and w/a/s/d in either case, map to these steps. */
  function Vec(d: Dir): (v: Pos)
    ensures Unit(v)
  {
    match d
    case Up => Pos(0, -1)
    case Down => Pos(0, 1)
    case Left => Pos(-1, 0)
    case Right => Pos(1, 0)
  }

  datatype Key = DirKey(d: Dir) | PauseKey | ResetKey | OtherKey

  /** The game. `pending` is the direction the next tick takes (`pendingDir`);
      `heading` is the direction the last tick took, which the source does not keep. */
  datatype State = State(snake: seq<Pos>, pending: Pos, heading: Pos, food: Pos,
                         paused: bool, over: bool, score: int, speed: int)

  const START: seq<Pos> := [Pos(10, 10), Pos(9, 10), Pos(8, 10)]

  /** `reset`: the three-cell snake in the middle heading right, food at (14, 10). */
  function Reset(): State {
    State(START, Pos(1, 0), Pos(1, 0), Pos(14, 10), false, false, 0, INITIAL_SPEED)
  }

  // ---------------------------------------------------------------------------
  // Food

  /** `f` is a free cell for food next to the cells `taken`. */
  predicate FoodSpot(f: Pos, taken: seq<Pos>) {
    InBounds(f) && f !in taken
  }

  /** `randomCell(exclude)`: draw cells until one is not excluded. None when the draws
      run out first (the source would keep drawing). */
  function RandomCell(exclude: seq<Pos>, draws: seq<(Draw, Draw)>): (r: Option<Pos>)
    requires forall i :: 0 <= i < |draws| ==> Valid(draws[i].0) && Valid(draws[i].1)
    ensures r.Some? ==> FoodSpot(r.value, exclude)
  {
    if |draws| == 0 then None
    else
      var c := Pos(Scale(draws[0].0, COLS), Scale(draws[0].1, ROWS));
      if c !in exclude then Some(c) else RandomCell(exclude, draws[1..])
  }

  /** Every free cell is the answer to some draw. */
  lemma RandomCellReachesAll(exclude: seq<Pos>, c: Pos)
    requires FoodSpot(c, exclude)
    ensures RandomCell(exclude, [(Draw(c.x, COLS), Draw(c.y, ROWS))]) == Some(c)
  {
    ScaleOnto(COLS, c.x);
    ScaleOnto(ROWS, c.y);
  }

  /** The initial state: the reset snake with food on a random free cell. */
  function Initial(draws: seq<(Draw, Draw)>): (s: Option<State>)
    requires forall i :: 0 <= i < |draws| ==> Valid(draws[i].0) && Valid(draws[i].1)
    ensures s.Some? ==> FoodSpot(s.value.food, START) && s.value == Reset().(food := s.value.food)
  {
    match RandomCell(START, draws)
    case None => None
    case Some(f) => Some(Reset().(food := f))
  }

  // ---------------------------------------------------------------------------
  // The tick

  function NextHead(s: State): Pos
    requires |s.snake| > 0
  {
    Add(s.snake[0], s.pending)
  }

  /** The timer runs only while the game is neither paused nor over. */
  predicate Running(s: State) {
    !s.paused && !s.over
  }

  /** This tick eats the food. */
  predicate Eats(s: State)
    requires |s.snake| > 0
  {
    Running(s) && InBounds(NextHead(s)) && NextHead(s) !in s.snake && NextHead(s) == s.food
  }

  /** The speed rule on eating: every fifth food (the score before it is added reaches a
      multiple of 50) the interval shrinks by 10 ms, but not below 70 ms. Only whether
      50 divides the sum matters, so JavaScript's `%` and Dafny's agree here. */
  function SpeedAfterEating(score: int, speed: int): (sp: int)
    ensures sp == speed || sp == if speed - 10 < MIN_SPEED then MIN_SPEED else speed - 10
    ensures speed >= MIN_SPEED ==> MIN_SPEED <= sp <= speed
    ensures (score + 10) % 50 != 0 ==> sp == speed
    ensures (score + 10) % 50 == 0 && speed > MIN_SPEED ==> MIN_SPEED <= sp < speed
  {
    if (score + 10) % 50 == 0 then (if speed - 10 < MIN_SPEED then MIN_SPEED else speed - 10) else speed
  }

  /** One tick of the game loop; `f` is the new food should this tick eat. */
  function Tick(s: State, f: Pos): (s': State)
    requires |s.snake| > 0
    requires Eats(s) ==> FoodSpot(f, [NextHead(s)] + s.snake)
    ensures |s'.snake| > 0
    ensures !Running(s) ==> s' == s
    ensures s'.paused == s.paused && s'.pending == s.pending
    ensures s'.over <==> s.over || (Running(s) && (!InBounds(NextHead(s)) || NextHead(s) in s.snake))
    ensures Running(s) && (!InBounds(NextHead(s)) || NextHead(s) in s.snake) ==> s' == s.(over := true)
    ensures Eats(s) ==> s'.snake == [NextHead(s)] + s.snake && s'.score == s.score + 10 && s'.food == f
    ensures Eats(s) ==> s'.speed == SpeedAfterEating(s.score, s.speed)
    ensures Running(s) && InBounds(NextHead(s)) && NextHead(s) !in s.snake && !Eats(s) ==>
      && |s'.snake| == |s.snake|
      && s'.snake[0] == NextHead(s)
      && s'.snake[1..] == s.snake[..|s.snake| - 1]
      && s'.score == s.score && s'.food == s.food && s'.speed == s.speed
  {
    if !Running(s) then s
    else
      var head := NextHead(s);
      if !InBounds(head) then s.(over := true)
      else if head in s.snake then s.(over := true)
      else if head == s.food then
        s.(snake := [head] + s.snake,
           heading := s.pending,
           score := s.score + 10,
           speed := SpeedAfterEating(s.score, s.speed),
           food := f)
      else
        s.(snake := [head] + s.snake[..|s.snake| - 1], heading := s.pending)
  }

  /** The head running into the cell the tail is about to leave still ends the game. */
  lemma TailIsNotFree(s: State, f: Pos)
    requires |s.snake| > 0 && Running(s) && InBounds(NextHead(s)) && NextHead(s) == s.snake[|s.snake| - 1]
    ensures Tick(s, f).over && Tick(s, f).snake == s.snake
  {
  }

  /** Distinct cells. */
  predicate Distinct(cells: seq<Pos>) {
    forall i, j :: 0 <= i < j < |cells| ==> cells[i] != cells[j]
  }

  /** The state invariant: a non-empty snake of distinct cells inside the grid, food on
      a free cell, a score of whole foods and a speed not below the floor. */
  predicate Inv(s: State) {
    && |s.snake| > 0
    && (forall i :: 0 <= i < |s.snake| ==> InBounds(s.snake[i]))
    && Distinct(s.snake)
    && FoodSpot(s.food, s.snake)
    && s.score >= 0 && s.score % 10 == 0
    && s.speed >= MIN_SPEED
  }

  lemma ResetInv()
    ensures Inv(Reset())
  {
  }

  /** Every tick keeps the invariant. */
  lemma TickKeepsInv(s: State, f: Pos)
    requires Inv(s) && (Eats(s) ==> FoodSpot(f, [NextHead(s)] + s.snake))
    ensures Inv(Tick(s, f))
  {
    if Running(s) && InBounds(NextHead(s)) && NextHead(s) !in s.snake && !Eats(s) {
      var s' := Tick(s, f);
      var body := s.snake[..|s.snake| - 1];
      assert forall p :: p in body ==> p in s.snake;
      assert s'.snake == [NextHead(s)] + body;
    }
  }

  /** The speed only ever drops by 10 ms at a time, and never below 70 ms. */
  lemma SpeedFloor(s: State, f: Pos)
    requires Inv(s) && (Eats(s) ==> FoodSpot(f, [NextHead(s)] + s.snake))
    ensures var sp := Tick(s, f).speed;
            MIN_SPEED <= sp <= s.speed && (sp == s.speed || sp == s.speed - 10 || sp == MIN_SPEED)
  {
  }

  // ---------------------------------------------------------------------------
  // Keys

  /** `onKey` as written: P pauses or resumes, R resets, and a direction key becomes
      the pending direction unless the game is paused or over or the key points
      opposite to the pending direction. */
  function OnKey(s: State, key: Key): (s': State)
    ensures key == ResetKey ==> s' == Reset()
    ensures key == PauseKey ==> s' == s.(paused := !s.paused)
    ensures key == OtherKey ==> s' == s
    ensures key.DirKey? ==> s' == s.(pending := s'.pending)
    ensures key.DirKey? && s'.pending != s.pending ==>
      s'.pending == Vec(key.d) && !s.over && !s.paused && !Opposite(s.pending, s'.pending)
    ensures Unit(s.pending) ==> Unit(s'.pending)
  {
    match key
    case PauseKey => s.(paused := !s.paused)
    case ResetKey => Reset()
    case OtherKey => s
    case DirKey(d) =>
      if s.over || s.paused then s
      else if Opposite(s.pending, Vec(d)) then s
      else s.(pending := Vec(d))
  }

  /** Keys never break the invariant. */
  lemma OnKeyKeepsInv(s: State, key: Key)
    requires Inv(s)
    ensures Inv(OnKey(s, key))
  {
  }

  /** A direction key is ignored while paused or over, and when it reverses the
      pending direction; any other direction key becomes the pending one. */
  lemma DirectionFilter(s: State, d: Dir)
    ensures s.over || s.paused || Opposite(s.pending, Vec(d)) ==> OnKey(s, DirKey(d)) == s
    ensures !(s.over || s.paused || Opposite(s.pending, Vec(d))) ==> OnKey(s, DirKey(d)).pending == Vec(d)
  {
  }
}

/** The double turn: the reverse test in `onKey` compares a key with the pending
    direction, so two keys inside one tick can still turn the snake back into its neck.
    The corrected handler compares with the direction of the last tick. */
module SnakeTurns {
  import opened Snake

  /** `onKey` with the reverse test made against the direction of the last tick. */
  function OnKeyChecked(s: State, key: Key): (s': State)
    ensures key == ResetKey ==> s' == Reset()
    ensures key == PauseKey ==> s' == s.(paused := !s.paused)
    ensures key == OtherKey ==> s' == s
    ensures key.DirKey? ==> s' == s.(pending := s'.pending)
    ensures key.DirKey? && s'.pending != s.pending ==>
      s'.pending == Vec(key.d) && !s.over && !s.paused && !Opposite(s.heading, s'.pending)
    ensures Unit(s.pending) ==> Unit(s'.pending)
  {
    match key
    case PauseKey => s.(paused := !s.paused)
    case ResetKey => Reset()
    case OtherKey => s
    case DirKey(d) =>
      if s.over || s.paused then s
      else if Opposite(s.heading, Vec(d)) then s
      else s.(pending := Vec(d))
  }

  /** The corrected handler keeps the invariant too. */
  lemma OnKeyCheckedKeepsInv(s: State, key: Key)
    requires Inv(s)
    ensures Inv(OnKeyChecked(s, key))
  {
  }

  /** As written: moving right, pressing Up and then Left before the next tick turns
      the snake back into its own neck, and the tick ends the game. */
  lemma DoubleTurnEndsGame(f: Pos)
    ensures var s := OnKey(OnKey(Reset(), DirKey(Up)), DirKey(Left));
            s.pending == Vec(Left) && Tick(s, f).over
  {
    var s := OnKey(OnKey(Reset(), DirKey(Up)), DirKey(Left));
    assert NextHead(s) == s.snake[1];
  }

  /** The snake is steered: both directions are unit steps, the pending one does not
      reverse the last one, and the neck lies one step behind the head. */
  predicate Steered(s: State) {
    && Unit(s.pending) && Unit(s.heading)
    && !Opposite(s.pending, s.heading)
    && (|s.snake| >= 2 ==> Add(s.snake[1], s.heading) == s.snake[0])
  }

  lemma ResetSteered()
    ensures Steered(Reset())
  {
  }

  /** Ticks keep the snake steered: the head moves one pending step from the old head,
      which becomes the neck. */
  lemma TickKeepsSteered(s: State, f: Pos)
    requires Inv(s) && Steered(s) && (Eats(s) ==> FoodSpot(f, [NextHead(s)] + s.snake))
    ensures Steered(Tick(s, f))
  {
    var s' := Tick(s, f);
    if Running(s) && InBounds(NextHead(s)) && NextHead(s) !in s.snake {
      assert s'.heading == s.pending && s'.pending == s.pending;
      assert s'.snake[0] == NextHead(s);
      if |s'.snake| >= 2 {
        assert s'.snake[1] == s.snake[0];
      }
    } else {
      assert s'.snake == s.snake && s'.pending == s.pending && s'.heading == s.heading;
    }
  }

  /** The corrected key handler keeps the snake steered. */
  lemma OnKeyCheckedKeepsSteered(s: State, key: Key)
    requires Steered(s)
    ensures Steered(OnKeyChecked(s, key))
  {
    if key.DirKey? {
      var v := Vec(key.d);
      assert Unit(v);
    }
  }

  /** A steered snake never turns into its neck, so the double turn cannot end the game. */
  lemma NeverIntoNeck(s: State)
    requires Steered(s) && |s.snake| >= 2
    ensures NextHead(s) != s.snake[1]
  {
  }

  /** With the corrected handler the same two keys leave the snake going up, and the
      tick does not end the game. */
  lemma DoubleTurnSurvives(f: Pos)
    ensures var s := OnKeyChecked(OnKeyChecked(Reset(), DirKey(Up)), DirKey(Left));
            s == Reset().(pending := Vec(Up)) && !Tick(s, f).over
  {
    UpThenLeftIsUp();
    UpFromStartMoves(f);
  }

  lemma UpThenLeftIsUp()
    ensures OnKeyChecked(OnKeyChecked(Reset(), DirKey(Up)), DirKey(Left)) == Reset().(pending := Vec(Up))
  {
    var s1 := OnKeyChecked(Reset(), DirKey(Up));
    assert s1 == Reset().(pending := Vec(Up));
  }

  lemma UpFromStartMoves(f: Pos)
    ensures !Tick(Reset().(pending := Vec(Up)), f).over
  {
    assert Pos(10, 9) !in START;
  }
}
