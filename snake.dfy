/** The snake game: one tick moves the head a cell, ends the game on a wall
    or on the body, and grows the snake when food was eaten; arrow keys turn
    it but never straight back. The random food position is a parameter. */
module Snake {

  const GRID_SIZE: int := 20

  datatype Point = Point(x: int, y: int)

  datatype Direction = Up | Down | Left | Right

  /** The keys the key handler distinguishes; every other key is ignored. */
  datatype Key = ArrowUp | ArrowDown | ArrowLeft | ArrowRight | OtherKey

  function Abs(n: int): nat {
    if n < 0 then -n else n
  }

  predicate InGrid(p: Point) {
    0 <= p.x < GRID_SIZE && 0 <= p.y < GRID_SIZE
  }

  /** a and b differ by exactly one in exactly one coordinate. */
  predicate Adjacent(a: Point, b: Point) {
    Abs(a.x - b.x) + Abs(a.y - b.y) == 1
  }

  function Opposite(d: Direction): (o: Direction)
    ensures o != d
  {
    match d
    case Up => Down
    case Down => Up
    case Left => Right
    case Right => Left
  }

  /** The switch of moveSnake: y grows downwards, x to the right. */
  function NextHead(head: Point, d: Direction): (h: Point)
    ensures Adjacent(head, h)
    ensures (d == Up || d == Down) <==> h.x == head.x
    ensures (d == Up ==> h.y < head.y) && (d == Down ==> h.y > head.y)
    ensures (d == Left ==> h.x < head.x) && (d == Right ==> h.x > head.x)
  {
    match d
    case Up => Point(head.x, head.y - 1)
    case Down => Point(head.x, head.y + 1)
    case Left => Point(head.x - 1, head.y)
    case Right => Point(head.x + 1, head.y)
  }

  /** Stepping in the opposite direction undoes a step. */
  lemma StepBack(p: Point, d: Direction)
    ensures NextHead(NextHead(p, d), Opposite(d)) == p
  {
  }

  /** The key handler: an arrow sets its direction unless that is the exact
      opposite of the current one; other keys change nothing. */
  function ChangeDirection(current: Direction, key: Key): (next: Direction)
    ensures next != Opposite(current)
    ensures key == OtherKey ==> next == current
    ensures key == ArrowUp ==> next == (if current == Down then current else Up)
    ensures key == ArrowDown ==> next == (if current == Up then current else Down)
    ensures key == ArrowLeft ==> next == (if current == Right then current else Left)
    ensures key == ArrowRight ==> next == (if current == Left then current else Right)
  {
    match key
    case ArrowUp => if current != Down then Up else current
    case ArrowDown => if current != Up then Down else current
    case ArrowLeft => if current != Right then Left else current
    case ArrowRight => if current != Left then Right else current
    case OtherKey => current
  }

  /** The rule compares with the current direction, not with the direction
      of the last move, so two keys within one tick can still turn the snake
      straight back: moving right, Up then Left gives Left. */
  lemma TwoKeysReverse()
    ensures ChangeDirection(ChangeDirection(Right, ArrowUp), ArrowLeft) == Opposite(Right)
  {
  }

  /** The self-collision loop of moveSnake: does head equal a segment at
      index 1 or later (the tail included)? */
  method HitsBody(head: Point, snake: seq<Point>) returns (hit: bool)
    ensures hit <==> exists i :: 1 <= i < |snake| && snake[i] == head
  {
    var i := 1;
    while i < |snake|
      invariant 1 <= i
      invariant forall j :: 1 <= j < i && j < |snake| ==> snake[j] != head
    {
      if head == snake[i] {
        return true;
      }
      i := i + 1;
    }
    return false;
  }

  /** Every segment on the grid, consecutive segments adjacent, no two
      segments on the same cell. */
  ghost predicate WellFormedBody(snake: seq<Point>) {
    && (forall i :: 0 <= i < |snake| ==> InGrid(snake[i]))
    && (forall i :: 0 <= i < |snake| - 1 ==> Adjacent(snake[i], snake[i + 1]))
    && (forall i, j :: 0 <= i < j < |snake| ==> snake[i] != snake[j])
  }

  const START: seq<Point> := [Point(10, 10), Point(9, 10), Point(8, 10)]

  class SnakeGame {
    var snake: seq<Point>
    var food: Point
    var direction: Direction
    var speed: int
    var score: int
    var isGameOver: bool

    /** The game invariant: at least three well-formed segments, the tick
        interval between 50 and 200, a non-negative score, food on the grid. */
    ghost predicate Valid()
      reads this
    {
      && |snake| >= 3 && WellFormedBody(snake)
      && 50 <= speed <= 200
      && score >= 0
      && InGrid(food)
    }

    /** The initial state, the same as resetGame leaves. */
    constructor (firstFood: Point)
      requires InGrid(firstFood)
      ensures Valid()
      ensures snake == START && food == firstFood && direction == Right
      ensures speed == 200 && score == 0 && !isGameOver
    {
      snake := START;
      food := firstFood;
      direction := Right;
      speed := 200;
      score := 0;
      isGameOver := false;
    }

    /** checkFoodEaten: it looks at the head of the snake as it was before
        this tick's move; on food it adds 10 points, places new food and
        shortens the interval by 10 down to 50. */
    method CheckFoodEaten(newFood: Point) returns (eaten: bool)
      requires |snake| > 0
      modifies this`score, this`food, this`speed
      ensures eaten <==> snake[0] == old(food)
      ensures eaten ==> score == old(score) + 10 && food == newFood && speed == if old(speed) - 10 < 50 then 50 else old(speed) - 10
      ensures !eaten ==> score == old(score) && food == old(food) && speed == old(speed)
    {
      var head := snake[0];
      eaten := false;
      if head == food {
        score := score + 10;
        food := newFood;
        speed := if 50 > speed - 10 then 50 else speed - 10;
        eaten := true;
      }
    }

    /** The state moveSnake leaves when run on snake s0 with food food0,
        direction d, speed v0, score n0 and game-over flag over0, newFood
        being the next random food: a head off the grid or on the body ends
        the game and leaves the snake as it was; otherwise the new head is put
        in front, and the last segment is dropped unless the old head was on
        the food. */
    ghost predicate Stepped(s0: seq<Point>, food0: Point, d: Direction, v0: int, n0: int, over0: bool, newFood: Point)
      reads this
      requires |s0| > 0
    {
      var head := NextHead(s0[0], d);
      && direction == d
      && if !InGrid(head) || (exists i :: 1 <= i < |s0| && s0[i] == head) then
           isGameOver && snake == s0 && food == food0 && speed == v0 && score == n0
         else if s0[0] == food0 then
           isGameOver == over0 && snake == [head] + s0 && food == newFood
           && score == n0 + 10 && speed == (if v0 - 10 < 50 then 50 else v0 - 10)
         else
           isGameOver == over0 && snake == [head] + s0[..|s0| - 1]
           && food == food0 && speed == v0 && score == n0
    }

    /** moveSnake, one tick. */
    method MoveSnake(newFood: Point)
      requires Valid() && InGrid(newFood)
      modifies this
      ensures Valid()
      ensures Stepped(old(snake), old(food), old(direction), old(speed), old(score), old(isGameOver), newFood)
    {
      var newSnake := snake;
      var head := NextHead(newSnake[0], direction);
      if head.x < 0 || head.x >= GRID_SIZE || head.y < 0 || head.y >= GRID_SIZE {
        isGameOver := true;
        return;
      }
      var hit := HitsBody(head, newSnake);
      if hit {
        isGameOver := true;
        return;
      }
      newSnake := [head] + newSnake;
      var eaten := CheckFoodEaten(newFood);
      if !eaten {
        newSnake := newSnake[..|newSnake| - 1];
      }
      snake := newSnake;
      assert head != old(snake)[0];
    }

    /** The game loop: no interval runs once the game is over; otherwise
        each interval runs moveSnake once. */
    method Tick(newFood: Point)
      requires Valid() && InGrid(newFood)
      modifies this
      ensures Valid() && direction == old(direction)
      ensures old(isGameOver) ==>
        isGameOver && snake == old(snake) && food == old(food) && speed == old(speed) && score == old(score)
      ensures !old(isGameOver) ==>
        Stepped(old(snake), old(food), old(direction), old(speed), old(score), false, newFood)
      ensures score >= old(score) && speed <= old(speed)
      ensures |old(snake)| <= |snake| <= |old(snake)| + 1
    {
      if isGameOver {
        return;
      }
      MoveSnake(newFood);
    }

    /** handleKeyDown. */
    method KeyDown(key: Key)
      modifies this`direction
      ensures direction == ChangeDirection(old(direction), key)
    {
      direction := ChangeDirection(direction, key);
    }

    /** resetGame. */
    method ResetGame(newFood: Point)
      requires InGrid(newFood)
      modifies this
      ensures Valid()
      ensures snake == START && food == newFood && direction == Right
      ensures speed == 200 && score == 0 && !isGameOver
    {
      snake := START;
      food := newFood;
      direction := Right;
      speed := 200;
      score := 0;
      isGameOver := false;
    }
  }
}
