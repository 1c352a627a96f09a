/** Updates of a player's state, and points on the screen. Floating-point coordinates are modelled as reals. */
module Updates {
  import opened Base

  datatype Vec = Vec(x: real, y: real)

  datatype Kind = POSITION | FIRE | DEAD

  /** Times are in nanoseconds. */
  datatype Update = Update(kind: Kind, time: int, nonce: uint64, playerID: uint64, otherPlayer: uint64, pos: Vec,
      angle: real)
  {
    function MoveLeft(dt: real): Update { this.(pos := Vec(pos.x - PLAYER_SPEED * dt, pos.y)) }

    function MoveRight(dt: real): Update { this.(pos := Vec(pos.x + PLAYER_SPEED * dt, pos.y)) }

    function MoveDown(dt: real): Update { this.(pos := Vec(pos.x, pos.y - PLAYER_SPEED * dt)) }

    function MoveUp(dt: real): Update { this.(pos := Vec(pos.x, pos.y + PLAYER_SPEED * dt)) }

    /** The update of a shot from this player's place, which carries no time or nonce yet. */
    function Fire(direction: Vec): Update {
      Update(FIRE, 0, 0, playerID, 0,
          Vec(pos.x + MUZZLE_DISTANCE * direction.x, pos.y + MUZZLE_DISTANCE * direction.y), angle)
    }

    function Bound(): Update { this.(pos := Vec(Clamp(pos.x, MIN_X, MAX_X), Clamp(pos.y, MIN_Y, MAX_Y))) }

    function Timestamp(time: int, nonce: uint64): Update { this.(time := time, nonce := nonce) }
  }

  function Clamp(x: real, low: real, high: real): real { if x < low then low else if x > high then high else x }

  /** Pixels per second. */
  const PLAYER_SPEED := 150.0

  /** How far from the player's place a shot starts. */
  const MUZZLE_DISTANCE := 30.0

  const MIN_X := 0.0
  const MIN_Y := 0.0
  const MAX_X := 1024.0
  const MAX_Y := 668.0

  /** The closed rectangle of the window. */
  predicate InWindow(p: Vec) { MIN_X <= p.x <= MAX_X && MIN_Y <= p.y <= MAX_Y }

  function Seconds(nanoseconds: int): real { nanoseconds as real / 1000000000.0 }

  function Square(a: real): real { a * a }

  /** The square of the distance between two points. */
  function Distance2(p: Vec, q: Vec): real { Square(q.x - p.x) + Square(q.y - p.y) }

  /** The points are at most reach apart, for a reach that may be negative: the comparison of the speed check. */
  predicate Within(p: Vec, q: Vec, reach: real) { 0.0 <= reach && Distance2(p, q) <= Square(reach) }

  lemma SquareNonNegative(a: real)
    ensures Square(a) >= 0.0
  {
  }

  lemma SquareReflects(a: real, b: real)
    requires Square(a) <= Square(b) && 0.0 <= b
    ensures a <= b
  {
    if a > b {
      SquareStrict(b, a);
    }
  }

  lemma SquareStrict(a: real, b: real)
    requires 0.0 <= a < b
    ensures Square(a) < Square(b)
  {
    var sum, gap := a + b, b - a;
    assert sum * gap > 0.0;
    assert Square(b) - Square(a) == sum * gap;
  }

  lemma ProductMonotone(a: real, b: real, c: real, d: real)
    requires 0.0 <= a <= b && 0.0 <= c <= d
    ensures 0.0 <= a * c <= b * d
  {
    assert a * c <= b * c;
    assert b * c <= b * d;
  }

  lemma SquareOfSum(a: real, b: real)
    ensures Square(a + b) == Square(a) + Square(b) + 2.0 * (a * b)
  {
  }

  lemma SquareOfProduct(a: real, b: real)
    ensures Square(a * b) == Square(a) * Square(b)
  {
    assert (a * b) * (a * b) == a * (b * (a * b)) == a * (a * (b * b));
  }

  lemma CrossProducts(a: real, b: real, c: real, d: real)
    ensures (a * d) * (b * c) == (a * c) * (b * d)
  {
    assert (a * d) * (b * c) == a * (d * (b * c)) == a * (c * (b * d));
  }

  lemma Distribute(a: real, b: real, c: real, d: real)
    ensures (a + b) * (c + d) == a * c + a * d + b * c + b * d
  {
  }

  lemma TwiceProductAtMostSquares(a: real, b: real)
    ensures 2.0 * (a * b) <= Square(a) + Square(b)
  {
    SquareNonNegative(a - b);
    assert Square(a - b) == Square(a) + Square(b) - 2.0 * (a * b);
  }

  /** The inequality of Cauchy and Schwarz in the plane. */
  lemma CauchySchwarz(a: real, b: real, c: real, d: real)
    ensures Square(a * c + b * d) <= (Square(a) + Square(b)) * (Square(c) + Square(d))
  {
    SquareOfSum(a * c, b * d);
    CrossProducts(a, b, c, d);
    TwiceProductAtMostSquares(a * d, b * c);
    SquareOfProduct(a, c); SquareOfProduct(b, d); SquareOfProduct(a, d); SquareOfProduct(b, c);
    Distribute(Square(a), Square(b), Square(c), Square(d));
  }

  /** The inner product of two steps is at most the product of their reaches. */
  lemma InnerProductBound(a: real, b: real, c: real, d: real, first: real, second: real)
    requires 0.0 <= first && Square(a) + Square(b) <= Square(first)
    requires 0.0 <= second && Square(c) + Square(d) <= Square(second)
    ensures a * c + b * d <= first * second
  {
    CauchySchwarz(a, b, c, d);
    SquareNonNegative(a); SquareNonNegative(b); SquareNonNegative(c); SquareNonNegative(d);
    ProductMonotone(Square(a) + Square(b), Square(first), Square(c) + Square(d), Square(second));
    SquareOfProduct(first, second);
    ProductMonotone(0.0, first, 0.0, second);
    SquareReflects(a * c + b * d, first * second);
  }

  /** Reaches add up along a path. */
  lemma TriangleInequality(p: Vec, q: Vec, r: Vec, first: real, second: real)
    requires Within(p, q, first) && Within(q, r, second)
    ensures Within(p, r, first + second)
  {
    var a, b, c, d := q.x - p.x, q.y - p.y, r.x - q.x, r.y - q.y;
    InnerProductBound(a, b, c, d, first, second);
    SquareOfSum(a, c);
    SquareOfSum(b, d);
    SquareOfSum(first, second);
    assert r.x - p.x == a + c && r.y - p.y == b + d;
  }
}
