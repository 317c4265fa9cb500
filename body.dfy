/** The rules for the snake's body over one tick: where the head goes, when
    the tail stays, and when the new head lands on the body. */
module Body {
  import opened Grid

  /** The body after one tick. The new head is put in front; the old body is
      kept whole when the OLD head sits on the food, otherwise its last
      segment is dropped. */
  function NextBody(body: seq<Cell>, d: Direction, food: Cell): (r: seq<Cell>)
    requires |body| >= 1
    ensures |r| == if body[0] == food then |body| + 1 else |body|
    ensures r[0] == NextHead(body[0], d)
    ensures forall i :: 1 <= i < |r| ==> r[i] == body[i - 1]
  {
    var grown := [NextHead(body[0], d)] + body;
    if body[0] == food then grown else grown[..|grown| - 1]
  }

  /** `head` equals a segment of `body` other than the first. */
  predicate HitsBody(head: Cell, body: seq<Cell>)
  {
    exists i :: 1 <= i < |body| && body[i] == head
  }

  /** The segments of the old body that survive the tick. */
  function Kept(body: seq<Cell>, food: Cell): seq<Cell>
    requires |body| >= 1
  {
    if body[0] == food then body else body[..|body| - 1]
  }

  /** The tick collides exactly when the new head lands on a segment that
      survives the tick: the tail cell it vacates is free unless it grew. */
  lemma CollisionLaw(body: seq<Cell>, d: Direction, food: Cell)
    requires |body| >= 1
    ensures var r := NextBody(body, d, food);
      HitsBody(r[0], r) <==> NextHead(body[0], d) in Kept(body, food)
  {
    var r := NextBody(body, d, food);
    var k := Kept(body, food);
    assert |r| == |k| + 1;
    if HitsBody(r[0], r) {
      var i :| 1 <= i < |r| && r[i] == r[0];
      assert k[i - 1] == body[i - 1];
    }
    if r[0] in k {
      var j :| 0 <= j < |k| && k[j] == r[0];
      assert r[j + 1] == body[j];
    }
  }

  /** A body on the board stays on the board. */
  lemma NextBodyInBounds(body: seq<Cell>, d: Direction, food: Cell)
    requires |body| >= 1 && AllInBounds(body)
    ensures AllInBounds(NextBody(body, d, food))
  {
    var r := NextBody(body, d, food);
    forall c | c in r ensures InBounds(c) {
      var i :| 0 <= i < |r| && r[i] == c;
      if i > 0 { assert body[i - 1] in body; }
    }
  }

  /** Eating is tested on the head before the move: the tick whose new head
      reaches the food does not grow, the tick after it does. */
  lemma EatingIsOneTickLate(body: seq<Cell>, d: Direction, d': Direction, food: Cell)
    requires |body| >= 1 && body[0] != food && NextHead(body[0], d) == food
    ensures |NextBody(body, d, food)| == |body|
    ensures |NextBody(NextBody(body, d, food), d', food)| == |body| + 1
  {
  }
}
