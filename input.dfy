/** The keys the game reacts to and the rule that turns an arrow key into a
    new direction without allowing a reversal. */
module Input {
  import opened Options
  import opened Grid

  /** A key press; `Space` covers both the ' ' key value and key code 32. */
  datatype Key = Space | ArrowUp | ArrowDown | ArrowLeft | ArrowRight | OtherKey

  /** The direction an arrow key asks for; no direction for any other key. */
  function KeyDirection(k: Key): (r: Option<Direction>)
    ensures r.None? <==> k == Space || k == OtherKey
  {
    match k
    case ArrowUp => Some(Up)
    case ArrowDown => Some(Down)
    case ArrowLeft => Some(Left)
    case ArrowRight => Some(Right)
    case _ => None
  }

  /** The direction after key `k` is handled while the snake heads `current`:
      each arrow key is refused when it is the current direction's opposite. */
  function Steer(current: Direction, k: Key): (r: Direction)
    ensures KeyDirection(k).None? ==> r == current
    ensures KeyDirection(k).Some? ==>
      r == (if KeyDirection(k).value == Opposite(current) then current else KeyDirection(k).value)
    ensures r != Opposite(current)
  {
    match k
    case ArrowUp => if current == Down then current else Up
    case ArrowDown => if current == Up then current else Down
    case ArrowLeft => if current == Right then current else Left
    case ArrowRight => if current == Left then current else Right
    case _ => current
  }

  /** A key is refused exactly when it asks for the reverse of the current
      direction; every other arrow key is obeyed. */
  lemma SteerAccepts(current: Direction, k: Key)
    requires KeyDirection(k).Some?
    ensures Steer(current, k) == KeyDirection(k).value <==> KeyDirection(k).value != Opposite(current)
  {
    OppositeInvolution(current);
  }

  /** The rule is checked against the direction as last set, not as last
      moved: two presses between ticks turn a snake heading RIGHT to LEFT. */
  lemma TwoPressesReverse()
    ensures Steer(Steer(Right, ArrowUp), ArrowLeft) == Opposite(Right)
  {
  }
}
