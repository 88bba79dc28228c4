/** The keyboard keys the game and its menus react to. */
module Keys {
  import opened Wrappers
  import opened Grid

  /** Arrow keys and their WASD aliases, Return, the settings shortcuts T/R/G/B, and anything else. */
  datatype Key =
    | ArrowUp | ArrowDown | ArrowLeft | ArrowRight
    | KeyW | KeyS | KeyA | KeyD
    | KeyReturn
    | KeyT | KeyR | KeyG | KeyB
    | OtherKey

  /** The heading a key asks for during play: an arrow key or its WASD alias, nothing for any other key. */
  function Requested(k: Key): (r: Option<Heading>)
    ensures r == Some(Up) <==> k in {ArrowUp, KeyW}
    ensures r == Some(Down) <==> k in {ArrowDown, KeyS}
    ensures r == Some(Left) <==> k in {ArrowLeft, KeyA}
    ensures r == Some(Right) <==> k in {ArrowRight, KeyD}
  {
    match k
    case ArrowUp | KeyW => Some(Up)
    case ArrowDown | KeyS => Some(Down)
    case ArrowLeft | KeyA => Some(Left)
    case ArrowRight | KeyD => Some(Right)
    case _ => None
  }
}
