/** The stretches of opening a connection, as `Connection.connect` and the connect hook run
    them. Each ends at an await, so each can fail or be cancelled on its own. */
module Phases {

  /** `Dial`: the socket exists and is being connected. `Greet`: the handshake.
      `SetUp`: the stream exists and the session queries run. `Hook`: `on_connect`. */
  datatype Phase = Dial | Greet | SetUp | Hook

  function After(ph: Phase): Phase {
    match ph
    case Dial => Greet
    case Greet => SetUp
    case _ => Hook
  }

  /** How many phases are still to end. */
  function Ahead(ph: Phase): nat {
    match ph
    case Dial => 4
    case Greet => 3
    case SetUp => 2
    case Hook => 1
  }
}
