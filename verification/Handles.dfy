/** Objects of other components that the models only tell apart. */
module Handles {
  type Window = nat
  type Effect = nat
}
