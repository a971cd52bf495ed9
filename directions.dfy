/** The facing of a robot and the orientation of a ramp (`Direction` in src/main.rs). */
module Directions {

  datatype Direction = Up | Down | Left | Right
}
