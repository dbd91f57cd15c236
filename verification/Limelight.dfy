/** The part of the streaming library's input protocol that the input code addresses. */
module Limelight {
  import opened CTypes

  datatype Button =
    | A | B | X | Y | Up | Down | Left | Right | Play | Back | LeftStick | RightStick
    | LeftShoulder | RightShoulder | Special

  datatype Modifier = Shift | Alt | Ctrl

  datatype MouseButton = LeftButton | MiddleButton | RightButton

  /** The state of a gamepad that one controller packet carries. */
  datatype Pad = Pad(
    buttons: set<Button>, leftTrigger: byte, rightTrigger: byte,
    leftStickX: short, leftStickY: short, rightStickX: short, rightStickY: short)

  const ZERO_PAD := Pad({}, 0, 0, 0, 0, 0, 0)

  datatype Packet =
    | MouseMove(dx: int, dy: int)
    | Scroll(clicks: int)
    | MouseClick(button: MouseButton, press: bool)
    | Keyboard(code: nat, down: bool, modifiers: set<Modifier>)
    | Controller(id: int, pad: Pad)
}
