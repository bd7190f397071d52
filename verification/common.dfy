/**
 Shared vocabulary of the firmware demos: fixed-width integers as the C code
 declares them, and the optional-value wrapper used where the C code returns a
 `bool` plus out-parameters.
 */
module Common {

  /** A C `uint8_t`. */
  type byte = x: int | 0 <= x < 0x100

  /** A C `uint16_t`: HID channel ids and HCI connection handles. */
  type uint16 = x: int | 0 <= x < 0x1_0000

  /** BTstack's ERROR_CODE_SUCCESS status byte. */
  const StatusSuccess: byte := 0

  datatype Option<+T> = None | Some(value: T)
}
