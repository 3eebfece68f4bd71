/** The ESP-IDF vocabulary the sensor core and the persistent log share:
    the esp_err_t status codes, bytes, and an optional value standing for a
    C handle or pointer that may be NULL. */
module Esp {

  /** esp_err_t: a plain C int; any value other than ESP_OK is an error.
      Transport errors are arbitrary codes that the core passes on unchanged. */
  type EspErr = int

  const ESP_OK: EspErr := 0
  const ESP_FAIL: EspErr := -1
  const ESP_ERR_INVALID_ARG: EspErr := 0x102
  const ESP_ERR_INVALID_STATE: EspErr := 0x103
  const ESP_ERR_NOT_FOUND: EspErr := 0x105

  /** uint8_t */
  type Byte = b: int | 0 <= b < 0x100

  /** uint16_t and int16_t */
  type U16 = w: int | 0 <= w < 0x1_0000
  type I16 = w: int | -0x8000 <= w < 0x8000

  /** uint32_t and int64_t */
  type U32 = x: int | 0 <= x < 0x1_0000_0000
  type I64 = x: int | -0x8000_0000_0000_0000 <= x < 0x8000_0000_0000_0000

  datatype Option<+T> = None | Some(value: T)

  /** A C output pointer (float *, int32_t *): a caller-owned cell the callee
      may write; a NULL pointer is a null reference. */
  class Out<T> {
    var value: T

    constructor (v: T)
      ensures value == v
    {
      value := v;
    }
  }
}
