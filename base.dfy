/** Shared vocabulary of the model: bytes, an option type and the wire constants. */
module Base {

  /** One octet of the byte protocol. */
  newtype byte = x: int | 0 <= x < 256

  type bytes = seq<byte>

  datatype Option<T> = None | Some(value: T)

  /** The race clock is an unsigned 32-bit millisecond counter (`& 0xFFFFFFFF`). */
  const Modulus32: int := 0x1_0000_0000

  /** Number of controller slots of the Control Unit (6 drivers, autonomous car, pace car). */
  const Slots: nat := 8

  // ASCII bytes used by the wire protocol
  const Quote: byte := 34    // '"' start of a frame
  const Hash: byte := 35     // '#' end of a frame
  const Dollar: byte := 36   // '$' end of a frame
  const Zero: byte := 48     // '0' version
  const Colon: byte := 58    // ':' ignore controller / status marker
  const Equals: byte := 61   // '=' reset
  const Question: byte := 63 // '?' poll
  const LetterE: byte := 69  // 'E' firmware write
  const LetterG: byte := 71  // 'G' firmware start
  const LetterJ: byte := 74  // 'J' set word
  const LetterT: byte := 84  // 'T' button press

  /** Python's `s[:m]`: a prefix of length `m`, or, for negative `m`, all but the last `-m` bytes. */
  function PyPrefix<T>(s: seq<T>, m: int): (r: seq<T>)
    ensures |r| <= |s| && r == s[..|r|]
    ensures 0 <= m ==> |r| == if m < |s| then m else |s|
    ensures m < 0 ==> |r| == if |s| + m < 0 then 0 else |s| + m
  {
    if 0 <= m then (if m < |s| then s[..m] else s)
    else if |s| + m < 0 then [] else s[..|s| + m]
  }
}
