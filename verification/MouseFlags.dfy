/** The button field of a mouse frame. */
module MouseFlags {
  import opened Bytes

  const LEFTDOWN: byte := 0x02
  const LEFTUP: byte := 0x04
  const RIGHTDOWN: byte := 0x08
  const RIGHTUP: byte := 0x10
}
