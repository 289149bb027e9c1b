/** The modifier keys a viewer holds, as the agent tracks them. */
module Modifiers {
  import opened Bytes

  /** The flags an event can carry; the agent tracks the first four. */
  datatype Flag = Shift | Control | Option | Command | Fn | CapsLock | Keypad | Device(bit: nat)

  const VK_SHIFT: byte := 0x10
  const VK_CONTROL: byte := 0x11
  const VK_MENU: byte := 0x12
  const VK_LWIN: byte := 0x5B
  const VK_RWIN: byte := 0x5C

  /** The flag a virtual key stands for; both Command keys share one. */
  function VkFlag(vk: byte): set<Flag> {
    if vk == VK_SHIFT then {Shift}
    else if vk == VK_CONTROL then {Control}
    else if vk == VK_MENU then {Option}
    else if vk == VK_LWIN || vk == VK_RWIN then {Command}
    else {}
  }

  /** The viewer marks an extended key's press with 4; everything else non-zero is a release. */
  predicate IsRelease(up: int) {
    up != 0 && up != 4
  }

  function Track(mods: set<Flag>, vk: byte, up: int): set<Flag> {
    if IsRelease(up) then mods - VkFlag(vk) else mods + VkFlag(vk)
  }
}
