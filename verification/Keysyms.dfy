/** Key codes to the X11 key symbols an RFB server expects. */
module Keysyms {
  import opened Bytes

  const SHIFT_L: byte := 0x38
  const SHIFT_R: byte := 0x3C
  const XK_SHIFT_L: dword := 0xFFE1
  const XK_SHIFT_R: dword := 0xFFE2

  /** The symbol of a key, 0 if it has none. */
  function Base(adb: byte): dword {
    match adb
      case 0x00 => 0x0061
      case 0x01 => 0x0073
      case 0x02 => 0x0064
      case 0x03 => 0x0066
      case 0x04 => 0x0068
      case 0x05 => 0x0067
      case 0x06 => 0x007A
      case 0x07 => 0x0078
      case 0x08 => 0x0063
      case 0x09 => 0x0076
      case 0x0B => 0x0062
      case 0x0C => 0x0071
      case 0x0D => 0x0077
      case 0x0E => 0x0065
      case 0x0F => 0x0072
      case 0x10 => 0x0079
      case 0x11 => 0x0074
      case 0x12 => 0x0031
      case 0x13 => 0x0032
      case 0x14 => 0x0033
      case 0x15 => 0x0034
      case 0x16 => 0x0036
      case 0x17 => 0x0035
      case 0x18 => 0x003D
      case 0x19 => 0x0039
      case 0x1A => 0x0037
      case 0x1B => 0x002D
      case 0x1C => 0x0038
      case 0x1D => 0x0030
      case 0x1E => 0x005D
      case 0x1F => 0x006F
      case 0x20 => 0x0075
      case 0x21 => 0x005B
      case 0x22 => 0x0069
      case 0x23 => 0x0070
      case 0x24 => 0xFF0D
      case 0x25 => 0x006C
      case 0x26 => 0x006A
      case 0x27 => 0x0027
      case 0x28 => 0x006B
      case 0x29 => 0x003B
      case 0x2A => 0x005C
      case 0x2B => 0x002C
      case 0x2C => 0x002F
      case 0x2D => 0x006E
      case 0x2E => 0x006D
      case 0x2F => 0x002E
      case 0x30 => 0xFF09
      case 0x31 => 0x0020
      case 0x32 => 0x0060
      case 0x33 => 0xFF08
      case 0x35 => 0xFF1B
      case 0x36 => 0xFFE8
      case 0x37 => 0xFFE7
      case 0x38 => 0xFFE1
      case 0x39 => 0xFFE5
      case 0x3A => 0xFFE9
      case 0x3B => 0xFFE3
      case 0x3C => 0xFFE2
      case 0x3D => 0xFFEA
      case 0x3E => 0xFFE4
      case 0x41 => 0xFFAE
      case 0x43 => 0xFFAA
      case 0x45 => 0xFFAB
      case 0x47 => 0xFF7F
      case 0x4B => 0xFFAF
      case 0x4C => 0xFF8D
      case 0x4E => 0xFFAD
      case 0x51 => 0xFFBD
      case 0x52 => 0xFFB0
      case 0x53 => 0xFFB1
      case 0x54 => 0xFFB2
      case 0x55 => 0xFFB3
      case 0x56 => 0xFFB4
      case 0x57 => 0xFFB5
      case 0x58 => 0xFFB6
      case 0x59 => 0xFFB7
      case 0x5B => 0xFFB8
      case 0x5C => 0xFFB9
      case 0x7A => 0xFFBE
      case 0x78 => 0xFFBF
      case 0x63 => 0xFFC0
      case 0x76 => 0xFFC1
      case 0x60 => 0xFFC2
      case 0x61 => 0xFFC3
      case 0x62 => 0xFFC4
      case 0x64 => 0xFFC5
      case 0x65 => 0xFFC6
      case 0x6D => 0xFFC7
      case 0x67 => 0xFFC8
      case 0x6F => 0xFFC9
      case 0x69 => 0xFFCA
      case 0x6B => 0xFFCB
      case 0x71 => 0xFFCC
      case 0x6A => 0xFFCD
      case 0x40 => 0xFFCE
      case 0x4F => 0xFFCF
      case 0x50 => 0xFFD0
      case 0x5A => 0xFFD1
      case 0x73 => 0xFF50
      case 0x74 => 0xFF55
      case 0x75 => 0xFFFF
      case 0x77 => 0xFF57
      case 0x79 => 0xFF56
      case 0x7B => 0xFF51
      case 0x7C => 0xFF53
      case 0x7D => 0xFF54
      case 0x7E => 0xFF52
      case _ => 0
  }

  /** The symbol of a digit or punctuation key with Shift on the US layout, 0 for any other. */
  function Shifted(adb: byte): dword {
    match adb
      case 0x12 => 0x0021
      case 0x13 => 0x0040
      case 0x14 => 0x0023
      case 0x15 => 0x0024
      case 0x17 => 0x0025
      case 0x16 => 0x005E
      case 0x1A => 0x0026
      case 0x1C => 0x002A
      case 0x19 => 0x0028
      case 0x1D => 0x0029
      case 0x1B => 0x005F
      case 0x18 => 0x002B
      case 0x21 => 0x007B
      case 0x1E => 0x007D
      case 0x2A => 0x007C
      case 0x29 => 0x003A
      case 0x27 => 0x0022
      case 0x32 => 0x007E
      case 0x2B => 0x003C
      case 0x2F => 0x003E
      case 0x2C => 0x003F
      case _ => 0
  }

  /** What is sent for a key, given whether Shift is held: 0 for nothing. */
  function Symbol(adb: word, shift: bool): dword {
    var code := adb % 0x100;
    var base := Base(code);
    if shift && adb != SHIFT_L && adb != SHIFT_R then
      if Shifted(code) != 0 then Shifted(code)
      else if 0x61 <= base <= 0x7A then base - 0x20
      else base
    else base
  }

  predicate IsShiftSymbol(sym: dword) {
    sym == XK_SHIFT_L || sym == XK_SHIFT_R
  }

  /** Only the codes whose low byte is a Shift key's give a Shift symbol, whatever is held. */
  lemma OnlyShiftKeysShift(adb: word, shift: bool)
    ensures IsShiftSymbol(Symbol(adb, shift)) <==> adb % 0x100 == SHIFT_L || adb % 0x100 == SHIFT_R
  {
  }

  /** The symbol of a character: itself in Latin-1, otherwise in the Unicode range. */
  function UnicodeSymbol(u: word): dword {
    if 0x20 <= u <= 0x7E || 0xA0 <= u <= 0xFF then u else 0x100_0000 + u
  }

  lemma CharactersAreNotShift(u: word)
    ensures !IsShiftSymbol(UnicodeSymbol(u))
  {
  }
}
