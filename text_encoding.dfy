/** UTF-8 encoding and Windows-1252 decoding: enough to explain how a character written into a
    source file can come back as three other characters. */
module TextEncoding {

  type Byte = b: nat | b < 256

  /** The UTF-8 encoding of one character. */
  function Utf8(c: char): (bytes: seq<Byte>)
    ensures 1 <= |bytes| <= 4
  {
    var n := c as int;
    if n < 0x80 then [n]
    else if n < 0x800 then [0xC0 + n / 0x40, 0x80 + n % 0x40]
    else if n < 0x10000 then [0xE0 + n / 0x1000, 0x80 + (n / 0x40) % 0x40, 0x80 + n % 0x40]
    else [0xF0 + n / 0x40000, 0x80 + (n / 0x1000) % 0x40, 0x80 + (n / 0x40) % 0x40, 0x80 + n % 0x40]
  }

  function Utf8Encode(s: string): seq<Byte>
    decreases |s|
  {
    if s == [] then [] else Utf8(s[0]) + Utf8Encode(s[1..])
  }

  /** What Windows-1252 puts at 0x80..0x9F (the WHATWG table, which keeps the five unassigned
      bytes as the control characters of the same code). */
  const Cp1252High: seq<char> := [
    '\U{20AC}', '\U{0081}', '\U{201A}', '\U{0192}', '\U{201E}', '\U{2026}', '\U{2020}', '\U{2021}',
    '\U{02C6}', '\U{2030}', '\U{0160}', '\U{2039}', '\U{0152}', '\U{008D}', '\U{017D}', '\U{008F}',
    '\U{0090}', '\U{2018}', '\U{2019}', '\U{201C}', '\U{201D}', '\U{2022}', '\U{2013}', '\U{2014}',
    '\U{02DC}', '\U{2122}', '\U{0161}', '\U{203A}', '\U{0153}', '\U{009D}', '\U{017E}', '\U{0178}']

  /** A byte read as Windows-1252: one character per byte; outside 0x80..0x9F the byte's own code. */
  function Cp1252(b: Byte): char {
    if 0x80 <= b < 0xA0 then Cp1252High[b - 0x80] else b as char
  }

  function Cp1252Decode(bytes: seq<Byte>): (s: string)
    ensures |s| == |bytes|
    decreases |bytes|
  {
    if bytes == [] then [] else [Cp1252(bytes[0])] + Cp1252Decode(bytes[1..])
  }
}
