/** Character classes the string checks rely on. */
module Chars {

  /** Unicode white space, as `trim` sees it. */
  predicate IsSpace(c: char)
  {
    var n := c as int;
    || 0x09 <= n <= 0x0D || n == 0x20 || n == 0x85 || n == 0xA0 || n == 0x1680 || 0x2000 <= n <= 0x200A
    || n == 0x2028 || n == 0x2029 || n == 0x202F || n == 0x205F || n == 0x3000
  }

  /** Unicode control characters. */
  predicate IsControlChar(c: char)
  {
    var n := c as int;
    n <= 0x1F || 0x7F <= n <= 0x9F
  }
}
