/** What several of the modules need. */
module Common {

  datatype Option<T> = None | Some(value: T)

  function Max(a: int, b: int): int {
    if a < b then b else a
  }

  function Min(a: int, b: int): int {
    if a < b then a else b
  }

  /** fread of at most n elements at an offset, which may lie beyond the end. */
  function Slice<T>(f: seq<T>, off: int, n: nat): (r: seq<T>)
    ensures |r| <= n && (|r| < n ==> off < 0 || off + |r| >= |f|) && (r != [] ==> 0 <= off && off + |r| <= |f|)
  {
    if off < 0 || off >= |f| then [] else if off + n <= |f| then f[off..off + n] else f[off..]
  }

  /** The value of a hexadecimal digit of either case, or -1. */
  function Digit(c: char): (d: int)
    ensures -1 <= d < 16
  {
    if '0' <= c <= '9' then c as int - '0' as int
    else if 'A' <= c <= 'F' then c as int - 'A' as int + 10
    else if 'a' <= c <= 'f' then c as int - 'a' as int + 10
    else -1
  }
}
