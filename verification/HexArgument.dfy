/**
 Hexadecimal arguments of commands, as at_parse_hex of `at_parser.c` reads them: pairs of characters, each given
 to strtoul, which takes more than two digits.
 */
module HexArgument {
  import opened Words
  import opened LineEditor

  // The value of a hexadecimal digit of either case.
  function Digit(c: char): (v: Option<nat>)
    ensures v.Some? ==> v.value < 16
  {
    if '0' <= c <= '9' then Some(c as int - '0' as int)
    else if 'a' <= c <= 'f' then Some(c as int - 'a' as int + 10)
    else if 'A' <= c <= 'F' then Some(c as int - 'A' as int + 10)
    else None
  }

  // The white space that strtoul skips.
  predicate Space(c: char) { c == ' ' || 9 <= c as int <= 13 }

  // strtoul on two characters in base 16, if it takes both, cut to a byte: two digits, or one after a space or a
  // sign.
  function Pair(a: char, b: char): Option<uint8>
  {
    match Digit(b)
    case None => None
    case Some(low) =>
      match Digit(a)
      case Some(high) => Some(16 * high + low)
      case None =>
        if Space(a) || a == '+' then Some(low)
        else if a == '-' then Some(Wrap8(0 - low))
        else None
  }

  // The bytes of the first n pairs.
  function Pairs(s: string, n: nat): (bytes: Option<seq<uint8>>)
    requires 2 * n <= |s|
    ensures bytes.Some? ==> |bytes.value| == n
  {
    if n == 0 then Some([])
    else
      match Pairs(s, n - 1)
      case None => None
      case Some(front) =>
        match Pair(s[2 * n - 2], s[2 * n - 1])
        case None => None
        case Some(byte) => Some(front + [byte])
  }

  function Unprefixed(arg: string): string
  {
    if |arg| >= 2 && arg[0] == '0' && (arg[1] == 'x' || arg[1] == 'X') then arg[2..] else arg
  }

  // The whole argument, into room for `max` bytes.
  function Parse(arg: string, max: nat): Option<seq<uint8>>
  {
    var s := Unprefixed(arg);
    if max == 0 || |s| % 2 != 0 then None else Pairs(s, Min(|s| / 2, max))
  }

  function Hex(v: nat, upper: bool): char
    requires v < 16
  {
    if v < 10 then ('0' as int + v) as char else ((if upper then 'A' as int else 'a' as int) + v - 10) as char
  }

  function Print(bytes: seq<uint8>, upper: bool): (s: string)
    ensures |s| == 2 * |bytes|
  {
    if bytes == [] then []
    else
      var last := bytes[|bytes| - 1];
      Print(bytes[..|bytes| - 1], upper) + [Hex(last / 16, upper), Hex(last % 16, upper)]
  }

  lemma DigitOfHex(v: nat, upper: bool)
    requires v < 16
    ensures Digit(Hex(v, upper)) == Some(v)
  {
  }

  predicate HexDigit(c: char) { '0' <= c <= '9' || 'a' <= c <= 'f' || 'A' <= c <= 'F' }

  /** Which pairs are read: those that end in a hexadecimal digit and start with one, with white space, or with a
      sign. What stands in front of a single digit counts as a zero, but for the minus sign, with which the byte
      wraps around. */
  lemma PairsRead(a: char, b: char)
    ensures Pair(a, b).Some? <==>
      HexDigit(b) && (HexDigit(a) || a in [' ', '\t', '\n', 11 as char, 12 as char, '\r', '+', '-'])
    ensures Pair(a, b).Some? && !HexDigit(a) ==>
      && Pair('0', b).Some?
      && if a == '-' then (Pair(a, b).value + Pair('0', b).value) % 0x100 == 0 else Pair(a, b) == Pair('0', b)
  {
  }

  lemma PairOfHex(byte: uint8, upper: bool)
    ensures Pair(Hex(byte / 16, upper), Hex(byte % 16, upper)) == Some(byte)
  {
    hide Digit, Hex;
    DigitOfHex(byte / 16, upper);
    DigitOfHex(byte % 16, upper);
  }

  lemma PrintEnds(bytes: seq<uint8>, upper: bool)
    requires bytes != []
    ensures var n, s := |bytes| - 1, Print(bytes, upper);
      && Print(bytes[..n], upper) <= s && Pair(s[2 * n], s[2 * n + 1]) == Some(bytes[n])
  {
    hide Pair, Hex;
    PairOfHex(bytes[|bytes| - 1], upper);
  }

  lemma {:induction false} PairsOfPrint(bytes: seq<uint8>, upper: bool, n: nat)
    requires n <= |bytes|
    ensures Pairs(Print(bytes, upper), n) == Some(bytes[..n])
    decreases |bytes|, n
  {
    hide Pair, Print;
    if bytes != [] {
      var front := bytes[..|bytes| - 1];
      PrintEnds(bytes, upper);
      var k := if n == |bytes| then n - 1 else n;
      PairsOfPrint(front, upper, k);
      PairsOfPrefix(Print(front, upper), Print(bytes, upper), k);
      assert front[..k] == bytes[..k];
      assert n > k ==> bytes[..n] == bytes[..k] + [bytes[k]];
    }
  }

  lemma {:induction false} PairsOfPrefix(s: string, t: string, n: nat)
    requires s <= t && 2 * n <= |s|
    ensures Pairs(s, n) == Pairs(t, n)
  {
    if n > 0 {
      PairsOfPrefix(s, t, n - 1);
    }
  }

  /** Round trip: bytes printed in either case, with or without a prefix, come back, up to the room for them. */
  lemma ParseOfPrint(bytes: seq<uint8>, upper: bool, prefix: string, max: nat)
    requires prefix == "" || prefix == "0x" || prefix == "0X"
    ensures Parse(prefix + Print(bytes, upper), max) == if max == 0 then None else Some(bytes[..Min(|bytes|, max)])
  {
    hide Print, Pairs, Unprefixed;
    PrefixGoes(bytes, upper, prefix);
    if max > 0 {
      PairsOfPrint(bytes, upper, Min(|bytes|, max));
    }
  }

  lemma PrefixGoes(bytes: seq<uint8>, upper: bool, prefix: string)
    requires prefix == "" || prefix == "0x" || prefix == "0X"
    ensures Unprefixed(prefix + Print(bytes, upper)) == Print(bytes, upper)
  {
    hide Print;
    var s := Print(bytes, upper);
    if prefix == "" {
      assert prefix + s == s;
      NoPrefix(bytes, upper);
    } else {
      assert (prefix + s)[2..] == s;
    }
  }

  lemma {:induction false} NoPrefix(bytes: seq<uint8>, upper: bool)
    ensures bytes != [] ==> Digit(Print(bytes, upper)[1]).Some?
    ensures Unprefixed(Print(bytes, upper)) == Print(bytes, upper)
    decreases |bytes|
  {
    if |bytes| > 1 {
      NoPrefix(bytes[..|bytes| - 1], upper);
    }
  }

  /** The other way round, printing gives the digits back exactly for pairs of upper-case digits; pairs with a
      space or a sign are read as well but print differently. */
  lemma PrintOfPair(a: char, b: char)
    ensures Pair(a, b).Some? && Print([Pair(a, b).value], true) == [a, b] <==>
      Digit(a).Some? && Digit(b).Some? && !('a' <= a <= 'f') && !('a' <= b <= 'f')
  {
    if Pair(a, b).Some? {
      var v := Pair(a, b).value;
      assert Print([v], true) == [Hex(v / 16, true), Hex(v % 16, true)];
    }
  }

  /** at_parse_hex, on the C string `arg`: the number of bytes, or -1. A refused argument may have left its first
      bytes in `out`. */
  method ParseHex(arg: string, out: array<uint8>, max: nat) returns (r: int)
    requires NUL !in arg && max <= out.Length
    modifies out
    ensures match Parse(arg, max)
      case None => r == -1
      case Some(bytes) => r == |bytes| && out[..r] == bytes
    ensures forall i :: Min(|Unprefixed(arg)| / 2, max) <= i < out.Length ==> out[i] == old(out[i])
  {
    hide Pair, Pairs;
    if max == 0 {
      return -1;
    }
    var s := arg;
    if |arg| >= 2 && arg[0] == '0' && (arg[1] == 'x' || arg[1] == 'X') {
      s := arg[2..];
    }
    if |s| % 2 != 0 {
      return -1;
    }
    var bytes := |s| / 2;
    if bytes > max {
      bytes := max;
    }
    NextPair(s, 0);
    for i := 0 to bytes
      invariant Pairs(s, i) == Some(out[..i])
      invariant forall k :: bytes <= k < out.Length ==> out[k] == old(out[k])
    {
      NextPair(s, i);
      match Pair(s[2 * i], s[2 * i + 1])
      case None =>
        NoPairs(s, i + 1, bytes);
        return -1;
      case Some(byte) =>
        out[i] := byte;
        assert out[..i + 1] == out[..i] + [byte];
    }
    return bytes;
  }

  lemma NextPair(s: string, n: nat)
    requires 2 * n <= |s|
    ensures n == 0 ==> Pairs(s, n) == Some([])
    ensures 2 * n + 2 <= |s| && Pairs(s, n).Some? ==>
      Pairs(s, n + 1) == match Pair(s[2 * n], s[2 * n + 1])
        case None => None
        case Some(byte) => Some(Pairs(s, n).value + [byte])
  {
  }

  lemma {:induction false} NoPairs(s: string, n: nat, m: nat)
    requires n <= m && 2 * m <= |s| && Pairs(s, n).None?
    ensures Pairs(s, m).None?
    decreases m
  {
    if n < m {
      NoPairs(s, n, m - 1);
    }
  }
}
