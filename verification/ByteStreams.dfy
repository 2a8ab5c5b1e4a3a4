/** DataOutputStream and DataInputStream: big-endian integers, modified UTF-8 strings, and the
    end of the stream as a failure. */
module ByteStreams {
  import opened Types

  type int32 = x: int | -0x8000_0000 <= x < 0x8000_0000
  /** Floating-point numbers travel as their bit patterns. */
  type bits32 = uint32
  type bits64 = uint64
  type char16 = x: int | 0 <= x < 0x1_0000

  /** A value and what is left of the input, or a failure. */
  type Parse<T> = Option<(T, seq<byte>)>

  // ---- fixed-width integers ---------------------------------------------------

  function Pow256(n: nat): (r: nat)
    ensures r > 0
  {
    if n == 0 then 1 else 256 * Pow256(n - 1)
  }

  function BigEndian(n: nat, x: nat): (r: seq<byte>)
    ensures |r| == n
  {
    if n == 0 then [] else BigEndian(n - 1, x / 256) + [x % 256]
  }

  function FromBigEndian(s: seq<byte>): (r: nat) {
    if s == [] then 0 else 256 * FromBigEndian(s[..|s| - 1]) + s[|s| - 1]
  }

  lemma {:induction false} BigEndianRoundTrip(n: nat, x: nat)
    requires x < Pow256(n)
    ensures FromBigEndian(BigEndian(n, x)) == x
  {
    if n > 0 {
      BigEndianRoundTrip(n - 1, x / 256);
      assert BigEndian(n, x)[..n - 1] == BigEndian(n - 1, x / 256);
    }
  }

  /** The byte for each power of 256, the highest first. */
  lemma {:induction false} BigEndianByte(n: nat, x: nat, i: nat)
    requires i < n
    ensures BigEndian(n, x)[i] == (x / Pow256(n - 1 - i)) % 256
  {
    if i < n - 1 {
      BigEndianByte(n - 1, x / 256, i);
      DivideTwice(x, 256, Pow256(n - 2 - i));
    }
  }

  lemma DivideTwice(x: nat, a: nat, b: nat)
    requires a > 0 && b > 0
    ensures a * b > 0 && (x / a) / b == x / (a * b)
  {
    var q := (x / a) / b;
    assert a * b > 0;
    var r := x - q * (a * b);
    assert x == a * (x / a) + x % a && x / a == b * q + (x / a) % b;
    assert a * (x / a) == a * (b * q) + a * ((x / a) % b) by { Spread(a, b * q, (x / a) % b); }
    assert a * (b * q) == q * (a * b) by { Regroup(a, b, q); }
    assert a * ((x / a) % b) <= a * (b - 1) by { Grows(a, (x / a) % b, b - 1); }
    assert a * (b - 1) == a * b - a by { Spread(a, b - 1, 1); }
    assert 0 <= r < a * b;
    Quotient(x, q, r, a * b);
  }

  lemma Spread(a: int, b: int, c: int)
    ensures a * (b + c) == a * b + a * c
  {
  }

  lemma Regroup(a: int, b: int, c: int)
    ensures a * (b * c) == c * (a * b)
  {
  }

  lemma Grows(a: int, b: int, c: int)
    requires a >= 0 && b <= c
    ensures a * b <= a * c
  {
  }

  lemma Quotient(x: int, q: int, r: int, d: int)
    requires d > 0 && x == q * d + r && 0 <= r < d
    ensures x / d == q
  {
    var q', r' := x / d, x % d;
    if q' < q {
      Grows(d, 1, q - q');
      Spread(d, q', q - q');
    } else if q < q' {
      Grows(d, 1, q' - q);
      Spread(d, q, q' - q);
    }
  }

  lemma {:induction false} FromBigEndianBound(s: seq<byte>)
    ensures FromBigEndian(s) < Pow256(|s|)
  {
    if s != [] {
      FromBigEndianBound(s[..|s| - 1]);
    }
  }

  lemma Widths()
    ensures Pow256(1) == 0x100 && Pow256(2) == 0x1_0000
    ensures Pow256(4) == 0x1_0000_0000 && Pow256(8) == 0x1_0000_0000_0000_0000
  {
    assert Pow256(3) == 0x100_0000;
    assert Pow256(5) == 0x100_0000_0000;
    assert Pow256(6) == 0x1_0000_0000_0000;
    assert Pow256(7) == 0x100_0000_0000_0000;
  }

  function Take(n: nat, s: seq<byte>): (r: Parse<nat>) {
    if |s| < n then None else Some((FromBigEndian(s[..n]), s[n..]))
  }

  lemma TakeRoundTrip(n: nat, x: nat, tail: seq<byte>)
    requires x < Pow256(n)
    ensures Take(n, BigEndian(n, x) + tail) == Some((x, tail))
  {
    BigEndianRoundTrip(n, x);
    assert (BigEndian(n, x) + tail)[..n] == BigEndian(n, x);
    assert (BigEndian(n, x) + tail)[n..] == tail;
  }

  /** Two's complement. */
  function PutInt(x: int32): (r: seq<byte>)
    ensures |r| == 4
  {
    BigEndian(4, if x < 0 then x + 0x1_0000_0000 else x)
  }

  function GetInt(s: seq<byte>): (r: Parse<int32>) {
    match Take(4, s)
    case None => None
    case Some((u, rest)) =>
      FromBigEndianBound(s[..4]); Widths();
      Some((if u >= 0x8000_0000 then u - 0x1_0000_0000 else u, rest))
  }

  lemma IntRoundTrip(x: int32, tail: seq<byte>)
    ensures GetInt(PutInt(x) + tail) == Some((x, tail))
  {
    Widths();
    TakeRoundTrip(4, if x < 0 then x + 0x1_0000_0000 else x, tail);
  }

  function PutFloat(x: bits32): (r: seq<byte>) {
    BigEndian(4, x)
  }

  function GetFloat(s: seq<byte>): (r: Parse<bits32>) {
    match Take(4, s)
    case None => None
    case Some((u, rest)) => FromBigEndianBound(s[..4]); Widths(); Some((u, rest))
  }

  lemma FloatRoundTrip(x: bits32, tail: seq<byte>)
    ensures GetFloat(PutFloat(x) + tail) == Some((x, tail))
  {
    Widths();
    TakeRoundTrip(4, x, tail);
  }

  function PutDouble(x: bits64): (r: seq<byte>) {
    BigEndian(8, x)
  }

  function GetDouble(s: seq<byte>): (r: Parse<bits64>) {
    match Take(8, s)
    case None => None
    case Some((u, rest)) => FromBigEndianBound(s[..8]); Widths(); Some((u, rest))
  }

  lemma DoubleRoundTrip(x: bits64, tail: seq<byte>)
    ensures GetDouble(PutDouble(x) + tail) == Some((x, tail))
  {
    Widths();
    TakeRoundTrip(8, x, tail);
  }

  function PutBool(b: bool): (r: seq<byte>) {
    [if b then 1 else 0]
  }

  /** Any byte but zero reads as true. */
  function GetBool(s: seq<byte>): (r: Parse<bool>) {
    if s == [] then None else Some((s[0] != 0, s[1..]))
  }

  /** readFully. */
  function GetBytes(n: nat, s: seq<byte>): (r: Parse<seq<byte>>) {
    if |s| < n then None else Some((s[..n], s[n..]))
  }

  lemma BytesRoundTrip(b: seq<byte>, tail: seq<byte>)
    ensures GetBytes(|b|, b + tail) == Some((b, tail))
  {
    assert (b + tail)[..|b|] == b && (b + tail)[|b|..] == tail;
  }

  // ---- strings ----------------------------------------------------------------

  /** One UTF-16 unit in modified UTF-8: zero takes two bytes, and surrogates three each. */
  function PutChar(c: char16): (r: seq<byte>)
    ensures 1 <= |r| <= 3
  {
    if 1 <= c <= 0x7F then [c]
    else if c <= 0x7FF then [0xC0 + c / 0x40, 0x80 + c % 0x40]
    else [0xE0 + c / 0x1000, 0x80 + (c / 0x40) % 0x40, 0x80 + c % 0x40]
  }

  /** How many bytes a unit takes, and what each of them is: the leading bits say how many follow,
      and those start with the bits 10. */
  lemma CharLayout(c: char16)
    ensures var s := PutChar(c);
            && (|s| == 1 <==> 1 <= c <= 0x7F)
            && (|s| == 2 <==> c == 0 || 0x80 <= c <= 0x7FF)
            && (|s| == 1 ==> s[0] == c)
            && (|s| == 2 ==>
                  && 0xC0 <= s[0] < 0xE0 && 0x80 <= s[1] < 0xC0
                  && c == 0x40 * s[0] as int + s[1] as int - 0x3080)
            && (|s| == 3 ==>
                  && 0xE0 <= s[0] < 0xF0 && 0x80 <= s[1] < 0xC0 && 0x80 <= s[2] < 0xC0
                  && c == 0x1000 * s[0] as int + 0x40 * s[1] as int + s[2] as int - 0xE_2080)
  {
    Sextets(c);
  }

  predicate Continuation(b: byte) {
    b / 0x40 == 2
  }

  function GetChar(s: seq<byte>): (r: Parse<char16>) {
    if s == [] then None
    else if s[0] < 0x80 then Some((s[0], s[1..]))
    else if 0xC0 <= s[0] < 0xE0 then
      if |s| < 2 || !Continuation(s[1]) then None
      else Some(((s[0] as int - 0xC0) * 0x40 + s[1] as int % 0x40, s[2..]))
    else if 0xE0 <= s[0] < 0xF0 then
      if |s| < 3 || !Continuation(s[1]) || !Continuation(s[2]) then None
      else Some(((s[0] as int - 0xE0) * 0x1000 + (s[1] as int % 0x40) * 0x40 + s[2] as int % 0x40, s[3..]))
    else None
  }

  lemma CharRoundTrip(c: char16, tail: seq<byte>)
    ensures GetChar(PutChar(c) + tail) == Some((c, tail))
  {
    var s := PutChar(c) + tail;
    assert s[|PutChar(c)|..] == tail;
    if 1 <= c <= 0x7F {
      assert s[0] == c;
    } else if c <= 0x7FF {
      assert s[0] == 0xC0 + c / 0x40 && s[1] == 0x80 + c % 0x40;
    } else {
      assert s[0] == 0xE0 + c / 0x1000 && s[1] == 0x80 + (c / 0x40) % 0x40 && s[2] == 0x80 + c % 0x40;
      Sextets(c);
    }
  }

  lemma Sextets(c: char16)
    ensures c == (c / 0x1000) * 0x1000 + ((c / 0x40) % 0x40) * 0x40 + c % 0x40
    ensures 0x80 <= 0x80 + (c / 0x40) % 0x40 < 0xC0 && 0x80 <= 0x80 + c % 0x40 < 0xC0 && 0 <= c / 0x1000 < 0x10
  {
    assert c / 0x1000 == (c / 0x40) / 0x40;
  }

  function PutChars(s: seq<char16>): (r: seq<byte>) {
    if s == [] then [] else PutChar(s[0]) + PutChars(s[1..])
  }

  /** All of the bytes, or a failure if they do not end with a whole character. */
  function GetChars(s: seq<byte>): (r: Option<seq<char16>>)
    decreases |s|
  {
    if s == [] then Some([])
    else
      match GetChar(s)
      case None => None
      case Some((c, rest)) =>
        match GetChars(rest)
        case None => None
        case Some(cs) => Some([c] + cs)
  }

  lemma {:induction false} CharsRoundTrip(s: seq<char16>)
    ensures GetChars(PutChars(s)) == Some(s)
    decreases s
  {
    if s != [] {
      CharRoundTrip(s[0], PutChars(s[1..]));
      CharsRoundTrip(s[1..]);
      assert [s[0]] + s[1..] == s;
    }
  }

  /** writeUTF throws when the encoded string is longer than its two-byte length can say. */
  predicate Writable(s: seq<char16>) {
    |PutChars(s)| <= 0xFFFF
  }

  function PutUTF(s: seq<char16>): (r: seq<byte>) {
    BigEndian(2, |PutChars(s)|) + PutChars(s)
  }

  function GetUTF(s: seq<byte>): (r: Parse<seq<char16>>) {
    match Take(2, s)
    case None => None
    case Some((n, rest)) =>
      match GetBytes(n, rest)
      case None => None
      case Some((b, tail)) =>
        match GetChars(b)
        case None => None
        case Some(cs) => Some((cs, tail))
  }

  lemma UTFRoundTrip(s: seq<char16>, tail: seq<byte>)
    requires Writable(s)
    ensures GetUTF(PutUTF(s) + tail) == Some((s, tail))
  {
    var b := PutChars(s);
    Widths();
    assert PutUTF(s) + tail == BigEndian(2, |b|) + (b + tail);
    TakeRoundTrip(2, |b|, b + tail);
    BytesRoundTrip(b, tail);
    CharsRoundTrip(s);
  }

  // ---- longer inputs ----------------------------------------------------------

  /** What a reader that found all it wanted does on a longer input: the same, leaving the rest. */
  ghost predicate Extends<T>(p: Parse<T>, q: Parse<T>, more: seq<byte>) {
    p.Some? ==> q == Some((p.value.0, p.value.1 + more))
  }

  lemma TakeExtends(n: nat, s: seq<byte>, more: seq<byte>)
    ensures Extends(Take(n, s), Take(n, s + more), more)
  {
    if |s| >= n {
      assert (s + more)[..n] == s[..n] && (s + more)[n..] == s[n..] + more;
    }
  }

  lemma BytesExtend(n: nat, s: seq<byte>, more: seq<byte>)
    ensures Extends(GetBytes(n, s), GetBytes(n, s + more), more)
  {
    if |s| >= n {
      assert (s + more)[..n] == s[..n] && (s + more)[n..] == s[n..] + more;
    }
  }

  lemma IntExtends(s: seq<byte>, more: seq<byte>)
    ensures Extends(GetInt(s), GetInt(s + more), more)
  {
    TakeExtends(4, s, more);
    if |s| >= 4 {
      assert (s + more)[..4] == s[..4];
    }
  }

  lemma FloatExtends(s: seq<byte>, more: seq<byte>)
    ensures Extends(GetFloat(s), GetFloat(s + more), more)
  {
    TakeExtends(4, s, more);
    if |s| >= 4 {
      assert (s + more)[..4] == s[..4];
    }
  }

  lemma DoubleExtends(s: seq<byte>, more: seq<byte>)
    ensures Extends(GetDouble(s), GetDouble(s + more), more)
  {
    TakeExtends(8, s, more);
    if |s| >= 8 {
      assert (s + more)[..8] == s[..8];
    }
  }

  lemma BoolExtends(s: seq<byte>, more: seq<byte>)
    ensures Extends(GetBool(s), GetBool(s + more), more)
  {
    if s != [] {
      assert (s + more)[1..] == s[1..] + more;
    }
  }

  lemma UTFExtends(s: seq<byte>, more: seq<byte>)
    ensures Extends(GetUTF(s), GetUTF(s + more), more)
  {
    TakeExtends(2, s, more);
    if Take(2, s).Some? {
      var (n, rest) := Take(2, s).value;
      BytesExtend(n, rest, more);
    }
  }

  // ---- the streams ------------------------------------------------------------

  class DataOutput {
    var bytes: seq<byte>

    constructor ()
      ensures bytes == []
    {
      bytes := [];
    }

    method Write(b: seq<byte>)
      modifies this
      ensures bytes == old(bytes) + b
    {
      bytes := bytes + b;
    }

    /** Throws, having written nothing, if the string is too long. */
    method WriteUTF(s: seq<char16>) returns (ok: bool)
      modifies this
      ensures ok == Writable(s)
      ensures bytes == if ok then old(bytes) + PutUTF(s) else old(bytes)
    {
      ok := |PutChars(s)| <= 0xFFFF;
      if ok {
        bytes := bytes + PutUTF(s);
      }
    }
  }

  /** The input is what has not been read yet. */
  class DataInput {
    var rest: seq<byte>

    constructor (bytes: seq<byte>)
      ensures rest == bytes
    {
      rest := bytes;
    }

    method ReadInt() returns (r: Option<int32>)
      modifies this
      ensures Reads(GetInt(old(rest)), r, rest)
    {
      var p := GetInt(rest);
      r := None;
      if p.Some? { r, rest := Some(p.value.0), p.value.1; }
    }

    method ReadFloat() returns (r: Option<bits32>)
      modifies this
      ensures Reads(GetFloat(old(rest)), r, rest)
    {
      var p := GetFloat(rest);
      r := None;
      if p.Some? { r, rest := Some(p.value.0), p.value.1; }
    }

    method ReadDouble() returns (r: Option<bits64>)
      modifies this
      ensures Reads(GetDouble(old(rest)), r, rest)
    {
      var p := GetDouble(rest);
      r := None;
      if p.Some? { r, rest := Some(p.value.0), p.value.1; }
    }

    method ReadBoolean() returns (r: Option<bool>)
      modifies this
      ensures Reads(GetBool(old(rest)), r, rest)
    {
      r := None;
      if rest != [] { r, rest := Some(rest[0] != 0), rest[1..]; }
    }

    method ReadFully(n: nat) returns (r: Option<seq<byte>>)
      modifies this
      ensures Reads(GetBytes(n, old(rest)), r, rest)
    {
      r := None;
      if |rest| >= n { r, rest := Some(rest[..n]), rest[n..]; }
    }

    method ReadUTF() returns (r: Option<seq<char16>>)
      modifies this
      ensures Reads(GetUTF(old(rest)), r, rest)
    {
      var p := GetUTF(rest);
      r := None;
      if p.Some? { r, rest := Some(p.value.0), p.value.1; }
    }
  }

  /** A read delivers what parsing the unread input yields; after a failure nobody reads on. */
  ghost predicate Reads<T>(p: Parse<T>, r: Option<T>, rest: seq<byte>) {
    match p
    case Some((v, tail)) => r == Some(v) && rest == tail
    case None => r == None
  }
}
