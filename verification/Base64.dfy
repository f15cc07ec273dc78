/** Standard base64 with padding, section 4 of RFC 4648, as Go's
    base64.StdEncoding encodes and decodes it. */
module Base64 {
  import opened Strings

  type Byte = x: int | 0 <= x < 256

  // ------------------------------------------------------------- alphabet

  /** The character for a 6-bit value. */
  function Symbol(v: int): char
    requires 0 <= v < 64
  {
    if v < 26 then ('A' as int + v) as char
    else if v < 52 then ('a' as int + v - 26) as char
    else if v < 62 then ('0' as int + v - 52) as char
    else if v == 62 then '+' else '/'
  }

  /** Table 1 of RFC 4648: A to Z, a to z, 0 to 9, plus and slash, each run of letters
      or digits in character order. */
  lemma SymbolsInOrder()
    ensures Symbol(0) == 'A' && Symbol(25) == 'Z' && Symbol(26) == 'a' && Symbol(51) == 'z'
    ensures Symbol(52) == '0' && Symbol(61) == '9' && Symbol(62) == '+' && Symbol(63) == '/'
    ensures forall v :: 0 <= v < 61 && v != 25 && v != 51 ==> Symbol(v + 1) as int == Symbol(v) as int + 1
  {
  }

  /** Test vectors of section 10 of RFC 4648: padding of none, one and two. */
  lemma TestVectors()
    ensures EncodeGroup([102, 111, 111]) == "Zm9v"
    ensures EncodeGroup([102, 111]) == "Zm8="
    ensures EncodeGroup([102]) == "Zg=="
  {
  }

  function Value(c: char): (r: Option<int>)
    ensures r.Some? ==> 0 <= r.value < 64
  {
    if 'A' <= c <= 'Z' then Some(c as int - 'A' as int)
    else if 'a' <= c <= 'z' then Some(c as int - 'a' as int + 26)
    else if '0' <= c <= '9' then Some(c as int - '0' as int + 52)
    else if c == '+' then Some(62)
    else if c == '/' then Some(63)
    else None
  }

  lemma ValueOfSymbol(v: int)
    requires 0 <= v < 64
    ensures Value(Symbol(v)) == Some(v) && Symbol(v) != '='
  {
  }

  /** What base64 text is made of. */
  predicate Base64Text(s: string) {
    forall c :: c in s ==> Value(c).Some? || c == '='
  }

  // --------------------------------------------------------------- encode

  /** One group: up to three bytes as four characters, padded if short. */
  function EncodeGroup(g: seq<Byte>): (s: string)
    requires 1 <= |g| <= 3
    ensures |s| == 4
  {
    if |g| == 1 then [Symbol(g[0] / 4), Symbol(g[0] % 4 * 16), '=', '=']
    else if |g| == 2 then [Symbol(g[0] / 4), Symbol(g[0] % 4 * 16 + g[1] / 16), Symbol(g[1] % 16 * 4), '=']
    else [Symbol(g[0] / 4), Symbol(g[0] % 4 * 16 + g[1] / 16), Symbol(g[1] % 16 * 4 + g[2] / 64), Symbol(g[2] % 64)]
  }

  function Encode(b: seq<Byte>): (s: string)
    ensures |s| == (|b| + 2) / 3 * 4
  {
    if b == [] then ""
    else
      var n := if |b| < 3 then |b| else 3;
      EncodeGroup(b[..n]) + Encode(b[n..])
  }

  lemma GroupAlphabet(g: seq<Byte>)
    requires 1 <= |g| <= 3
    ensures Base64Text(EncodeGroup(g))
  {
    forall v | 0 <= v < 64 ensures Value(Symbol(v)).Some? {
      ValueOfSymbol(v);
    }
  }

  lemma {:induction false} EncodeAlphabet(b: seq<Byte>)
    ensures Base64Text(Encode(b))
    decreases |b|
  {
    if b != [] {
      var n := if |b| < 3 then |b| else 3;
      GroupAlphabet(b[..n]);
      EncodeAlphabet(b[n..]);
    }
  }

  // --------------------------------------------------------------- decode

  function DropNewlines(s: string): string {
    if s == "" then ""
    else (if s[0] == '\r' || s[0] == '\n' then "" else [s[0]]) + DropNewlines(s[1..])
  }

  /** One group of four. Padding is accepted only in the last group; the bits a
      padded group does not use are not checked. */
  function DecodeGroup(c0: char, c1: char, c2: char, c3: char, last: bool): Option<seq<Byte>> {
    if Value(c0).None? || Value(c1).None? then None
    else
      var v0, v1 := Value(c0).value, Value(c1).value;
      var b0 := v0 * 4 + v1 / 16;
      if c2 == '=' then (if c3 == '=' && last then Some([b0]) else None)
      else if Value(c2).None? then None
      else
        var v2 := Value(c2).value;
        var b1 := v1 % 16 * 16 + v2 / 4;
        if c3 == '=' then (if last then Some([b0, b1]) else None)
        else if Value(c3).None? then None
        else Some([b0, b1, v2 % 4 * 64 + Value(c3).value])
  }

  function DecodeGroups(s: string): Option<seq<Byte>> {
    if s == "" then Some([])
    else if |s| < 4 then None
    else
      match (DecodeGroup(s[0], s[1], s[2], s[3], |s| == 4), DecodeGroups(s[4..]))
      case (Some(group), Some(rest)) => Some(group + rest)
      case _ => None
  }

  /** Decoding ignores carriage returns and newlines wherever they stand. */
  function Decode(s: string): Option<seq<Byte>> {
    DecodeGroups(DropNewlines(s))
  }

  lemma NoNewline(c: char)
    requires Value(c).Some? || c == '='
    ensures c != '\r' && c != '\n'
  {
  }

  lemma {:induction false} DropNewlinesIsIdentity(s: string)
    requires Base64Text(s)
    ensures DropNewlines(s) == s
    decreases |s|
  {
    if s != "" {
      NoNewline(s[0]);
      DropNewlinesIsIdentity(s[1..]);
    }
  }

  lemma {:induction false} DropNewlinesConcat(a: string, b: string)
    ensures DropNewlines(a + b) == DropNewlines(a) + DropNewlines(b)
    decreases |a|
  {
    if a == "" {
      assert a + b == b;
    } else {
      assert (a + b)[0] == a[0] && (a + b)[1..] == a[1..] + b;
      DropNewlinesConcat(a[1..], b);
    }
  }

  /** The bits of three bytes cut into sixes and put together again. */
  lemma Regroup(b0: Byte, b1: Byte, b2: Byte)
    ensures b0 / 4 * 4 + (b0 % 4 * 16 + b1 / 16) / 16 == b0
    ensures (b0 % 4 * 16 + b1 / 16) % 16 * 16 + (b1 % 16 * 4 + b2 / 64) / 4 == b1
    ensures (b1 % 16 * 4 + b2 / 64) % 4 * 64 + b2 % 64 == b2
  {
  }

  lemma DecodeGroupEncode(g: seq<Byte>, last: bool)
    requires 1 <= |g| <= 3 && (|g| < 3 ==> last)
    ensures var e := EncodeGroup(g); DecodeGroup(e[0], e[1], e[2], e[3], last) == Some(g)
  {
    if |g| == 1 {
      DecodeBytes(g[0], 0, 0, last);
      assert g == [g[0]];
    } else if |g| == 2 {
      DecodeBytes(g[0], g[1], 0, last);
      assert g == [g[0], g[1]];
    } else {
      DecodeBytes(g[0], g[1], g[2], last);
      assert g == [g[0], g[1], g[2]];
    }
  }

  lemma DecodeBytes(b0: Byte, b1: Byte, b2: Byte, last: bool)
    ensures var s0, s1, s2 := Symbol(b0 / 4), Symbol(b0 % 4 * 16 + b1 / 16), Symbol(b1 % 16 * 4 + b2 / 64);
            && DecodeGroup(s0, s1, s2, Symbol(b2 % 64), last) == Some([b0, b1, b2])
            && (last ==> DecodeGroup(s0, s1, s2, '=', last) == Some([b0, b1]))
            && (last ==> DecodeGroup(s0, s1, '=', '=', last) == Some([b0]))
  {
    Regroup(b0, b1, b2);
    DecodeSymbols(b0 / 4, b0 % 4 * 16 + b1 / 16, b1 % 16 * 4 + b2 / 64, b2 % 64, last);
  }

  /** What four symbols decode to, and what is left of that under padding. */
  lemma DecodeSymbols(v0: int, v1: int, v2: int, v3: int, last: bool)
    requires 0 <= v0 < 64 && 0 <= v1 < 64 && 0 <= v2 < 64 && 0 <= v3 < 64
    ensures var b0, b1, b2 := v0 * 4 + v1 / 16, v1 % 16 * 16 + v2 / 4, v2 % 4 * 64 + v3;
            && DecodeGroup(Symbol(v0), Symbol(v1), Symbol(v2), Symbol(v3), last) == Some([b0, b1, b2])
            && (last ==> DecodeGroup(Symbol(v0), Symbol(v1), Symbol(v2), '=', last) == Some([b0, b1]))
            && (last ==> DecodeGroup(Symbol(v0), Symbol(v1), '=', '=', last) == Some([b0]))
  {
    ValueOfSymbol(v0);
    ValueOfSymbol(v1);
    ValueOfSymbol(v2);
    ValueOfSymbol(v3);
  }

  lemma {:induction false} DecodeGroupsEncode(b: seq<Byte>)
    ensures DecodeGroups(Encode(b)) == Some(b)
    decreases |b|
  {
    if b != [] {
      var n := if |b| < 3 then |b| else 3;
      var e, rest := EncodeGroup(b[..n]), Encode(b[n..]);
      DecodeGroupsEncode(b[n..]);
      DecodeGroupEncode(b[..n], |b| <= 3);
      DecodeGroupsCons(e, rest);
      assert b == b[..n] + b[n..];
    }
  }

  lemma DecodeGroupsCons(e: string, rest: string)
    requires |e| == 4
    ensures DecodeGroups(e + rest) == match (DecodeGroup(e[0], e[1], e[2], e[3], rest == ""), DecodeGroups(rest))
                                      case (Some(group), Some(tail)) => Some(group + tail)
                                      case _ => None
  {
    assert (e + rest)[4..] == rest;
  }

  /** Decoding undoes encoding, also when the text is followed by a newline. */
  lemma RoundTrip(b: seq<Byte>)
    ensures Decode(Encode(b)) == Some(b)
    ensures Decode(Encode(b) + "\n") == Some(b)
  {
    EncodeAlphabet(b);
    DropNewlinesIsIdentity(Encode(b));
    DecodeGroupsEncode(b);
    DropNewlinesConcat(Encode(b), "\n");
    assert DropNewlines("\n") == "";
    assert Encode(b) + "" == Encode(b);
  }
}
