/**
 Base64 with the standard alphabet and padding (section 4 of RFC 4648).

 Shifts and masks on bytes are written as products, quotients and remainders.
 */
module Base64 {
  import opened Optional

  type Byte = b: int | 0 <= b < 256
  type Sextet = v: int | 0 <= v < 64
  /** A character that fits in one byte. */
  type Octet = c: char | c as int < 256

  const UPPER := "ABCDEFGHIJKLMNOPQRSTUVWXYZ"
  const LOWER := "abcdefghijklmnopqrstuvwxyz"
  const DIGITS := "0123456789"
  const ENCODE_TABLE: string := UPPER + LOWER + DIGITS + "+/"

  /** The alphabet (table 1 of RFC 4648) as ranges; -1 for everything else. */
  function SymbolValue(c: char): (v: int)
    ensures -1 <= v < 64
  {
    if 'A' <= c <= 'Z' then c as int - 'A' as int
    else if 'a' <= c <= 'z' then c as int - 'a' as int + 26
    else if '0' <= c <= '9' then c as int - '0' as int + 52
    else if c == '+' then 62
    else if c == '/' then 63
    else -1
  }

  function Symbol(v: Sextet): char {
    if v < 26 then ('A' as int + v) as char
    else if v < 52 then ('a' as int + v - 26) as char
    else if v < 62 then ('0' as int + v - 52) as char
    else if v == 62 then '+'
    else '/'
  }

  lemma SymbolHasValue(v: Sextet)
    ensures SymbolValue(Symbol(v)) == v && Symbol(v) != '='
  {
  }

  lemma UpperAt(v: nat)
    requires v < 26
    ensures UPPER[v] as int == 'A' as int + v
  {
  }

  lemma LowerAt(v: nat)
    requires v < 26
    ensures LOWER[v] as int == 'a' as int + v
  {
  }

  lemma DigitAt(v: nat)
    requires v < 10
    ensures DIGITS[v] as int == '0' as int + v
  {
  }

  /** The program's table lists the symbols in order of value. */
  lemma TableHolds(v: Sextet)
    ensures |ENCODE_TABLE| == 64 && ENCODE_TABLE[v] == Symbol(v)
  {
    if v < 26 {
      UpperAt(v);
    } else if v < 52 {
      LowerAt(v - 26);
    } else if v < 62 {
      DigitAt(v - 52);
    }
  }

  /** Table 1 of RFC 4648: capitals, small letters, digits, plus and slash, in this order. */
  lemma StandardAlphabet(v: Sextet)
    ensures Symbol(v) as int ==
            if v < 26 then 65 + v else if v < 52 then 97 + (v - 26) else if v < 62 then 48 + (v - 52)
            else if v == 62 then 43 else 47
    ensures |ENCODE_TABLE| == 64 && ENCODE_TABLE[v] as int == Symbol(v) as int
  {
    TableHolds(v);
  }

  lemma ValueHasSymbol(c: char)
    requires SymbolValue(c) != -1
    ensures 0 <= SymbolValue(c) < 64 && Symbol(SymbolValue(c)) == c
  {
  }

  // ---------------------------------------------------------------------------
  // Encoding
  // ---------------------------------------------------------------------------

  // The six-bit groups of three bytes.

  function First(a: Byte): Sextet { a / 4 }
  function Second(a: Byte, b: Byte): Sextet { a % 4 * 16 + b / 16 }
  function Third(b: Byte, c: Byte): Sextet { b % 16 * 4 + c / 64 }
  function Fourth(c: Byte): Sextet { c % 64 }

  function Group(a: Byte, b: Byte, c: Byte): string {
    [Symbol(First(a)), Symbol(Second(a, b)), Symbol(Third(b, c)), Symbol(Fourth(c))]
  }

  /** The symbols of whole triples, which is what the loop produces. */
  function EncodedTriples(data: seq<Byte>): string
    requires |data| % 3 == 0
  {
    var n := |data|;
    if n == 0 then "" else EncodedTriples(data[..n - 3]) + Group(data[n - 3], data[n - 2], data[n - 1])
  }

  /** The symbols of the one or two bytes after the last whole triple. */
  function EncodedTail(tail: seq<Byte>): string
    requires |tail| < 3
  {
    if |tail| == 0 then ""
    else if |tail| == 1 then Group(tail[0], 0, 0)[..2] + "=="
    else Group(tail[0], tail[1], 0)[..3] + "="
  }

  function Whole(data: seq<Byte>): (n: nat)
    ensures n % 3 == 0 && n <= |data| < n + 3
  {
    |data| / 3 * 3
  }

  function Encoding(data: seq<Byte>): string {
    EncodedTriples(data[..Whole(data)]) + EncodedTail(data[Whole(data)..])
  }

  lemma WholeIs(data: seq<Byte>, i: nat)
    requires i % 3 == 0 && i <= |data| < i + 3
    ensures Whole(data) == i
  {
  }

  lemma EncodingStep(data: seq<Byte>, i: nat)
    requires i % 3 == 0 && i + 3 <= |data|
    ensures (i + 3) % 3 == 0
    ensures EncodedTriples(data[..i + 3]) == EncodedTriples(data[..i]) + Group(data[i], data[i + 1], data[i + 2])
  {
    assert data[..i + 3][..i] == data[..i];
  }

  lemma Quotient(x: int, d: int, q: int, r: int)
    requires 0 <= r < d && x == q * d + r
    ensures x / d == q && x % d == r
  {
    var k := x / d - q;
    assert k * d == r - x % d;
    if k != 0 {
      LargeMultiple(k, d);
      assert false;
    }
  }

  lemma LargeMultiple(k: int, d: int)
    requires k != 0 && d > 0
    ensures k * d >= d || k * d <= -d
  {
    if k >= 1 {
      assert k * d >= d;
    } else {
      assert k * d <= -d;
    }
  }

  // The groups as they are cut out of the 24-bit number.

  lemma CutFirst(a: Byte, b: Byte, c: Byte, t: int)
    requires t == 0x10000 * a + 0x100 * b + c
    ensures t / 0x40000 % 64 == First(a)
  {
    Quotient(t, 0x40000, a / 4, 0x10000 * (a % 4) + 0x100 * b + c);
  }

  lemma CutSecond(a: Byte, b: Byte, c: Byte, t: int)
    requires t == 0x10000 * a + 0x100 * b + c
    ensures t / 0x1000 % 64 == Second(a, b)
  {
    Quotient(t, 0x1000, 16 * a + b / 16, 0x100 * (b % 16) + c);
    Quotient(16 * a + b / 16, 64, a / 4, Second(a, b));
  }

  lemma CutThird(a: Byte, b: Byte, c: Byte, t: int)
    requires t == 0x10000 * a + 0x100 * b + c
    ensures t / 0x40 % 64 == Third(b, c)
  {
    Quotient(t, 0x40, 1024 * a + 4 * b + c / 64, c % 64);
    Quotient(1024 * a + 4 * b + c / 64, 64, 16 * a + b / 16, Third(b, c));
  }

  lemma CutFourth(a: Byte, b: Byte, c: Byte, t: int)
    requires t == 0x10000 * a + 0x100 * b + c
    ensures t % 64 == Fourth(c)
  {
    Quotient(t, 64, 1024 * a + 4 * b + c / 64, c % 64);
  }

  /** One look-up of the program in its table. */
  method Lookup(v: Sextet) returns (c: char)
    ensures c == Symbol(v)
  {
    TableHolds(v);
    c := ENCODE_TABLE[v];
  }

  /** Appends the first `count` symbols of three bytes. */
  method PushSymbols(encoded: string, a: Byte, b: Byte, c: Byte, count: nat) returns (longer: string)
    requires 2 <= count <= 4
    ensures longer == encoded + Group(a, b, c)[..count]
  {
    var triple: int := 0x10000 * a + 0x100 * b + c;
    CutFirst(a, b, c, triple);
    CutSecond(a, b, c, triple);
    var c0 := Lookup(triple / 0x40000 % 64);
    var c1 := Lookup(triple / 0x1000 % 64);
    longer := encoded + [c0] + [c1];
    if count >= 3 {
      CutThird(a, b, c, triple);
      var c2 := Lookup(triple / 0x40 % 64);
      longer := longer + [c2];
    }
    if count == 4 {
      CutFourth(a, b, c, triple);
      var c3 := Lookup(triple % 64);
      longer := longer + [c3];
    }
  }

  method Encode(data: seq<Byte>) returns (encoded: string)
    ensures encoded == Encoding(data)
  {
    encoded := "";
    var size := |data|;
    if size == 0 {
      return;
    }
    var i := 0;
    while i + 3 <= size
      invariant 0 <= i <= size && i % 3 == 0
      invariant encoded == EncodedTriples(data[..i])
    {
      EncodingStep(data, i);
      encoded := PushSymbols(encoded, data[i], data[i + 1], data[i + 2], 4);
      i := i + 3;
    }
    WholeIs(data, i);
    encoded := PushTail(encoded, data[i..]);
  }

  /** The one or two bytes after the last whole triple. */
  method PushTail(encoded: string, tail: seq<Byte>) returns (longer: string)
    requires |tail| < 3
    ensures longer == encoded + EncodedTail(tail)
  {
    longer := encoded;
    if |tail| == 1 {
      longer := PushSymbols(longer, tail[0], 0, 0, 2);
      longer := longer + "==";
    } else if |tail| == 2 {
      longer := PushSymbols(longer, tail[0], tail[1], 0, 3);
      longer := longer + "=";
    }
  }

  // ---------------------------------------------------------------------------
  // Decoding
  // ---------------------------------------------------------------------------

  /** One group of four characters; `last` says whether it may be padded. */
  function QuartetBytes(q: string, last: bool): Option<seq<Byte>>
    requires |q| == 4
  {
    var v0, v1, v2, v3 := SymbolValue(q[0]), SymbolValue(q[1]), SymbolValue(q[2]), SymbolValue(q[3]);
    if v0 < 0 || v1 < 0 then None
    else if q[3] == '=' then
      if !last then None
      else if q[2] == '=' then Some([v0 * 4 + v1 / 16])
      else if v2 < 0 then None
      else Some([v0 * 4 + v1 / 16, v1 % 16 * 16 + v2 / 4])
    else if v2 < 0 || v3 < 0 then None
    else Some([v0 * 4 + v1 / 16, v1 % 16 * 16 + v2 / 4, v2 % 4 * 64 + v3])
  }

  function Joined(body: Option<seq<Byte>>, tail: Option<seq<Byte>>): Option<seq<Byte>> {
    if body.Some? && tail.Some? then Some(body.value + tail.value) else None
  }

  /** Group by group; only the last group may be padded, and only when the text ends there. */
  function Decoded(text: string, ends: bool): Option<seq<Byte>>
    requires |text| % 4 == 0
  {
    var n := |text|;
    if n == 0 then Some([]) else Joined(Decoded(text[..n - 4], false), QuartetBytes(text[n - 4..], ends))
  }

  lemma DecodedStep(text: string, i: nat)
    requires |text| % 4 == 0 && i % 4 == 0 && i + 4 <= |text|
    ensures (i + 4) % 4 == 0
    ensures
      Decoded(text[..i + 4], i + 4 == |text|) == Joined(Decoded(text[..i], false), QuartetBytes(text[i..i + 4],
          i + 4 == |text|))
  {
    assert text[..i + 4][..i] == text[..i] && text[..i + 4][i..] == text[i..i + 4];
  }

  function Decoding(text: string): Option<seq<Byte>> {
    if |text| % 4 != 0 then None else Decoded(text, true)
  }

  lemma NextGroup(i: nat, n: nat)
    requires i % 4 == 0 && n % 4 == 0 && i < n
    ensures i + 4 <= n
    ensures (i + 4) % 4 == 0 && (n - 4) % 4 == 0
  {
  }

  lemma SamePrefix<T>(s: seq<T>, n: nat, k: nat)
    requires k <= n <= |s|
    ensures s[..n][..k] == s[..k]
  {
  }

  lemma RefusedSoFar(text: string, i: nat)
    requires |text| % 4 == 0 && i % 4 == 0 && i + 4 <= |text|
    requires QuartetBytes(text[i..i + 4], i + 4 == |text|).None?
    ensures (i + 4) % 4 == 0 && Decoded(text[..i + 4], i + 4 == |text|).None?
  {
    DecodedStep(text, i);
  }

  lemma RefusedBody(text: string)
    requires |text| % 4 == 0 && text != "" && Decoded(text[..|text| - 4], false).None?
    ensures Decoded(text, true).None?
  {
  }

  /** Once one group is refused, so is the text. */
  lemma RefusedGroup(text: string, i: nat)
    requires |text| % 4 == 0 && i % 4 == 0 && i + 4 <= |text|
    requires QuartetBytes(text[i..i + 4], i + 4 == |text|).None?
    ensures Decoded(text, true).None?
  {
    RefusedSoFar(text, i);
    if i + 4 == |text| {
      assert text[..i + 4] == text;
    } else {
      NextGroup(i + 4, |text|);
      SamePrefix(text, |text| - 4, i + 4);
      RefusedPrefix(text[..|text| - 4], i + 4);
      RefusedBody(text);
    }
  }

  lemma {:induction false} RefusedPrefix(text: string, k: nat)
    requires |text| % 4 == 0 && k % 4 == 0 && k <= |text|
    requires Decoded(text[..k], false).None?
    ensures Decoded(text, false).None?
  {
    if k == |text| {
      assert text[..k] == text;
    } else {
      NextGroup(k, |text|);
      SamePrefix(text, |text| - 4, k);
      RefusedPrefix(text[..|text| - 4], k);
    }
  }

  predicate HoldsValues(table: array<int>)
    reads table
  {
    table.Length == 256 && forall c: Octet :: table[c as int] == SymbolValue(c)
  }

  method MakeDecodeTable() returns (table: array<int>)
    ensures fresh(table) && HoldsValues(table)
  {
    table := new int[256](_ => -1);
    var i := 0;
    while i < 64
      invariant 0 <= i <= 64
      invariant forall c: Octet :: table[c as int] == if SymbolValue(c) < i then SymbolValue(c) else -1
    {
      SymbolHasValue(i);
      var c := Lookup(i);
      table[c as int] := i;
      i := i + 1;
    }
  }

  /** One group of the loop in Decode. */
  method DecodeGroup(table: array<int>, q: seq<Octet>, isLast: bool) returns (bytes: Option<seq<Byte>>)
    requires |q| == 4 && HoldsValues(table)
    ensures bytes == QuartetBytes(q, isLast)
  {
    var pad2 := q[2] == '=';
    var pad3 := q[3] == '=';
    if (pad2 || pad3) && !isLast {
      return None;
    }
    if pad2 && !pad3 {
      return None;
    }
    var v0 := table[q[0] as int];
    var v1 := table[q[1] as int];
    assert v0 == SymbolValue(q[0]) && v1 == SymbolValue(q[1]);
    if v0 < 0 || v1 < 0 {
      return None;
    }
    var first: Byte := v0 * 4 + v1 / 16;
    var decoded := [first];
    if !pad2 {
      var v2 := table[q[2] as int];
      assert v2 == SymbolValue(q[2]);
      if v2 < 0 {
        return None;
      }
      var second: Byte := v1 % 16 * 16 + v2 / 4;
      decoded := decoded + [second];
      assert decoded == [first, second];
      if !pad3 {
        var v3 := table[q[3] as int];
        assert v3 == SymbolValue(q[3]);
        if v3 < 0 {
          return None;
        }
        var third: Byte := v2 % 4 * 64 + v3;
        decoded := decoded + [third];
        assert decoded == [first, second, third];
      }
    }
    return Some(decoded);
  }

  method Decode(encoded: seq<Octet>) returns (result: Option<seq<Byte>>)
    ensures result == Decoding(encoded)
  {
    var table := MakeDecodeTable();
    if |encoded| % 4 != 0 {
      return None;
    }
    var decoded: seq<Byte> := [];
    var i := 0;
    while i < |encoded|
      invariant 0 <= i <= |encoded| && i % 4 == 0 && |encoded| % 4 == 0
      invariant Decoded(encoded[..i], i == |encoded|) == Some(decoded)
      invariant HoldsValues(table)
    {
      NextGroup(i, |encoded|);
      var group := DecodeGroup(table, encoded[i..i + 4], i + 4 == |encoded|);
      DecodedStep(encoded, i);
      if group.None? {
        RefusedGroup(encoded, i);
        return None;
      }
      decoded := decoded + group.value;
      i := i + 4;
    }
    assert encoded[..|encoded|] == encoded;
    return Some(decoded);
  }

  // ---------------------------------------------------------------------------
  // Round trip
  // ---------------------------------------------------------------------------

  /** Splitting bytes into sextets and joining them again. */
  lemma JoinSextets(a: Byte, b: Byte, c: Byte)
    ensures First(a) * 4 + Second(a, b) / 16 == a
    ensures Second(a, b) % 16 * 16 + Third(b, c) / 4 == b
    ensures Third(b, c) % 4 * 64 + Fourth(c) == c
  {
    Quotient(a % 4 * 16 + b / 16, 16, a % 4, b / 16);
    Quotient(b % 16 * 4 + c / 64, 4, b % 16, c / 64);
  }

  lemma QuartetOfValues(q: string, v0: Sextet, v1: Sextet, v2: Sextet, v3: Sextet, last: bool)
    requires q == [Symbol(v0), Symbol(v1), Symbol(v2), Symbol(v3)]
    ensures QuartetBytes(q, last) == Some([v0 * 4 + v1 / 16, v1 % 16 * 16 + v2 / 4, v2 % 4 * 64 + v3])
  {
    SymbolHasValue(v0);
    SymbolHasValue(v1);
    SymbolHasValue(v2);
    SymbolHasValue(v3);
  }

  lemma GroupRoundTrip(a: Byte, b: Byte, c: Byte, last: bool)
    ensures QuartetBytes(Group(a, b, c), last) == Some([a, b, c])
  {
    QuartetOfValues(Group(a, b, c), First(a), Second(a, b), Third(b, c), Fourth(c), last);
    JoinSextets(a, b, c);
  }

  lemma TailOfOneRoundTrip(a: Byte)
    ensures QuartetBytes(EncodedTail([a]), true) == Some([a])
  {
    JoinSextets(a, 0, 0);
    SymbolHasValue(First(a));
    SymbolHasValue(Second(a, 0));
  }

  lemma TailOfTwoRoundTrip(a: Byte, b: Byte)
    ensures QuartetBytes(EncodedTail([a, b]), true) == Some([a, b])
  {
    JoinSextets(a, b, 0);
    SymbolHasValue(First(a));
    SymbolHasValue(Second(a, b));
    SymbolHasValue(Third(b, 0));
  }

  lemma TailRoundTrip(tail: seq<Byte>)
    requires 0 < |tail| < 3
    ensures |EncodedTail(tail)| == 4 && QuartetBytes(EncodedTail(tail), true) == Some(tail)
  {
    if |tail| == 1 {
      TailOfOneRoundTrip(tail[0]);
      assert tail == [tail[0]];
    } else {
      TailOfTwoRoundTrip(tail[0], tail[1]);
      assert tail == [tail[0], tail[1]];
    }
  }

  lemma {:induction false} TriplesLength(data: seq<Byte>)
    requires |data| % 3 == 0
    ensures 3 * |EncodedTriples(data)| == 4 * |data|
  {
    if data != [] {
      TriplesLength(data[..|data| - 3]);
    }
  }

  lemma {:induction false} TriplesRoundTrip(data: seq<Byte>, ends: bool)
    requires |data| % 3 == 0
    ensures |EncodedTriples(data)| % 4 == 0
    ensures Decoded(EncodedTriples(data), ends) == Some(data)
  {
    if data != [] {
      var n := |data|;
      var body := data[..n - 3];
      TriplesRoundTrip(body, false);
      LastThree(data);
      AppendRoundTrip(EncodedTriples(body), body, data[n - 3], data[n - 2], data[n - 1], ends);
    }
  }

  lemma AppendRoundTrip(text: string, body: seq<Byte>, a: Byte, b: Byte, c: Byte, ends: bool)
    requires |text| % 4 == 0 && Decoded(text, false) == Some(body)
    ensures |text + Group(a, b, c)| % 4 == 0
    ensures Decoded(text + Group(a, b, c), ends) == Some(body + [a, b, c])
  {
    GroupRoundTrip(a, b, c, ends);
    DecodedAppend(text, Group(a, b, c), ends);
  }

  lemma LastThree<T>(data: seq<T>)
    requires |data| >= 3
    ensures var n := |data|; data == data[..n - 3] + [data[n - 3], data[n - 2], data[n - 1]]
  {
  }

  lemma Halves<T>(s: seq<T>, k: nat)
    requires k <= |s|
    ensures s == s[..k] + s[k..]
  {
  }

  lemma DecodedAppend(body: string, group: string, ends: bool)
    requires |body| % 4 == 0 && |group| == 4
    ensures (|body| + 4) % 4 == 0
    ensures Decoded(body + group, ends) == Joined(Decoded(body, false), QuartetBytes(group, ends))
  {
    var text := body + group;
    assert text[..|text| - 4] == body && text[|text| - 4..] == group;
  }

  lemma StartedTriples(n: nat, k: nat)
    requires 3 * k <= n < 3 * k + 3
    ensures (n + 2) / 3 == if n == 3 * k then k else k + 1
  {
  }

  lemma TailLength(tail: seq<Byte>)
    requires |tail| < 3
    ensures |EncodedTail(tail)| == if |tail| == 0 then 0 else 4
  {
  }

  /** Four characters for every started triple. */
  lemma EncodedLength(data: seq<Byte>)
    ensures |Encoding(data)| == (|data| + 2) / 3 * 4
  {
    var k := |data| / 3;
    var triples, tail := data[..3 * k], data[3 * k..];
    TriplesLength(triples);
    TailLength(tail);
    StartedTriples(|data|, k);
    WholeIs(data, 3 * k);
  }

  lemma JoinGroups(body: string, data: seq<Byte>, group: string, bytes: seq<Byte>)
    requires |body| % 4 == 0 && |group| == 4
    requires Decoded(body, false) == Some(data) && QuartetBytes(group, true) == Some(bytes)
    ensures Decoding(body + group) == Some(data + bytes)
  {
    DecodedAppend(body, group, true);
  }

  lemma PaddedRoundTrip(triples: seq<Byte>, tail: seq<Byte>)
    requires |triples| % 3 == 0 && 0 < |tail| < 3
    ensures Decoding(EncodedTriples(triples) + EncodedTail(tail)) == Some(triples + tail)
  {
    TriplesRoundTrip(triples, false);
    TailRoundTrip(tail);
    JoinGroups(EncodedTriples(triples), triples, EncodedTail(tail), tail);
  }

  /** Decoding what was encoded returns the data, for every sequence of bytes. */
  lemma RoundTrip(data: seq<Byte>)
    ensures Decoding(Encoding(data)) == Some(data)
  {
    var w := Whole(data);
    Halves(data, w);
    if w == |data| {
      TriplesRoundTrip(data, true);
      assert data[..w] == data && EncodedTriples(data) + "" == EncodedTriples(data);
    } else {
      PaddedRoundTrip(data[..w], data[w..]);
    }
  }

  // ---------------------------------------------------------------------------
  // What the decoder accepts
  // ---------------------------------------------------------------------------

  /** How many padding characters the text ends in, two at most. */
  function Padding(text: string): nat {
    var n := |text|;
    if n < 4 || text[n - 1] != '=' then 0 else if text[n - 2] != '=' then 1 else 2
  }

  predicate AllSymbols(text: string) {
    forall i :: 0 <= i < |text| ==> SymbolValue(text[i]) >= 0
  }

  /** Section 4 of RFC 4648: whole groups, alphabet characters only, up to two padding characters at the very end. */
  predicate WellFormed(text: string) {
    |text| % 4 == 0 && AllSymbols(text[..|text| - Padding(text)])
  }

  lemma {:induction false} BodyAccepts(text: string)
    requires |text| % 4 == 0
    ensures Decoded(text, false).Some? <==> AllSymbols(text)
  {
    if text != "" {
      var n := |text|;
      BodyAccepts(text[..n - 4]);
      SplitSymbols(text, n - 4);
      GroupAccepts(text[n - 4..]);
    }
  }

  lemma SplitSymbols(text: string, k: nat)
    requires k <= |text|
    ensures AllSymbols(text) <==> AllSymbols(text[..k]) && AllSymbols(text[k..])
  {
    if AllSymbols(text[..k]) && AllSymbols(text[k..]) {
      forall i | 0 <= i < |text| ensures SymbolValue(text[i]) >= 0 {
        if i < k {
          assert text[i] == text[..k][i];
        } else {
          assert text[i] == text[k..][i - k];
        }
      }
    }
    if AllSymbols(text) {
      forall i | 0 <= i < |text| - k ensures SymbolValue(text[k..][i]) >= 0 {
        assert text[k..][i] == text[k + i];
      }
    }
  }

  lemma GroupAccepts(group: string)
    requires |group| == 4
    ensures QuartetBytes(group, false).Some? <==> AllSymbols(group)
    ensures QuartetBytes(group, true).Some? <==> AllSymbols(group[..4 - Padding(group)])
  {
  }

  /** A test vector of section 10 of RFC 4648. */
  lemma FoobarEncoding()
    ensures Encoding([0x66, 0x6F, 0x6F, 0x62, 0x61, 0x72]) == "Zm9vYmFy"
  {
    var foo: seq<Byte> := [0x66, 0x6F, 0x6F];
    var data: seq<Byte> := foo + [0x62, 0x61, 0x72];
    assert Group(0x66, 0x6F, 0x6F) == "Zm9v" && Group(0x62, 0x61, 0x72) == "YmFy";
    assert foo[..0] == [] && data[..3] == foo && data[..6] == data && data[6..] == [];
    assert EncodedTriples(foo) == "Zm9v";
    assert data == [0x66, 0x6F, 0x6F, 0x62, 0x61, 0x72];
  }

  /** The decoder accepts exactly the well-formed texts. */
  lemma AcceptsExactlyWellFormed(text: string)
    ensures Decoding(text).Some? <==> WellFormed(text)
  {
    var n := |text|;
    if n % 4 == 0 && n > 0 {
      var body, group := text[..n - 4], text[n - 4..];
      BodyAccepts(body);
      GroupAccepts(group);
      var kept := text[..n - Padding(text)];
      assert kept[..n - 4] == body && kept[n - 4..] == group[..4 - Padding(group)];
      SplitSymbols(kept, n - 4);
    }
  }

  // ---------------------------------------------------------------------------
  // Canonical texts
  // ---------------------------------------------------------------------------

  /** The bits of the last symbol that no byte uses (section 3.5 of RFC 4648). */
  function UnusedBits(text: string): int
    requires WellFormed(text)
  {
    var n := |text|;
    match Padding(text)
    case 0 => 0
    case 1 => SymbolValue(text[n - 2]) % 4
    case _ => SymbolValue(text[n - 3]) % 16
  }

  /** Joining sextets into bytes and splitting them again. */
  lemma SplitBytes(v0: Sextet, v1: Sextet, v2: Sextet, v3: Sextet, a: Byte, b: Byte, c: Byte)
    requires a == v0 * 4 + v1 / 16 && b == v1 % 16 * 16 + v2 / 4 && c == v2 % 4 * 64 + v3
    ensures First(a) == v0 && Second(a, b) == v1 && Third(b, c) == v2 && Fourth(c) == v3
  {
    Quotient(a, 4, v0, v1 / 16);
    Quotient(b, 16, v1 % 16, v2 / 4);
    Quotient(c, 64, v2 % 4, v3);
  }

  lemma SymbolsOfGroup(q: string)
    requires |q| == 4 && AllSymbols(q)
    ensures
      q == [Symbol(SymbolValue(q[0])), Symbol(SymbolValue(q[1])), Symbol(SymbolValue(q[2])), Symbol(SymbolValue(q[3]))]
  {
    ValueHasSymbol(q[0]);
    ValueHasSymbol(q[1]);
    ValueHasSymbol(q[2]);
    ValueHasSymbol(q[3]);
  }

  lemma GroupIsCanonical(q: string, last: bool)
    requires |q| == 4 && AllSymbols(q)
    ensures
      var bytes := QuartetBytes(q, last);
      bytes.Some? && |bytes.value| == 3 && Group(bytes.value[0], bytes.value[1], bytes.value[2]) == q
  {
    var v0, v1, v2, v3 := SymbolValue(q[0]), SymbolValue(q[1]), SymbolValue(q[2]), SymbolValue(q[3]);
    SymbolsOfGroup(q);
    QuartetOfValues(q, v0, v1, v2, v3, last);
    var a, b, c := v0 * 4 + v1 / 16, v1 % 16 * 16 + v2 / 4, v2 % 4 * 64 + v3;
    SplitBytes(v0, v1, v2, v3, a, b, c);
  }

  lemma ThirdOfPair(v1: Sextet, v2: Sextet, b: Byte)
    requires b == v1 % 16 * 16 + v2 / 4
    ensures Third(b, 0) == v2 <==> v2 % 4 == 0
  {
    Quotient(b, 16, v1 % 16, v2 / 4);
  }

  lemma OnePaddedBytes(q: string, v0: Sextet, v1: Sextet, v2: Sextet)
    requires q == [Symbol(v0), Symbol(v1), Symbol(v2), '=']
    ensures QuartetBytes(q, true) == Some([v0 * 4 + v1 / 16, v1 % 16 * 16 + v2 / 4])
  {
    SymbolHasValue(v0);
    SymbolHasValue(v1);
    SymbolHasValue(v2);
  }

  lemma OnePaddedIsCanonical(q: string, v0: Sextet, v1: Sextet, v2: Sextet)
    requires q == [Symbol(v0), Symbol(v1), Symbol(v2), '=']
    ensures
      var bytes := QuartetBytes(q, true);
      bytes.Some? && |bytes.value| == 2 && (EncodedTail(bytes.value) == q <==> v2 % 4 == 0)
  {
    OnePaddedBytes(q, v0, v1, v2);
    var a, b := v0 * 4 + v1 / 16, v1 % 16 * 16 + v2 / 4;
    SplitBytes(v0, v1, v2, 0, a, b, v2 % 4 * 64);
    ThirdOfPair(v1, v2, b);
    OnePaddedTail(q, a, b, v2);
  }

  lemma OnePaddedTail(q: string, a: Byte, b: Byte, v2: Sextet)
    requires q == [Symbol(First(a)), Symbol(Second(a, b)), Symbol(v2), '=']
    ensures EncodedTail([a, b]) == q <==> Third(b, 0) == v2
  {
    var tail := EncodedTail([a, b]);
    assert tail == [q[0], q[1], Symbol(Third(b, 0)), '='];
    SymbolHasValue(Third(b, 0));
    SymbolHasValue(v2);
  }

  lemma TwoPaddedBytes(q: string, v0: Sextet, v1: Sextet)
    requires q == [Symbol(v0), Symbol(v1), '=', '=']
    ensures QuartetBytes(q, true) == Some([v0 * 4 + v1 / 16])
  {
    SymbolHasValue(v0);
    SymbolHasValue(v1);
  }

  lemma TwoPaddedIsCanonical(q: string, v0: Sextet, v1: Sextet)
    requires q == [Symbol(v0), Symbol(v1), '=', '=']
    ensures
      var bytes := QuartetBytes(q, true);
      bytes.Some? && |bytes.value| == 1 && (EncodedTail(bytes.value) == q <==> v1 % 16 == 0)
  {
    TwoPaddedBytes(q, v0, v1);
    var a := v0 * 4 + v1 / 16;
    Quotient(a, 4, v0, v1 / 16);
    SecondOfOne(v1, a);
    TwoPaddedTail(q, a, v1);
  }

  lemma SecondOfOne(v1: Sextet, a: Byte)
    requires a % 4 == v1 / 16
    ensures Second(a, 0) == v1 <==> v1 % 16 == 0
  {
  }

  lemma TwoPaddedTail(q: string, a: Byte, v1: Sextet)
    requires q == [Symbol(First(a)), Symbol(v1), '=', '=']
    ensures EncodedTail([a]) == q <==> Second(a, 0) == v1
  {
    var tail := EncodedTail([a]);
    assert tail == [q[0], Symbol(Second(a, 0)), '=', '='];
    SymbolHasValue(Second(a, 0));
    SymbolHasValue(v1);
  }

  lemma {:induction false} BodyIsCanonical(text: string)
    requires |text| % 4 == 0 && Decoded(text, false).Some?
    ensures
      var data := Decoded(text, false).value;
      |data| % 3 == 0 && EncodedTriples(data) == text
  {
    if text != "" {
      var n := |text|;
      var front, group := text[..n - 4], text[n - 4..];
      BodyIsCanonical(front);
      GroupAccepts(group);
      GroupIsCanonical(group, false);
      TriplesAppend(Decoded(front, false).value, QuartetBytes(group, false).value);
      assert text == front + group;
    }
  }

  lemma TriplesAppend(body: seq<Byte>, bytes: seq<Byte>)
    requires |body| % 3 == 0 && |bytes| == 3
    ensures |body + bytes| % 3 == 0
    ensures EncodedTriples(body + bytes) == EncodedTriples(body) + Group(bytes[0], bytes[1], bytes[2])
  {
    var data := body + bytes;
    assert data[..|data| - 3] == body;
  }

  /** Encoding a whole number of triples and a rest. */
  lemma EncodingWithTail(body: seq<Byte>, tail: seq<Byte>)
    requires |body| % 3 == 0 && |tail| < 3
    ensures Encoding(body + tail) == EncodedTriples(body) + EncodedTail(tail)
  {
    var data := body + tail;
    WholeIs(data, |body|);
    assert data[..|body|] == body && data[|body|..] == tail;
  }

  lemma EncodingWithGroup(body: seq<Byte>, group: seq<Byte>)
    requires |body| % 3 == 0 && |group| == 3
    ensures Encoding(body + group) == EncodedTriples(body) + Group(group[0], group[1], group[2])
  {
    var data := body + group;
    TriplesAppend(body, group);
    WholeIs(data, |data|);
    assert data[..|data|] == data;
    assert EncodedTail(data[|data|..]) == "";
    NothingAfter(EncodedTriples(data));
  }

  lemma NothingAfter(text: string)
    ensures text + "" == text
  {
  }

  /** Encoding a whole number of triples and a rest. */
  lemma EncodingOfParts(body: seq<Byte>, tail: seq<Byte>)
    requires |body| % 3 == 0 && |tail| <= 3
    ensures |tail| < 3 ==> Encoding(body + tail) == EncodedTriples(body) + EncodedTail(tail)
    ensures |tail| == 3 ==> Encoding(body + tail) == EncodedTriples(body) + Group(tail[0], tail[1], tail[2])
  {
    if |tail| < 3 {
      EncodingWithTail(body, tail);
    } else {
      EncodingWithGroup(body, tail);
    }
  }

  /**
   Encoding what was decoded gives the text back exactly when the bits of its last symbol that no byte
   uses are zero.
   */
  lemma CanonicalIff(text: string)
    requires WellFormed(text)
    ensures Decoding(text).Some?
    ensures Encoding(Decoding(text).value) == text <==> UnusedBits(text) == 0
  {
    AcceptsExactlyWellFormed(text);
    if text != "" {
      var body, group := text[..|text| - 4], text[|text| - 4..];
      Halves(text, |text| - 4);
      BodyIsCanonical(body);
      LastGroup(text);
      LastGroupDecides(body, group);
    }
  }

  lemma LastGroupDecides(body: string, group: string)
    requires |body| % 4 == 0 && |group| == 4 && Decoded(body, false).Some? && QuartetBytes(group, true).Some?
    requires 0 < |QuartetBytes(group, true).value| <= 3
    requires |Decoded(body, false).value| % 3 == 0 && EncodedTriples(Decoded(body, false).value) == body
    ensures Decoding(body + group) == Some(Decoded(body, false).value + QuartetBytes(group, true).value)
    ensures
      var tail := QuartetBytes(group, true).value;
      Encoding(Decoding(body + group).value) == body + group <==>
        (if |tail| == 3 then Group(tail[0], tail[1], tail[2]) else EncodedTail(tail)) == group
  {
    DecodedAppend(body, group, true);
    var tail := QuartetBytes(group, true).value;
    EncodingOfParts(Decoded(body, false).value, tail);
    SameSuffix(body, if |tail| == 3 then Group(tail[0], tail[1], tail[2]) else EncodedTail(tail), group);
  }

  lemma SameSuffix(body: string, a: string, b: string)
    ensures body + a == body + b <==> a == b
  {
    assert (body + a)[|body|..] == a && (body + b)[|body|..] == b;
  }

  lemma OnePaddedGroup(q: string)
    requires |q| == 4 && AllSymbols(q[..3]) && q[3] == '='
    ensures
      var bytes := QuartetBytes(q, true);
      bytes.Some? && |bytes.value| == 2 && (EncodedTail(bytes.value) == q <==> SymbolValue(q[2]) % 4 == 0)
  {
    assert q[..3][0] == q[0] && q[..3][1] == q[1] && q[..3][2] == q[2];
    ValueHasSymbol(q[0]);
    ValueHasSymbol(q[1]);
    ValueHasSymbol(q[2]);
    OnePaddedIsCanonical(q, SymbolValue(q[0]), SymbolValue(q[1]), SymbolValue(q[2]));
  }

  lemma TwoPaddedGroup(q: string)
    requires |q| == 4 && AllSymbols(q[..2]) && q[2] == '=' && q[3] == '='
    ensures
      var bytes := QuartetBytes(q, true);
      bytes.Some? && |bytes.value| == 1 && (EncodedTail(bytes.value) == q <==> SymbolValue(q[1]) % 16 == 0)
  {
    assert q[..2][0] == q[0] && q[..2][1] == q[1];
    ValueHasSymbol(q[0]);
    ValueHasSymbol(q[1]);
    TwoPaddedIsCanonical(q, SymbolValue(q[0]), SymbolValue(q[1]));
  }

  /** A text that is not canonical: it decodes to one byte, whose encoding is another text. */
  lemma StrayBitsAreAccepted()
    ensures WellFormed("QR==") && UnusedBits("QR==") == 1
    ensures Decoding("QR==") == Some([65]) && Encoding([65]) == "QQ=="
  {
    var text := "QR==";
    assert text[..2] == "QR" && text[..0] == "" && text[0..] == text;
    var data: seq<Byte> := [65];
    assert QuartetBytes(text, true) == Some(data);
    assert Decoded(text[..0], false) == Some([]);
    assert Decoded(text, true) == Joined(Some([]), Some(data));
    assert [] + data == data;
    assert data[..0] == [] && data[0..] == data;
    assert EncodedTail(data) == "QQ==";
  }

  /** The group that ends a well-formed text. */
  lemma LastGroup(text: string)
    requires WellFormed(text) && text != ""
    ensures
      var group := text[|text| - 4..];
      var bytes := QuartetBytes(group, true);
      && bytes.Some? && 0 < |bytes.value| <= 3
      && (if |bytes.value| == 3
          then UnusedBits(text) == 0 && Group(bytes.value[0], bytes.value[1], bytes.value[2]) == group
          else EncodedTail(bytes.value) == group <==> UnusedBits(text) == 0)
  {
    var n, p := |text|, Padding(text);
    var group := text[n - 4..];
    SplitSymbols(text[..n - p], n - 4);
    assert text[..n - p][n - 4..] == group[..4 - p];
    if p == 0 {
      assert group[..4] == group;
      GroupIsCanonical(group, true);
    } else if p == 1 {
      OnePaddedGroup(group);
    } else {
      TwoPaddedGroup(group);
    }
  }

  // ---------------------------------------------------------------------------
  // What the symbols mean
  // ---------------------------------------------------------------------------

  /** The number the digits write, most significant first. */
  function Numeral(base: nat, digits: seq<int>): int {
    if digits == [] then 0 else Numeral(base, digits[..|digits| - 1]) * base + digits[|digits| - 1]
  }

  function Values(text: string): seq<int> {
    seq(|text|, i requires 0 <= i < |text| => SymbolValue(text[i]))
  }

  lemma NumeralPush(base: nat, digits: seq<int>, d: int)
    ensures Numeral(base, digits + [d]) == Numeral(base, digits) * base + d
  {
    assert (digits + [d])[..|digits|] == digits;
  }

  lemma SextetNumeral(digits: seq<int>, a: int, b: int, c: int, d: int)
    ensures Numeral(64, digits + [a, b]) == Numeral(64, digits) * 0x1000 + a * 64 + b
    ensures Numeral(64, digits + [a, b, c]) == Numeral(64, digits) * 0x40000 + a * 0x1000 + b * 64 + c
    ensures Numeral(64, digits + [a, b, c, d])
        == Numeral(64, digits) * 0x1000000 + a * 0x40000 + b * 0x1000 + c * 64 + d
  {
    NumeralPush(64, digits, a);
    NumeralPush(64, digits + [a], b);
    NumeralPush(64, digits + [a, b], c);
    NumeralPush(64, digits + [a, b, c], d);
    assert digits + [a] + [b] == digits + [a, b];
    assert digits + [a, b] + [c] == digits + [a, b, c];
    assert digits + [a, b, c] + [d] == digits + [a, b, c, d];
  }

  lemma ByteNumeral(digits: seq<int>, a: int, b: int, c: int)
    ensures Numeral(256, digits + [a]) == Numeral(256, digits) * 0x100 + a
    ensures Numeral(256, digits + [a, b]) == Numeral(256, digits) * 0x10000 + a * 0x100 + b
    ensures Numeral(256, digits + [a, b, c]) == Numeral(256, digits) * 0x1000000 + a * 0x10000 + b * 0x100 + c
  {
    NumeralPush(256, digits, a);
    NumeralPush(256, digits + [a], b);
    NumeralPush(256, digits + [a, b], c);
    assert digits + [a] + [b] == digits + [a, b];
    assert digits + [a, b] + [c] == digits + [a, b, c];
  }

  lemma GroupNumeral(a: Byte, b: Byte, c: Byte)
    ensures First(a) * 0x40000 + Second(a, b) * 0x1000 + Third(b, c) * 64 + Fourth(c) == a * 0x10000 + b * 0x100 + c
    ensures First(a) * 64 + Second(a, 0) == a * 16
    ensures First(a) * 0x1000 + Second(a, b) * 64 + Third(b, 0) == (a * 0x100 + b) * 4
  {
  }

  lemma GroupValues(a: Byte, b: Byte, c: Byte)
    ensures Values(Group(a, b, c)) == [First(a), Second(a, b), Third(b, c), Fourth(c)]
  {
    SymbolHasValue(First(a));
    SymbolHasValue(Second(a, b));
    SymbolHasValue(Third(b, c));
    SymbolHasValue(Fourth(c));
  }

  lemma ValuesAppend(a: string, b: string)
    ensures Values(a + b) == Values(a) + Values(b)
  {
  }

  lemma {:induction false} TriplesNumeral(data: seq<Byte>)
    requires |data| % 3 == 0
    ensures Numeral(64, Values(EncodedTriples(data))) == Numeral(256, data)
  {
    if data != [] {
      var n := |data|;
      var body, a, b, c := data[..n - 3], data[n - 3], data[n - 2], data[n - 1];
      TriplesNumeral(body);
      LastThree(data);
      ValuesAppend(EncodedTriples(body), Group(a, b, c));
      GroupValues(a, b, c);
      SextetNumeral(Values(EncodedTriples(body)), First(a), Second(a, b), Third(b, c), Fourth(c));
      ByteNumeral(body, a, b, c);
      GroupNumeral(a, b, c);
    }
  }

  /** How far the zero bits that fill the last symbol shift the number. */
  function Shift(length: nat): int {
    if length % 3 == 0 then 1 else if length % 3 == 1 then 16 else 4
  }

  lemma ShiftAfterTriples(n: nat)
    requires n % 3 == 0
    ensures (n + 1) % 3 == 1 && Shift(n + 1) == 16
    ensures (n + 2) % 3 == 2 && Shift(n + 2) == 4
  {
    Quotient(n + 1, 3, n / 3, 1);
    Quotient(n + 2, 3, n / 3, 2);
  }

  /**
   The symbols of `text` without its padding are the base-64 digits of `data` read as a base-256 number,
   shifted by the bits that fill the last symbol.
   */
  predicate WritesNumber(text: string, data: seq<Byte>) {
    && Padding(text) == (if |data| % 3 == 0 then 0 else 3 - |data| % 3)
    && Padding(text) <= |text|
    && Numeral(64, Values(text[..|text| - Padding(text)])) == Numeral(256, data) * Shift(|data|)
  }

  /** Section 4 of RFC 4648: the text is the big-endian number that the bytes are. */
  lemma EncodingIsTheNumeral(data: seq<Byte>)
    ensures WritesNumber(Encoding(data), data)
  {
    var w := Whole(data);
    Halves(data, w);
    if |data| == w {
      assert data[..w] == data;
      WholeNumeral(data);
    } else if |data| == w + 1 {
      assert data[w..] == [data[w]];
      OneByteNumeral(data[..w], data[w]);
    } else {
      assert data[w..] == [data[w], data[w + 1]];
      TwoByteNumeral(data[..w], data[w], data[w + 1]);
    }
  }

  lemma WholeNumeral(data: seq<Byte>)
    requires |data| % 3 == 0
    ensures WritesNumber(EncodedTriples(data) + "", data)
  {
    var text := EncodedTriples(data);
    assert text + "" == text && text[..|text|] == text;
    if data != [] {
      SymbolHasValue(Fourth(data[|data| - 1]));
    }
    TriplesNumeral(data);
  }

  lemma OneByteText(triples: string, a: Byte)
    ensures
      var text := triples + EncodedTail([a]);
      Padding(text) == 2 && |text| >= 2 && Values(text[..|text| - 2]) == Values(triples) + [First(a), Second(a, 0)]
  {
    var text := triples + EncodedTail([a]);
    SymbolHasValue(First(a));
    SymbolHasValue(Second(a, 0));
    var symbols := [Symbol(First(a)), Symbol(Second(a, 0))];
    assert text == triples + (symbols + ['=', '=']);
    assert text[..|text| - 2] == triples + symbols;
    ValuesAppend(triples, symbols);
  }

  lemma OneByteNumeral(body: seq<Byte>, a: Byte)
    requires |body| % 3 == 0
    ensures WritesNumber(EncodedTriples(body) + EncodedTail([a]), body + [a])
  {
    ShiftAfterTriples(|body|);
    TriplesNumeral(body);
    OneByteText(EncodedTriples(body), a);
    SextetNumeral(Values(EncodedTriples(body)), First(a), Second(a, 0), 0, 0);
    ByteNumeral(body, a, 0, 0);
    GroupNumeral(a, 0, 0);
  }

  lemma TwoByteText(triples: string, a: Byte, b: Byte)
    ensures
      var text := triples + EncodedTail([a, b]);
      Padding(text) == 1 && |text| >= 1 && Values(text[..|text| - 1])
          == Values(triples) + [First(a), Second(a, b), Third(b, 0)]
  {
    var text := triples + EncodedTail([a, b]);
    SymbolHasValue(First(a));
    SymbolHasValue(Second(a, b));
    SymbolHasValue(Third(b, 0));
    var symbols := [Symbol(First(a)), Symbol(Second(a, b)), Symbol(Third(b, 0))];
    assert text == triples + (symbols + ['=']);
    assert text[..|text| - 1] == triples + symbols;
    ValuesAppend(triples, symbols);
  }

  lemma TwoByteNumeral(body: seq<Byte>, a: Byte, b: Byte)
    requires |body| % 3 == 0
    ensures WritesNumber(EncodedTriples(body) + EncodedTail([a, b]), body + [a, b])
  {
    ShiftAfterTriples(|body|);
    TriplesNumeral(body);
    TwoByteText(EncodedTriples(body), a, b);
    SextetNumeral(Values(EncodedTriples(body)), First(a), Second(a, b), Third(b, 0), 0);
    ByteNumeral(body, a, b, 0);
    GroupNumeral(a, b, 0);
  }
}
