/** Standard base64 with padding (section 4 of RFC 4648), decoded as Go's StdEncoding does. */
module Base64 {
  import opened Text

  type Byte = b: int | 0 <= b < 256
  type Sextet = v: int | 0 <= v < 64

  datatype Symbol = Six(v: Sextet) | Pad

  // ----- Characters and symbols -----

  function CharOf(y: Symbol): char {
    if y.Pad? then '='
    else if y.v < 26 then 'A' + y.v as char
    else if y.v < 52 then 'a' + (y.v - 26) as char
    else if y.v < 62 then '0' + (y.v - 52) as char
    else if y.v == 62 then '+'
    else '/'
  }

  function SymbolOf(c: char): Option<Symbol> {
    if 'A' <= c <= 'Z' then Some(Six(c as int - 'A' as int))
    else if 'a' <= c <= 'z' then Some(Six(c as int - 'a' as int + 26))
    else if '0' <= c <= '9' then Some(Six(c as int - '0' as int + 52))
    else if c == '+' then Some(Six(62))
    else if c == '/' then Some(Six(63))
    else if c == '=' then Some(Pad)
    else None
  }

  predicate IsSeparator(c: char) {
    c == ';' || c == ',' || c == '\r' || c == '\n'
  }

  lemma SymbolInverse(y: Symbol)
    ensures SymbolOf(CharOf(y)) == Some(y)
    ensures !IsSeparator(CharOf(y))
  {
  }

  lemma CharInverse(c: char)
    requires SymbolOf(c).Some?
    ensures CharOf(SymbolOf(c).value) == c
  {
  }

  /** The table of section 4 of RFC 4648. */
  const ALPHABET := "ABCDEFGHIJKLMNOPQRSTUVWXYZ" + "abcdefghijklmnopqrstuvwxyz" + "0123456789" + "+/"

  lemma CharIsInTable(v: Sextet)
    ensures |ALPHABET| == 64 && CharOf(Six(v)) == ALPHABET[v] && CharOf(Pad) == '='
  {
  }

  function Print(ys: seq<Symbol>): string {
    if ys == [] then "" else [CharOf(ys[0])] + Print(ys[1..])
  }

  /** The symbols of a text; line breaks are skipped wherever they stand. */
  function Scan(s: string): Option<seq<Symbol>> {
    if s == "" then Some([])
    else if s[0] == '\r' || s[0] == '\n' then Scan(s[1..])
    else
      var first, rest := SymbolOf(s[0]), Scan(s[1..]);
      if first.None? || rest.None? then None else Some([first.value] + rest.value)
  }

  lemma {:induction false} ScanPrint(ys: seq<Symbol>)
    ensures Scan(Print(ys)) == Some(ys)
    ensures forall c | c in Print(ys) :: !IsSeparator(c)
  {
    if ys == [] {
    } else {
      SymbolInverse(ys[0]);
      ScanPrint(ys[1..]);
      assert Print(ys)[1..] == Print(ys[1..]);
      assert [ys[0]] + ys[1..] == ys;
    }
  }

  function WithoutBreaks(s: string): string {
    if s == "" then ""
    else (if s[0] == '\r' || s[0] == '\n' then [] else [s[0]]) + WithoutBreaks(s[1..])
  }

  lemma {:induction false} PrintScan(s: string)
    requires Scan(s).Some?
    ensures Print(Scan(s).value) == WithoutBreaks(s)
  {
    if s == "" {
    } else {
      PrintScan(s[1..]);
      if s[0] != '\r' && s[0] != '\n' {
        CharInverse(s[0]);
        assert Scan(s).value[1..] == Scan(s[1..]).value;
      }
    }
  }

  predicate IsBreak(c: char) {
    c == '\r' || c == '\n'
  }

  function Prefixed(c: char, rest: Option<seq<Symbol>>): Option<seq<Symbol>> {
    if IsBreak(c) then rest
    else if SymbolOf(c).None? || rest.None? then None
    else Some([SymbolOf(c).value] + rest.value)
  }

  lemma ScanNext(c: char, s: string)
    ensures Scan([c] + s) == Prefixed(c, Scan(s))
  {
    assert ([c] + s)[1..] == s;
  }

  lemma {:induction false} ScanSkipsBreak(a: string, c: char, b: string)
    requires IsBreak(c)
    ensures Scan(a + [c] + b) == Scan(a + b)
  {
    if a == "" {
      ScanNext(c, b);
      assert a + [c] + b == [c] + b && a + b == b;
    } else {
      ScanSkipsBreak(a[1..], c, b);
      ScanNext(a[0], a[1..] + [c] + b);
      ScanNext(a[0], a[1..] + b);
      assert a + [c] + b == [a[0]] + (a[1..] + [c] + b) && a + b == [a[0]] + (a[1..] + b);
    }
  }

  lemma DropNext(c: char, s: string)
    ensures WithoutBreaks([c] + s) == (if IsBreak(c) then [] else [c]) + WithoutBreaks(s)
  {
    assert ([c] + s)[1..] == s;
  }

  lemma {:induction false} BreakIsDropped(a: string, c: char, b: string)
    requires IsBreak(c)
    ensures WithoutBreaks(a + [c] + b) == WithoutBreaks(a + b)
  {
    if a == "" {
      DropNext(c, b);
      assert a + [c] + b == [c] + b && a + b == b;
    } else {
      BreakIsDropped(a[1..], c, b);
      DropNext(a[0], a[1..] + [c] + b);
      DropNext(a[0], a[1..] + b);
      assert a + [c] + b == [a[0]] + (a[1..] + [c] + b) && a + b == [a[0]] + (a[1..] + b);
    }
  }

  lemma {:induction false} OthersAreKept(s: string)
    requires forall c | c in s :: !IsBreak(c)
    ensures WithoutBreaks(s) == s
  {
    if s != "" {
      OthersAreKept(s[1..]);
      assert s == [s[0]] + s[1..] && !IsBreak(s[0]);
    }
  }

  // ----- Symbols and bytes -----

  function Pack(bs: seq<Byte>): seq<Symbol> {
    if bs == [] then []
    else if |bs| == 1 then [Six(bs[0] / 4), Six(bs[0] % 4 * 16), Pad, Pad]
    else if |bs| == 2 then [Six(bs[0] / 4), Six(bs[0] % 4 * 16 + bs[1] / 16), Six(bs[1] % 16 * 4), Pad]
    else [Six(bs[0] / 4), Six(bs[0] % 4 * 16 + bs[1] / 16), Six(bs[1] % 16 * 4 + bs[2] / 64), Six(bs[2] % 64)] + Pack(bs[3..])
  }

  function ThreeBytes(a: Sextet, b: Sextet, c: Sextet, d: Sextet): seq<Byte> {
    [a * 4 + b / 16, b % 16 * 16 + c / 4, c % 4 * 64 + d]
  }

  /** Groups of four.  Only the last may be padded, and the bits of it that no byte uses are not checked. */
  function Unpack(ys: seq<Symbol>): Option<seq<Byte>> {
    if ys == [] then Some([])
    else if |ys| < 4 || ys[0].Pad? || ys[1].Pad? then None
    else if ys[2].Pad? then
      if ys[3].Pad? && |ys| == 4 then Some([ys[0].v * 4 + ys[1].v / 16]) else None
    else if ys[3].Pad? then
      if |ys| == 4 then Some([ys[0].v * 4 + ys[1].v / 16, ys[1].v % 16 * 16 + ys[2].v / 4]) else None
    else
      var rest := Unpack(ys[4..]);
      if rest.None? then None
      else Some(ThreeBytes(ys[0].v, ys[1].v, ys[2].v, ys[3].v) + rest.value)
  }

  lemma ByteBits(x: Byte, y: Byte, z: Byte)
    ensures ThreeBytes(x / 4, x % 4 * 16 + y / 16, y % 16 * 4 + z / 64, z % 64) == [x, y, z]
  {
  }

  lemma UnpackOne(x: Byte)
    ensures Unpack(Pack([x])) == Some([x])
  {
    assert x / 4 * 4 + x % 4 * 16 / 16 == x;
  }

  lemma PackTwo(x: Byte, y: Byte)
    ensures Pack([x, y]) == [Six(x / 4), Six(x % 4 * 16 + y / 16), Six(y % 16 * 4), Pad]
  {
  }

  lemma UnpackThreeSix(a: Sextet, b: Sextet, c: Sextet)
    ensures Unpack([Six(a), Six(b), Six(c), Pad]) == Some([a * 4 + b / 16, b % 16 * 16 + c / 4])
  {
  }

  lemma UnpackTwo(x: Byte, y: Byte)
    ensures Unpack(Pack([x, y])) == Some([x, y])
  {
    ByteBits(x, y, 0);
    PackTwo(x, y);
    UnpackThreeSix(x / 4, x % 4 * 16 + y / 16, y % 16 * 4);
  }

  lemma UnpackSix(a: Sextet, b: Sextet, c: Sextet, d: Sextet, tail: seq<Symbol>)
    requires Unpack(tail).Some?
    ensures Unpack([Six(a), Six(b), Six(c), Six(d)] + tail) == Some(ThreeBytes(a, b, c, d) + Unpack(tail).value)
  {
    assert ([Six(a), Six(b), Six(c), Six(d)] + tail)[4..] == tail;
  }

  lemma UnpackShort(bs: seq<Byte>)
    requires |bs| <= 2
    ensures Unpack(Pack(bs)) == Some(bs)
  {
    if |bs| == 1 {
      assert bs == [bs[0]];
      UnpackOne(bs[0]);
    } else if |bs| == 2 {
      assert bs == [bs[0], bs[1]];
      UnpackTwo(bs[0], bs[1]);
    }
  }

  lemma PackThree(x: Byte, y: Byte, z: Byte, rest: seq<Byte>)
    ensures Pack([x, y, z] + rest) == [Six(x / 4), Six(x % 4 * 16 + y / 16), Six(y % 16 * 4 + z / 64), Six(z % 64)] + Pack(rest)
  {
    assert ([x, y, z] + rest)[3..] == rest;
  }

  lemma UnpackLong(x: Byte, y: Byte, z: Byte, rest: seq<Byte>)
    requires Unpack(Pack(rest)) == Some(rest)
    ensures Unpack(Pack([x, y, z] + rest)) == Some([x, y, z] + rest)
  {
    PackThree(x, y, z, rest);
    ByteBits(x, y, z);
    UnpackSix(x / 4, x % 4 * 16 + y / 16, y % 16 * 4 + z / 64, z % 64, Pack(rest));
  }

  lemma {:induction false} UnpackPack(bs: seq<Byte>)
    ensures Unpack(Pack(bs)) == Some(bs)
  {
    if |bs| <= 2 {
      UnpackShort(bs);
    } else {
      UnpackPack(bs[3..]);
      UnpackLong(bs[0], bs[1], bs[2], bs[3..]);
      assert bs == [bs[0], bs[1], bs[2]] + bs[3..];
    }
  }

  /** The bits of the last group that no byte uses are zero. */
  predicate Canonical(ys: seq<Symbol>) {
    if |ys| < 4 || ys[|ys| - 1] != Pad then true
    else if ys[|ys| - 2] == Pad then ys[|ys| - 3].Six? ==> ys[|ys| - 3].v % 16 == 0
    else ys[|ys| - 2].v % 4 == 0
  }

  lemma GroupBits(a: Sextet, b: Sextet, c: Sextet, d: Sextet)
    ensures var x, y, z := a * 4 + b / 16, b % 16 * 16 + c / 4, c % 4 * 64 + d;
      x / 4 == a && x % 4 * 16 + y / 16 == b && y % 16 * 4 + z / 64 == c && z % 64 == d
  {
  }

  lemma LastByte(a: Sextet, b: Sextet)
    ensures Unpack([Six(a), Six(b), Pad, Pad]) == Some([a * 4 + b / 16])
    ensures Pack([a * 4 + b / 16]) == [Six(a), Six(b / 16 * 16), Pad, Pad]
  {
  }

  lemma LastTwoBytes(a: Sextet, b: Sextet, c: Sextet)
    ensures Unpack([Six(a), Six(b), Six(c), Pad]) == Some([a * 4 + b / 16, b % 16 * 16 + c / 4])
    ensures Pack([a * 4 + b / 16, b % 16 * 16 + c / 4]) == [Six(a), Six(b), Six(c / 4 * 4), Pad]
  {
    GroupBits(a, b, c, 0);
    UnpackThreeSix(a, b, c);
    PackTwo(a * 4 + b / 16, b % 16 * 16 + c / 4);
  }

  lemma LastSymbol(ys: seq<Symbol>, zs: seq<Symbol>, i: nat)
    requires |ys| == |zs| && i < |ys| && forall j | 0 <= j < |ys| && j != i :: ys[j] == zs[j]
    ensures zs == ys <==> zs[i] == ys[i]
  {
  }

  lemma PaddedTwice(ys: seq<Symbol>, a: Sextet, b: Sextet)
    requires ys == [Six(a), Six(b), Pad, Pad]
    ensures Unpack(ys).Some? && (Pack(Unpack(ys).value) == ys <==> Canonical(ys))
  {
    LastByte(a, b);
    LastSymbol(ys, [Six(a), Six(b / 16 * 16), Pad, Pad], 1);
  }

  lemma PaddedOnce(ys: seq<Symbol>, a: Sextet, b: Sextet, c: Sextet)
    requires ys == [Six(a), Six(b), Six(c), Pad]
    ensures Unpack(ys).Some? && (Pack(Unpack(ys).value) == ys <==> Canonical(ys))
  {
    LastTwoBytes(a, b, c);
    LastSymbol(ys, [Six(a), Six(b), Six(c / 4 * 4), Pad], 2);
  }

  lemma SameTail(group: seq<Symbol>, a: seq<Symbol>, b: seq<Symbol>)
    ensures group + a == group + b <==> a == b
  {
    assert (group + a)[|group|..] == a && (group + b)[|group|..] == b;
  }

  lemma WholeGroup(a: Sextet, b: Sextet, c: Sextet, d: Sextet, rest: seq<Byte>)
    ensures Pack(ThreeBytes(a, b, c, d) + rest) == [Six(a), Six(b), Six(c), Six(d)] + Pack(rest)
  {
    GroupBits(a, b, c, d);
    PackThree(a * 4 + b / 16, b % 16 * 16 + c / 4, c % 4 * 64 + d, rest);
  }

  lemma CanonicalTail(ys: seq<Symbol>)
    requires |ys| == 4 || |ys| >= 8
    requires ys[3].Six?
    ensures Canonical(ys) <==> Canonical(ys[4..])
  {
  }

  lemma SameAfterGroup(ys: seq<Symbol>, zs: seq<Symbol>, tail: seq<Symbol>)
    requires |ys| == 4 || |ys| >= 8
    requires ys[3].Six? && zs == ys[..4] + tail
    requires tail == ys[4..] <==> Canonical(ys[4..])
    ensures zs == ys <==> Canonical(ys)
  {
    assert ys == ys[..4] + ys[4..];
    SameTail(ys[..4], tail, ys[4..]);
    CanonicalTail(ys);
  }

  lemma LastGroup(ys: seq<Symbol>)
    requires |ys| == 4 && ys[0].Six? && ys[1].Six? && ys[3].Pad?
    ensures Unpack(ys).Some? && (Pack(Unpack(ys).value) == ys <==> Canonical(ys))
  {
    if ys[2].Pad? {
      assert ys == [Six(ys[0].v), Six(ys[1].v), Pad, Pad];
      PaddedTwice(ys, ys[0].v, ys[1].v);
    } else {
      assert ys == [Six(ys[0].v), Six(ys[1].v), Six(ys[2].v), Pad];
      PaddedOnce(ys, ys[0].v, ys[1].v, ys[2].v);
    }
  }

  lemma GroupThenRest(ys: seq<Symbol>, bs: seq<Byte>, rest: seq<Byte>)
    requires |ys| == 4 || |ys| >= 8
    requires ys[0].Six? && ys[1].Six? && ys[2].Six? && ys[3].Six?
    requires bs == ThreeBytes(ys[0].v, ys[1].v, ys[2].v, ys[3].v) + rest
    requires Pack(rest) == ys[4..] <==> Canonical(ys[4..])
    ensures Pack(bs) == ys <==> Canonical(ys)
  {
    WholeGroup(ys[0].v, ys[1].v, ys[2].v, ys[3].v, rest);
    assert ys[..4] == [ys[0], ys[1], ys[2], ys[3]];
    SameAfterGroup(ys, Pack(bs), Pack(rest));
  }

  lemma UnpackShape(ys: seq<Symbol>)
    requires Unpack(ys).Some? && ys != []
    ensures |ys| >= 4 && ys[0].Six? && ys[1].Six?
    ensures |ys| == 4 || (ys[3].Six? && |ys| >= 8)
    ensures ys[3].Six? ==> ys[2].Six? && Unpack(ys[4..]).Some?
    ensures ys[3].Six? ==>
      Unpack(ys).value == ThreeBytes(ys[0].v, ys[1].v, ys[2].v, ys[3].v) + Unpack(ys[4..]).value
  {
  }

  lemma {:induction false} PackUnpack(ys: seq<Symbol>, bs: seq<Byte>)
    requires Unpack(ys) == Some(bs)
    ensures Pack(bs) == ys <==> Canonical(ys)
  {
    if ys != [] {
      UnpackShape(ys);
      if ys[3].Pad? {
        LastGroup(ys);
      } else {
        var rest := Unpack(ys[4..]).value;
        PackUnpack(ys[4..], rest);
        GroupThenRest(ys, bs, rest);
      }
    }
  }

  // ----- Text and bytes -----

  function Encode(bs: seq<Byte>): string {
    Print(Pack(bs))
  }

  function Decode(s: string): Option<seq<Byte>> {
    var ys := Scan(s);
    if ys.None? then None else Unpack(ys.value)
  }

  /** Decoding inverts encoding, for every byte string; the text holds no separator of the fmtp line. */
  lemma RoundTrip(bs: seq<Byte>)
    ensures Decode(Encode(bs)) == Some(bs)
    ensures forall c | c in Encode(bs) :: !IsSeparator(c)
  {
    ScanPrint(Pack(bs));
    UnpackPack(bs);
  }

  /** A text that decodes is, up to line breaks, the encoding of its value exactly when its unused bits are zero. */
  lemma EncodeInvertsDecode(s: string)
    requires Decode(s).Some?
    ensures Encode(Decode(s).value) == WithoutBreaks(s) <==> Canonical(Scan(s).value)
  {
    var ys := Scan(s).value;
    PackUnpack(ys, Decode(s).value);
    PrintScan(s);
    if Encode(Decode(s).value) == WithoutBreaks(s) {
      ScanPrint(Pack(Decode(s).value));
      ScanPrint(ys);
    }
  }

  // ----- The encoding, against the standard -----

  /** A group is the same 24 bits twice: three bytes, most significant first, and four digits in base 64. */
  lemma GroupIsPositional(x: Byte, y: Byte, z: Byte)
    ensures var group := Pack([x, y, z]);
      && |group| == 4 && (forall i | 0 <= i < 4 :: group[i].Six?)
      && x * 65536 + y * 256 + z == group[0].v * 262144 + group[1].v * 4096 + group[2].v * 64 + group[3].v
  {
    assert Pack([x, y, z]) == [Six(x / 4), Six(x % 4 * 16 + y / 16), Six(y % 16 * 4 + z / 64), Six(z % 64)];
  }

  /** A last byte or two are padded to a group with zero bits, and the symbols that hold none of theirs are `=`. */
  lemma LastGroupIsPadded(x: Byte, y: Byte)
    ensures Pack([x, y]) == Pack([x, y, 0])[..3] + [Pad]
    ensures Pack([x]) == Pack([x, 0, 0])[..2] + [Pad, Pad]
  {
  }

  lemma {:induction false} PrintAppend(a: seq<Symbol>, b: seq<Symbol>)
    ensures Print(a + b) == Print(a) + Print(b)
  {
    if a == [] {
      assert a + b == b;
    } else {
      PrintAppend(a[1..], b);
      assert a + b == [a[0]] + (a[1..] + b);
    }
  }

  lemma PackGroup(x: Byte, y: Byte, z: Byte, rest: seq<Byte>)
    ensures Pack([x, y, z] + rest) == Pack([x, y, z]) + Pack(rest)
  {
    PackThree(x, y, z, rest);
    PackThree(x, y, z, []);
    assert [x, y, z] + [] == [x, y, z];
  }

  /** The groups of a longer byte string follow each other. */
  lemma GroupsInOrder(x: Byte, y: Byte, z: Byte, rest: seq<Byte>)
    ensures Encode([x, y, z] + rest) == Encode([x, y, z]) + Encode(rest)
  {
    PackGroup(x, y, z, rest);
    PrintAppend(Pack([x, y, z]), Pack(rest));
  }

  // ----- Which texts decode -----

  /** Groups of four; the last may end in one or two pads; everything before is in the alphabet. */
  predicate WellFormed(ys: seq<Symbol>, groups: nat, pads: nat) {
    && |ys| == 4 * groups && pads <= 2 && pads <= |ys|
    && (forall i | 0 <= i < |ys| - pads :: ys[i].Six?) && (forall i | |ys| - pads <= i < |ys| :: ys[i].Pad?)
  }

  lemma {:induction false} WellFormedUnpacks(ys: seq<Symbol>, groups: nat, pads: nat)
    requires WellFormed(ys, groups, pads)
    ensures Unpack(ys).Some?
  {
    if groups > 1 {
      WellFormedUnpacks(ys[4..], groups - 1, pads);
    } else if groups == 1 {
      assert ys[4..] == [];
    }
  }

  lemma {:induction false} UnpackedIsWellFormed(ys: seq<Symbol>) returns (groups: nat, pads: nat)
    requires Unpack(ys).Some?
    ensures WellFormed(ys, groups, pads)
  {
    if ys == [] {
      groups, pads := 0, 0;
    } else {
      UnpackShape(ys);
      if ys[3].Pad? {
        groups, pads := 1, if ys[2].Pad? then 2 else 1;
      } else {
        groups, pads := UnpackedIsWellFormed(ys[4..]);
        groups := groups + 1;
        forall i | 4 <= i < |ys| ensures ys[i] == ys[4..][i - 4] {}
        assert forall i | 0 <= i < 4 :: ys[i].Six?;
      }
    }
  }

  lemma {:induction false} ScanIff(s: string)
    ensures Scan(s).Some? <==> forall c | c in WithoutBreaks(s) :: SymbolOf(c).Some?
    ensures Scan(s).Some? ==> |Scan(s).value| == |WithoutBreaks(s)|
    ensures Scan(s).Some? ==> forall i | 0 <= i < |Scan(s).value| :: SymbolOf(WithoutBreaks(s)[i]) == Some(Scan(s).value[i])
  {
    if s == "" {
    } else {
      ScanIff(s[1..]);
      var rest := WithoutBreaks(s[1..]);
      if s[0] != '\r' && s[0] != '\n' {
        assert WithoutBreaks(s) == [s[0]] + rest;
        assert forall c :: c in WithoutBreaks(s) <==> c == s[0] || c in rest;
      }
    }
  }

  /** The text, without its line breaks, is four characters per group: of the alphabet, but for up to two `=` at the end. */
  predicate Decodable(t: string, groups: nat, pads: nat) {
    && |t| == 4 * groups && pads <= 2 && pads <= |t|
    && (forall i | 0 <= i < |t| - pads :: t[i] in ALPHABET) && (forall i | |t| - pads <= i < |t| :: t[i] == '=')
  }

  lemma SymbolIff(c: char)
    ensures SymbolOf(c) == Some(Pad) <==> c == '='
    ensures (SymbolOf(c).Some? && SymbolOf(c).value.Six?) <==> c in ALPHABET
  {
    if SymbolOf(c).Some? && SymbolOf(c).value.Six? {
      CharInverse(c);
      CharIsInTable(SymbolOf(c).value.v);
    }
    if c in ALPHABET {
      var v :| 0 <= v < |ALPHABET| && ALPHABET[v] == c;
      CharIsInTable(v);
      SymbolInverse(Six(v));
    }
  }

  /** Exactly the texts that decode: padding is required and only at the end, line breaks are allowed anywhere. */
  lemma DecodesIff(s: string)
    ensures Decode(s).Some? <==> exists groups: nat, pads: nat :: Decodable(WithoutBreaks(s), groups, pads)
  {
    ScanIff(s);
    var t := WithoutBreaks(s);
    forall c { SymbolIff(c); }
    if Decode(s).Some? {
      var groups, pads := UnpackedIsWellFormed(Scan(s).value);
      assert Decodable(t, groups, pads);
    }
    if groups: nat, pads: nat :| Decodable(t, groups, pads) {
      assert Scan(s).Some?;
      WellFormedUnpacks(Scan(s).value, groups, pads);
    }
  }
}
