/** iconv's table codec: double-byte encodings, each direction in a sizing and a filling pass. */
module DoubleByteCodec {

  type Unit = u: int | 0 <= u < 0x10000
  type Byte = b: int | 0 <= b < 0x100

  const REPLACEMENT: Unit := 0xFFFD

  /** Two-byte code to code unit: keys have the lead bit set, values lie above ASCII. */
  type Table = map<int, Unit>

  predicate Proper(table: Table) {
    forall k :: k in table ==> 0x8000 <= k < 0x10000 && table[k] >= 0x80
  }

  /** `revCharsTable`: for every unit of the table some code of it. */
  predicate Reverses(rev: map<Unit, int>, table: Table) {
    && (forall u :: u in rev ==> rev[u] in table && table[rev[u]] == u)
    && (forall k :: k in table ==> table[k] in rev)
  }

  /** `for (key in table) revCharsTable[table[key]] = parseInt(key)`, whatever the order of the keys. */
  method BuildReverse(table: Table, keys: seq<int>) returns (rev: map<Unit, int>)
    requires (forall k: int :: k in table ==> k in keys) && forall i :: 0 <= i < |keys| ==> keys[i] in table
    ensures Reverses(rev, table)
  {
    rev := map[];
    for i := 0 to |keys|
      invariant forall u :: u in rev ==> rev[u] in table && table[rev[u]] == u
      invariant forall j :: 0 <= j < i ==> table[keys[j]] in rev
    {
      rev := rev[table[keys[i]] := keys[i]];
    }
    forall k | k in table ensures table[k] in rev {
      var j :| 0 <= j < |keys| && keys[j] == k;
    }
  }

  // ----- encoding -----

  // an unmapped unit takes the code of the replacement character, or 0 when that has none; code 0 counts as unmapped
  function Code(rev: map<Unit, int>, u: Unit): int {
    if u in rev && rev[u] != 0 then rev[u] else if REPLACEMENT in rev then rev[REPLACEMENT] else 0
  }

  function EncodeUnit(rev: map<Unit, int>, u: Unit): seq<int> {
    if u / 128 != 0 then [Code(rev, u) / 256, Code(rev, u) % 256] else [u]
  }

  function Encode(rev: map<Unit, int>, s: seq<Unit>): seq<int> {
    if s == [] then [] else EncodeUnit(rev, s[0]) + Encode(rev, s[1..])
  }

  lemma {:induction false} EncodeConcat(rev: map<Unit, int>, a: seq<Unit>, b: seq<Unit>)
    ensures Encode(rev, a + b) == Encode(rev, a) + Encode(rev, b)
    decreases |a|
  {
    if a == [] {
      assert a + b == b;
    } else {
      assert (a + b)[0] == a[0] && (a + b)[1..] == a[1..] + b;
      EncodeConcat(rev, a[1..], b);
    }
  }

  lemma EncodeStep(rev: map<Unit, int>, s: seq<Unit>, i: nat)
    requires i < |s|
    ensures Encode(rev, s[..i + 1]) == Encode(rev, s[..i]) + EncodeUnit(rev, s[i])
    ensures |Encode(rev, s[..i])| + |EncodeUnit(rev, s[i])| <= |Encode(rev, s)|
  {
    assert s[..i + 1] == s[..i] + [s[i]] && s == s[..i + 1] + s[i + 1..];
    EncodeConcat(rev, s[..i], [s[i]]);
    EncodeConcat(rev, s[..i + 1], s[i + 1..]);
    assert [s[i]][1..] == [] && Encode(rev, []) == [];
  }

  /** `newBuf[j++] = a; newBuf[j++] = b` */
  method PutPair(buf: array<int>, j: nat, a: int, b: int)
    requires j + 1 < buf.Length
    modifies buf
    ensures buf[..j + 2] == old(buf[..j]) + [a, b]
  {
    buf[j] := a;
    buf[j + 1] := b;
  }

  method CountCells(rev: map<Unit, int>, str: seq<Unit>) returns (bufLen: nat)
    ensures bufLen == |Encode(rev, str)|
  {
    bufLen := |str|;
    for i := 0 to |str|
      invariant bufLen == |Encode(rev, str[..i])| + (|str| - i)
    {
      EncodeStep(rev, str, i);
      if str[i] / 128 != 0 {
        bufLen := bufLen + 1;
      }
    }
    assert str[..|str|] == str;
  }

  /** One unit, as one or two cells. */
  method PutUnit(rev: map<Unit, int>, unicode: Unit, newBuf: array<int>, j: nat) returns (k: nat)
    requires j + |EncodeUnit(rev, unicode)| <= newBuf.Length
    modifies newBuf
    ensures k == j + |EncodeUnit(rev, unicode)| && newBuf[..k] == old(newBuf[..j]) + EncodeUnit(rev, unicode)
  {
    if unicode / 128 != 0 {
      var gbkcode := Code(rev, unicode);
      PutPair(newBuf, j, gbkcode / 256, gbkcode % 256);
      return j + 2;
    } else {
      newBuf[j] := unicode;
      return j + 1;
    }
  }

  /** `toEncoding`: count the cells, then fill them; the count is exactly what is written. */
  method ToEncoding(rev: map<Unit, int>, str: seq<Unit>) returns (bytes: seq<int>)
    ensures bytes == Encode(rev, str)
  {
    var bufLen := CountCells(rev, str);
    var newBuf := new int[bufLen];
    var j := 0;
    for i := 0 to |str|
      invariant j == |Encode(rev, str[..i])| <= newBuf.Length == |Encode(rev, str)|
      invariant newBuf[..j] == Encode(rev, str[..i])
    {
      EncodeStep(rev, str, i);
      j := PutUnit(rev, str[i], newBuf, j);
    }
    assert str[..|str|] == str;
    return newBuf[..];
  }

  // ----- decoding -----

  function Lookup(table: Table, code: int): Unit {
    if code in table && table[code] != 0 then table[code] else REPLACEMENT
  }

  function PairCode(high: int, low: int): int {
    high * 256 + low
  }

  function Decode(table: Table, bytes: seq<Byte>): seq<Unit>
    decreases |bytes|
  {
    if bytes == [] then []
    else if bytes[0] < 128 then [bytes[0]] + Decode(table, bytes[1..])
    else if |bytes| == 1 then [REPLACEMENT]   // the missing trail byte makes the code no key at all
    else [Lookup(table, PairCode(bytes[0], bytes[1]))] + Decode(table, bytes[2..])
  }

  /** `toString('ucs2')`: two cells per unit, the low byte first. */
  function Ucs2(cells: seq<int>): seq<int> {
    if |cells| < 2 then [] else [cells[0] + 256 * cells[1]] + Ucs2(cells[2..])
  }

  function Cells(s: seq<Unit>): (cells: seq<int>)
    ensures |cells| == 2 * |s|
  {
    if s == [] then [] else [s[0] % 256, s[0] / 256] + Cells(s[1..])
  }

  lemma {:induction false} CellsRead(s: seq<Unit>)
    ensures Ucs2(Cells(s)) == s
    decreases |s|
  {
    if s != [] {
      CellsRead(s[1..]);
      assert Cells(s)[2..] == Cells(s[1..]);
      assert s == [s[0]] + s[1..];
    }
  }

  lemma {:induction false} CellsConcat(a: seq<Unit>, u: Unit)
    ensures Cells(a + [u]) == Cells(a) + [u % 256, u / 256]
    decreases |a|
  {
    if a == [] {
      assert a + [u] == [u] && [u][1..] == [] && Cells([]) == [];
    } else {
      assert (a + [u])[0] == a[0] && (a + [u])[1..] == a[1..] + [u];
      CellsConcat(a[1..], u);
    }
  }

  // the bytes still to read; the index runs one past the end after a truncated pair
  function Left(bytes: seq<Byte>, i: nat): seq<Byte> {
    if i <= |bytes| then bytes[i..] else []
  }

  /** The unit that starts at byte i, and where the next one starts. */
  function UnitAt(table: Table, bytes: seq<Byte>, i: nat): (Unit, nat)
    requires i < |bytes|
  {
    if bytes[i] < 128 then (bytes[i], i + 1)
    else (if i + 1 < |bytes| then Lookup(table, PairCode(bytes[i], bytes[i + 1])) else REPLACEMENT, i + 2)
  }

  lemma DecodeStep(table: Table, bytes: seq<Byte>, i: nat)
    requires i < |bytes|
    ensures var (u, next) := UnitAt(table, bytes, i);
            Decode(table, Left(bytes, i)) == [u] + Decode(table, Left(bytes, next))
  {
    assert bytes[i..][1..] == bytes[i + 1..];
    if i + 2 <= |bytes| {
      assert bytes[i..][2..] == bytes[i + 2..];
    } else {
      assert [REPLACEMENT] + [] == [REPLACEMENT];
    }
  }

  method CountUnits(table: Table, bytes: seq<Byte>) returns (strLen: nat)
    ensures strLen == |Decode(table, bytes)|
  {
    strLen := 0;
    var i := 0;
    while i < |bytes|
      invariant 0 <= i <= |bytes| + 1 && strLen + |Decode(table, Left(bytes, i))| == |Decode(table, bytes)|
    {
      DecodeStep(table, bytes, i);
      strLen := strLen + 1;
      if bytes[i] >= 128 {
        i := i + 1;
      }
      i := i + 1;
    }
  }

  lemma Shift(done: seq<Unit>, u: Unit, rest: seq<Unit>)
    ensures done + ([u] + rest) == (done + [u]) + rest
  {
  }

  /** `fromEncoding`: the sizing pass allocates exactly the cells the filling pass writes, truncated input included. */
  method FromEncoding(table: Table, bytes: seq<Byte>) returns (str: seq<int>)
    ensures str == Decode(table, bytes)
  {
    var strLen := CountUnits(table, bytes);
    var newBuf := new int[strLen * 2];
    var i, j := 0, 0;
    ghost var done: seq<Unit> := [];
    assert done + Decode(table, bytes) == Decode(table, bytes);
    while i < |bytes|
      invariant 0 <= i <= |bytes| + 1 && newBuf.Length == 2 * |Decode(table, bytes)|
      invariant done + Decode(table, Left(bytes, i)) == Decode(table, bytes)
      invariant j == 2 * |done| && newBuf[..j] == Cells(done)
    {
      DecodeStep(table, bytes, i);
      ghost var at := UnitAt(table, bytes, i);
      var unicode: Unit;
      if bytes[i] >= 128 {
        i := i + 1;
        unicode := if i < |bytes| then Lookup(table, PairCode(bytes[i - 1], bytes[i])) else REPLACEMENT;
      } else {
        unicode := bytes[i];
      }
      i := i + 1;
      Shift(done, unicode, Decode(table, Left(bytes, i)));
      CellsConcat(done, unicode);
      PutPair(newBuf, j, unicode % 256, unicode / 256);
      j := j + 2;
      done := done + [unicode];
    }
    assert done + [] == done;
    assert newBuf[..] == newBuf[..j];
    CellsRead(done);
    return Ucs2(newBuf[..]);
  }

  // ----- the round trip -----

  predicate Encodable(table: Table, u: Unit) {
    u < 128 || exists k :: k in table && table[k] == u
  }

  /** Everything the encoder writes fits its cell. */
  lemma {:induction false} EncodeBytes(table: Table, rev: map<Unit, int>, s: seq<Unit>)
    requires Proper(table) && Reverses(rev, table)
    ensures forall i :: 0 <= i < |Encode(rev, s)| ==> 0 <= Encode(rev, s)[i] < 0x100
    decreases |s|
  {
    if s != [] {
      EncodeBytes(table, rev, s[1..]);
      assert 0 <= Code(rev, s[0]) < 0x10000;
    }
  }

  lemma DecodeHead(table: Table, rev: map<Unit, int>, s: seq<Unit>)
    requires Proper(table) && Reverses(rev, table) && s != []
    requires forall i :: 0 <= i < |Encode(rev, s)| ==> 0 <= Encode(rev, s)[i] < 0x100
    requires forall i :: 0 <= i < |Encode(rev, s[1..])| ==> 0 <= Encode(rev, s[1..])[i] < 0x100
    ensures Encodable(table, s[0]) ==> Decode(table, Encode(rev, s)) == [s[0]] + Decode(table, Encode(rev, s[1..]))
    ensures !Encodable(table, s[0]) ==> Decode(table, Encode(rev, s)) != [] && Decode(table, Encode(rev, s))[0] != s[0]
  {
    var u, rest := s[0], Encode(rev, s[1..]);
    var bytes := EncodeUnit(rev, u) + rest;
    if u < 128 {
      assert bytes[1..] == rest;
    } else {
      var code := Code(rev, u);
      assert bytes[0] == code / 256 && bytes[1] == code % 256 && bytes[2..] == rest;
      assert PairCode(code / 256, code % 256) == code;
      if u in rev {
        assert rev[u] in table;
      } else if REPLACEMENT in rev {
        assert rev[REPLACEMENT] in table && table[rev[REPLACEMENT]] == REPLACEMENT;
      }
    }
  }

  predicate AllEncodable(table: Table, s: seq<Unit>) {
    s == [] || (Encodable(table, s[0]) && AllEncodable(table, s[1..]))
  }

  lemma SameHead<T>(a: T, x: seq<T>, y: seq<T>)
    ensures [a] + x == [a] + y <==> x == y
  {
    if [a] + x == [a] + y {
      assert ([a] + x)[1..] == x && ([a] + y)[1..] == y;
    }
  }

  /** Decoding undoes encoding exactly on the texts made of ASCII and of units the table maps. */
  lemma {:induction false} RoundTripExact(table: Table, rev: map<Unit, int>, s: seq<Unit>)
    requires Proper(table) && Reverses(rev, table)
    ensures forall i :: 0 <= i < |Encode(rev, s)| ==> 0 <= Encode(rev, s)[i] < 0x100
    ensures Decode(table, Encode(rev, s)) == s <==> AllEncodable(table, s)
    decreases |s|
  {
    EncodeBytes(table, rev, s);
    if s != [] {
      EncodeBytes(table, rev, s[1..]);
      RoundTripExact(table, rev, s[1..]);
      DecodeHead(table, rev, s);
      assert s == [s[0]] + s[1..];
      SameHead(s[0], Decode(table, Encode(rev, s[1..])), s[1..]);
    }
  }

  /** What is left of a unit: a unit without a code comes back as U+FFFD, or as two zeros where that has no code either. */
  function Survives(table: Table, u: Unit): seq<Unit> {
    if Encodable(table, u) then [u] else if Encodable(table, 0xFFFD) then [0xFFFD] else [0, 0]
  }

  function SurvivesAll(table: Table, s: seq<Unit>): seq<Unit> {
    if s == [] then [] else Survives(table, s[0]) + SurvivesAll(table, s[1..])
  }

  lemma CodeSurvives(table: Table, rev: map<Unit, int>, u: Unit)
    requires Proper(table) && Reverses(rev, table) && u >= 128
    ensures var code := Code(rev, u);
            if Encodable(table, u) then code in table && table[code] == u
            else if Encodable(table, 0xFFFD) then code in table && table[code] == 0xFFFD
            else code == 0
  {
    if u in rev {
      assert rev[u] in table;
    }
    if REPLACEMENT in rev {
      assert rev[REPLACEMENT] in table;
    }
  }

  lemma PairDecoded(table: Table, high: Byte, low: Byte, rest: seq<Byte>, bytes: seq<Byte>)
    requires Proper(table) && bytes == [high, low] + rest && PairCode(high, low) in table
    ensures Decode(table, bytes) == [table[PairCode(high, low)]] + Decode(table, rest)
  {
    assert bytes[0] == high && bytes[1] == low && bytes[2..] == rest;
  }

  lemma ZerosDecoded(table: Table, rest: seq<Byte>, bytes: seq<Byte>)
    requires bytes == [0, 0] + rest
    ensures Decode(table, bytes) == [0, 0] + Decode(table, rest)
  {
    var second := bytes[1..];
    assert bytes[0] == 0 && second[0] == 0 && second[1..] == rest;
    assert [0] + ([0] + Decode(table, rest)) == [0, 0] + Decode(table, rest);
  }

  lemma HeadSurvives(table: Table, rev: map<Unit, int>, u: Unit, rest: seq<Byte>, bytes: seq<Byte>)
    requires Proper(table) && Reverses(rev, table) && bytes == EncodeUnit(rev, u) + rest
    ensures Decode(table, bytes) == Survives(table, u) + Decode(table, rest)
  {
    if u < 128 {
      assert bytes[1..] == rest;
    } else {
      var code := Code(rev, u);
      CodeSurvives(table, rev, u);
      if code in table {
        var high, low := code / 256, code % 256;
        assert PairCode(high, low) == code;
        PairDecoded(table, high, low, rest, bytes);
      } else {
        ZerosDecoded(table, rest, bytes);
      }
    }
  }

  /** What decoding makes of any encoded text, unit by unit. */
  lemma {:induction false} RoundTripAlways(table: Table, rev: map<Unit, int>, s: seq<Unit>)
    requires Proper(table) && Reverses(rev, table)
    ensures forall i :: 0 <= i < |Encode(rev, s)| ==> 0 <= Encode(rev, s)[i] < 0x100
    ensures Decode(table, Encode(rev, s)) == SurvivesAll(table, s)
    decreases |s|
  {
    EncodeBytes(table, rev, s);
    if s != [] {
      RoundTripAlways(table, rev, s[1..]);
      HeadSurvives(table, rev, s[0], Encode(rev, s[1..]), Encode(rev, s));
    }
  }

  // ----- decoding any bytes -----

  /** No lead byte at the end misses its trail byte. */
  predicate Whole(bytes: seq<Byte>)
    decreases |bytes|
  {
    || bytes == []
    || (bytes[0] < 128 && Whole(bytes[1..]))
    || (bytes[0] >= 128 && |bytes| > 1 && Whole(bytes[2..]))
  }

  /** After whole characters decoding starts afresh. */
  lemma {:induction false} DecodeJoins(table: Table, a: seq<Byte>, b: seq<Byte>)
    requires Whole(a)
    ensures Decode(table, a + b) == Decode(table, a) + Decode(table, b)
    decreases |a|
  {
    if a == [] {
      assert a + b == b && [] + Decode(table, b) == Decode(table, b);
    } else {
      var n := if a[0] < 128 then 1 else 2;
      assert (a + b)[n..] == a[n..] + b;
      DecodeJoins(table, a[n..], b);
    }
  }

  /** One character: an ASCII byte, a pair the table maps, a pair it does not map, and a lead byte alone. */
  lemma DecodeOne(table: Table, high: Byte, low: Byte)
    requires Proper(table)
    ensures high < 128 ==> Decode(table, [high]) == [high]
    ensures high >= 128 && high * 256 + low in table ==> Decode(table, [high, low]) == [table[high * 256 + low]]
    ensures high >= 128 && high * 256 + low !in table ==> Decode(table, [high, low]) == [0xFFFD]
    ensures high >= 128 ==> Decode(table, [high]) == [0xFFFD]
  {
    assert [high][1..] == [] && [high, low][2..] == [] && Decode(table, []) == [];
  }
}
