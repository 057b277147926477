/** The layout of a closure manifest: a header, six tables of fixed-size rows, and a string table. */
module ManifestLayout {
  import opened Bytes
  import opened Fields

  const HEADER_SIZE: nat := 128
  const TABLES: nat := 6
  const SIZES: seq<nat> := [96, 8, 16, 32, 72, 8]
  const LIMITS: seq<nat> := [4096, 65536, 65536, 65536, 16384, 65536]
  const IDENTITY: seq<byte> := [0x64, 0x65, 0x76, 0x00]
  const SCHEMA: seq<byte> := [
    0x47, 0xfe, 0x5f, 0x18, 0x83, 0x61, 0x8c, 0x3b, 0x17, 0xdd, 0x27, 0x9f, 0x4c, 0x87, 0x73, 0xb2,
    0x41, 0x9b, 0xcf, 0x47, 0xdf, 0x65, 0x17, 0x4e, 0xc9, 0xd3, 0xe9, 0x84, 0x8b, 0x8d, 0x81, 0x0f
  ]

  type Row = seq<byte>

  /** The contents of a manifest before its rows are interpreted. */
  datatype Image = Image(tables: seq<seq<Row>>, strings: seq<byte>)

  ghost predicate Sized(rows: seq<Row>, size: nat) {
    forall i :: 0 <= i < |rows| ==> |rows[i]| == size
  }

  ghost predicate Shaped(m: Image) {
    |m.tables| == TABLES && forall t :: 0 <= t < TABLES ==> Sized(m.tables[t], SIZES[t])
  }

  // ------------------------------------------------------------------------ rows

  function Join(rows: seq<Row>): seq<byte> {
    if rows == [] then [] else Join(rows[..|rows| - 1]) + rows[|rows| - 1]
  }

  /** The first `n` rows of `size` bytes. */
  function RowsIn(s: seq<byte>, size: nat, n: nat): (rows: seq<Row>)
    requires n * size <= |s|
    ensures |rows| == n && Sized(rows, size)
  {
    if n == 0 then [] else RowsIn(s, size, n - 1) + [s[(n - 1) * size..n * size]]
  }

  lemma {:induction false} RowIn(s: seq<byte>, size: nat, n: nat, i: nat)
    requires n * size <= |s| && i < n
    ensures (i + 1) * size <= |s| && RowsIn(s, size, n)[i] == s[i * size..(i + 1) * size]
    decreases n
  {
    if i < n - 1 { RowIn(s, size, n - 1, i); }
  }

  lemma {:induction false} JoinSize(rows: seq<Row>, size: nat)
    requires Sized(rows, size)
    ensures |Join(rows)| == |rows| * size
  {
    if rows != [] {
      JoinSize(rows[..|rows| - 1], size);
      assert |rows| * size == (|rows| - 1) * size + size;
    }
  }

  /** Cutting up joined rows gives the rows back. */
  lemma {:induction false} RowsOfJoin(rows: seq<Row>, rest: seq<byte>, size: nat)
    requires Sized(rows, size)
    ensures |rows| * size <= |Join(rows) + rest| && RowsIn(Join(rows) + rest, size, |rows|) == rows
  {
    JoinSize(rows, size);
    if rows != [] {
      var n := |rows|;
      var front, last := rows[..n - 1], rows[n - 1];
      JoinSize(front, size);
      RowsOfJoin(front, last + rest, size);
      assert Join(rows) + rest == Join(front) + (last + rest);
      assert (Join(front) + (last + rest))[(n - 1) * size..n * size] == last;
      assert rows == front + [last];
    }
  }

  /** Joining the rows of a string gives the string back. */
  lemma {:induction false} JoinOfRows(s: seq<byte>, size: nat, n: nat)
    requires n * size <= |s|
    ensures Join(RowsIn(s, size, n)) == s[..n * size]
  {
    if n > 0 {
      JoinOfRows(s, size, n - 1);
      var rows := RowsIn(s, size, n);
      assert rows[..n - 1] == RowsIn(s, size, n - 1);
      assert s[..n * size] == s[..(n - 1) * size] + s[(n - 1) * size..n * size];
    }
  }

  // --------------------------------------------------------------------- offsets

  function Counts(m: Image, n: nat): (c: seq<nat>)
    requires n <= |m.tables|
    ensures |c| == n && forall t :: 0 <= t < n ==> c[t] == |m.tables[t]|
  {
    if n == 0 then [] else Counts(m, n - 1) + [|m.tables[n - 1]|]
  }

  /** Where table `t` starts, and the string table after the last. */
  function Offset(c: seq<nat>, t: nat): (o: nat)
    requires |c| == TABLES && t <= TABLES
  {
    if t == 0 then HEADER_SIZE else Offset(c, t - 1) + c[t - 1] * SIZES[t - 1]
  }

  lemma {:induction false} OffsetsRise(c: seq<nat>, t: nat, u: nat)
    requires |c| == TABLES && t <= u <= TABLES
    ensures HEADER_SIZE <= Offset(c, t) <= Offset(c, u)
    decreases u
  {
    if t < u { OffsetsRise(c, t, u - 1); } else if t > 0 { OffsetsRise(c, t - 1, t - 1); }
  }

  predicate Limited(c: seq<nat>)
    requires |c| == TABLES
  {
    forall t :: 0 <= t < TABLES ==> c[t] <= LIMITS[t]
  }

  /** Tables at their limits leave room for 27 million bytes of strings, and far more. */
  lemma TablesSmall(c: seq<nat>)
    requires |c| == TABLES && Limited(c)
    ensures Offset(c, TABLES) < 0x100_0000
  {
    assert Offset(c, 1) == 128 + c[0] * 96 && Offset(c, 2) == Offset(c, 1) + c[1] * 8;
    assert Offset(c, 3) == Offset(c, 2) + c[2] * 16 && Offset(c, 4) == Offset(c, 3) + c[3] * 32;
    assert Offset(c, 5) == Offset(c, 4) + c[4] * 72 && Offset(c, 6) == Offset(c, 5) + c[5] * 8;
  }

  function Offsets(c: seq<nat>, n: nat): (r: seq<nat>)
    requires |c| == TABLES && n <= TABLES + 1
    ensures |r| == n && forall t :: 0 <= t < n ==> r[t] == Offset(c, t)
  {
    if n == 0 then [] else Offsets(c, n - 1) + [Offset(c, n - 1)]
  }

  // ---------------------------------------------------------------------- header

  function Words(xs: seq<nat>): (s: seq<byte>)
    ensures |s| == 4 * |xs|
  {
    if xs == [] then [] else Words(xs[..|xs| - 1]) + Le(xs[|xs| - 1], 4)
  }

  predicate WordIs(b: seq<byte>, o: nat, xs: seq<nat>, i: nat)
    requires o + 4 * |xs| <= |b| && i < |xs|
  {
    U32At(b, o + 4 * i) == xs[i]
  }

  ghost predicate WordsSay(b: seq<byte>, o: nat, xs: seq<nat>)
    requires o + 4 * |xs| <= |b|
  {
    forall i: nat :: i < |xs| ==> WordIs(b, o, xs, i)
  }

  lemma {:induction false} WordsAre(b: seq<byte>, o: nat, xs: seq<nat>)
    requires o + 4 * |xs| <= |b| && forall i :: 0 <= i < |xs| ==> xs[i] < U32
    ensures b[o..o + 4 * |xs|] == Words(xs) <==> WordsSay(b, o, xs)
  {
    hide Le, U32At;
    var n := |xs|;
    if n == 0 {
      assert b[o..o] == Words(xs);
    } else {
      var front := xs[..n - 1];
      WordsAre(b, o, front);
      PartsAt(b, o, 4 * n, Words(front), Le(xs[n - 1], 4));
      FieldIs(b, o + 4 * (n - 1), xs[n - 1]);
      forall i: nat | i < n - 1 ensures WordIs(b, o, front, i) <==> WordIs(b, o, xs, i) { }
      assert WordIs(b, o, xs, n - 1) <==> U32At(b, o + 4 * (n - 1)) == xs[n - 1];
      assert WordsSay(b, o, xs) <==> WordsSay(b, o, front) && WordIs(b, o, xs, n - 1);
    }
  }

  function Header(c: seq<nat>, strings: nat): (s: seq<byte>)
    requires |c| == TABLES
  {
    Le(Offset(c, TABLES) + strings, 4) + IDENTITY + SCHEMA + Words(c) + Words(Offsets(c, TABLES + 1)) + Le(strings, 4)
    + Zeros(32)
  }

  /** The header says exactly this. */
  ghost predicate HeaderSays(b: seq<byte>, c: seq<nat>, strings: nat)
    requires |b| >= HEADER_SIZE && |c| == TABLES
  {
    && U32At(b, 0) == Offset(c, TABLES) + strings && b[4..8] == IDENTITY && b[8..40] == SCHEMA
    && WordsSay(b, 40, c) && WordsSay(b, 64, Offsets(c, TABLES + 1))
    && U32At(b, 92) == strings && Zero(b[96..128])
  }

  lemma HeaderParts(
    b: seq<byte>, total: seq<byte>, identity: seq<byte>, schema: seq<byte>, counts: seq<byte>, offsets: seq<byte>,
    strings: seq<byte>, reserved: seq<byte>)
    requires |b| >= HEADER_SIZE && |total| == |identity| == |strings| == 4 && |schema| == |reserved| == 32
    requires |counts| == 24 && |offsets| == 28
    ensures b[..HEADER_SIZE] == total + identity + schema + counts + offsets + strings + reserved
            <==> && b[0..4] == total && b[4..8] == identity && b[8..40] == schema && b[40..64] == counts
                 && b[64..92] == offsets && b[92..96] == strings && b[96..128] == reserved
  {
    assert b[0..128] == b[..HEADER_SIZE];
    PartsAt(b, 0, 128, total + identity + schema + counts + offsets + strings, reserved);
    PartsAt(b, 0, 96, total + identity + schema + counts + offsets, strings);
    PartsAt(b, 0, 92, total + identity + schema + counts, offsets);
    PartsAt(b, 0, 64, total + identity + schema, counts);
    PartsAt(b, 0, 40, total + identity, schema);
    PartsAt(b, 0, 8, total, identity);
  }

  lemma HeaderIs(b: seq<byte>, c: seq<nat>, strings: nat)
    requires |b| >= HEADER_SIZE && |c| == TABLES && Limited(c) && Offset(c, TABLES) + strings < U32
    ensures b[..HEADER_SIZE] == Header(c, strings) <==> HeaderSays(b, c, strings)
  {
    hide Le, Zeros, U32At, Words, Offset, Limited, Zero, WordsSay, Offsets;
    var offsets := Offsets(c, TABLES + 1);
    forall t | 0 <= t < TABLES ensures c[t] < U32 { LimitedWord(c, t); }
    forall t | 0 <= t < TABLES + 1 ensures offsets[t] < U32 { OffsetsRise(c, t, TABLES); }
    HeaderParts(b, Le(Offset(c, TABLES) + strings, 4), IDENTITY, SCHEMA, Words(c), Words(offsets), Le(strings, 4), Zeros(32));
    FieldIs(b, 0, Offset(c, TABLES) + strings);
    WordsAre(b, 40, c);
    WordsAre(b, 64, offsets);
    FieldIs(b, 92, strings);
    ZeroIs(b[96..128]);
  }

  lemma LimitedWord(c: seq<nat>, t: nat)
    requires |c| == TABLES && Limited(c) && t < TABLES
    ensures c[t] < U32
  {
    assert LIMITS[t] <= 65536;
  }

  // ----------------------------------------------------------------------- bytes

  /** The first `n` tables, one after the other. */
  function Prefix(m: Image, n: nat): seq<byte>
    requires n <= |m.tables|
  {
    if n == 0 then [] else Prefix(m, n - 1) + Join(m.tables[n - 1])
  }

  function Written(m: Image): seq<byte>
    requires |m.tables| == TABLES
  {
    Header(Counts(m, TABLES), |m.strings|) + Prefix(m, TABLES) + m.strings
  }

  lemma HeaderLength(c: seq<nat>, strings: nat)
    requires |c| == TABLES
    ensures |Header(c, strings)| == HEADER_SIZE
  {
    hide Le, Zeros, Words;
  }

  lemma {:induction false} PrefixSize(m: Image, n: nat)
    requires Shaped(m) && n <= TABLES
    ensures HEADER_SIZE + |Prefix(m, n)| == Offset(Counts(m, TABLES), n)
  {
    if n > 0 {
      PrefixSize(m, n - 1);
      JoinSize(m.tables[n - 1], SIZES[n - 1]);
    }
  }

  lemma {:induction false} TableInPrefix(m: Image, n: nat, t: nat)
    requires |m.tables| == TABLES && t < n <= TABLES
    ensures |Prefix(m, t)| <= |Prefix(m, t + 1)| <= |Prefix(m, n)|
    ensures Prefix(m, n)[|Prefix(m, t)|..|Prefix(m, t + 1)|] == Join(m.tables[t])
    decreases n
  {
    hide Join;
    if t < n - 1 {
      TableInPrefix(m, n - 1, t);
      var p, q := Prefix(m, n - 1), Join(m.tables[n - 1]);
      assert (p + q)[|Prefix(m, t)|..|Prefix(m, t + 1)|] == p[|Prefix(m, t)|..|Prefix(m, t + 1)|];
    }
  }

  /** The table offsets found in a header, when the tables fit. */
  ghost predicate Fits(b: seq<byte>, c: seq<nat>) {
    |c| == TABLES && Offset(c, TABLES) <= |b|
  }

  lemma TableFits(b: seq<byte>, c: seq<nat>, t: nat)
    requires Fits(b, c) && t < TABLES
    ensures Offset(c, t) + c[t] * SIZES[t] == Offset(c, t + 1) <= |b|
  {
    OffsetsRise(c, t + 1, TABLES);
  }

  /** The rows of table `t`. */
  ghost function TableAt(b: seq<byte>, c: seq<nat>, t: nat): (rows: seq<Row>)
    requires Fits(b, c) && t < TABLES
    ensures |rows| == c[t] && Sized(rows, SIZES[t])
  {
    TableFits(b, c, t);
    RowsIn(b[Offset(c, t)..], SIZES[t], c[t])
  }

  ghost function TablesAt(b: seq<byte>, c: seq<nat>, n: nat): (tables: seq<seq<Row>>)
    requires Fits(b, c) && n <= TABLES
    ensures |tables| == n && forall t :: 0 <= t < n ==> tables[t] == TableAt(b, c, t)
  {
    if n == 0 then [] else TablesAt(b, c, n - 1) + [TableAt(b, c, n - 1)]
  }

  ghost function ImageAt(b: seq<byte>, c: seq<nat>): (m: Image)
    requires Fits(b, c)
    ensures Shaped(m) && Counts(m, TABLES) == c
  {
    hide TableAt;
    Image(TablesAt(b, c, TABLES), b[Offset(c, TABLES)..])
  }

  lemma WrittenTable(m: Image, t: nat)
    requires Shaped(m) && t < TABLES
    ensures var b, c := Written(m), Counts(m, TABLES); Fits(b, c) && TableAt(b, c, t) == m.tables[t]
  {
    hide Header, Prefix, Join, Counts, Offset;
    WrittenSize(m);
    var b, c := Written(m), Counts(m, TABLES);
    TableFits(b, c, t);
    TableInPrefix(m, TABLES, t);
    PrefixSize(m, t);
    PrefixSize(m, t + 1);
    var h, p := Header(c, |m.strings|), Prefix(m, TABLES);
    HeaderLength(c, |m.strings|);
    var o, e := Offset(c, t), Offset(c, t + 1);
    MiddleSlice(h, p, m.strings, o - HEADER_SIZE, e - HEADER_SIZE);
    assert b[o..e] == Join(m.tables[t]);
    assert b[o..] == b[o..e] + b[e..];
    RowsOfJoin(m.tables[t], b[e..], SIZES[t]);
  }

  lemma WrittenSize(m: Image)
    requires Shaped(m)
    ensures |Written(m)| == Offset(Counts(m, TABLES), TABLES) + |m.strings| && Fits(Written(m), Counts(m, TABLES))
    ensures Written(m)[..HEADER_SIZE] == Header(Counts(m, TABLES), |m.strings|)
    ensures Written(m)[Offset(Counts(m, TABLES), TABLES)..] == m.strings
  {
    hide Header, Prefix, Join, Offset;
    HeaderLength(Counts(m, TABLES), |m.strings|);
    PrefixSize(m, TABLES);
  }

  /** What is written is what is read. */
  lemma ReadWritten(m: Image)
    requires Shaped(m)
    ensures Fits(Written(m), Counts(m, TABLES)) && ImageAt(Written(m), Counts(m, TABLES)) == m
  {
    hide Written, Counts, Fits, TableAt;
    WrittenSize(m);
    var b, c := Written(m), Counts(m, TABLES);
    forall t | 0 <= t < TABLES ensures TablesAt(b, c, TABLES)[t] == m.tables[t] { WrittenTable(m, t); }
    assert TablesAt(b, c, TABLES) == m.tables;
  }

  lemma {:induction false} PrefixRead(b: seq<byte>, c: seq<nat>, n: nat)
    requires Fits(b, c) && n <= TABLES
    ensures HEADER_SIZE <= Offset(c, n) <= |b| && Prefix(ImageAt(b, c), n) == b[HEADER_SIZE..Offset(c, n)]
  {
    hide Join, RowsIn;
    OffsetsRise(c, n, TABLES);
    if n > 0 {
      var t := n - 1;
      PrefixRead(b, c, t);
      TableFits(b, c, t);
      var o := Offset(c, t);
      JoinOfRows(b[o..], SIZES[t], c[t]);
      assert b[o..][..c[t] * SIZES[t]] == b[o..Offset(c, n)];
      assert b[HEADER_SIZE..Offset(c, n)] == b[HEADER_SIZE..o] + b[o..Offset(c, n)];
    }
  }

  /** What is read is what was written. */
  lemma WrittenRead(b: seq<byte>, c: seq<nat>)
    requires Fits(b, c)
    requires Limited(c) && |b| < U32 && HEADER_SIZE <= |b| && HeaderSays(b, c, |b| - Offset(c, TABLES))
    ensures Written(ImageAt(b, c)) == b
  {
    PrefixRead(b, c, TABLES);
    StringsRead(b, c);
    hide Header, Prefix, Limited, HeaderSays, Offset, ImageAt, Counts, Fits;
    var o := Offset(c, TABLES);
    HeaderIs(b, c, |b| - o);
    ThreeParts(b, HEADER_SIZE, o);
  }

  lemma StringsRead(b: seq<byte>, c: seq<nat>)
    requires Fits(b, c)
    ensures ImageAt(b, c).strings == b[Offset(c, TABLES)..] && |ImageAt(b, c).tables| == TABLES
  {
    hide TablesAt, Offset;
  }

  lemma ThreeParts(b: seq<byte>, i: nat, j: nat)
    requires i <= j <= |b|
    ensures b[..i] + b[i..j] + b[j..] == b
  {
  }
}
