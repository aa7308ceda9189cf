/**
 Which bytes are messages: the message formats as a relation between bytes, a message and what follows
 it, and the decoder's grammar proved to be that relation. A reader may meet what a writer never sends,
 flag bits of a column other than the key bit and negative counts that stand for none, so the relation is
 wider than the encoding.
 */
module PgWire {
  import opened Basics
  import opened PgOutput

  // ---- The relation -------------------------------------------------------------------------------

  /** A count of `len` items: the number, or any negative one for none. */
  predicate CountOf(n: int, len: nat) {
    Fits(n, 0x1_0000) && (n == len || (n < 0 && len == 0))
  }

  ghost predicate TupleAt(s: Bytes, tuple: Tuple, rest: Bytes) {
    && (forall c | c in tuple :: CellFits(c))
    && exists n: int :: CountOf(n, |tuple|) && s == PutI16(n, PutCells(tuple, rest))
  }

  ghost predicate ColumnAt(s: Bytes, c: RelColumn, rest: Bytes) {
    && ColumnFits(c)
    && exists flags: Byte :: (flags % 2 == 1 <==> c.key)
         && s == PutU8(flags, PutCStr(c.name, PutU32(c.typeOid, PutI32(c.typmod, rest))))
  }

  ghost predicate ColumnsAt(s: Bytes, columns: seq<RelColumn>, rest: Bytes)
    decreases |columns|
  {
    if columns == [] then s == rest
    else exists next :: ColumnAt(s, columns[0], next) && ColumnsAt(next, columns[1..], rest)
  }

  ghost predicate MarkedAt(s: Bytes, marker: char, tuple: Tuple, rest: Bytes)
    requires marker as int < 256
  {
    exists next :: TupleAt(next, tuple, rest) && s == PutU8(marker as int, next)
  }

  ghost predicate OldAt(s: Bytes, o: OldTuple, rest: Bytes) {
    MarkedAt(s, if o.Key? then 'K' else 'O', o.tuple, rest)
  }

  ghost predicate RelationAt(s: Bytes, m: Message, rest: Bytes)
    requires m.Relation?
  {
    && m.relId < 0x1_0000_0000 && 0 !in m.schema && 0 !in m.name
    && exists n: int, next :: CountOf(n, |m.columns|) && ColumnsAt(next, m.columns, rest)
         && s == PutU32(m.relId, PutCStr(m.schema, PutCStr(m.name, PutU8(m.replident, PutI16(n, next)))))
  }

  ghost predicate UpdateAt(s: Bytes, m: Message, rest: Bytes)
    requires m.Update?
  {
    && m.relId < 0x1_0000_0000
    && exists next, row :: MarkedAt(row, 'N', m.row, rest) && s == PutU32(m.relId, next)
         && if m.prior.Some? then OldAt(next, m.prior.value, row) else next == row
  }

  ghost predicate TruncateAt(s: Bytes, m: Message, rest: Bytes)
    requires m.Truncate?
  {
    && |m.relIds| < 0x1_0000_0000 && (forall i | 0 <= i < |m.relIds| :: m.relIds[i] < 0x1_0000_0000)
    && exists options: Byte :: s == PutU32(|m.relIds|, PutU8(options, PutRelIds(m.relIds, rest)))
  }

  ghost predicate BodyAt(s: Bytes, m: Message, rest: Bytes)
    requires !m.Ignored?
  {
    match m
    case Relation(_, _, _, _, _) => RelationAt(s, m, rest)
    case Insert(relId, row) =>
      relId < 0x1_0000_0000 && exists next :: MarkedAt(next, 'N', row, rest) && s == PutU32(relId, next)
    case Update(_, _, _) => UpdateAt(s, m, rest)
    case Delete(relId, gone) =>
      relId < 0x1_0000_0000 && exists next :: OldAt(next, gone, rest) && s == PutU32(relId, next)
    case Truncate(_) => TruncateAt(s, m, rest)
  }

  /** The letter a message starts with. */
  function TagOf(m: Message): char
    requires !m.Ignored?
  {
    match m
    case Relation(_, _, _, _, _) => 'R'
    case Insert(_, _) => 'I'
    case Update(_, _, _) => 'U'
    case Delete(_, _) => 'D'
    case Truncate(_) => 'T'
  }

  /** `s` is the message `m` followed by `rest`; of a message of another type only the letter is read. */
  ghost predicate MessageAt(s: Bytes, m: Message, rest: Bytes) {
    && s != []
    && if m.Ignored? then s[0] !in ['R' as int, 'I' as int, 'U' as int, 'D' as int, 'T' as int] && rest == s[1..]
       else s[0] == TagOf(m) as int && BodyAt(s[1..], m, rest)
  }

  // ---- What is read is there ----------------------------------------------------------------------

  lemma U8Only(s: Bytes)
    requires U8(s).Got?
    ensures s == PutU8(U8(s).value, U8(s).rest)
  {
  }

  lemma I16Only(s: Bytes)
    requires I16(s).Got?
    ensures Fits(I16(s).value, 0x1_0000) && s == PutI16(I16(s).value, I16(s).rest)
  {
    var u := BigEndian16(s[0], s[1]);
    assert u / 0x100 == s[0] && u % 0x100 == s[1];
    assert Unsigned(Signed(u, 0x1_0000), 0x1_0000) == u;
  }

  lemma LastDigit(v: nat, d: Byte)
    ensures (v * 0x100 + d) / 0x100 == v && (v * 0x100 + d) % 0x100 == d
  {
  }

  lemma Shifts(v: nat)
    ensures v / 0x100 / 0x100 == v / 0x1_0000 && v / 0x100 / 0x100 / 0x100 == v / 0x100_0000
  {
  }

  lemma Digits(a: Byte, b: Byte, c: Byte, d: Byte)
    ensures var v := BigEndian32(a, b, c, d);
            && v < 0x1_0000_0000
            && v / 0x100_0000 == a && v / 0x1_0000 % 0x100 == b && v / 0x100 % 0x100 == c && v % 0x100 == d
  {
    var v3 := a * 0x100 + b;
    var v2 := v3 * 0x100 + c;
    LastDigit(a, b);
    LastDigit(v3, c);
    LastDigit(v2, d);
    assert BigEndian32(a, b, c, d) == v2 * 0x100 + d;
    Shifts(v2 * 0x100 + d);
  }

  lemma U32Only(s: Bytes)
    requires U32(s).Got?
    ensures U32(s).value < 0x1_0000_0000 && s == PutU32(U32(s).value, U32(s).rest)
  {
    Digits(s[0], s[1], s[2], s[3]);
  }

  lemma I32Only(s: Bytes)
    requires I32(s).Got?
    ensures Fits(I32(s).value, 0x1_0000_0000) && s == PutI32(I32(s).value, I32(s).rest)
  {
    U32Only(s);
    assert Unsigned(Signed(U32(s).value, 0x1_0000_0000), 0x1_0000_0000) == U32(s).value;
  }

  lemma {:induction false} CStrOnly(s: Bytes)
    requires CStr(s).Got?
    ensures 0 !in CStr(s).value && s == PutCStr(CStr(s).value, CStr(s).rest)
  {
    if s[0] != 0 {
      CStrOnly(s[1..]);
      assert s == [s[0]] + s[1..];
    }
  }

  lemma OneCellOnly(s: Bytes)
    requires OneCell(s).Got?
    ensures CellFits(OneCell(s).value) && s == PutCell(OneCell(s).value, OneCell(s).rest)
  {
    U8Only(s);
    if U8(s).value == TEXT_CELL {
      var body := U8(s).rest;
      I32Only(body);
      var len, text := I32(body).value, I32(body).rest;
      assert text == text[..len] + text[len..];
    }
  }

  lemma {:induction false} CellsOnly(s: Bytes, n: int)
    requires Cells(s, n).Got?
    ensures var tuple := Cells(s, n).value;
            && |tuple| == (if n < 0 then 0 else n)
            && (forall c | c in tuple :: CellFits(c))
            && s == PutCells(tuple, Cells(s, n).rest)
    decreases n
  {
    if n > 0 {
      OneCellOnly(s);
      CellsOnly(OneCell(s).rest, n - 1);
    }
  }

  lemma OneTupleOnly(s: Bytes)
    requires OneTuple(s).Got?
    ensures TupleAt(s, OneTuple(s).value, OneTuple(s).rest)
  {
    I16Only(s);
    var n := I16(s).value;
    CellsOnly(I16(s).rest, n);
    assert CountOf(n, |OneTuple(s).value|);
  }

  lemma OneColumnOnly(s: Bytes)
    requires OneColumn(s).Got?
    ensures ColumnAt(s, OneColumn(s).value, OneColumn(s).rest)
  {
    U8Only(s);
    var s1 := U8(s).rest;
    CStrOnly(s1);
    var s2 := CStr(s1).rest;
    U32Only(s2);
    I32Only(U32(s2).rest);
  }

  lemma {:induction false} ColumnsOnly(s: Bytes, n: int)
    requires Columns(s, n).Got?
    ensures |Columns(s, n).value| == (if n < 0 then 0 else n)
    ensures ColumnsAt(s, Columns(s, n).value, Columns(s, n).rest)
    decreases n
  {
    if n > 0 {
      OneColumnOnly(s);
      ColumnsOnly(OneColumn(s).rest, n - 1);
      var columns := Columns(s, n).value;
      assert columns[1..] == Columns(OneColumn(s).rest, n - 1).value;
    }
  }

  lemma {:induction false} RelIdsOnly(s: Bytes, n: nat)
    requires RelIds(s, n).Got?
    ensures var ids := RelIds(s, n).value;
            && |ids| == n && (forall i | 0 <= i < |ids| :: ids[i] < 0x1_0000_0000)
            && s == PutRelIds(ids, RelIds(s, n).rest)
    decreases n
  {
    if n > 0 {
      U32Only(s);
      RelIdsOnly(U32(s).rest, n - 1);
    }
  }

  lemma RelationOnly(s: Bytes)
    requires RelationBody(s).Got?
    ensures RelationBody(s).value.Relation? && RelationAt(s, RelationBody(s).value, RelationBody(s).rest)
  {
    U32Only(s);
    var s1 := U32(s).rest;
    CStrOnly(s1);
    var s2 := CStr(s1).rest;
    CStrOnly(s2);
    var s3 := CStr(s2).rest;
    U8Only(s3);
    var s4 := U8(s3).rest;
    I16Only(s4);
    var n, s5 := I16(s4).value, I16(s4).rest;
    ColumnsOnly(s5, n);
    assert CountOf(n, |RelationBody(s).value.columns|);
    assert ColumnsAt(s5, RelationBody(s).value.columns, RelationBody(s).rest);
  }

  lemma MarkedTupleOnly(s: Bytes)
    requires MarkedTuple(s).Got?
    ensures MarkedAt(s, 'N', MarkedTuple(s).value, MarkedTuple(s).rest)
  {
    U8Only(s);
    OneTupleOnly(U8(s).rest);
  }

  lemma MaybeOldOnly(s: Bytes)
    requires MaybeOld(s).Got?
    ensures var (prior, rest) := MaybeOld(s).Extract();
            if prior.Some? then OldAt(s, prior.value, rest) else rest == s
  {
    U8Only(s);
    if MaybeOld(s).value.Some? {
      OneTupleOnly(U8(s).rest);
    }
  }

  lemma UpdateOnly(s: Bytes)
    requires UpdateBody(s).Got?
    ensures UpdateBody(s).value.Update? && UpdateAt(s, UpdateBody(s).value, UpdateBody(s).rest)
  {
    U32Only(s);
    var next := U32(s).rest;
    MaybeOldOnly(next);
    MarkedTupleOnly(MaybeOld(next).rest);
  }

  lemma InsertOnly(s: Bytes)
    requires InsertBody(s).Got?
    ensures InsertBody(s).value.Insert? && BodyAt(s, InsertBody(s).value, InsertBody(s).rest)
  {
    U32Only(s);
    MarkedTupleOnly(U32(s).rest);
  }

  lemma DeleteOnly(s: Bytes)
    requires DeleteBody(s).Got?
    ensures DeleteBody(s).value.Delete? && BodyAt(s, DeleteBody(s).value, DeleteBody(s).rest)
  {
    U32Only(s);
    MaybeOldOnly(U32(s).rest);
  }

  lemma TruncateOnly(s: Bytes)
    requires TruncateBody(s).Got?
    ensures TruncateBody(s).value.Truncate? && TruncateAt(s, TruncateBody(s).value, TruncateBody(s).rest)
  {
    U32Only(s);
    var s1 := U32(s).rest;
    U8Only(s1);
    RelIdsOnly(U8(s1).rest, U32(s).value);
  }

  lemma MessageOnly(s: Bytes)
    requires ParseMessage(s).Got?
    ensures MessageAt(s, ParseMessage(s).value, ParseMessage(s).rest)
  {
    var tag, body := U8(s).value, U8(s).rest;
    if tag == R {
      RelationOnly(body);
    } else if tag == I {
      InsertOnly(body);
    } else if tag == U {
      UpdateOnly(body);
    } else if tag == D {
      DeleteOnly(body);
    } else if tag == T {
      TruncateOnly(body);
    }
  }

  // ---- What is there is read ----------------------------------------------------------------------

  lemma TupleRead(s: Bytes, tuple: Tuple, rest: Bytes)
    requires TupleAt(s, tuple, rest)
    ensures OneTuple(s) == Got(tuple, rest)
  {
    var n: int :| CountOf(n, |tuple|) && s == PutI16(n, PutCells(tuple, rest));
    I16Back(n, PutCells(tuple, rest));
    CellsBack(tuple, rest);
  }

  lemma ColumnRead(s: Bytes, c: RelColumn, rest: Bytes)
    requires ColumnAt(s, c, rest)
    ensures OneColumn(s) == Got(c, rest)
  {
    var t3 := PutI32(c.typmod, rest);
    var t2 := PutU32(c.typeOid, t3);
    var flags: Byte :| (flags % 2 == 1 <==> c.key) && s == PutU8(flags, PutCStr(c.name, t2));
    U8Back(flags, PutCStr(c.name, t2));
    CStrBack(c.name, t2);
    U32Back(c.typeOid, t3);
    I32Back(c.typmod, rest);
  }

  lemma FirstColumn(s: Bytes, columns: seq<RelColumn>, rest: Bytes) returns (next: Bytes)
    requires columns != [] && ColumnsAt(s, columns, rest)
    ensures OneColumn(s) == Got(columns[0], next) && ColumnsAt(next, columns[1..], rest)
  {
    next :| ColumnAt(s, columns[0], next) && ColumnsAt(next, columns[1..], rest);
    ColumnRead(s, columns[0], next);
  }

  lemma {:induction false} ColumnsRead(s: Bytes, columns: seq<RelColumn>, rest: Bytes)
    requires ColumnsAt(s, columns, rest)
    ensures Columns(s, |columns|) == Got(columns, rest)
    decreases |columns|
  {
    if columns != [] {
      var next := FirstColumn(s, columns, rest);
      ColumnsRead(next, columns[1..], rest);
      OneMoreColumn(s, columns, next, rest);
    }
  }

  lemma OneMoreColumn(s: Bytes, columns: seq<RelColumn>, next: Bytes, rest: Bytes)
    requires columns != [] && OneColumn(s) == Got(columns[0], next)
    requires Columns(next, |columns| - 1) == Got(columns[1..], rest)
    ensures Columns(s, |columns|) == Got(columns, rest)
  {
    assert [columns[0]] + columns[1..] == columns;
  }

  lemma RelationRead(s: Bytes, m: Message, rest: Bytes)
    requires m.Relation? && RelationAt(s, m, rest)
    ensures RelationBody(s) == Got(m, rest)
  {
    var n: int, t5 :| CountOf(n, |m.columns|) && ColumnsAt(t5, m.columns, rest)
      && s == PutU32(m.relId, PutCStr(m.schema, PutCStr(m.name, PutU8(m.replident, PutI16(n, t5)))));
    var t4 := PutI16(n, t5);
    var t3 := PutU8(m.replident, t4);
    var t2 := PutCStr(m.name, t3);
    var t1 := PutCStr(m.schema, t2);
    U32Back(m.relId, t1);
    CStrBack(m.schema, t2);
    CStrBack(m.name, t3);
    U8Back(m.replident, t4);
    I16Back(n, t5);
    ColumnsRead(t5, m.columns, rest);
  }

  lemma MarkedRead(s: Bytes, tuple: Tuple, rest: Bytes)
    requires MarkedAt(s, 'N', tuple, rest)
    ensures MarkedTuple(s) == Got(tuple, rest) && MaybeOld(s) == Got(None, s)
  {
    var next :| TupleAt(next, tuple, rest) && s == PutU8('N' as int, next);
    U8Back('N' as int, next);
    TupleRead(next, tuple, rest);
  }

  lemma OldRead(s: Bytes, o: OldTuple, rest: Bytes)
    requires OldAt(s, o, rest)
    ensures MaybeOld(s) == Got(Some(o), rest)
  {
    var marker := if o.Key? then 'K' else 'O';
    var next :| TupleAt(next, o.tuple, rest) && s == PutU8(marker as int, next);
    U8Back(marker as int, next);
    TupleRead(next, o.tuple, rest);
  }

  lemma UpdateRead(s: Bytes, m: Message, rest: Bytes)
    requires m.Update? && UpdateAt(s, m, rest)
    ensures UpdateBody(s) == Got(m, rest)
  {
    var next, row :| MarkedAt(row, 'N', m.row, rest) && s == PutU32(m.relId, next)
      && if m.prior.Some? then OldAt(next, m.prior.value, row) else next == row;
    U32Back(m.relId, next);
    MarkedRead(row, m.row, rest);
    if m.prior.Some? {
      OldRead(next, m.prior.value, row);
    }
  }

  lemma TruncateRead(s: Bytes, m: Message, rest: Bytes)
    requires m.Truncate? && TruncateAt(s, m, rest)
    ensures TruncateBody(s) == Got(m, rest)
  {
    var ids := PutRelIds(m.relIds, rest);
    var options: Byte :| s == PutU32(|m.relIds|, PutU8(options, ids));
    U32Back(|m.relIds|, PutU8(options, ids));
    U8Back(options, ids);
    RelIdsBack(m.relIds, rest);
  }

  lemma BodyRead(s: Bytes, m: Message, rest: Bytes)
    requires !m.Ignored? && BodyAt(s, m, rest)
    ensures m.Relation? ==> RelationBody(s) == Got(m, rest)
    ensures m.Insert? ==> InsertBody(s) == Got(m, rest)
    ensures m.Update? ==> UpdateBody(s) == Got(m, rest)
    ensures m.Delete? ==> DeleteBody(s) == Got(m, rest)
    ensures m.Truncate? ==> TruncateBody(s) == Got(m, rest)
  {
    match m
    case Relation(_, _, _, _, _) => RelationRead(s, m, rest);
    case Insert(relId, row) => {
      var next :| MarkedAt(next, 'N', row, rest) && s == PutU32(relId, next);
      U32Back(relId, next);
      MarkedRead(next, row, rest);
    }
    case Update(_, _, _) => UpdateRead(s, m, rest);
    case Delete(relId, gone) => {
      var next :| OldAt(next, gone, rest) && s == PutU32(relId, next);
      U32Back(relId, next);
      OldRead(next, gone, rest);
    }
    case Truncate(_) => TruncateRead(s, m, rest);
  }

  /** The decoder reads a message exactly from the bytes that are one: whatever else it is given, a wrong
      marker, an unknown kind of cell, a negative length or too few bytes among it, is an error. */
  lemma ReadsExactlyMessages(s: Bytes, m: Message, rest: Bytes)
    ensures ParseMessage(s) == Got(m, rest) <==> MessageAt(s, m, rest)
  {
    if ParseMessage(s) == Got(m, rest) {
      MessageOnly(s);
    }
    if MessageAt(s, m, rest) && !m.Ignored? {
      BodyRead(s[1..], m, rest);
    }
  }
}
