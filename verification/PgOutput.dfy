/**
 The decoder of PostgreSQL's logical replication messages ("Logical Replication Message Formats" in the
 PostgreSQL documentation), as a cursor over bytes. A string is kept as the bytes it is encoded in.
 */
module PgOutput {
  import opened Basics

  type Byte = b: int | 0 <= b < 256

  type Bytes = seq<Byte>

  datatype Cell = Null | UnchangedToast | Text(bytes: Bytes)

  type Tuple = seq<Cell>

  datatype OldTuple = Full(tuple: Tuple) | Key(tuple: Tuple)

  datatype RelColumn = RelColumn(name: Bytes, typeOid: nat, typmod: int, key: bool)

  datatype Message =
    | Relation(relId: nat, schema: Bytes, name: Bytes, replident: Byte, columns: seq<RelColumn>)
    | Insert(relId: nat, row: Tuple)
    | Update(relId: nat, prior: Option<OldTuple>, row: Tuple)
    | Delete(relId: nat, gone: OldTuple)
    | Truncate(relIds: seq<nat>)
    | Ignored

  datatype Error = Truncated | Unterminated | WrongMarker(marker: Byte) | NegativeLength | UnsupportedKind(kind: Byte)

  const R: Byte := 0x52
  const I: Byte := 0x49
  const U: Byte := 0x55
  const D: Byte := 0x44
  const T: Byte := 0x54
  const N: Byte := 0x4E
  const K: Byte := 0x4B
  const O: Byte := 0x4F
  const NULL_CELL: Byte := 0x6E
  const TOAST_CELL: Byte := 0x75
  const TEXT_CELL: Byte := 0x74

  // ---- The grammar: what the bytes from the cursor on stand for, and what is left -----------------

  datatype Parse<+V> = Got(value: V, rest: Bytes) | Bad(error: Error) {
    predicate IsFailure() {
      Bad?
    }

    function PropagateFailure<W>(): Parse<W>
      requires Bad?
    {
      Bad(error)
    }

    function Extract(): (V, Bytes)
      requires Got?
    {
      (value, rest)
    }
  }

  function Take(s: Bytes, n: nat): Parse<Bytes> {
    if n <= |s| then Got(s[..n], s[n..]) else Bad(Truncated)
  }

  function U8(s: Bytes): Parse<Byte> {
    if 1 <= |s| then Got(s[0], s[1..]) else Bad(Truncated)
  }

  function BigEndian16(a: int, b: int): int {
    a * 0x100 + b
  }

  function BigEndian32(a: int, b: int, c: int, d: int): int {
    a * 0x100_0000 + b * 0x1_0000 + c * 0x100 + d
  }

  function I16(s: Bytes): Parse<int> {
    if 2 <= |s| then Got(Signed(BigEndian16(s[0], s[1]), 0x1_0000), s[2..]) else Bad(Truncated)
  }

  function U32(s: Bytes): (r: Parse<nat>)
    ensures r.Got? ==> |r.rest| < |s|
  {
    if 4 <= |s| then Got(BigEndian32(s[0], s[1], s[2], s[3]), s[4..]) else Bad(Truncated)
  }

  function I32(s: Bytes): Parse<int> {
    var u :- U32(s);
    Got(Signed(u.0, 0x1_0000_0000), u.1)
  }

  /** Two's complement in `modulus` values. */
  function Signed(u: nat, modulus: nat): int {
    if 2 * u < modulus then u else u - modulus
  }

  /** Up to the NUL, which is taken too. */
  function CStr(s: Bytes): Parse<Bytes> {
    if s == [] then Bad(Unterminated)
    else if s[0] == 0 then Got([], s[1..])
    else
      var more :- CStr(s[1..]);
      Got([s[0]] + more.0, more.1)
  }

  function TextBody(s: Bytes): Parse<Cell> {
    var len :- I32(s);
    if len.0 < 0 then Bad(NegativeLength)
    else
      var text :- Take(len.1, len.0);
      Got(Text(text.0), text.1)
  }

  function OneCell(s: Bytes): Parse<Cell> {
    var kind :- U8(s);
    if kind.0 == NULL_CELL then Got(Null, kind.1)
    else if kind.0 == TOAST_CELL then Got(UnchangedToast, kind.1)
    else if kind.0 == TEXT_CELL then TextBody(kind.1)
    else Bad(UnsupportedKind(kind.0))
  }

  /** `n` cells; none if `n` is negative. */
  function Cells(s: Bytes, n: int): Parse<Tuple>
    decreases n
  {
    if n <= 0 then Got([], s)
    else
      var cell :- OneCell(s);
      var more :- Cells(cell.1, n - 1);
      Got([cell.0] + more.0, more.1)
  }

  function OneTuple(s: Bytes): Parse<Tuple> {
    var n :- I16(s);
    Cells(n.1, n.0)
  }

  function OneColumn(s: Bytes): Parse<RelColumn> {
    var flags :- U8(s);
    var name :- CStr(flags.1);
    var oid :- U32(name.1);
    var typmod :- I32(oid.1);
    Got(RelColumn(name.0, oid.0, typmod.0, flags.0 % 2 == 1), typmod.1)
  }

  function Columns(s: Bytes, n: int): Parse<seq<RelColumn>>
    decreases n
  {
    if n <= 0 then Got([], s)
    else
      var column :- OneColumn(s);
      var more :- Columns(column.1, n - 1);
      Got([column.0] + more.0, more.1)
  }

  function RelIds(s: Bytes, n: nat): Parse<seq<nat>> {
    if n == 0 then Got([], s)
    else
      var id :- U32(s);
      var more :- RelIds(id.1, n - 1);
      Got([id.0] + more.0, more.1)
  }

  function RelationBody(s: Bytes): Parse<Message> {
    var relId :- U32(s);
    var schema :- CStr(relId.1);
    var name :- CStr(schema.1);
    var replident :- U8(name.1);
    var n :- I16(replident.1);
    var columns :- Columns(n.1, n.0);
    Got(Relation(relId.0, schema.0, name.0, replident.0, columns.0), columns.1)
  }

  function MarkedTuple(s: Bytes): Parse<Tuple> {
    var marker :- U8(s);
    if marker.0 == N then OneTuple(marker.1) else Bad(WrongMarker(marker.0))
  }

  function InsertBody(s: Bytes): Parse<Message> {
    var relId :- U32(s);
    var row :- MarkedTuple(relId.1);
    Got(Insert(relId.0, row.0), row.1)
  }

  function MaybeOld(s: Bytes): Parse<Option<OldTuple>> {
    var marker :- U8(s);
    if marker.0 == K then
      var old_ :- OneTuple(marker.1);
      Got(Some(Key(old_.0)), old_.1)
    else if marker.0 == O then
      var old_ :- OneTuple(marker.1);
      Got(Some(Full(old_.0)), old_.1)
    else Got(None, s)
  }

  function UpdateBody(s: Bytes): Parse<Message> {
    var relId :- U32(s);
    var prior :- MaybeOld(relId.1);
    var row :- MarkedTuple(prior.1);
    Got(Update(relId.0, prior.0, row.0), row.1)
  }

  function DeleteBody(s: Bytes): Parse<Message> {
    var relId :- U32(s);
    var gone :- MaybeOld(relId.1);
    if gone.0.Some? then Got(Delete(relId.0, gone.0.value), gone.1)
    else
      var marker :- U8(relId.1);
      Bad(WrongMarker(marker.0))
  }

  function TruncateBody(s: Bytes): Parse<Message> {
    var n :- U32(s);
    var options :- U8(n.1);
    var ids :- RelIds(options.1, n.0);
    Got(Truncate(ids.0), ids.1)
  }

  function ParseMessage(s: Bytes): Parse<Message> {
    var tag :- U8(s);
    if tag.0 == R then RelationBody(tag.1)
    else if tag.0 == I then InsertBody(tag.1)
    else if tag.0 == U then UpdateBody(tag.1)
    else if tag.0 == D then DeleteBody(tag.1)
    else if tag.0 == T then TruncateBody(tag.1)
    else Got(Ignored, tag.1)
  }

  // ---- The cursor ---------------------------------------------------------------------------------

  /** What a read says and where it leaves the cursor are what the grammar says. */
  ghost predicate Reads<V>(p: Parse<V>, r: Result<V, Error>, left: Bytes) {
    match p
    case Got(value, rest) => r == Ok(value) && left == rest
    case Bad(error) => r == Err(error)
  }

  class Reader {
    const b: Bytes
    var i: nat

    constructor (data: Bytes)
      ensures b == data && i == 0
    {
      b, i := data, 0;
    }

    /** The cursor never passes the end. */
    ghost predicate Valid()
      reads this
    {
      i <= |b|
    }

    ghost function Left(): Bytes
      requires Valid()
      reads this
    {
      b[i..]
    }

    method TakeN(n: nat) returns (r: Result<Bytes, Error>)
      requires Valid()
      modifies this
      ensures Valid() && Reads(Take(old(Left()), n), r, Left())
      ensures r.Err? ==> i == old(i)
    {
      if i + n > |b| {
        return Err(Truncated);
      }
      r := Ok(b[i..i + n]);
      assert b[i..][..n] == b[i..i + n] && b[i..][n..] == b[i + n..];
      i := i + n;
    }

    method ReadU8() returns (r: Result<Byte, Error>)
      requires Valid()
      modifies this
      ensures Valid() && Reads(U8(old(Left())), r, Left())
    {
      var s :- TakeN(1);
      r := Ok(s[0]);
    }

    method ReadI16() returns (r: Result<int, Error>)
      requires Valid()
      modifies this
      ensures Valid() && Reads(I16(old(Left())), r, Left())
    {
      var s :- TakeN(2);
      r := Ok(Signed(BigEndian16(s[0], s[1]), 0x1_0000));
    }

    method ReadU32() returns (r: Result<nat, Error>)
      requires Valid()
      modifies this
      ensures Valid() && Reads(U32(old(Left())), r, Left())
    {
      var s :- TakeN(4);
      r := Ok(BigEndian32(s[0], s[1], s[2], s[3]));
    }

    method ReadI32() returns (r: Result<int, Error>)
      requires Valid()
      modifies this
      ensures Valid() && Reads(I32(old(Left())), r, Left())
    {
      var u :- ReadU32();
      r := Ok(Signed(u, 0x1_0000_0000));
    }

    method ReadCStr() returns (r: Result<Bytes, Error>)
      requires Valid()
      modifies this
      ensures Valid() && Reads(CStr(old(Left())), r, Left())
    {
      var start := i;
      assert b[start..i] == [];
      ghost var was := Left();
      LongerNothing(CStr(was));
      while i < |b| && b[i] != 0
        invariant start <= i <= |b|
        invariant CStr(was) == Longer(b[start..i], CStr(b[i..]))
        decreases |b| - i
      {
        assert b[i..][0] == b[i] && b[i..][1..] == b[i + 1..] && b[start..i + 1] == b[start..i] + [b[i]];
        LongerTwice(b[start..i], [b[i]], CStr(b[i + 1..]));
        i := i + 1;
      }
      if i >= |b| {
        assert b[i..] == [];
        return Err(Unterminated);
      }
      assert b[i..][0] == 0 && b[i..][1..] == b[i + 1..] && b[start..i] + [] == b[start..i];
      r := Ok(b[start..i]);
      i := i + 1;
    }

    method ReadCell() returns (r: Result<Cell, Error>)
      requires Valid()
      modifies this
      ensures Valid() && Reads(OneCell(old(Left())), r, Left())
    {
      var kind :- ReadU8();
      if kind == NULL_CELL {
        return Ok(Null);
      } else if kind == TOAST_CELL {
        return Ok(UnchangedToast);
      } else if kind == TEXT_CELL {
        var len :- ReadI32();
        if len < 0 {
          return Err(NegativeLength);
        }
        var text :- TakeN(len);
        return Ok(Text(text));
      }
      r := Err(UnsupportedKind(kind));
    }

    method ReadTuple() returns (r: Result<Tuple, Error>)
      requires Valid()
      modifies this
      ensures Valid() && Reads(OneTuple(old(Left())), r, Left())
    {
      var ncols :- ReadI16();
      r := ReadCells(ncols);
    }

    method ReadCells(ncols: int) returns (r: Result<seq<Cell>, Error>)
      requires Valid()
      modifies this
      ensures Valid() && Reads(Cells(old(Left()), ncols), r, Left())
    {
      var cells: seq<Cell> := [];
      var k := 0;
      ghost var goal := Cells(Left(), ncols);
      LongerNothing(goal);
      while k < ncols
        invariant Valid() && 0 <= k && (k <= ncols || k == 0)
        invariant goal == Longer(cells, Cells(Left(), ncols - k))
      {
        cells :- PushCell(cells, goal, ncols - k);
        k := k + 1;
      }
      CellsStep(goal, Left(), ncols - k, cells);
      r := Ok(cells);
    }

    /** One round of that loop. */
    method PushCell(cells: seq<Cell>, ghost goal: Parse<seq<Cell>>, ghost n: int)
      returns (r: Result<seq<Cell>, Error>)
      requires Valid() && n > 0 && goal == Longer(cells, Cells(Left(), n))
      modifies this
      ensures Valid()
      ensures r.Ok? ==> goal == Longer(r.value, Cells(Left(), n - 1))
      ensures r.Err? ==> goal == Bad(r.error)
    {
      CellsStep(goal, Left(), n, cells);
      var cell :- ReadCell();
      r := Ok(cells + [cell]);
    }

    method ReadColumn() returns (r: Result<RelColumn, Error>)
      requires Valid()
      modifies this
      ensures Valid() && Reads(OneColumn(old(Left())), r, Left())
    {
      var flags :- ReadU8();
      var name :- ReadCStr();
      var typeOid :- ReadU32();
      var typmod :- ReadI32();
      r := Ok(RelColumn(name, typeOid, typmod, flags % 2 == 1));
    }

    method ReadRelation() returns (r: Result<Message, Error>)
      requires Valid()
      modifies this
      ensures Valid() && Reads(RelationBody(old(Left())), r, Left())
    {
      var relId :- ReadU32();
      var schema :- ReadCStr();
      var name :- ReadCStr();
      var replident :- ReadU8();
      var ncols :- ReadI16();
      var columns :- ReadColumns(ncols);
      r := Ok(Relation(relId, schema, name, replident, columns));
    }

    method ReadColumns(ncols: int) returns (r: Result<seq<RelColumn>, Error>)
      requires Valid()
      modifies this
      ensures Valid() && Reads(Columns(old(Left()), ncols), r, Left())
    {
      var columns: seq<RelColumn> := [];
      var k := 0;
      ghost var goal := Columns(Left(), ncols);
      LongerNothing(goal);
      while k < ncols
        invariant Valid() && 0 <= k && (k <= ncols || k == 0)
        invariant goal == Longer(columns, Columns(Left(), ncols - k))
      {
        columns :- PushColumn(columns, goal, ncols - k);
        k := k + 1;
      }
      ColumnsStep(goal, Left(), ncols - k, columns);
      r := Ok(columns);
    }

    /** One round of that loop. */
    method PushColumn(columns: seq<RelColumn>, ghost goal: Parse<seq<RelColumn>>, ghost n: int)
      returns (r: Result<seq<RelColumn>, Error>)
      requires Valid() && n > 0 && goal == Longer(columns, Columns(Left(), n))
      modifies this
      ensures Valid()
      ensures r.Ok? ==> goal == Longer(r.value, Columns(Left(), n - 1))
      ensures r.Err? ==> goal == Bad(r.error)
    {
      ColumnsStep(goal, Left(), n, columns);
      var column :- ReadColumn();
      r := Ok(columns + [column]);
    }

    method ReadInsert() returns (r: Result<Message, Error>)
      requires Valid()
      modifies this
      ensures Valid() && Reads(InsertBody(old(Left())), r, Left())
    {
      var relId :- ReadU32();
      var marker :- ReadU8();
      if marker != N {
        return Err(WrongMarker(marker));
      }
      var row :- ReadTuple();
      r := Ok(Insert(relId, row));
    }

    method ReadUpdate() returns (r: Result<Message, Error>)
      requires Valid()
      modifies this
      ensures Valid() && Reads(UpdateBody(old(Left())), r, Left())
    {
      var relId :- ReadU32();
      var prior: Option<OldTuple> := None;
      var marker :- ReadU8();
      if marker == K {
        var tuple :- ReadTuple();
        prior := Some(Key(tuple));
        marker :- ReadU8();
      } else if marker == O {
        var tuple :- ReadTuple();
        prior := Some(Full(tuple));
        marker :- ReadU8();
      }
      if marker != N {
        return Err(WrongMarker(marker));
      }
      var row :- ReadTuple();
      r := Ok(Update(relId, prior, row));
    }

    method ReadDelete() returns (r: Result<Message, Error>)
      requires Valid()
      modifies this
      ensures Valid() && Reads(DeleteBody(old(Left())), r, Left())
    {
      var relId :- ReadU32();
      var marker :- ReadU8();
      if marker == O {
        var tuple :- ReadTuple();
        return Ok(Delete(relId, Full(tuple)));
      } else if marker == K {
        var tuple :- ReadTuple();
        return Ok(Delete(relId, Key(tuple)));
      }
      r := Err(WrongMarker(marker));
    }

    method ReadTruncate() returns (r: Result<Message, Error>)
      requires Valid()
      modifies this
      ensures Valid() && Reads(TruncateBody(old(Left())), r, Left())
    {
      var n :- ReadU32();
      var options :- ReadU8();
      var relIds: seq<nat> := [];
      var k := 0;
      ghost var goal := RelIds(Left(), n);
      LongerNothing(goal);
      while k < n
        invariant Valid() && 0 <= k <= n
        invariant goal == Longer(relIds, RelIds(Left(), n - k))
      {
        var id :- ReadU32();
        LongerTwice(relIds, [id], RelIds(Left(), n - k - 1));
        relIds := relIds + [id];
        k := k + 1;
      }
      assert relIds + [] == relIds;
      r := Ok(Truncate(relIds));
    }
  }

  lemma CellsStep(goal: Parse<seq<Cell>>, s: Bytes, n: int, front: seq<Cell>)
    requires goal == Longer(front, Cells(s, n))
    ensures n <= 0 ==> goal == Got(front, s)
    ensures n > 0 && OneCell(s).Bad? ==> goal == Bad(OneCell(s).error)
    ensures n > 0 && OneCell(s).Got? ==> goal == Longer(front + [OneCell(s).value], Cells(OneCell(s).rest, n - 1))
  {
    if n <= 0 {
      assert front + [] == front;
    } else if OneCell(s).Got? {
      LongerTwice(front, [OneCell(s).value], Cells(OneCell(s).rest, n - 1));
    }
  }

  lemma ColumnsStep(goal: Parse<seq<RelColumn>>, s: Bytes, n: int, front: seq<RelColumn>)
    requires goal == Longer(front, Columns(s, n))
    ensures n <= 0 ==> goal == Got(front, s)
    ensures n > 0 && OneColumn(s).Bad? ==> goal == Bad(OneColumn(s).error)
    ensures n > 0 && OneColumn(s).Got? ==> goal == Longer(front + [OneColumn(s).value], Columns(OneColumn(s).rest, n - 1))
  {
    if n <= 0 {
      assert front + [] == front;
    } else if OneColumn(s).Got? {
      LongerTwice(front, [OneColumn(s).value], Columns(OneColumn(s).rest, n - 1));
    }
  }

  /** Decoding: the message the grammar gives, whatever follows it. */
  method Decode(data: Bytes) returns (r: Result<Message, Error>)
    ensures r == match ParseMessage(data) case Got(m, _) => Ok(m) case Bad(e) => Err(e)
  {
    var reader := new Reader(data);
    assert reader.Left() == data;
    var tag :- reader.ReadU8();
    if tag == R {
      r := reader.ReadRelation();
    } else if tag == I {
      r := reader.ReadInsert();
    } else if tag == U {
      r := reader.ReadUpdate();
    } else if tag == D {
      r := reader.ReadDelete();
    } else if tag == T {
      r := reader.ReadTruncate();
    } else {
      r := Ok(Ignored);
    }
  }

  /** A list read so far, put in front of the rest of it. */
  function Longer<V>(front: seq<V>, p: Parse<seq<V>>): Parse<seq<V>> {
    match p
    case Got(value, rest) => Got(front + value, rest)
    case Bad(error) => Bad(error)
  }

  lemma LongerNothing<V>(p: Parse<seq<V>>)
    ensures Longer([], p) == p
  {
    if p.Got? {
      assert [] + p.value == p.value;
    }
  }

  lemma LongerTwice<V>(a: seq<V>, b: seq<V>, p: Parse<seq<V>>)
    ensures Longer(a, Longer(b, p)) == Longer(a + b, p)
  {
    if p.Got? {
      assert a + (b + p.value) == (a + b) + p.value;
    }
  }

  // ---- What follows later in the input cannot change what was read --------------------------------

  /** If `s` is read, more bytes at its end are left over after the same value. */
  ghost predicate Kept<V>(p: Parse<V>, q: Parse<V>, t: Bytes) {
    p.Got? ==> q == Got(p.value, p.rest + t)
  }

  lemma TakeKept(s: Bytes, t: Bytes, n: nat)
    ensures Kept(Take(s, n), Take(s + t, n), t)
  {
    if n <= |s| {
      assert (s + t)[..n] == s[..n] && (s + t)[n..] == s[n..] + t;
    }
  }

  lemma U8Kept(s: Bytes, t: Bytes)
    ensures Kept(U8(s), U8(s + t), t)
  {
  }

  lemma I16Kept(s: Bytes, t: Bytes)
    ensures Kept(I16(s), I16(s + t), t)
  {
  }

  lemma U32Kept(s: Bytes, t: Bytes)
    ensures Kept(U32(s), U32(s + t), t)
  {
  }

  lemma I32Kept(s: Bytes, t: Bytes)
    ensures Kept(I32(s), I32(s + t), t)
  {
    U32Kept(s, t);
  }

  lemma {:induction false} CStrKept(s: Bytes, t: Bytes)
    ensures Kept(CStr(s), CStr(s + t), t)
  {
    if s != [] {
      assert (s + t)[0] == s[0] && (s + t)[1..] == s[1..] + t;
      CStrKept(s[1..], t);
    }
  }

  lemma TextBodyKept(s: Bytes, t: Bytes)
    ensures Kept(TextBody(s), TextBody(s + t), t)
  {
    I32Kept(s, t);
    if I32(s).Got? && I32(s).value >= 0 {
      TakeKept(I32(s).rest, t, I32(s).value);
    }
  }

  lemma OneCellKept(s: Bytes, t: Bytes)
    ensures Kept(OneCell(s), OneCell(s + t), t)
  {
    U8Kept(s, t);
    if U8(s).Got? {
      TextBodyKept(U8(s).rest, t);
    }
  }

  lemma {:induction false} CellsKept(s: Bytes, n: int, t: Bytes)
    ensures Kept(Cells(s, n), Cells(s + t, n), t)
    decreases n
  {
    if n > 0 {
      OneCellKept(s, t);
      if OneCell(s).Got? {
        CellsKept(OneCell(s).rest, n - 1, t);
      }
    }
  }

  lemma OneTupleKept(s: Bytes, t: Bytes)
    ensures Kept(OneTuple(s), OneTuple(s + t), t)
  {
    I16Kept(s, t);
    if I16(s).Got? {
      CellsKept(I16(s).rest, I16(s).value, t);
    }
  }

  lemma OneColumnKept(s: Bytes, t: Bytes)
    ensures Kept(OneColumn(s), OneColumn(s + t), t)
  {
    U8Kept(s, t);
    if U8(s).Got? {
      var s1 := U8(s).rest;
      CStrKept(s1, t);
      if CStr(s1).Got? {
        var s2 := CStr(s1).rest;
        U32Kept(s2, t);
        if U32(s2).Got? {
          I32Kept(U32(s2).rest, t);
        }
      }
    }
  }

  lemma {:induction false} ColumnsKept(s: Bytes, n: int, t: Bytes)
    ensures Kept(Columns(s, n), Columns(s + t, n), t)
    decreases n
  {
    if n > 0 {
      OneColumnKept(s, t);
      if OneColumn(s).Got? {
        ColumnsKept(OneColumn(s).rest, n - 1, t);
      }
    }
  }

  lemma {:induction false} RelIdsKept(s: Bytes, n: nat, t: Bytes)
    ensures Kept(RelIds(s, n), RelIds(s + t, n), t)
  {
    if n > 0 {
      U32Kept(s, t);
      if U32(s).Got? {
        RelIdsKept(U32(s).rest, n - 1, t);
      }
    }
  }

  lemma RelationBodyKept(s: Bytes, t: Bytes)
    ensures Kept(RelationBody(s), RelationBody(s + t), t)
  {
    if RelationBody(s).Got? {
      U32Kept(s, t);
      var s1 := U32(s).rest;
      CStrKept(s1, t);
      var s2 := CStr(s1).rest;
      CStrKept(s2, t);
      var s3 := CStr(s2).rest;
      U8Kept(s3, t);
      var s4 := U8(s3).rest;
      I16Kept(s4, t);
      ColumnsKept(I16(s4).rest, I16(s4).value, t);
    }
  }

  lemma MarkedTupleKept(s: Bytes, t: Bytes)
    ensures Kept(MarkedTuple(s), MarkedTuple(s + t), t)
  {
    U8Kept(s, t);
    if U8(s).Got? {
      OneTupleKept(U8(s).rest, t);
    }
  }

  lemma MaybeOldKept(s: Bytes, t: Bytes)
    ensures Kept(MaybeOld(s), MaybeOld(s + t), t)
  {
    U8Kept(s, t);
    if U8(s).Got? {
      OneTupleKept(U8(s).rest, t);
    }
  }

  lemma RowBodiesKept(s: Bytes, t: Bytes)
    ensures Kept(InsertBody(s), InsertBody(s + t), t)
    ensures Kept(UpdateBody(s), UpdateBody(s + t), t)
    ensures Kept(DeleteBody(s), DeleteBody(s + t), t)
  {
    U32Kept(s, t);
    if U32(s).Got? {
      var s1 := U32(s).rest;
      U8Kept(s1, t);
      MarkedTupleKept(s1, t);
      MaybeOldKept(s1, t);
      if MaybeOld(s1).Got? {
        MarkedTupleKept(MaybeOld(s1).rest, t);
      }
    }
  }

  lemma TruncateBodyKept(s: Bytes, t: Bytes)
    ensures Kept(TruncateBody(s), TruncateBody(s + t), t)
  {
    U32Kept(s, t);
    if U32(s).Got? {
      var s1 := U32(s).rest;
      U8Kept(s1, t);
      if U8(s1).Got? {
        RelIdsKept(U8(s1).rest, U32(s).value, t);
      }
    }
  }

  lemma MessageKept(s: Bytes, t: Bytes)
    ensures Kept(ParseMessage(s), ParseMessage(s + t), t)
  {
    U8Kept(s, t);
    if U8(s).Got? {
      var tag, body := U8(s).value, U8(s).rest;
      if tag == R {
        RelationBodyKept(body, t);
      } else if tag == T {
        TruncateBodyKept(body, t);
      } else {
        RowBodiesKept(body, t);
      }
    }
  }

  // ---- The encoding -------------------------------------------------------------------------------

  /** Each writes its value in front of the bytes `t` that follow it. */
  function PutU8(v: Byte, t: Bytes): Bytes {
    [v] + t
  }

  function Unsigned(v: int, modulus: nat): int {
    if v < 0 then v + modulus else v
  }

  predicate Fits(v: int, modulus: int) {
    -modulus <= 2 * v < modulus
  }

  function PutI16(v: int, t: Bytes): Bytes
    requires Fits(v, 0x1_0000)
  {
    var u := Unsigned(v, 0x1_0000);
    [u / 0x100, u % 0x100] + t
  }

  function PutU32(v: nat, t: Bytes): Bytes
    requires v < 0x1_0000_0000
  {
    [v / 0x100_0000, v / 0x1_0000 % 0x100, v / 0x100 % 0x100, v % 0x100] + t
  }

  function PutI32(v: int, t: Bytes): Bytes
    requires Fits(v, 0x1_0000_0000)
  {
    PutU32(Unsigned(v, 0x1_0000_0000), t)
  }

  function PutCStr(s: Bytes, t: Bytes): Bytes {
    s + [0] + t
  }

  predicate CellFits(c: Cell) {
    c.Text? ==> |c.bytes| < 0x8000_0000
  }

  function PutCell(c: Cell, t: Bytes): Bytes
    requires CellFits(c)
  {
    match c
    case Null => PutU8('n' as int, t)
    case UnchangedToast => PutU8('u' as int, t)
    case Text(bytes) => PutU8('t' as int, PutI32(|bytes|, bytes + t))
  }

  predicate TupleFits(tuple: Tuple) {
    |tuple| < 0x8000 && forall c | c in tuple :: CellFits(c)
  }

  function PutCells(cells: Tuple, t: Bytes): Bytes
    requires forall c | c in cells :: CellFits(c)
  {
    if cells == [] then t else PutCell(cells[0], PutCells(cells[1..], t))
  }

  function PutTuple(tuple: Tuple, t: Bytes): Bytes
    requires TupleFits(tuple)
  {
    PutI16(|tuple|, PutCells(tuple, t))
  }

  predicate ColumnFits(c: RelColumn) {
    0 !in c.name && c.typeOid < 0x1_0000_0000 && Fits(c.typmod, 0x1_0000_0000)
  }

  function PutColumn(c: RelColumn, t: Bytes): Bytes
    requires ColumnFits(c)
  {
    PutU8(if c.key then 1 else 0, PutCStr(c.name, PutU32(c.typeOid, PutI32(c.typmod, t))))
  }

  function PutColumns(columns: seq<RelColumn>, t: Bytes): Bytes
    requires forall c | c in columns :: ColumnFits(c)
  {
    if columns == [] then t else PutColumn(columns[0], PutColumns(columns[1..], t))
  }

  function PutRelIds(ids: seq<nat>, t: Bytes): Bytes
    requires forall i | 0 <= i < |ids| :: ids[i] < 0x1_0000_0000
  {
    if ids == [] then t else PutU32(ids[0], PutRelIds(ids[1..], t))
  }

  predicate MessageFits(m: Message) {
    match m
    case Relation(relId, schema, name, _, columns) =>
      && relId < 0x1_0000_0000 && 0 !in schema && 0 !in name && |columns| < 0x8000
      && forall c | c in columns :: ColumnFits(c)
    case Insert(relId, row) => relId < 0x1_0000_0000 && TupleFits(row)
    case Update(relId, prior, row) =>
      relId < 0x1_0000_0000 && (prior.Some? ==> TupleFits(prior.value.tuple)) && TupleFits(row)
    case Delete(relId, gone) => relId < 0x1_0000_0000 && TupleFits(gone.tuple)
    case Truncate(relIds) => |relIds| < 0x1_0000_0000 && forall i | 0 <= i < |relIds| :: relIds[i] < 0x1_0000_0000
    case Ignored => false
  }

  function PutOld(o: OldTuple, t: Bytes): Bytes
    requires TupleFits(o.tuple)
  {
    PutU8(if o.Key? then 'K' as int else 'O' as int, PutTuple(o.tuple, t))
  }

  /** `options` is the truncate message's option bits, which the decoder drops. */
  function PutMessage(m: Message, options: Byte, t: Bytes): Bytes
    requires MessageFits(m)
  {
    match m
    case Relation(relId, schema, name, replident, columns) =>
      PutU8('R' as int, PutU32(relId, PutCStr(schema, PutCStr(name, PutU8(replident,
        PutI16(|columns|, PutColumns(columns, t)))))))
    case Insert(relId, row) => PutU8('I' as int, PutU32(relId, PutU8('N' as int, PutTuple(row, t))))
    case Update(relId, prior, row) =>
      var tail := PutU8('N' as int, PutTuple(row, t));
      PutU8('U' as int, PutU32(relId, if prior.Some? then PutOld(prior.value, tail) else tail))
    case Delete(relId, gone) => PutU8('D' as int, PutU32(relId, PutOld(gone, t)))
    case Truncate(relIds) => PutU8('T' as int, PutU32(|relIds|, PutU8(options, PutRelIds(relIds, t))))
  }

  function Encode(m: Message, options: Byte): Bytes
    requires MessageFits(m)
  {
    PutMessage(m, options, [])
  }

  // ---- Reading back -------------------------------------------------------------------------------

  lemma U8Back(v: Byte, t: Bytes)
    ensures U8(PutU8(v, t)) == Got(v, t)
  {
  }

  lemma I16Back(v: int, t: Bytes)
    requires Fits(v, 0x1_0000)
    ensures I16(PutI16(v, t)) == Got(v, t)
  {
    var s := PutI16(v, t);
    assert s[2..] == t;
  }

  lemma U32Digits(v: nat)
    requires v < 0x1_0000_0000
    ensures BigEndian32(v / 0x100_0000, v / 0x1_0000 % 0x100, v / 0x100 % 0x100, v % 0x100) == v
  {
  }

  lemma U32Back(v: nat, t: Bytes)
    requires v < 0x1_0000_0000
    ensures U32(PutU32(v, t)) == Got(v, t)
  {
    U32Digits(v);
    var s := PutU32(v, t);
    assert s[4..] == t;
  }

  lemma I32Back(v: int, t: Bytes)
    requires Fits(v, 0x1_0000_0000)
    ensures I32(PutI32(v, t)) == Got(v, t)
  {
    U32Back(Unsigned(v, 0x1_0000_0000), t);
  }

  lemma {:induction false} CStrBack(s: Bytes, t: Bytes)
    requires 0 !in s
    ensures CStr(PutCStr(s, t)) == Got(s, t)
  {
    var all := PutCStr(s, t);
    if s == [] {
      assert all[1..] == t;
    } else {
      assert all[0] == s[0] && s[0] in s && all[1..] == PutCStr(s[1..], t);
      CStrBack(s[1..], t);
      assert [s[0]] + s[1..] == s;
    }
  }

  lemma OneCellBack(c: Cell, t: Bytes)
    requires CellFits(c)
    ensures OneCell(PutCell(c, t)) == Got(c, t)
  {
    match c
    case Null => U8Back(NULL_CELL, t);
    case UnchangedToast => U8Back(TOAST_CELL, t);
    case Text(bytes) => {
      U8Back(TEXT_CELL, PutI32(|bytes|, bytes + t));
      assert OneCell(PutCell(c, t)) == TextBody(PutI32(|bytes|, bytes + t));
      I32Back(|bytes|, bytes + t);
      assert (bytes + t)[..|bytes|] == bytes && (bytes + t)[|bytes|..] == t;
    }
  }

  lemma {:induction false} CellsBack(cells: Tuple, t: Bytes)
    requires forall c | c in cells :: CellFits(c)
    ensures Cells(PutCells(cells, t), |cells|) == Got(cells, t)
  {
    if cells != [] {
      OneCellBack(cells[0], PutCells(cells[1..], t));
      CellsBack(cells[1..], t);
      assert [cells[0]] + cells[1..] == cells;
    }
  }

  lemma OneTupleBack(tuple: Tuple, t: Bytes)
    requires TupleFits(tuple)
    ensures OneTuple(PutTuple(tuple, t)) == Got(tuple, t)
  {
    I16Back(|tuple|, PutCells(tuple, t));
    CellsBack(tuple, t);
  }

  lemma OneColumnBack(c: RelColumn, t: Bytes)
    requires ColumnFits(c)
    ensures OneColumn(PutColumn(c, t)) == Got(c, t)
  {
    var t3 := PutI32(c.typmod, t);
    var t2 := PutU32(c.typeOid, t3);
    var t1 := PutCStr(c.name, t2);
    U8Back(if c.key then 1 else 0, t1);
    CStrBack(c.name, t2);
    U32Back(c.typeOid, t3);
    I32Back(c.typmod, t);
  }

  lemma {:induction false} ColumnsBack(columns: seq<RelColumn>, t: Bytes)
    requires forall c | c in columns :: ColumnFits(c)
    ensures Columns(PutColumns(columns, t), |columns|) == Got(columns, t)
  {
    if columns != [] {
      OneColumnBack(columns[0], PutColumns(columns[1..], t));
      ColumnsBack(columns[1..], t);
      assert [columns[0]] + columns[1..] == columns;
    }
  }

  lemma {:induction false} RelIdsBack(ids: seq<nat>, t: Bytes)
    requires forall i | 0 <= i < |ids| :: ids[i] < 0x1_0000_0000
    ensures RelIds(PutRelIds(ids, t), |ids|) == Got(ids, t)
  {
    if ids != [] {
      U32Back(ids[0], PutRelIds(ids[1..], t));
      RelIdsBack(ids[1..], t);
      assert [ids[0]] + ids[1..] == ids;
    }
  }

  lemma RelationBack(m: Message, options: Byte, t: Bytes)
    requires m.Relation? && MessageFits(m)
    ensures ParseMessage(PutMessage(m, options, t)) == Got(m, t)
  {
    var t5 := PutColumns(m.columns, t);
    var t4 := PutI16(|m.columns|, t5);
    var t3 := PutU8(m.replident, t4);
    var t2 := PutCStr(m.name, t3);
    var t1 := PutCStr(m.schema, t2);
    U8Back(R, PutU32(m.relId, t1));
    U32Back(m.relId, t1);
    CStrBack(m.schema, t2);
    CStrBack(m.name, t3);
    U8Back(m.replident, t4);
    I16Back(|m.columns|, t5);
    ColumnsBack(m.columns, t);
  }

  lemma MarkedTupleBack(row: Tuple, t: Bytes)
    requires TupleFits(row)
    ensures MarkedTuple(PutU8(N, PutTuple(row, t))) == Got(row, t)
    ensures MaybeOld(PutU8(N, PutTuple(row, t))) == Got(None, PutU8(N, PutTuple(row, t)))
  {
    U8Back(N, PutTuple(row, t));
    OneTupleBack(row, t);
  }

  lemma OldBack(o: OldTuple, t: Bytes)
    requires TupleFits(o.tuple)
    ensures MaybeOld(PutOld(o, t)) == Got(Some(o), t)
  {
    U8Back(if o.Key? then K else O, PutTuple(o.tuple, t));
    OneTupleBack(o.tuple, t);
  }

  lemma UpdateBack(m: Message, options: Byte, t: Bytes)
    requires m.Update? && MessageFits(m)
    ensures ParseMessage(PutMessage(m, options, t)) == Got(m, t)
  {
    var tail := PutU8(N, PutTuple(m.row, t));
    var body := if m.prior.Some? then PutOld(m.prior.value, tail) else tail;
    U8Back(U, PutU32(m.relId, body));
    U32Back(m.relId, body);
    MarkedTupleBack(m.row, t);
    if m.prior.Some? {
      OldBack(m.prior.value, tail);
    }
  }

  lemma MessageBack(m: Message, options: Byte, t: Bytes)
    requires MessageFits(m)
    ensures ParseMessage(PutMessage(m, options, t)) == Got(m, t)
  {
    match m
    case Relation(_, _, _, _, _) => RelationBack(m, options, t);
    case Insert(relId, row) => {
      U8Back(I, PutU32(relId, PutU8(N, PutTuple(row, t))));
      U32Back(relId, PutU8(N, PutTuple(row, t)));
      MarkedTupleBack(row, t);
    }
    case Update(_, _, _) => UpdateBack(m, options, t);
    case Delete(relId, gone) => {
      U8Back(D, PutU32(relId, PutOld(gone, t)));
      U32Back(relId, PutOld(gone, t));
      OldBack(gone, t);
    }
    case Truncate(relIds) => {
      U8Back(T, PutU32(|relIds|, PutU8(options, PutRelIds(relIds, t))));
      U32Back(|relIds|, PutU8(options, PutRelIds(relIds, t)));
      U8Back(options, PutRelIds(relIds, t));
      RelIdsBack(relIds, t);
    }
  }

  /** Decoding undoes encoding, whatever follows the message. */
  lemma DecodeUndoesEncode(m: Message, options: Byte, trailing: Bytes)
    requires MessageFits(m)
    ensures ParseMessage(Encode(m, options) + trailing) == Got(m, trailing)
  {
    MessageBack(m, options, []);
    MessageKept(Encode(m, options), trailing);
    assert [] + trailing == trailing;
  }

  /** A message cut off anywhere is an error, never another message. */
  lemma CutOffIsError(m: Message, options: Byte, k: nat)
    requires MessageFits(m) && k < |Encode(m, options)|
    ensures ParseMessage(Encode(m, options)[..k]).Bad?
  {
    var all := Encode(m, options);
    assert all[..k] + all[k..] == all;
    MessageBack(m, options, []);
    MessageKept(all[..k], all[k..]);
  }
}
