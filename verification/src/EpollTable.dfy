/** The operation table of the epoll backend: which epoll_ctl call brings the kernel from the
    events registered before to the events wanted now. */
module EpollTable {

  /** What is to happen to one kind of event: the low two bits of a change byte. */
  datatype Delta = Keep | Add | Del

  /** A set of event kinds. */
  datatype Bits = Bits(read: bool, write: bool, closed: bool)

  const NO_BITS := Bits(false, false, false)

  datatype CtlOp = CtlAdd | CtlDel | CtlMod

  /** A row of the table: nothing to do, a call to make, or a combination that never occurs. */
  datatype Row = Nothing | Call(op: CtlOp, events: Bits) | Impossible

  function DeltaBits(d: Delta): nat {
    match d
    case Keep => 0
    case Add => 1
    case Del => 2
  }

  function Number(b: Bits): nat {
    (if b.read then 1 else 0) + (if b.write then 2 else 0) + (if b.closed then 4 else 0)
  }

  /** EPOLL_OP_TABLE_INDEX: close, read and write change in bits 0-5, old events in bits 6-8. */
  function Index(had: Bits, read: Delta, write: Delta, close: Delta): (i: nat)
    ensures i < 512
  {
    DeltaBits(close) + 4 * DeltaBits(read) + 16 * DeltaBits(write) + 64 * Number(had)
  }

  /** Four consecutive parts of the table. */
  datatype Four<T> = Four(x0: T, x1: T, x2: T, x3: T)

  function Pick<T>(f: Four<T>, k: nat): T
    requires k < 4
  {
    match k
    case 0 => f.x0
    case 1 => f.x1
    case 2 => f.x2
    case _ => f.x3
  }

  // epoll_op_table, 64 rows for each set of old events: four write changes, each with four
  // read changes, each with four close changes. A row is 8 * op + events, with op 1, 2, 3
  // for ADD, DEL, MOD and events 1, 2, 4 for IN, OUT, RDHUP; -1 marks the rows for a change
  // that is both an add and a delete.

  const ROWS0 := Four(
    Four(Four(0, 12, 20, -1), Four(9, 13, 9, -1), Four(17, 12, 21, -1), Four(-1, -1, -1, -1)),
    Four(Four(10, 14, 10, -1), Four(11, 15, 11, -1), Four(10, 14, 10, -1), Four(-1, -1, -1, -1)),
    Four(Four(18, 12, 22, -1), Four(9, 13, 9, -1), Four(19, 12, 23, -1), Four(-1, -1, -1, -1)),
    Four(Four(-1, -1, -1, -1), Four(-1, -1, -1, -1), Four(-1, -1, -1, -1), Four(-1, -1, -1, -1)))

  const ROWS1 := Four(
    Four(Four(0, 29, 25, -1), Four(25, 29, 25, -1), Four(17, 28, 21, -1), Four(-1, -1, -1, -1)),
    Four(Four(27, 31, 27, -1), Four(27, 31, 27, -1), Four(26, 30, 26, -1), Four(-1, -1, -1, -1)),
    Four(Four(25, 29, 25, -1), Four(25, 29, 25, -1), Four(19, 28, 23, -1), Four(-1, -1, -1, -1)),
    Four(Four(-1, -1, -1, -1), Four(-1, -1, -1, -1), Four(-1, -1, -1, -1), Four(-1, -1, -1, -1)))

  const ROWS2 := Four(
    Four(Four(0, 30, 26, -1), Four(27, 31, 27, -1), Four(26, 30, 26, -1), Four(-1, -1, -1, -1)),
    Four(Four(26, 30, 26, -1), Four(27, 31, 27, -1), Four(26, 30, 26, -1), Four(-1, -1, -1, -1)),
    Four(Four(18, 28, 22, -1), Four(25, 29, 25, -1), Four(19, 28, 23, -1), Four(-1, -1, -1, -1)),
    Four(Four(-1, -1, -1, -1), Four(-1, -1, -1, -1), Four(-1, -1, -1, -1), Four(-1, -1, -1, -1)))

  const ROWS3 := Four(
    Four(Four(0, 31, 27, -1), Four(27, 31, 27, -1), Four(26, 30, 26, -1), Four(-1, -1, -1, -1)),
    Four(Four(27, 31, 27, -1), Four(27, 31, 27, -1), Four(26, 30, 26, -1), Four(-1, -1, -1, -1)),
    Four(Four(25, 29, 25, -1), Four(25, 29, 25, -1), Four(19, 28, 23, -1), Four(-1, -1, -1, -1)),
    Four(Four(-1, -1, -1, -1), Four(-1, -1, -1, -1), Four(-1, -1, -1, -1), Four(-1, -1, -1, -1)))

  const ROWS4 := Four(
    Four(Four(0, 28, 20, -1), Four(29, 29, 25, -1), Four(28, 28, 21, -1), Four(-1, -1, -1, -1)),
    Four(Four(30, 30, 26, -1), Four(31, 31, 27, -1), Four(30, 30, 26, -1), Four(-1, -1, -1, -1)),
    Four(Four(28, 28, 22, -1), Four(29, 29, 25, -1), Four(28, 28, 23, -1), Four(-1, -1, -1, -1)),
    Four(Four(-1, -1, -1, -1), Four(-1, -1, -1, -1), Four(-1, -1, -1, -1), Four(-1, -1, -1, -1)))

  const ROWS5 := Four(
    Four(Four(0, 29, 25, -1), Four(29, 29, 25, -1), Four(28, 28, 21, -1), Four(-1, -1, -1, -1)),
    Four(Four(31, 31, 27, -1), Four(31, 31, 27, -1), Four(30, 30, 26, -1), Four(-1, -1, -1, -1)),
    Four(Four(29, 29, 25, -1), Four(29, 29, 25, -1), Four(28, 28, 23, -1), Four(-1, -1, -1, -1)),
    Four(Four(-1, -1, -1, -1), Four(-1, -1, -1, -1), Four(-1, -1, -1, -1), Four(-1, -1, -1, -1)))

  const ROWS6 := Four(
    Four(Four(0, 30, 26, -1), Four(31, 31, 27, -1), Four(30, 30, 26, -1), Four(-1, -1, -1, -1)),
    Four(Four(30, 30, 26, -1), Four(31, 31, 27, -1), Four(30, 30, 26, -1), Four(-1, -1, -1, -1)),
    Four(Four(28, 28, 22, -1), Four(29, 29, 25, -1), Four(28, 28, 23, -1), Four(-1, -1, -1, -1)),
    Four(Four(-1, -1, -1, -1), Four(-1, -1, -1, -1), Four(-1, -1, -1, -1), Four(-1, -1, -1, -1)))

  const ROWS7 := Four(
    Four(Four(0, 31, 27, -1), Four(31, 31, 27, -1), Four(30, 30, 26, -1), Four(-1, -1, -1, -1)),
    Four(Four(31, 31, 27, -1), Four(31, 31, 27, -1), Four(30, 30, 26, -1), Four(-1, -1, -1, -1)),
    Four(Four(29, 29, 25, -1), Four(29, 29, 25, -1), Four(28, 28, 23, -1), Four(-1, -1, -1, -1)),
    Four(Four(-1, -1, -1, -1), Four(-1, -1, -1, -1), Four(-1, -1, -1, -1), Four(-1, -1, -1, -1)))

  function RowsFor(n: nat): Four<Four<Four<int>>> {
    match n
    case 0 => ROWS0
    case 1 => ROWS1
    case 2 => ROWS2
    case 3 => ROWS3
    case 4 => ROWS4
    case 5 => ROWS5
    case 6 => ROWS6
    case _ => ROWS7
  }

  function TableRow(i: nat): int
    requires i < 512
  {
    Pick(Pick(Pick(RowsFor(i / 64), i / 16 % 4), i / 4 % 4), i % 4)
  }

  function DecodeRow(code: int): Row {
    if code < 0 then Impossible
    else if code == 0 then Nothing
    else
      var e := code % 8;
      var events := Bits(e % 2 == 1, e / 2 % 2 == 1, e / 4 == 1);
      Call(if code / 8 == 1 then CtlAdd else if code / 8 == 2 then CtlDel else CtlMod, events)
  }

  /** One kind of event after its change. */
  predicate After(had: bool, d: Delta) {
    d == Add || (d == Keep && had)
  }

  /** The events wanted after the changes: old ones minus deletes plus adds. */
  function Wanted(had: Bits, read: Delta, write: Delta, close: Delta): Bits {
    Bits(After(had.read, read), After(had.write, write), After(had.closed, close))
  }

  /** The closed form the table was generated from. */
  function ClosedForm(had: Bits, read: Delta, write: Delta, close: Delta): Row {
    var target := Wanted(had, read, write, close);
    if read == Add || write == Add || close == Add then
      Call(if had == NO_BITS then CtlAdd else CtlMod, target)
    else if read == Del || write == Del || close == Del then
      if target != NO_BITS then Call(CtlMod, target)
      else Call(CtlDel, Bits(read == Del, write == Del, close == Del))
    else Nothing
  }

  lemma IndexParts(had: Bits, read: Delta, write: Delta, close: Delta)
    ensures
      && var i := Index(had, read, write, close);
      && i / 64 == Number(had) && i / 16 % 4 == DeltaBits(write)
      && i / 4 % 4 == DeltaBits(read) && i % 4 == DeltaBits(close)
  {
    Digits(Number(had), DeltaBits(write), DeltaBits(read), DeltaBits(close));
  }

  lemma Digits(a: nat, b: nat, c: nat, d: nat)
    requires b < 4 && c < 4 && d < 4
    ensures
      && var i := 64 * a + 16 * b + 4 * c + d;
      && i / 64 == a && i / 16 % 4 == b && i / 4 % 4 == c && i % 4 == d
  {
    var i := 64 * a + 16 * b + 4 * c + d;
    assert i / 4 == 16 * a + 4 * b + c;
    assert i / 16 == 4 * a + b;
  }

  /** The row for given changes in the part of the table for one set of old events. */
  function RowAt(rows: Four<Four<Four<int>>>, read: Delta, write: Delta, close: Delta): int {
    Pick(Pick(Pick(rows, DeltaBits(write)), DeltaBits(read)), DeltaBits(close))
  }

  lemma Rows0(read: Delta, write: Delta, close: Delta)
    ensures DecodeRow(RowAt(ROWS0, read, write, close)) == ClosedForm(Bits(false, false, false), read, write, close)
  {
  }

  lemma Rows1(read: Delta, write: Delta, close: Delta)
    ensures DecodeRow(RowAt(ROWS1, read, write, close)) == ClosedForm(Bits(true, false, false), read, write, close)
  {
  }

  lemma Rows2(read: Delta, write: Delta, close: Delta)
    ensures DecodeRow(RowAt(ROWS2, read, write, close)) == ClosedForm(Bits(false, true, false), read, write, close)
  {
  }

  lemma Rows3(read: Delta, write: Delta, close: Delta)
    ensures DecodeRow(RowAt(ROWS3, read, write, close)) == ClosedForm(Bits(true, true, false), read, write, close)
  {
  }

  lemma Rows4(read: Delta, write: Delta, close: Delta)
    ensures DecodeRow(RowAt(ROWS4, read, write, close)) == ClosedForm(Bits(false, false, true), read, write, close)
  {
  }

  lemma Rows5(read: Delta, write: Delta, close: Delta)
    ensures DecodeRow(RowAt(ROWS5, read, write, close)) == ClosedForm(Bits(true, false, true), read, write, close)
  {
  }

  lemma Rows6(read: Delta, write: Delta, close: Delta)
    ensures DecodeRow(RowAt(ROWS6, read, write, close)) == ClosedForm(Bits(false, true, true), read, write, close)
  {
  }

  lemma Rows7(read: Delta, write: Delta, close: Delta)
    ensures DecodeRow(RowAt(ROWS7, read, write, close)) == ClosedForm(Bits(true, true, true), read, write, close)
  {
  }

  /** Every row of the table that a change can select is the row of the closed form. */
  lemma TableIsClosedForm(had: Bits, read: Delta, write: Delta, close: Delta)
    ensures DecodeRow(TableRow(Index(had, read, write, close))) == ClosedForm(had, read, write, close)
  {
    IndexParts(had, read, write, close);
    match Number(had) {
      case 0 => Rows0(read, write, close);
      case 1 => Rows1(read, write, close);
      case 2 => Rows2(read, write, close);
      case 3 => Rows3(read, write, close);
      case 4 => Rows4(read, write, close);
      case 5 => Rows5(read, write, close);
      case 6 => Rows6(read, write, close);
      case _ => Rows7(read, write, close);
    }
  }

  /** Every other row, for a change that is both an add and a delete, says that it is. */
  lemma OtherRowsAreImpossible(n: nat, read: nat, write: nat, close: nat)
    requires n < 8 && read < 4 && write < 4 && close < 4 && (read == 3 || write == 3 || close == 3)
    ensures 64 * n + 16 * write + 4 * read + close < 512
    ensures DecodeRow(TableRow(64 * n + 16 * write + 4 * read + close)) == Impossible
  {
    Digits(n, write, read, close);
    var rows := RowsFor(n);
    assert write == 3 ==> Pick(rows, write) == rows.x3;
    assert Pick(Pick(Pick(rows, write), read), close) < 0;
  }
}
