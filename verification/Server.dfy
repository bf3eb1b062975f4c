/** One table on a database server: what a statement may do, whether it succeeds or not. */
module Server {
  import opened Wrappers

  datatype Nullity = Unstated | NotNull | Null

  /** What stands in parentheses behind the type. */
  datatype Size = NoSize | Length(len: string) | Decimal(precision: string, scale: string)

  /** An identity column has a seed and an increment. */
  datatype Identity = NoIdentity | Identity(seed: string, increment: string)

  datatype Column = Column(sqltype: string, size: Size, dflt: string, nullity: Nullity, identity: Identity)

  datatype Index = Index(primary: bool, unique: bool, clustered: bool, columns: seq<string>)

  datatype Table = Table(cols: map<string, Column>, indexes: map<string, Index>)

  /** The table as statements see it and, inside a transaction, as it was at the beginning. */
  datatype Session = Session(now: Table, saved: Option<Table>)

  datatype Stmt =
    | AddColumn(name: string, column: Column)
    | AlterColumn(name: string, column: Column)
    | DropColumn(name: string)
    | DropConstraint(name: string)
    | AddConstraint(name: string, dflt: string)
    | CreateIndex(name: string, index: Index)
    | DropIndex(name: string)
    | Begin(trans: string)
    | Commit(trans: string)
    | Rollback(trans: string)

  /** ROLLBACK without a transaction. */
  const NO_TRANSACTION := 3903

  predicate Control(stmt: Stmt) {
    stmt.Begin? || stmt.Commit? || stmt.Rollback?
  }

  predicate Enabled(s: Session, stmt: Stmt) {
    match stmt
    case AddColumn(n, _) => n !in s.now.cols
    case AlterColumn(n, _) => n in s.now.cols
    case DropColumn(n) => n in s.now.cols && s.now.cols[n].dflt == ""
    case DropConstraint(n) => n in s.now.cols && s.now.cols[n].dflt != ""
    case AddConstraint(n, _) => n in s.now.cols && s.now.cols[n].dflt == ""
    case CreateIndex(n, _) => n !in s.now.indexes
    case DropIndex(n) => n in s.now.indexes
    case Begin(_) => s.saved.None?
    case Commit(_) => s.saved.Some?
    case Rollback(_) => s.saved.Some?
  }

  function Change(t: Table, stmt: Stmt): Table
    requires !Control(stmt) && Enabled(Session(t, None), stmt)
  {
    match stmt
    case AddColumn(n, c) => t.(cols := t.cols[n := c])
    case AlterColumn(n, c) => t.(cols := t.cols[n := c.(dflt := t.cols[n].dflt)])
    case DropColumn(n) => t.(cols := t.cols - {n})
    case DropConstraint(n) => t.(cols := t.cols[n := t.cols[n].(dflt := "")])
    case AddConstraint(n, d) => t.(cols := t.cols[n := t.cols[n].(dflt := d)])
    case CreateIndex(n, i) => t.(indexes := t.indexes[n := i])
    case DropIndex(n) => t.(indexes := t.indexes - {n})
  }

  function Effect(s: Session, stmt: Stmt): Session
    requires Enabled(s, stmt)
  {
    match stmt
    case Begin(_) => Session(s.now, Some(s.now))
    case Commit(_) => Session(s.now, None)
    case Rollback(_) => Session(s.saved.value, None)
    case _ => s.(now := Change(s.now, stmt))
  }

  /** The table as a rollback would leave it. */
  function Home(s: Session): Table {
    if s.saved.Some? then s.saved.value else s.now
  }

  /** What a failing statement may leave behind: everything as it was, or the transaction undone. */
  predicate Failed(was: Session, s: Session) {
    s == was || (was.saved.Some? && s == Session(was.saved.value, None))
  }

  /** More statements, none of which begins the transaction of that name. */
  ghost predicate Quiet(before: seq<(Stmt, int)>, after: seq<(Stmt, int)>, trans: string) {
    before <= after && forall k :: |before| <= k < |after| ==> after[k].0 != Begin(trans)
  }

  /** Every statement from there on succeeded. */
  ghost predicate AllFine(history: seq<(Stmt, int)>, from: nat) {
    forall k :: from <= k < |history| ==> history[k].1 == 0
  }

  /** The statement was refused because its column would have to hold nulls. */
  predicate Complaint(stmt: Stmt, err: int) {
    || (err == 4901 && stmt.AddColumn?)
    || (err == 515 && (stmt.AlterColumn? || stmt.DropConstraint? || stmt.AddConstraint?))
  }

  /** The columns for which that happened from there on. */
  function Complaints(history: seq<(Stmt, int)>, from: nat): set<string> {
    set k | from <= k < |history| && Complaint(history[k].0, history[k].1) :: history[k].0.name
  }

  /** The connection.  Which statements the server refuses, with which error, and which errors also end the
      transaction, is arbitrary. */
  class Database {
    var s: Session
    var history: seq<(Stmt, int)>  // the statements and their answers
    const refuses: (nat, Stmt) -> int
    const aborts: nat -> bool

    constructor (table: Table, refuses: (nat, Stmt) -> int, aborts: nat -> bool)
      ensures s == Session(table, None) && history == [] && this.refuses == refuses && this.aborts == aborts
    {
      s, history := Session(table, None), [];
      this.refuses, this.aborts := refuses, aborts;
    }

    /** The server refuses nothing that the table allows. */
    ghost predicate Willing() {
      forall n: nat, stmt :: refuses(n, stmt) == 0
    }

    /** Zero for success, otherwise the error number.  Inside a transaction, ROLLBACK never answers that there is
        none. */
    method Exec(stmt: Stmt) returns (err: int)
      modifies this
      ensures history == old(history) + [(stmt, err)]
      ensures err == 0 ==> Enabled(old(s), stmt) && s == Effect(old(s), stmt)
      ensures err != 0 ==> Failed(old(s), s)
      ensures Willing() ==> (err == 0 <==> Enabled(old(s), stmt)) && (stmt.Rollback? ==> err in [0, NO_TRANSACTION])
      ensures stmt.Rollback? && err == NO_TRANSACTION ==> old(s).saved.None?
      ensures !Control(stmt) && old(s).saved.Some? ==> Home(s) == Home(old(s))
    {
      var e := refuses(|history|, stmt);
      if Enabled(s, stmt) && (e == 0 || (stmt.Rollback? && e == NO_TRANSACTION)) {
        s, history := Effect(s, stmt), history + [(stmt, 0)];
        return 0;
      }
      if s.saved.Some? && aborts(|history|) {
        s := Session(s.saved.value, None);
      }
      err := if e != 0 then e else if stmt.Rollback? then NO_TRANSACTION else -1;
      history := history + [(stmt, err)];
    }

    /** DbiExecRollback: false when the transaction is already gone, an error when the rollback itself failed. */
    method DbiExecRollback(trans: string) returns (rolledBack: bool, err: int)
      modifies this
      ensures |history| == |old(history)| + 1 && old(history) <= history && history[|old(history)|].0 == Rollback(trans)
      ensures err == (if history[|old(history)|].1 in [0, 3903] then 0 else history[|old(history)|].1)
      ensures Home(s) == Home(old(s)) && (err == 0 ==> s.saved.None?)
      ensures Willing() ==> err == 0
      ensures err == 0 ==> (rolledBack <==> old(s).saved.Some?)
    {
      err := Exec(Rollback(trans));
      if err == 0 {
        return true, 0;
      } else if err == NO_TRANSACTION {
        return false, 0;
      } else {
        return false, err;
      }
    }
  }
}
