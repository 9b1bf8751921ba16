/**
 * The Oracle database the key generator talks to, reduced to what its three queries see:
 * the sequences (SELECT name.NEXTVAL FROM DUAL), the catalog view USER_SEQUENCES filtered
 * with LIKE, and the key column of a table (SELECT NVL(MAX(column), 0) + 1 FROM table).
 */
module OracleDatabase {
  import opened Wrappers

  /** ORA-02289: sequence does not exist. */
  const SequenceDoesNotExist: int := 2289
  /** ORA-00942: table or view does not exist (also what a missing privilege looks like). */
  const TableOrViewDoesNotExist: int := 942
  /** ORA-00904: invalid identifier (a column the table does not have). */
  const InvalidIdentifier: int := 904

  /** A schema object a NEXTVAL query may name. */
  datatype SequenceObject =
    | Sequence(nextValue: int, increment: int)  // a sequence: NEXTVAL yields nextValue, then advances
    | NullResult                                  // a query that yields NULL / DBNull
    | Failing(errorNumber: int)                   // NEXTVAL fails with ORA-errorNumber

  /** What ExecuteScalarAsync gives back for a NEXTVAL query. */
  datatype NextValResult = Value(value: int) | Null | OraError(number: int)

  datatype Database = Database(
    sequences: map<string, SequenceObject>,
    /** SEQUENCE_NAME of every row of USER_SEQUENCES, in the order ORDER BY SEQUENCE_NAME lists them. */
    userSequences: seq<string>,
    /** The tables: for each table name, the values of each of its columns. */
    tables: map<string, map<string, seq<int>>>)

  /** SELECT name.NEXTVAL FROM DUAL; a name that is no sequence fails with ORA-02289. */
  function NextVal(db: Database, name: string): (r: NextValResult)
    ensures name !in db.sequences ==> r == OraError(SequenceDoesNotExist)
    ensures r.Value? ==> name in db.sequences && db.sequences[name].Sequence?
  {
    if name !in db.sequences then OraError(SequenceDoesNotExist)
    else match db.sequences[name]
      case Sequence(next, _) => Value(next)
      case NullResult => Null
      case Failing(number) => OraError(number)
  }

  /** The database after a NEXTVAL query: only a sequence that yielded a value moves on. */
  function AfterNextVal(db: Database, name: string): (db': Database)
    ensures NextVal(db, name).Value? ==>
      db' == db.(sequences := db.sequences[name := Sequence(NextVal(db, name).value + db.sequences[name].increment, db.sequences[name].increment)])
    ensures !NextVal(db, name).Value? ==> db' == db
  {
    if name in db.sequences && db.sequences[name].Sequence? then
      var s := db.sequences[name];
      db.(sequences := db.sequences[name := s.(nextValue := s.nextValue + s.increment)])
    else db
  }

  /**
   * Oracle's LIKE without an ESCAPE clause: '%' matches any run of characters, '_' any
   * single character, every other character itself.
   */
  predicate Like(s: string, pattern: string)
    decreases |s| + |pattern|
  {
    if pattern == [] then s == []
    else if pattern[0] == '%' then Like(s, pattern[1..]) || (s != [] && Like(s[1..], pattern))
    else s != [] && (pattern[0] == '_' || pattern[0] == s[0]) && Like(s[1..], pattern[1..])
  }

  lemma {:induction false} LikeAnything(s: string)
    ensures Like(s, "%")
    decreases |s|
  {
    if s != [] {
      LikeAnything(s[1..]);
    }
  }

  /** A leading '%' may skip any prefix. */
  lemma {:induction false} LikeSkip(s: string, i: nat, rest: string)
    requires i <= |s| && Like(s[i..], "%" + rest)
    ensures Like(s, "%" + rest)
    decreases i
  {
    if i > 0 {
      assert s[1..][i - 1..] == s[i..];
      LikeSkip(s[1..], i - 1, rest);
    }
  }

  /** A literal without '%' at the head of the pattern matches itself. */
  lemma {:induction false} LikeLiteral(s: string, literal: string, rest: string)
    requires '%' !in literal && |literal| <= |s| && s[..|literal|] == literal
    requires Like(s[|literal|..], rest)
    ensures Like(s, literal + rest)
    decreases |literal|
  {
    if literal != [] {
      assert (literal + rest)[1..] == literal[1..] + rest;
      assert '%' !in literal[1..] by {
        forall k | 0 <= k < |literal[1..]| ensures literal[1..][k] != '%' {
          assert literal[1..][k] == literal[k + 1];
        }
      }
      assert s[1..][|literal| - 1..] == s[|literal|..];
      LikeLiteral(s[1..], literal[1..], rest);
      assert (literal + rest)[0] == s[0];
    } else {
      assert literal + rest == rest;
    }
  }

  /** Containment implies a match of '%' + needle + '%' (the converse fails: see LikeWildcard). */
  lemma ContainsLike(s: string, needle: string, i: nat)
    requires '%' !in needle && i + |needle| <= |s| && s[i..i + |needle|] == needle
    ensures Like(s, "%" + needle + "%")
  {
    LikeAnything(s[i + |needle|..]);
    assert s[i..][..|needle|] == needle;
    assert s[i..][|needle|..] == s[i + |needle|..];
    LikeLiteral(s[i..], needle, "%");
    assert "%" + needle + "%" == "%" + (needle + "%");
    LikeSkip(s, i, needle + "%");
  }

  /** '_' in a table name matches any character, so LIKE is not substring containment. */
  lemma LikeWildcard()
    ensures Like("TBXMOTO_SEQ", "%TB_MOTO%")
  {
    var s := "TBXMOTO_SEQ";
    LikeAnything(s[7..]);
    assert s[7..] == "_SEQ";
    assert Like("O_SEQ", "O%");
    assert Like("TO_SEQ", "TO%");
    assert Like("OTO_SEQ", "OTO%");
    assert Like("MOTO_SEQ", "MOTO%");
    assert Like("XMOTO_SEQ", "_MOTO%");
    assert Like("BXMOTO_SEQ", "B_MOTO%");
    assert Like(s, "TB_MOTO%");
    assert Like(s, "%TB_MOTO%");
  }

  /**
   * SELECT SEQUENCE_NAME FROM USER_SEQUENCES WHERE SEQUENCE_NAME LIKE :tablePattern OR
   * SEQUENCE_NAME LIKE :suffixPattern ORDER BY SEQUENCE_NAME.
   */
  function SelectSequenceNames(names: seq<string>, tablePattern: string, suffixPattern: string): (rows: seq<string>)
    ensures |rows| <= |names|
    ensures forall i | 0 <= i < |rows| :: rows[i] in names && (Like(rows[i], tablePattern) || Like(rows[i], suffixPattern))
    ensures forall i | 0 <= i < |names| :: (Like(names[i], tablePattern) || Like(names[i], suffixPattern)) ==> names[i] in rows
  {
    if names == [] then []
    else
      var rest := SelectSequenceNames(names[1..], tablePattern, suffixPattern);
      if Like(names[0], tablePattern) || Like(names[0], suffixPattern) then [names[0]] + rest else rest
  }

  /** Ordinal (binary) order of strings, the order ORDER BY SEQUENCE_NAME uses. */
  predicate NameLessOrEqual(a: string, b: string)
    decreases |a|
  {
    a == [] || (b != [] && (a[0] < b[0] || (a[0] == b[0] && NameLessOrEqual(a[1..], b[1..]))))
  }

  predicate SortedByName(names: seq<string>) {
    forall i, j | 0 <= i < j < |names| :: NameLessOrEqual(names[i], names[j])
  }

  /** The rows the query returns keep the catalog's name order. */
  lemma {:induction false} SelectKeepsOrder(names: seq<string>, tablePattern: string, suffixPattern: string)
    requires SortedByName(names)
    ensures SortedByName(SelectSequenceNames(names, tablePattern, suffixPattern))
    decreases |names|
  {
    if names != [] {
      var rest := SelectSequenceNames(names[1..], tablePattern, suffixPattern);
      assert SortedByName(names[1..]) by {
        forall i, j | 0 <= i < j < |names[1..]| ensures NameLessOrEqual(names[1..][i], names[1..][j]) {
          assert names[1..][i] == names[i + 1] && names[1..][j] == names[j + 1];
        }
      }
      SelectKeepsOrder(names[1..], tablePattern, suffixPattern);
      forall k | 0 <= k < |rest| ensures NameLessOrEqual(names[0], rest[k]) {
        var j :| 0 <= j < |names[1..]| && names[1..][j] == rest[k];
        assert names[j + 1] == rest[k];
      }
    }
  }

  /** NVL(MAX(values), 0): the largest value, or 0 when there is none. */
  function MaxOrZero(values: seq<int>): (m: int)
    ensures values == [] ==> m == 0
    ensures values != [] ==> m in values
    ensures forall i | 0 <= i < |values| :: values[i] <= m
  {
    if values == [] then 0
    else if |values| == 1 || values[0] >= MaxOrZero(values[1..]) then values[0]
    else MaxOrZero(values[1..])
  }

  /** The table exists and has the column. */
  predicate HasColumn(db: Database, table: string, column: string) {
    table in db.tables && column in db.tables[table]
  }

  /** The values stored in a column of a table. */
  function ColumnValues(db: Database, table: string, column: string): seq<int>
    requires HasColumn(db, table, column)
  {
    db.tables[table][column]
  }

  /**
   * SELECT NVL(MAX(column), 0) + 1 FROM table, or the number of the Oracle error it fails with:
   * ORA-00942 for a missing table, ORA-00904 for a column the table does not have.
   */
  function SelectNextKey(db: Database, table: string, column: string): (r: Result<int, int>)
    ensures table !in db.tables ==> r == Failure(TableOrViewDoesNotExist)
    ensures table in db.tables && column !in db.tables[table] ==> r == Failure(InvalidIdentifier)
    ensures r.Success? <==> HasColumn(db, table, column)
    ensures r.Success? ==> r.value == MaxOrZero(ColumnValues(db, table, column)) + 1
  {
    if table !in db.tables then Failure(TableOrViewDoesNotExist)
    else if column !in db.tables[table] then Failure(InvalidIdentifier)
    else Success(MaxOrZero(db.tables[table][column]) + 1)
  }

  /**
   * The server a connection string names. NEXTVAL changes it; the other queries only read.
   * NextValLog records, for the proofs, every sequence name a NEXTVAL query was sent for.
   */
  class OracleServer {
    var database: Database
    ghost var NextValLog: seq<string>

    constructor(db: Database)
      ensures database == db && NextValLog == []
    {
      database := db;
      NextValLog := [];
    }

    /** ExecuteScalarAsync on SELECT name.NEXTVAL FROM DUAL. */
    method ExecuteNextVal(name: string) returns (r: NextValResult)
      modifies this
      ensures r == NextVal(old(database), name)
      ensures database == AfterNextVal(old(database), name)
      ensures NextValLog == old(NextValLog) + [name]
    {
      r := NextVal(database, name);
      database := AfterNextVal(database, name);
      NextValLog := NextValLog + [name];
    }
  }
}
