/**
 * OraclePrimaryKeyGenerator: the next key for an Oracle table. It builds an ordered list of
 * sequence names without duplicates (hints, six names derived from the table, then catalog
 * names), asks each for NEXTVAL until one yields a value, and otherwise falls back to
 * NVL(MAX(column), 0) + 1.
 */
module OraclePrimaryKeyGenerator {
  import opened Wrappers
  import Text
  import opened OracleDatabase

  datatype GenerationError =
    | ConfigurationError           // InvalidOperationException: no connection string
    | OracleFailure(number: int)   // an OracleException that is not swallowed

  /* ---------- Candidate names ---------- */

  /** Trim().ToUpperInvariant(). */
  function Normalize(name: string): string {
    Text.ToUpper(Text.Trim(name))
  }

  /** StringComparer.OrdinalIgnoreCase equality. */
  predicate EqualsIgnoreCase(a: string, b: string) {
    Text.ToUpper(a) == Text.ToUpper(b)
  }

  lemma UpperEqualsIgnoreCase(a: string, b: string)
    requires Text.IsUpper(a) && Text.IsUpper(b)
    ensures EqualsIgnoreCase(a, b) <==> a == b
  {
    Text.UpperOfUpper(a);
    Text.UpperOfUpper(b);
  }

  predicate SeenIgnoreCase(accepted: seq<string>, name: string) {
    exists i | 0 <= i < |accepted| :: EqualsIgnoreCase(accepted[i], name)
  }

  /** The local AddCandidate: skip blanks, normalise, keep only the first of equal names. */
  function AddCandidate(accepted: seq<string>, name: Option<string>): seq<string> {
    if name.None? || Text.IsBlank(name.value) then accepted
    else
      var normalized := Normalize(name.value);
      if SeenIgnoreCase(accepted, normalized) then accepted else accepted + [normalized]
  }

  /** AddCandidate applied to each name in turn. */
  function AddAll(accepted: seq<string>, names: seq<string>): seq<string>
    decreases |names|
  {
    if names == [] then accepted
    else AddCandidate(AddAll(accepted, names[..|names| - 1]), Some(names[|names| - 1]))
  }

  lemma AddAllStep(accepted: seq<string>, names: seq<string>, k: nat)
    requires k < |names|
    ensures AddAll(accepted, names[..k + 1]) == AddCandidate(AddAll(accepted, names[..k]), Some(names[k]))
  {
    assert names[..k + 1][..k] == names[..k];
  }

  /** Adding a + b is adding a, then b. */
  lemma {:induction false} AddAllAppend(accepted: seq<string>, a: seq<string>, b: seq<string>)
    ensures AddAll(accepted, a + b) == AddAll(AddAll(accepted, a), b)
    decreases |b|
  {
    if b == [] {
      assert a + b == a;
    } else {
      var b' := b[..|b| - 1];
      assert (a + b)[..|a + b| - 1] == a + b';
      AddAllAppend(accepted, a, b');
    }
  }

  /** A usable sequence name: non-empty, upper case, no white space at either end. */
  predicate WellFormedName(x: string) {
    x != [] && Text.IsUpper(x) && !Text.IsWhiteSpace(x[0]) && !Text.IsWhiteSpace(x[|x| - 1])
  }

  /** A non-blank name normalises to a well-formed one; a blank name to the empty string. */
  lemma NormalizeWellFormed(name: string)
    ensures Text.IsBlank(name) <==> Normalize(name) == []
    ensures !Text.IsBlank(name) ==> WellFormedName(Normalize(name))
  {
    Text.TrimFactor(name);
    Text.UpperPreservesWhiteSpace(Text.Trim(name));
  }

  /** A trimmed upper-case name is its own normal form. */
  lemma NormalizeOfWellFormed(x: string)
    requires WellFormedName(x)
    ensures !Text.IsBlank(x) && Normalize(x) == x
  {
    assert Text.TrimStart(x) == x;
    assert Text.TrimEnd(x) == x;
    Text.UpperOfUpper(x);
  }

  /** The normalised form of every non-blank name, in order, repetitions included. */
  function NormalizedNames(names: seq<string>): (n: seq<string>)
    ensures forall i | 0 <= i < |n| :: WellFormedName(n[i])
    decreases |names|
  {
    if names == [] then []
    else
      var last := names[|names| - 1];
      NormalizeWellFormed(last);
      NormalizedNames(names[..|names| - 1]) + (if Text.IsBlank(last) then [] else [Normalize(last)])
  }

  /** The name contributes x to the candidates. */
  predicate Contributes(name: string, x: string) {
    !Text.IsBlank(name) && Normalize(name) == x
  }

  lemma NormalizedNamesMembers(names: seq<string>, x: string)
    ensures x in NormalizedNames(names) <==> exists k | 0 <= k < |names| :: Contributes(names[k], x)
  {
    if x in NormalizedNames(names) {
      var k := NormalizedNameSource(names, x);
    }
    if exists k | 0 <= k < |names| :: Contributes(names[k], x) {
      var k :| 0 <= k < |names| && Contributes(names[k], x);
      NormalizedNameOf(names, k);
    }
  }

  /** Every normalised name comes from a source name. */
  lemma {:induction false} NormalizedNameSource(names: seq<string>, x: string) returns (k: nat)
    requires x in NormalizedNames(names)
    ensures k < |names| && Contributes(names[k], x)
    decreases |names|
  {
    var init, last := names[..|names| - 1], names[|names| - 1];
    var tail := if Text.IsBlank(last) then [] else [Normalize(last)];
    assert NormalizedNames(names) == NormalizedNames(init) + tail;
    if x in NormalizedNames(init) {
      k := NormalizedNameSource(init, x);
      assert names[k] == init[k];
    } else {
      k := |names| - 1;
    }
  }

  /** A source name that is not blank contributes its normal form. */
  lemma {:induction false} NormalizedNameOf(names: seq<string>, k: nat)
    requires k < |names| && !Text.IsBlank(names[k])
    ensures Normalize(names[k]) in NormalizedNames(names)
    decreases |names|
  {
    var init, last := names[..|names| - 1], names[|names| - 1];
    var tail := if Text.IsBlank(last) then [] else [Normalize(last)];
    assert NormalizedNames(names) == NormalizedNames(init) + tail;
    if k < |init| {
      assert init[k] == names[k];
      NormalizedNameOf(init, k);
    }
  }

  lemma {:induction false} NormalizedNamesAppend(a: seq<string>, b: seq<string>)
    ensures NormalizedNames(a + b) == NormalizedNames(a) + NormalizedNames(b)
    decreases |b|
  {
    if b != [] {
      var ab, b' := a + b, b[..|b| - 1];
      assert ab[..|ab| - 1] == a + b';
      assert ab[|ab| - 1] == b[|b| - 1];
      NormalizedNamesAppend(a, b');
    } else {
      assert a + b == a;
    }
  }

  /** The distinct elements of n, in order of first occurrence: what AddAll keeps. */
  function Dedup(n: seq<string>): seq<string>
    decreases |n|
  {
    if n == [] then []
    else
      var d := Dedup(n[..|n| - 1]);
      if n[|n| - 1] in d then d else d + [n[|n| - 1]]
  }

  /** The index of the first occurrence of x in s. */
  function FirstIndex(s: seq<string>, x: string): (k: nat)
    requires x in s
    ensures k < |s| && s[k] == x && forall j | 0 <= j < k :: s[j] != x
  {
    if s[0] == x then 0 else FirstIndex(s[1..], x) + 1
  }

  lemma FirstIndexAppend(s: seq<string>, y: seq<string>, x: string)
    requires x in s
    ensures FirstIndex(s + y, x) == FirstIndex(s, x)
  {
    var k, k' := FirstIndex(s, x), FirstIndex(s + y, x);
    assert (s + y)[k] == x;
  }

  /** Dedup keeps every element once, in order of first occurrence. */
  lemma {:induction false} DedupProperties(n: seq<string>)
    ensures var d := Dedup(n);
      && (forall x :: x in d <==> x in n)
      && (forall i, j | 0 <= i < j < |d| :: d[i] != d[j])
      && (forall i, j | 0 <= i < j < |d| :: FirstIndex(n, d[i]) < FirstIndex(n, d[j]))
    decreases |n|
  {
    if n != [] {
      var init, last := n[..|n| - 1], n[|n| - 1];
      DedupProperties(init);
      assert n == init + [last];
      var d := Dedup(init);
      forall x | x in init ensures FirstIndex(n, x) == FirstIndex(init, x) {
        FirstIndexAppend(init, [last], x);
      }
      if last !in d {
        assert FirstIndex(n, last) == |init|;
      }
    }
  }

  /** A list of distinct elements is its own Dedup. */
  lemma {:induction false} DedupOfDistinct(n: seq<string>)
    requires forall i, j | 0 <= i < j < |n| :: n[i] != n[j]
    ensures Dedup(n) == n
    decreases |n|
  {
    if n != [] {
      var init := n[..|n| - 1];
      DedupOfDistinct(init);
      DedupProperties(init);
      assert n[|n| - 1] !in init;
      assert init + [n[|n| - 1]] == n;
    }
  }

  /** Among upper-case names, the ignore-case lookup is plain membership. */
  lemma SeenAmongUpper(accepted: seq<string>, name: string)
    requires forall i | 0 <= i < |accepted| :: Text.IsUpper(accepted[i])
    requires Text.IsUpper(name)
    ensures SeenIgnoreCase(accepted, name) <==> name in accepted
  {
    if SeenIgnoreCase(accepted, name) {
      var i :| 0 <= i < |accepted| && EqualsIgnoreCase(accepted[i], name);
      UpperEqualsIgnoreCase(accepted[i], name);
    }
    if name in accepted {
      var i :| 0 <= i < |accepted| && accepted[i] == name;
      assert EqualsIgnoreCase(accepted[i], name);
    }
  }

  /** AddAll from an empty list is Dedup of the normalised names. */
  lemma {:induction false} AddAllIsDedup(names: seq<string>)
    ensures AddAll([], names) == Dedup(NormalizedNames(names))
    decreases |names|
  {
    if names != [] {
      var init, last := names[..|names| - 1], names[|names| - 1];
      AddAllIsDedup(init);
      var c, n := AddAll([], init), NormalizedNames(init);
      assert AddAll([], names) == AddCandidate(c, Some(last));
      if !Text.IsBlank(last) {
        var m := Normalize(last);
        NormalizeWellFormed(last);
        assert NormalizedNames(names) == n + [m];
        assert (n + [m])[..|n|] == n;
        DedupProperties(n);
        forall i | 0 <= i < |c| ensures Text.IsUpper(c[i]) {
          assert c[i] in n;
          var k :| 0 <= k < |n| && n[k] == c[i];
        }
        SeenAmongUpper(c, m);
      } else {
        assert AddCandidate(c, Some(last)) == c;
        assert n + [] == n;
        assert NormalizedNames(names) == n;
      }
    }
  }

  /** Ordinal StartsWith("TB_") then the rest, else the name itself. */
  function TableSuffix(normalizedTable: string): (suffix: string)
    ensures Text.StartsWith(normalizedTable, "TB_") ==> normalizedTable == "TB_" + suffix
    ensures !Text.StartsWith(normalizedTable, "TB_") ==> suffix == normalizedTable
  {
    if Text.StartsWith(normalizedTable, "TB_") then normalizedTable[3..] else normalizedTable
  }

  /** The six names derived from the table name, in the order they are offered. */
  function DerivedNames(table: string): (names: seq<string>)
    ensures |names| == 6
  {
    var t := Normalize(table);
    var s := TableSuffix(t);
    [t + "_SEQ", "SEQ_" + t, s + "_SEQ", "SEQ_" + s, "SEQ_NEXTPARK_" + s, "NEXTPARK_" + s + "_SEQ"]
  }

  /** The rows of the USER_SEQUENCES query for this table. */
  function CatalogNames(db: Database, table: string): seq<string> {
    var t := Normalize(table);
    SelectSequenceNames(db.userSequences, "%" + t + "%", "%" + TableSuffix(t) + "%")
  }

  /** Everything offered to AddCandidate, in order. */
  function Sources(hints: seq<string>, table: string, db: Database): seq<string> {
    hints + DerivedNames(table) + CatalogNames(db, table)
  }

  /** The candidate list BuildSequenceCandidatesAsync returns. */
  function Candidates(hints: seq<string>, table: string, db: Database): seq<string> {
    AddAll([], Sources(hints, table, db))
  }

  /**
   * The candidates are exactly the normalised non-blank sources, each once even ignoring
   * case, listed in the order in which they first occur among the sources.
   */
  lemma CandidatesProperties(hints: seq<string>, table: string, db: Database)
    ensures var c, src := Candidates(hints, table, db), Sources(hints, table, db);
      && (forall x :: x in c <==> exists k | 0 <= k < |src| :: Contributes(src[k], x))
      && (forall i, j | 0 <= i < j < |c| :: !EqualsIgnoreCase(c[i], c[j]))
      && (forall i | 0 <= i < |c| :: WellFormedName(c[i]))
      && (forall i, j | 0 <= i < j < |c| ::
            c[i] in NormalizedNames(src) && c[j] in NormalizedNames(src) &&
            FirstIndex(NormalizedNames(src), c[i]) < FirstIndex(NormalizedNames(src), c[j]))
  {
    var c, src := Candidates(hints, table, db), Sources(hints, table, db);
    var n := NormalizedNames(src);
    AddAllIsDedup(src);
    DedupProperties(n);
    forall i | 0 <= i < |c| ensures WellFormedName(c[i]) {
      assert c[i] in n;
      var k :| 0 <= k < |n| && n[k] == c[i];
    }
    forall x ensures x in c <==> exists k | 0 <= k < |src| :: Contributes(src[k], x) {
      NormalizedNamesMembers(src, x);
    }
    forall i, j | 0 <= i < j < |c| ensures !EqualsIgnoreCase(c[i], c[j]) {
      UpperEqualsIgnoreCase(c[i], c[j]);
    }
  }

  /** Dedup starts with the first element. */
  lemma {:induction false} DedupHead(n: seq<string>)
    requires n != []
    ensures Dedup(n) != [] && Dedup(n)[0] == n[0]
    decreases |n|
  {
    if |n| > 1 {
      DedupHead(n[..|n| - 1]);
    }
  }

  /** A non-blank first name is the first name AddAll accepts. */
  lemma FirstNameFirst(names: seq<string>)
    requires names != [] && !Text.IsBlank(names[0])
    ensures AddAll([], names) != [] && AddAll([], names)[0] == Normalize(names[0])
  {
    AddAllIsDedup(names);
    assert names == [names[0]] + names[1..];
    NormalizedNamesAppend([names[0]], names[1..]);
    assert NormalizedNames([names[0]]) == [] + [Normalize(names[0])] by {
      assert [names[0]][..0] == [];
    }
    DedupHead(NormalizedNames(names));
  }

  /** A non-blank first hint is the first candidate. */
  lemma FirstHintFirst(hints: seq<string>, table: string, db: Database)
    requires hints != [] && !Text.IsBlank(hints[0])
    ensures Candidates(hints, table, db) != []
    ensures Candidates(hints, table, db)[0] == Normalize(hints[0])
  {
    var src := Sources(hints, table, db);
    assert src[0] == hints[0];
    FirstNameFirst(src);
  }

  /** Names already normalised pass through unchanged. */
  lemma {:induction false} NormalizedNamesOfWellFormed(names: seq<string>)
    requires forall k | 0 <= k < |names| :: WellFormedName(names[k])
    ensures NormalizedNames(names) == names
    decreases |names|
  {
    if names != [] {
      var init, last := names[..|names| - 1], names[|names| - 1];
      NormalizedNamesOfWellFormed(init);
      NormalizeOfWellFormed(last);
      assert init + [last] == names;
    }
  }

  /** Upper case survives concatenation. */
  lemma UpperConcat(a: string, b: string)
    requires Text.IsUpper(a) && Text.IsUpper(b)
    ensures Text.IsUpper(a + b)
  {
    assert forall i | 0 <= i < |a + b| :: (a + b)[i] == if i < |a| then a[i] else b[i - |a|];
  }

  /** An upper-case name with a sequence prefix or suffix is well formed. */
  lemma AffixedWellFormed(t: string)
    requires t == [] || WellFormedName(t)
    ensures WellFormedName(t + "_SEQ") && WellFormedName("SEQ_" + t)
    ensures WellFormedName("SEQ_NEXTPARK_" + t) && WellFormedName("NEXTPARK_" + t + "_SEQ")
  {
    UpperConcat(t, "_SEQ");
    UpperConcat("SEQ_", t);
    UpperConcat("SEQ_NEXTPARK_", t);
    UpperConcat("NEXTPARK_", t);
    UpperConcat("NEXTPARK_" + t, "_SEQ");
    assert (t + "_SEQ")[|t| + 3] == 'Q';
    assert ("SEQ_" + t)[0] == 'S';
    assert ("SEQ_NEXTPARK_" + t)[0] == 'S';
    assert ("NEXTPARK_" + t + "_SEQ")[0] == 'N';
    assert ("NEXTPARK_" + t + "_SEQ")[|t| + 12] == 'Q';
    if t != [] {
      assert ("SEQ_" + t)[|t| + 3] == t[|t| - 1];
      assert ("SEQ_NEXTPARK_" + t)[|t| + 12] == t[|t| - 1];
    }
  }

  /** The suffix of a well-formed table name is well formed unless it starts with white space. */
  lemma SuffixWellFormed(t: string)
    requires t == [] || WellFormedName(t)
    requires var s := TableSuffix(t); s == [] || !Text.IsWhiteSpace(s[0])
    ensures var s := TableSuffix(t); s == [] || WellFormedName(s)
  {
    var s := TableSuffix(t);
    if Text.StartsWith(t, "TB_") && s != [] {
      assert s == t[3..];
      assert s[|s| - 1] == t[|t| - 1];
      assert forall i | 0 <= i < |s| :: s[i] == t[i + 3];
    }
  }

  /**
   * The derived names are well formed unless stripping TB_ leaves white space at the front
   * of the suffix (a table named "TB_ X"); AddCandidate trims those again.
   */
  lemma DerivedNamesWellFormed(table: string)
    requires var s := TableSuffix(Normalize(table)); s == [] || !Text.IsWhiteSpace(s[0])
    ensures forall k | 0 <= k < 6 :: WellFormedName(DerivedNames(table)[k])
  {
    var t := Normalize(table);
    NormalizeWellFormed(table);
    SuffixWellFormed(t);
    AffixedWellFormed(t);
    AffixedWellFormed(TableSuffix(t));
  }

  /** TB_MOTO is already normalised, and its suffix is MOTO. */
  lemma MotoTableSuffix()
    ensures Normalize("TB_MOTO") == "TB_MOTO" && TableSuffix("TB_MOTO") == "MOTO"
  {
    MotoTableNormalized();
    MotoSuffix();
  }

  lemma MotoTableNormalized()
    ensures Normalize("TB_MOTO") == "TB_MOTO"
  {
    NormalizeOfWellFormed("TB_MOTO");
  }

  lemma MotoSuffix()
    ensures TableSuffix("TB_MOTO") == "MOTO"
  {
    assert "TB_MOTO"[..3] == "TB_";
  }

  /** The six names derived from TB_MOTO. */
  lemma DerivedNamesOfMotoTable()
    ensures DerivedNames("TB_MOTO") == ["TB_MOTO_SEQ", "SEQ_TB_MOTO", "MOTO_SEQ", "SEQ_MOTO", "SEQ_NEXTPARK_MOTO", "NEXTPARK_MOTO_SEQ"]
  {
    MotoTableSuffix();
    var t, s := "TB_MOTO", "MOTO";
    assert DerivedNames(t) == [t + "_SEQ", "SEQ_" + t, s + "_SEQ", "SEQ_" + s, "SEQ_NEXTPARK_" + s, "NEXTPARK_" + s + "_SEQ"];
    MotoNamesSpelled();
  }

  lemma MotoNamesSpelled()
    ensures "TB_MOTO" + "_SEQ" == "TB_MOTO_SEQ" && "SEQ_" + "TB_MOTO" == "SEQ_TB_MOTO"
    ensures "MOTO" + "_SEQ" == "MOTO_SEQ" && "SEQ_" + "MOTO" == "SEQ_MOTO"
    ensures "SEQ_NEXTPARK_" + "MOTO" == "SEQ_NEXTPARK_MOTO" && "NEXTPARK_" + "MOTO" + "_SEQ" == "NEXTPARK_MOTO_SEQ"
  {
  }

  /** The six derived names of TB_MOTO are distinct and already normalised. */
  lemma MotoDerivedNamesNormalized()
    ensures var d := DerivedNames("TB_MOTO");
      && (forall k | 0 <= k < 6 :: WellFormedName(d[k]))
      && (forall k, l | 0 <= k < l < 6 :: d[k] != d[l])
  {
    MotoTableSuffix();
    DerivedNamesWellFormed("TB_MOTO");
    DerivedNamesOfMotoTable();
    MotoNamesDistinct();
  }

  /** The six names derived from TB_MOTO differ pairwise. */
  lemma MotoNamesDistinct()
    ensures var d := ["TB_MOTO_SEQ", "SEQ_TB_MOTO", "MOTO_SEQ", "SEQ_MOTO", "SEQ_NEXTPARK_MOTO", "NEXTPARK_MOTO_SEQ"];
      forall k, l | 0 <= k < l < 6 :: d[k] != d[l]
  {
    var d := ["TB_MOTO_SEQ", "SEQ_TB_MOTO", "MOTO_SEQ", "SEQ_MOTO", "SEQ_NEXTPARK_MOTO", "NEXTPARK_MOTO_SEQ"];
    assert |d[0]| == |d[1]| == 11 && |d[2]| == |d[3]| == 8 && |d[4]| == |d[5]| == 17;
    assert d[0][0] != d[1][0] && d[2][0] != d[3][0] && d[4][0] != d[5][0];
  }

  /** With no hints and an empty catalog view, the candidates are the derived names, in order. */
  lemma CandidatesOfMotoTable(db: Database)
    requires db.userSequences == []
    ensures Candidates([], "TB_MOTO", db) == ["TB_MOTO_SEQ", "SEQ_TB_MOTO", "MOTO_SEQ", "SEQ_MOTO", "SEQ_NEXTPARK_MOTO", "NEXTPARK_MOTO_SEQ"]
  {
    var d := DerivedNames("TB_MOTO");
    assert CatalogNames(db, "TB_MOTO") == [];
    assert Sources([], "TB_MOTO", db) == d;
    MotoDerivedNamesNormalized();
    AddAllIsDedup(d);
    NormalizedNamesOfWellFormed(d);
    DedupOfDistinct(d);
    DerivedNamesOfMotoTable();
  }

  /** A catalog sequence whose name contains the normalised table name is among the candidates' sources. */
  lemma CatalogFindsContaining(db: Database, table: string, k: nat, at: nat)
    requires k < |db.userSequences| && '%' !in Normalize(table)
    requires var name, t := db.userSequences[k], Normalize(table);
      at + |t| <= |name| && name[at..at + |t|] == t
    ensures db.userSequences[k] in CatalogNames(db, table)
  {
    ContainsLike(db.userSequences[k], Normalize(table), at);
  }

  /* ---------- Probing ---------- */

  /** TryGetNextSequenceValueAsync: a value, None to move on, or the error that ends the call. */
  function TryNext(db: Database, name: string): (r: Result<Option<int>, GenerationError>)
    ensures (r.Success? && r.value.Some?) <==> NextVal(db, name).Value?
    ensures NextVal(db, name).Value? ==> r == Success(Some(NextVal(db, name).value))
    ensures r == Success(None) <==>
      || NextVal(db, name) == Null
      || NextVal(db, name) == OraError(SequenceDoesNotExist)
      || NextVal(db, name) == OraError(TableOrViewDoesNotExist)
    ensures r.Failure? <==>
      NextVal(db, name).OraError? && NextVal(db, name).number != SequenceDoesNotExist
      && NextVal(db, name).number != TableOrViewDoesNotExist
    ensures r.Failure? ==> r.error == OracleFailure(NextVal(db, name).number)
  {
    match NextVal(db, name)
    case Value(v) => Success(Some(v))
    case Null => Success(None)
    case OraError(number) =>
      if number == SequenceDoesNotExist || number == TableOrViewDoesNotExist then Success(None)
      else Failure(OracleFailure(number))
  }

  /**
   * What one NEXTVAL probe gives, by what the name is in the schema: a sequence gives its next
   * value, a query yielding NULL gives none, an object failing with ORA-02289 or ORA-00942
   * gives none, and one failing with any other error ends the generation with that error.
   */
  lemma TryNextOfSchema(db: Database, name: string)
    requires name in db.sequences
    ensures db.sequences[name].Sequence? ==> TryNext(db, name) == Success(Some(db.sequences[name].nextValue))
    ensures db.sequences[name].NullResult? ==> TryNext(db, name) == Success(None)
    ensures db.sequences[name].Failing? ==>
      var n := db.sequences[name].errorNumber;
      TryNext(db, name) == if n == SequenceDoesNotExist || n == TableOrViewDoesNotExist then Success(None)
                           else Failure(OracleFailure(n))
  {
  }

  /** A name that is not a sequence of the schema is passed over. */
  lemma MissingSequenceSkipped(db: Database, name: string)
    requires name !in db.sequences
    ensures TryNext(db, name) == Success(None)
  {
  }

  predicate AllMiss(db: Database, names: seq<string>, from: nat, to: nat)
    requires from <= to <= |names|
  {
    forall j | from <= j < to :: TryNext(db, names[j]) == Success(None)
  }

  datatype ProbeOutcome = Hit(at: nat, value: int) | Exhausted | Fatal(at: nat, error: GenerationError)

  /** The foreach over the candidates from index i on, stopping at the first value or error. */
  function ProbeFrom(db: Database, names: seq<string>, i: nat): (o: ProbeOutcome)
    requires i <= |names|
    ensures o.Hit? ==> i <= o.at < |names| && AllMiss(db, names, i, o.at) && TryNext(db, names[o.at]) == Success(Some(o.value))
    ensures o.Fatal? ==> i <= o.at < |names| && AllMiss(db, names, i, o.at) && TryNext(db, names[o.at]) == Failure(o.error)
    ensures o.Exhausted? <==> AllMiss(db, names, i, |names|)
    decreases |names| - i
  {
    if i == |names| then Exhausted
    else
      match TryNext(db, names[i])
      case Success(Some(v)) => Hit(i, v)
      case Success(None) => ProbeFrom(db, names, i + 1)
      case Failure(e) => Fatal(i, e)
  }

  /** GenerateFromTableAsync: NVL(MAX(column), 0) + 1, or 1 when that is NULL. */
  function Fallback(db: Database, table: string, column: string): (r: Result<int, GenerationError>)
    ensures r.Success? <==> HasColumn(db, table, column)
    ensures r.Success? ==> forall i | 0 <= i < |ColumnValues(db, table, column)| :: ColumnValues(db, table, column)[i] < r.value
    ensures r.Success? && ColumnValues(db, table, column) != [] ==> r.value - 1 in ColumnValues(db, table, column)
    ensures r.Success? && ColumnValues(db, table, column) == [] ==> r.value == 1
    ensures table !in db.tables ==> r == Failure(OracleFailure(TableOrViewDoesNotExist))
    ensures table in db.tables && column !in db.tables[table] ==> r == Failure(OracleFailure(InvalidIdentifier))
  {
    match SelectNextKey(db, table, column)
    case Success(key) => Success(key)
    case Failure(number) => Failure(OracleFailure(number))
  }

  /** GenerateWithConnectionAsync. */
  function GenerateWith(db: Database, table: string, column: string, hints: seq<string>): Result<int, GenerationError> {
    match ProbeFrom(db, Candidates(hints, table, db), 0)
    case Hit(_, v) => Success(v)
    case Fatal(_, e) => Failure(e)
    case Exhausted => Fallback(db, table, column)
  }

  /** GenerateAsync. */
  function Generate(connectionString: string, db: Database, table: string, column: string, hints: seq<string>): (r: Result<int, GenerationError>)
    ensures Text.IsBlank(connectionString) ==> r == Failure(ConfigurationError)
    ensures !Text.IsBlank(connectionString) ==> r == GenerateWith(db, table, column, hints)
  {
    if Text.IsBlank(connectionString) then Failure(ConfigurationError) else GenerateWith(db, table, column, hints)
  }

  /** The database after GenerateWithConnectionAsync: only the sequence that gave the key moves on. */
  function DatabaseAfter(db: Database, table: string, hints: seq<string>): Database {
    var c := Candidates(hints, table, db);
    match ProbeFrom(db, c, 0)
    case Hit(k, _) => AfterNextVal(db, c[k])
    case _ => db
  }

  /** The candidates NEXTVAL is issued for: up to and including the first value or error. */
  function ProbedNames(db: Database, table: string, hints: seq<string>): (probed: seq<string>)
    ensures |probed| <= |Candidates(hints, table, db)|
  {
    var c := Candidates(hints, table, db);
    match ProbeFrom(db, c, 0)
    case Hit(k, _) => c[..k + 1]
    case Fatal(k, _) => c[..k + 1]
    case Exhausted => c
  }

  /** A hint naming a sequence gives that sequence's next value, and no other name is probed. */
  lemma FirstHintWins(connectionString: string, db: Database, table: string, column: string, hints: seq<string>)
    requires !Text.IsBlank(connectionString)
    requires hints != [] && !Text.IsBlank(hints[0])
    requires Normalize(hints[0]) in db.sequences && db.sequences[Normalize(hints[0])].Sequence?
    ensures Generate(connectionString, db, table, column, hints) == Success(db.sequences[Normalize(hints[0])].nextValue)
    ensures ProbedNames(db, table, hints) == [Normalize(hints[0])]
  {
    FirstHintFirst(hints, table, db);
  }

  /** When no candidate names a sequence, the key comes from the table, and every candidate was tried. */
  lemma FallbackWhenNoSequence(connectionString: string, db: Database, table: string, column: string, hints: seq<string>)
    requires !Text.IsBlank(connectionString)
    requires forall name :: name in db.sequences ==> !db.sequences[name].Sequence? && !db.sequences[name].Failing?
    ensures Generate(connectionString, db, table, column, hints) == Fallback(db, table, column)
    ensures ProbedNames(db, table, hints) == Candidates(hints, table, db)
    ensures DatabaseAfter(db, table, hints) == db
  {
    var c := Candidates(hints, table, db);
    assert AllMiss(db, c, 0, |c|);
  }

  /** A generated key is a sequence value, or exceeds every key in the table. */
  lemma GeneratedKeyOrigin(connectionString: string, db: Database, table: string, column: string, hints: seq<string>)
    requires Generate(connectionString, db, table, column, hints).Success?
    ensures var key, c := Generate(connectionString, db, table, column, hints).value, Candidates(hints, table, db);
      || (exists k | 0 <= k < |c| :: NextVal(db, c[k]) == Value(key) && AllMiss(db, c, 0, k))
      || (AllMiss(db, c, 0, |c|) && HasColumn(db, table, column) && forall i | 0 <= i < |ColumnValues(db, table, column)| :: ColumnValues(db, table, column)[i] < key)
  {
    var c := Candidates(hints, table, db);
    var o := ProbeFrom(db, c, 0);
    if o.Hit? {
      assert NextVal(db, c[o.at]) == Value(o.value);
    }
  }

  /* ---------- The imperative generator ---------- */

  /** The List<string> and HashSet<string>(OrdinalIgnoreCase) BuildSequenceCandidatesAsync fills. */
  class CandidateList {
    var items: seq<string>
    var seen: set<string>

    ghost predicate Valid()
      reads this
    {
      forall s :: s in seen <==> s in items
    }

    constructor()
      ensures Valid() && items == []
    {
      items := [];
      seen := {};
    }

    /** AddCandidate: seen.Add(normalized) succeeds only for a name not yet seen, ignoring case. */
    method Add(name: Option<string>)
      modifies this
      requires Valid()
      ensures Valid() && items == AddCandidate(old(items), name)
    {
      if name.None? || Text.IsBlank(name.value) {
        return;
      }
      var normalized := Normalize(name.value);
      var present := exists s | s in seen :: EqualsIgnoreCase(s, normalized);
      if present {
        var s :| s in seen && EqualsIgnoreCase(s, normalized);
        var i :| 0 <= i < |items| && items[i] == s;
        assert SeenIgnoreCase(items, normalized);
      } else {
        seen := seen + {normalized};
        items := items + [normalized];
      }
    }
  }

  /** BuildSequenceCandidatesAsync. */
  method BuildSequenceCandidates(server: OracleServer, table: string, hints: seq<string>) returns (candidates: seq<string>)
    ensures candidates == Candidates(hints, table, server.database)
  {
    var list := new CandidateList();
    for i := 0 to |hints|
      invariant list.Valid() && list.items == AddAll([], hints[..i])
    {
      AddAllStep([], hints, i);
      list.Add(Some(hints[i]));
    }
    assert hints[..|hints|] == hints;
    ghost var afterHints := list.items;

    var normalizedTable := Normalize(table);
    var suffix := TableSuffix(normalizedTable);
    ghost var d := DerivedNames(table);
    assert d[..0] == [];
    AddAllStep(afterHints, d, 0);
    list.Add(Some(normalizedTable + "_SEQ"));
    AddAllStep(afterHints, d, 1);
    list.Add(Some("SEQ_" + normalizedTable));
    AddAllStep(afterHints, d, 2);
    list.Add(Some(suffix + "_SEQ"));
    AddAllStep(afterHints, d, 3);
    list.Add(Some("SEQ_" + suffix));
    AddAllStep(afterHints, d, 4);
    list.Add(Some("SEQ_NEXTPARK_" + suffix));
    AddAllStep(afterHints, d, 5);
    list.Add(Some("NEXTPARK_" + suffix + "_SEQ"));
    assert d[..6] == d;
    ghost var afterDerived := list.items;

    var rows := SelectSequenceNames(server.database.userSequences, "%" + normalizedTable + "%", "%" + suffix + "%");
    for i := 0 to |rows|
      invariant list.Valid() && list.items == AddAll(afterDerived, rows[..i])
    {
      AddAllStep(afterDerived, rows, i);
      list.Add(Some(rows[i]));
    }
    assert rows[..|rows|] == rows;
    AddAllAppend([], hints, d);
    AddAllAppend([], hints + d, rows);
    candidates := list.items;
  }

  /** TryGetNextSequenceValueAsync: ORA-02289 and ORA-00942 are swallowed, other errors propagate. */
  method TryGetNextSequenceValue(server: OracleServer, name: string) returns (r: Result<Option<int>, GenerationError>)
    modifies server
    ensures r == TryNext(old(server.database), name)
    ensures server.database == AfterNextVal(old(server.database), name)
    ensures server.NextValLog == old(server.NextValLog) + [name]
  {
    var result := server.ExecuteNextVal(name);
    match result
    case Value(v) =>
      r := Success(Some(v));
    case Null =>
      r := Success(None);
    case OraError(number) =>
      if number == SequenceDoesNotExist || number == TableOrViewDoesNotExist {
        r := Success(None);
      } else {
        r := Failure(OracleFailure(number));
      }
  }

  /** GenerateFromTableAsync. */
  method GenerateFromTable(server: OracleServer, table: string, column: string) returns (r: Result<int, GenerationError>)
    ensures r == Fallback(server.database, table, column)
  {
    var result := SelectNextKey(server.database, table, column);
    match result
    case Failure(number) =>
      r := Failure(OracleFailure(number));
    case Success(key) =>
      r := Success(key);
  }

  /** One step of the probe loop: a value or an error ends it, a miss moves on and changes nothing. */
  lemma ProbeStep(db: Database, names: seq<string>, i: nat)
    requires i < |names|
    ensures TryNext(db, names[i]).Success? && TryNext(db, names[i]).value.Some? ==>
      ProbeFrom(db, names, i) == Hit(i, TryNext(db, names[i]).value.value)
    ensures TryNext(db, names[i]).Failure? ==> ProbeFrom(db, names, i) == Fatal(i, TryNext(db, names[i]).error)
    ensures TryNext(db, names[i]) == Success(None) ==>
      ProbeFrom(db, names, i) == ProbeFrom(db, names, i + 1) && AfterNextVal(db, names[i]) == db
  {
  }

  /** The foreach of GenerateWithConnectionAsync: NEXTVAL for each name until a value or an error. */
  method ProbeCandidates(server: OracleServer, names: seq<string>) returns (o: ProbeOutcome)
    modifies server
    ensures o == ProbeFrom(old(server.database), names, 0)
    ensures o.Hit? ==> server.database == AfterNextVal(old(server.database), names[o.at])
    ensures !o.Hit? ==> server.database == old(server.database)
    ensures server.NextValLog == old(server.NextValLog) + if o.Exhausted? then names else names[..o.at + 1]
  {
    ghost var db := server.database;
    ghost var log := server.NextValLog;
    for i := 0 to |names|
      invariant server.database == db && server.NextValLog == log + names[..i]
      invariant ProbeFrom(db, names, 0) == ProbeFrom(db, names, i)
    {
      ProbeStep(db, names, i);
      var next := TryGetNextSequenceValue(server, names[i]);
      assert names[..i] + [names[i]] == names[..i + 1];
      match next
      case Failure(e) =>
        return Fatal(i, e);
      case Success(Some(v)) =>
        return Hit(i, v);
      case Success(None) =>
    }
    assert names[..|names|] == names;
    return Exhausted;
  }

  /** GenerateWithConnectionAsync: probe the candidates in order, return the first value. */
  method GenerateWithConnection(server: OracleServer, table: string, column: string, hints: seq<string>)
    returns (r: Result<int, GenerationError>)
    modifies server
    ensures r == GenerateWith(old(server.database), table, column, hints)
    ensures server.database == DatabaseAfter(old(server.database), table, hints)
    ensures server.NextValLog == old(server.NextValLog) + ProbedNames(old(server.database), table, hints)
  {
    var candidates := BuildSequenceCandidates(server, table, hints);
    var o := ProbeCandidates(server, candidates);
    match o
    case Hit(_, v) =>
      r := Success(v);
    case Fatal(_, e) =>
      r := Failure(e);
    case Exhausted =>
      r := GenerateFromTable(server, table, column);
  }

  /** GenerateAsync: a blank connection string is a configuration error and touches nothing. */
  method GenerateAsync(server: OracleServer, connectionString: string, table: string, column: string, hints: seq<string>)
    returns (r: Result<int, GenerationError>)
    modifies server
    ensures r == Generate(connectionString, old(server.database), table, column, hints)
    ensures Text.IsBlank(connectionString) ==> server.database == old(server.database) && server.NextValLog == old(server.NextValLog)
    ensures !Text.IsBlank(connectionString) ==>
      && server.database == DatabaseAfter(old(server.database), table, hints)
      && server.NextValLog == old(server.NextValLog) + ProbedNames(old(server.database), table, hints)
  {
    if Text.IsBlank(connectionString) {
      return Failure(ConfigurationError);
    }
    r := GenerateWithConnection(server, table, column, hints);
  }
}
