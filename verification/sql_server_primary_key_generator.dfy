/**
 * The primary-key generator for SQL Server. SQL Server fills key columns from IDENTITY, so
 * the generator never supplies a key: it only recognises the provider.
 */
module SqlServerPrimaryKeyGenerator {
  import opened Wrappers
  import Text
  import Store

  const ProviderMarker: string := "SqlServer"

  /**
   * CanGenerate: the provider name is present and contains "SqlServer", compared
   * ordinally without regard to case.
   */
  function CanGenerate(providerName: Option<string>): (b: bool)
    ensures providerName.None? ==> !b
    ensures b <==> providerName.Some? && exists i :: Text.MatchesAtIgnoreCase(providerName.value, ProviderMarker, i)
  {
    providerName.Some? && Text.IndexOfIgnoreCase(providerName.value, ProviderMarker) >= 0
  }

  /**
   * GenerateAsync: no key for any provider, table, column or candidate list; the context is
   * only asked for its provider name.
   */
  function GenerateAsync(context: Store.NextParkContext, tableName: string, columnName: string,
                         sequenceCandidates: seq<string>): (key: Option<int>)
    ensures key == None
  {
    if !CanGenerate(context.providerName) then None
    else None
  }

  /** The SQL Server provider of EF Core is recognised. */
  lemma RecognisesSqlServerProvider()
    ensures CanGenerate(Some("Microsoft.EntityFrameworkCore.SqlServer"))
  {
    var p := "Microsoft.EntityFrameworkCore.SqlServer";
    assert p[30..39] == "SqlServer";
    assert Text.MatchesAtIgnoreCase(p, ProviderMarker, 30);
  }

  /** The marker is found in any letter case. */
  lemma RecognisesAnyCase()
    ensures CanGenerate(Some("sqlserver"))
  {
    var p := "sqlserver";
    assert p[0..9] == p;
    Text.SameUpper(p, ProviderMarker);
    assert Text.MatchesAtIgnoreCase(p, ProviderMarker, 0);
  }

  /** The Oracle provider of EF Core is not recognised. */
  lemma RejectsOracleProvider()
    ensures !CanGenerate(Some("Oracle.EntityFrameworkCore"))
  {
    var p := "Oracle.EntityFrameworkCore";
    assert forall j | 0 <= j < |p| :: p[j] != 's' && p[j] != 'S';
    forall i | 0 <= i <= |p| - |ProviderMarker|
      ensures !Text.MatchesAtIgnoreCase(p, ProviderMarker, i)
    {
      if Text.MatchesAtIgnoreCase(p, ProviderMarker, i) {
        Text.MatchFirstChar(p, ProviderMarker, i);
      }
    }
  }

  /** A provider name shorter than the marker is never recognised. */
  lemma ShortNameNotRecognised(p: string)
    requires |p| < |ProviderMarker|
    ensures !CanGenerate(Some(p))
  {
  }
}
