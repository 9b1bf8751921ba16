# NextPark API — a verified model of its core

NextPark is an ASP.NET Core API that manages a motorcycle yard. It has five tables:
- motorcycles (`TB_NEXTPARK_MOTO`);
- parking spaces (`TB_NEXTPARK_VAGA`);
- maintenance records (`TB_NEXTPARK_MANUTENCAO`);
- users (`TB_NEXTPARK_USUARIO`);
- their credentials (`TB_NEXTPARK_LOGIN`).

This project models the core of the API in Dafny and proves what that core promises:

- **The Oracle primary-key generator.**
  - It builds an ordered, duplicate-free list of sequence names from four sources: caller hints, six names derived from the table name, and the `USER_SEQUENCES` catalog filtered with `LIKE`.
  - It then sends `NEXTVAL` to each name until one yields a value. ORA-02289, ORA-00942 and NULL are skipped; any other error propagates.
  - Otherwise it falls back to `NVL(MAX(column), 0) + 1`.
  - A blank connection string is a configuration error.
- **The SQL Server key generator.** It recognises the provider by a case-insensitive substring test and never supplies a key.
- **The password credential format.**
  - The stored form is `base64(salt) + "." + base64(key)`, with a 16-byte salt and a 32-byte PBKDF2-HMAC-SHA256 key (section 5.2 of RFC 8018).
  - Base 64 follows section 4 of RFC 4648 and has a proved round trip.
  - Verification parses the stored form and compares keys; it has three distinct `false` exits.
- **Registration and login.**
  - Registration is a conflict check followed by two inserts in one transaction, which is rolled back on any exception.
  - Login looks the credential up by e-mail address. An unknown address and a wrong password get the same Unauthorized answer.
- **Paging and hypermedia.**
  - `TotalPages` is a ceiling division.
  - A page is a Skip/Take slice of the rows in key order.
  - `previous` appears exactly past the first page and `next` exactly before the last.
  - A link is added only for a usable URL.
- **The CRUD controllers** for maintenance records, motorcycles (unversioned and versioned routes) and parking spaces. The model captures:
  - the foreign-key check;
  - the id-mismatch check;
  - the order of the checks;
  - the exceptions that escape;
  - what changes and what does not.

## How the model is organised

One module per component:
- `Text`: the .NET string operations used, over ASCII.
- `Base64`, `PasswordHasher`.
- `OracleDatabase`: what the generator's three queries see.
- `OraclePrimaryKeyGenerator`, `SqlServerPrimaryKeyGenerator`.
- `Responses`: `PagedResponse`, `ResourceResponse` and the link list.
- `Hypermedia`, `Paging`.
- `Rows`: a table as a sequence in key order.
- `Store`: entities, schema constraints and the `NextParkContext` class.
- `ActionResults`.
- One module per controller.

**The database and its state.**
- The database is an explicit state. The Oracle server is a class whose `database` changes when `NEXTVAL` advances a sequence. The EF Core context is a class whose table fields the controller methods reassign.
- Each table is a sequence of rows in strictly ascending primary-key order. The context's state therefore never holds two rows with one key, and `OrderBy(id)` is the stored order.
- The invariant `Store.Consistent` collects what every action keeps:
  - keys ordered;
  - the maintenance → motorcycle foreign key;
  - the login → user foreign key;
  - the unique e-mail indexes.

**Controller actions.** Every controller action has two parts:
- A specification function over the tables that returns the answer and the tables after. Its `*Contract` lemma proves:
  - when each answer occurs (as an if-and-only-if);
  - that nothing else changes;
  - what the key finds afterwards;
  - that `Consistent` is preserved.
- A method of the controller class whose postcondition is that function.

**Imperative parts of the Oracle generator.** The candidate builder and the probe loop are methods with loops. Each is proved equal to a recursive specification function. The properties of that function are lemmas.

## Model

| member | source | states |
|---|---|---|
| OraclePrimaryKeyGenerator.Generate | NextParkAPI/Utils/OraclePrimaryKeyGenerator.cs:18-33 | a null, empty or white-space connection string is a configuration error; any other gives the probe-then-fallback result |
| OraclePrimaryKeyGenerator.GenerateAsync | NextParkAPI/Utils/OraclePrimaryKeyGenerator.cs:18-33 | result as Generate; with a blank connection string the server is untouched and no NEXTVAL is sent, otherwise the database and the NEXTVAL log are those of the probe |
| OraclePrimaryKeyGenerator.GenerateWithConnection | NextParkAPI/Utils/OraclePrimaryKeyGenerator.cs:35-53 | the foreach with early return yields the first value or error of the candidates, else the fallback; NEXTVAL is sent for exactly the candidates up to and including the first value or error, and only the sequence that gave the value advances |
| OraclePrimaryKeyGenerator.ProbeCandidates | NextParkAPI/Utils/OraclePrimaryKeyGenerator.cs:43-50 | the foreach issues NEXTVAL for each candidate in order and stops at the first value or error: its outcome is that of ProbeFrom on the database before the loop, the log grows by exactly the names probed, and only a sequence that gave the value advances |
| OraclePrimaryKeyGenerator.ProbeStep | NextParkAPI/Utils/OraclePrimaryKeyGenerator.cs:45-49 | one iteration: a value or an error ends the probe at that index, a miss moves on to the next candidate and leaves the database as it was |
| OraclePrimaryKeyGenerator.ProbeFrom | NextParkAPI/Utils/OraclePrimaryKeyGenerator.cs:43-50 | a hit is at the first candidate that yields a value, every earlier one yielding none; a fatal error likewise; exhaustion exactly when no candidate yields a value |
| OraclePrimaryKeyGenerator.BuildSequenceCandidates | NextParkAPI/Utils/OraclePrimaryKeyGenerator.cs:55-118 | the list built by the hint loop, the six derived names and the catalog loop equals Candidates: AddCandidate applied to hints, derived names, then catalog rows, in that order |
| OraclePrimaryKeyGenerator.CandidateList.Add | NextParkAPI/Utils/OraclePrimaryKeyGenerator.cs:63-75 | a blank name is dropped; a name is trimmed and upper-cased and appended only when no accepted name equals it ignoring case; the seen set keeps exactly the accepted names |
| OraclePrimaryKeyGenerator.CandidateList.constructor | NextParkAPI/Utils/OraclePrimaryKeyGenerator.cs:60-61 | the list and the seen set start empty |
| OraclePrimaryKeyGenerator.CandidatesProperties | NextParkAPI/Utils/OraclePrimaryKeyGenerator.cs:60-75 | the candidates are exactly the normalised non-blank sources, no two equal ignoring case, each non-empty, upper case and trimmed, in order of first occurrence among the sources |
| OraclePrimaryKeyGenerator.AddAllIsDedup | NextParkAPI/Utils/OraclePrimaryKeyGenerator.cs:63-75 | applying AddCandidate name by name from an empty list keeps the first occurrence of each normalised non-blank name |
| OraclePrimaryKeyGenerator.NormalizeWellFormed | NextParkAPI/Utils/OraclePrimaryKeyGenerator.cs:65-70 | a name is blank exactly when Trim().ToUpperInvariant() leaves nothing; a non-blank name normalises to a non-empty, upper-case, trimmed name |
| OraclePrimaryKeyGenerator.FirstHintFirst | NextParkAPI/Utils/OraclePrimaryKeyGenerator.cs:77-83 | a non-blank first hint, normalised, is the first candidate |
| OraclePrimaryKeyGenerator.TableSuffix | NextParkAPI/Utils/OraclePrimaryKeyGenerator.cs:89-91 | the table name is TB_ followed by the suffix when it starts with TB_ (ordinal), and the suffix is the table name otherwise |
| OraclePrimaryKeyGenerator.DerivedNamesOfMotoTable | NextParkAPI/Utils/OraclePrimaryKeyGenerator.cs:85-96 | TB_MOTO yields TB_MOTO_SEQ, SEQ_TB_MOTO, MOTO_SEQ, SEQ_MOTO, SEQ_NEXTPARK_MOTO, NEXTPARK_MOTO_SEQ in that order |
| OraclePrimaryKeyGenerator.DerivedNamesWellFormed | NextParkAPI/Utils/OraclePrimaryKeyGenerator.cs:85-96 | the six derived names are non-empty, upper case and trimmed unless stripping TB_ leaves white space at the front of the suffix |
| OraclePrimaryKeyGenerator.MotoDerivedNamesNormalized | NextParkAPI/Utils/OraclePrimaryKeyGenerator.cs:85-96 | the six names derived from TB_MOTO are distinct and already normalised |
| OraclePrimaryKeyGenerator.CandidatesOfMotoTable | NextParkAPI/Utils/OraclePrimaryKeyGenerator.cs:77-115 | with no hints and no catalog rows, the candidates for TB_MOTO are the six derived names in order |
| OraclePrimaryKeyGenerator.CatalogFindsContaining | NextParkAPI/Utils/OraclePrimaryKeyGenerator.cs:101-108 | a catalog sequence whose name contains the normalised table name is among the rows of the catalog query |
| OracleDatabase.LikeWildcard | NextParkAPI/Utils/OraclePrimaryKeyGenerator.cs:104-108 | '_' in the table pattern matches any character: TBXMOTO_SEQ matches %TB_MOTO%, so the filter is not substring containment |
| OracleDatabase.ContainsLike | NextParkAPI/Utils/OraclePrimaryKeyGenerator.cs:104-108 | a name containing the needle matches '%' + needle + '%' |
| OracleDatabase.SelectSequenceNames | NextParkAPI/Utils/OraclePrimaryKeyGenerator.cs:101-108 | the query rows are catalog names matching one of the two patterns, and every matching catalog name is among them |
| OracleDatabase.SelectKeepsOrder | NextParkAPI/Utils/OraclePrimaryKeyGenerator.cs:105 | rows of a catalog listed in name order stay in name order |
| OracleDatabase.NextVal | NextParkAPI/Utils/OraclePrimaryKeyGenerator.cs:123-127 | a name that is not a schema object fails with ORA-02289; a value comes only from a sequence |
| OracleDatabase.AfterNextVal | NextParkAPI/Utils/OraclePrimaryKeyGenerator.cs:123-127 | a NEXTVAL that yields a value advances that sequence by its increment; any other leaves the database unchanged |
| OracleDatabase.OracleServer.ExecuteNextVal | NextParkAPI/Utils/OraclePrimaryKeyGenerator.cs:127 | answers NextVal on the old database, moves to AfterNextVal and logs the name |
| OraclePrimaryKeyGenerator.TryNext | NextParkAPI/Utils/OraclePrimaryKeyGenerator.cs:120-134 | classifies the NEXTVAL result: a value exactly when NEXTVAL yields one, and that value; no value exactly for NULL, ORA-02289 or ORA-00942; failure exactly for any other Oracle error, carrying its number |
| OraclePrimaryKeyGenerator.TryNextOfSchema | NextParkAPI/Utils/OraclePrimaryKeyGenerator.cs:120-134 | by schema object: a sequence gives its next value, a NULL query gives none, an object failing with 2289 or 942 gives none, and one failing with another number ends generation with that error |
| OraclePrimaryKeyGenerator.TryGetNextSequenceValue | NextParkAPI/Utils/OraclePrimaryKeyGenerator.cs:120-134 | a value is returned; NULL, ORA-02289 and ORA-00942 give no value; any other Oracle error propagates; the server changes as one NEXTVAL |
| OraclePrimaryKeyGenerator.MissingSequenceSkipped | NextParkAPI/Utils/OraclePrimaryKeyGenerator.cs:130-133 | a candidate that names no schema object counts as no value, so the probe moves on |
| OracleDatabase.MaxOrZero | NextParkAPI/Utils/OraclePrimaryKeyGenerator.cs:139 | NVL(MAX(values), 0): 0 for no values, otherwise a value that bounds all others |
| OracleDatabase.SelectNextKey | NextParkAPI/Utils/OraclePrimaryKeyGenerator.cs:139-141 | the fallback query succeeds exactly when the table exists and has the column, giving the column maximum plus one (0 + 1 when empty); a missing table fails with ORA-00942, a missing column of an existing table with ORA-00904 |
| OraclePrimaryKeyGenerator.Fallback | NextParkAPI/Utils/OraclePrimaryKeyGenerator.cs:136-148 | for an existing column the key exceeds every stored key, is the maximum plus one for a non-empty table and 1 for an empty one; a missing table propagates ORA-00942 and a missing column ORA-00904, both uncaught |
| OraclePrimaryKeyGenerator.GenerateFromTable | NextParkAPI/Utils/OraclePrimaryKeyGenerator.cs:136-148 | the method returns Fallback |
| OraclePrimaryKeyGenerator.FirstHintWins | NextParkAPI/Utils/OraclePrimaryKeyGenerator.cs:43-50 | a first hint naming a sequence gives that sequence's next value, and no other name is probed |
| OraclePrimaryKeyGenerator.FallbackWhenNoSequence | NextParkAPI/Utils/OraclePrimaryKeyGenerator.cs:43-52 | when no candidate names a sequence, the key is the fallback, every candidate was probed and no sequence moved |
| OraclePrimaryKeyGenerator.GeneratedKeyOrigin | NextParkAPI/Utils/OraclePrimaryKeyGenerator.cs:43-52 | a generated key is the value of the first candidate that yielded one, or, when none did, exceeds every stored key |
| SqlServerPrimaryKeyGenerator.CanGenerate | Utils/SqlServerPrimaryKeyGenerator.cs:9-10 | true exactly when the provider name is present and contains "SqlServer" ignoring case; false for a null name |
| SqlServerPrimaryKeyGenerator.GenerateAsync | Utils/SqlServerPrimaryKeyGenerator.cs:12-25 | no key for any provider, table, column or candidate list; the context is only read |
| SqlServerPrimaryKeyGenerator.RecognisesSqlServerProvider | Utils/SqlServerPrimaryKeyGenerator.cs:9-10 | Microsoft.EntityFrameworkCore.SqlServer is recognised |
| SqlServerPrimaryKeyGenerator.RecognisesAnyCase | Utils/SqlServerPrimaryKeyGenerator.cs:9-10 | the marker is found in lower case too |
| SqlServerPrimaryKeyGenerator.RejectsOracleProvider | Utils/SqlServerPrimaryKeyGenerator.cs:9-10 | Oracle.EntityFrameworkCore is not recognised |
| SqlServerPrimaryKeyGenerator.ShortNameNotRecognised | Utils/SqlServerPrimaryKeyGenerator.cs:9-10 | a provider name shorter than the marker is never recognised |
| Text.IndexOfIgnoreCase | Utils/SqlServerPrimaryKeyGenerator.cs:10 | the first position where the needle matches ignoring case, and -1 exactly when there is none |
| Text.TrimFactor | NextParkAPI/Utils/OraclePrimaryKeyGenerator.cs:70 | Trim keeps a factor of the string with only white space cut from either end, and is empty exactly for a blank string |
| Text.SplitJoin | NextParkAPI/Utils/PasswordHasher.cs:34-38 | two separator-free strings joined with '.' split back into exactly those two parts |
| Text.SplitCount | NextParkAPI/Utils/PasswordHasher.cs:34-35 | Split yields one more part than there are separators |
| Base64.DecodeEncode | NextParkAPI/Utils/PasswordHasher.cs:42-43 | Convert.FromBase64String inverts Convert.ToBase64String |
| Base64.EncodeAlphabet | NextParkAPI/Utils/PasswordHasher.cs:24 | an encoding has a length divisible by four and contains neither '.' nor white space |
| Base64.EncodeLength | NextParkAPI/Utils/PasswordHasher.cs:24 | four characters per three bytes or part of them |
| Base64.EncodeInjective | NextParkAPI/Utils/PasswordHasher.cs:24 | different byte strings have different encodings |
| Base64.SymbolValue | NextParkAPI/Utils/PasswordHasher.cs:42-43 | a character outside the alphabet has no value; a value maps back to its character |
| PasswordHasher.HashPassword | NextParkAPI/Utils/PasswordHasher.cs:12-25 | fails exactly for a blank password; otherwise splits at '.' into base64(salt) and base64(key) |
| PasswordHasher.StoredForm | NextParkAPI/Utils/PasswordHasher.cs:8-24 | the stored form has two parts that decode to the 16-byte salt and to the 32-byte derived key |
| PasswordHasher.VerifyPassword | NextParkAPI/Utils/PasswordHasher.cs:27-51 | false for a blank stored hash, for one without exactly two '.'-separated parts, and for a part that is not base 64; otherwise true exactly when the stored key equals the key derived from the password and the stored salt |
| PasswordHasher.VerifyHashed | NextParkAPI/Utils/PasswordHasher.cs:42-45 | a candidate verifies against a stored hash exactly when it derives the same key from the stored salt |
| PasswordHasher.VerifyOwnHash | NextParkAPI/Utils/PasswordHasher.cs:23-45 | a password verifies against its own hash |
| Responses.CeilDiv | NextParkAPI/Models/Responses/PagedResponse.cs:15 | the ceiling of count / pageSize: (pages - 1) * pageSize < count <= pages * pageSize |
| Responses.TotalPages | NextParkAPI/Models/Responses/PagedResponse.cs:15 | 0 for a non-positive page size, otherwise the ceiling of totalCount / pageSize |
| Responses.TotalPagesUnique | NextParkAPI/Models/Responses/PagedResponse.cs:15 | the ceiling bounds determine TotalPages |
| Responses.TotalPagesOfCount | NextParkAPI/Models/Responses/PagedResponse.cs:15 | no pages exactly for an empty collection; at most one when it fits in one page |
| Responses.PagedResponse.constructor | NextParkAPI/Models/Responses/PagedResponse.cs:9-17 | items, total count, page number and page size stored unchanged, TotalPages computed, links empty |
| Responses.ResourceResponse.constructor | Models/Responses/ResourceResponse.cs:7-11 | the data stored unchanged, links empty |
| Responses.LinkList.Add | Controllers/ManutencaoController.cs:186-191 | the link is appended |
| Paging.Skip | Controllers/ManutencaoController.cs:49 | the rows after the first count, all rows for a non-positive count |
| Paging.Take | Controllers/ManutencaoController.cs:49 | the first count rows, all rows when there are fewer |
| Paging.Page | Controllers/ManutencaoController.cs:47-49 | at most pageSize rows, the rows from position (pageNumber - 1) * pageSize on, as many as remain |
| Paging.RowOnItsPage | Controllers/ManutencaoController.cs:47-49 | every row is on the page its position gives, and that page is one of the TotalPages pages |
| Paging.PageNonEmpty | Controllers/ManutencaoController.cs:47-51 | a page has rows exactly when its number is at most TotalPages |
| Paging.PageBeforeLastIsFull | Controllers/ManutencaoController.cs:47-51 | every page before the last holds pageSize rows |
| Paging.PageOrdered | Controllers/ManutencaoController.cs:47-49 | a page of rows in key order is in key order |
| Hypermedia.LinkFor | Controllers/ManutencaoController.cs:182-193 | one link with the href, relation and method exactly when the href is neither null nor blank, none otherwise |
| Hypermedia.AddLink | Controllers/ManutencaoController.cs:182-193 | appends LinkFor to the list |
| Hypermedia.CollectionLinkRels | Controllers/ManutencaoController.cs:151-165 | self and create present exactly with a usable href; previous exactly past the first page; next exactly before the last page |
| Hypermedia.CollectionLinkOrder | Controllers/ManutencaoController.cs:151-165 | with usable hrefs the relations come as self, previous, next, create |
| Hypermedia.ResourceLinksComplete | Controllers/ManutencaoController.cs:170-177 | with usable hrefs a resource carries self/GET, update/PUT, delete/DELETE in that order |
| Hypermedia.LinksAreUsable | Controllers/ManutencaoController.cs:182-193 | no link carries a blank href |
| Rows.Find | Controllers/ManutencaoController.cs:69 | a row is found exactly when one has the key, and it is a stored row with that key |
| Rows.FindInOrdered | Controllers/ManutencaoController.cs:141 | in a key-ordered table a stored row's key finds that row |
| Rows.CountKey | NextParkAPI/Controllers/MotoController.cs:92 | the count of rows with the key is positive exactly when a row has it |
| Rows.CountKeyOrdered | NextParkAPI/Controllers/MotoController.cs:92 | in a key-ordered table at most one row has a key |
| Rows.Insert | Controllers/ManutencaoController.cs:93-94 | the table grows by exactly the new row |
| Rows.InsertOrdered | Controllers/ManutencaoController.cs:93-94 | inserting a row with a fresh key keeps the table in key order |
| Rows.InsertKeepsDistinct | MigrationsSqlServer/20250930190053_InitialSqlServer.cs:104-119 | inserting a row whose e-mail address is new keeps the addresses distinct |
| Rows.FindInsert | Controllers/ManutencaoController.cs:93-94 | after an insert, the new key finds the new row and every other key what it found before |
| Rows.Replace | Controllers/ManutencaoController.cs:124-125 | the row with the key is replaced, every other row kept in place |
| Rows.ReplaceOrdered | Controllers/ManutencaoController.cs:124-125 | a replacement keeps key order |
| Rows.FindReplace | Controllers/ManutencaoController.cs:124-125 | after a replacement the key finds the new row, every other key what it found before |
| Rows.Remove | Controllers/ManutencaoController.cs:143-144 | the rows without the key are kept and no row with it remains |
| Rows.RemoveOrdered | Controllers/ManutencaoController.cs:143-144 | a removal keeps key order |
| Rows.RemoveCount | Controllers/ManutencaoController.cs:143-144 | a removal shrinks the table by one exactly when the key was present |
| Rows.FindRemove | Controllers/ManutencaoController.cs:143-144 | after a removal the key finds nothing, every other key what it found before |
| Store.NextParkContext.Rollback | Controllers/AuthController.cs:62-66 | the tables return to the snapshot taken when the transaction began |
| ManutencaoController.CreateContract | Controllers/ManutencaoController.cs:85-97 | BadRequest exactly for an unknown motorcycle, changing nothing; otherwise only the maintenance table changes, by exactly the new record; tables stay consistent |
| ManutencaoController.UpdateContract | Controllers/ManutencaoController.cs:111-127 | NoContent exactly when the ids agree, the record exists and its motorcycle is known; then only that record changes, else nothing; tables stay consistent |
| ManutencaoController.DeleteContract | Controllers/ManutencaoController.cs:139-146 | NotFound exactly for an absent record, changing nothing; otherwise only that record is gone; tables stay consistent |
| ManutencaoController.ListingOrdered | Controllers/ManutencaoController.cs:47 | a page lists records in ascending IdManutencao |
| ManutencaoController.ManutencaoController.GetManutencoes | Controllers/ManutencaoController.cs:40-55 | BadRequest with the paging message for a non-positive page number or size; otherwise the page, the table size, the page metadata and the collection links |
| ManutencaoController.ManutencaoController.GetManutencao | Controllers/ManutencaoController.cs:67-73 | NotFound for an absent id, otherwise the record with self, update and delete links |
| ManutencaoController.ManutencaoController.CreateManutencao | Controllers/ManutencaoController.cs:85-97 | answer and tables those of Create, the body a fresh envelope with the record's links |
| ManutencaoController.ManutencaoController.UpdateManutencao | Controllers/ManutencaoController.cs:111-127 | answer and tables those of Update: mismatch, then absence, then unknown motorcycle |
| ManutencaoController.ManutencaoController.DeleteManutencao | Controllers/ManutencaoController.cs:139-146 | answer and tables those of Delete |
| ManutencaoController.ManutencaoController.AddCollectionLinks | Controllers/ManutencaoController.cs:151-165 | appends exactly the collection links of the page |
| ManutencaoController.ManutencaoController.CreateResourceResponse | Controllers/ManutencaoController.cs:170-177 | a fresh envelope with the record and its self, update and delete links |
| MotoController.CreateContract | Controllers/MotoController.cs:85-91 | creation always succeeds and changes only the motorcycle table, by exactly the new row; tables stay consistent |
| MotoController.UpdateContract | Controllers/MotoController.cs:105-113 | BadRequest exactly on an id mismatch, checked before existence; NoContent exactly when the ids agree and the motorcycle exists, then only that row changes |
| MotoController.DeleteContract | Controllers/MotoController.cs:125-132 | NotFound exactly for an absent id; a motorcycle with maintenance records makes the save throw and nothing changes; otherwise only that row is gone; tables stay consistent |
| MotoController.ListingOrdered | Controllers/MotoController.cs:47 | a page lists motorcycles in ascending IdMoto |
| MotoController.MotoController.GetMotos | Controllers/MotoController.cs:40-55 | BadRequest for a non-positive page number or size; otherwise the page, the table size, the page metadata and the collection links |
| MotoController.MotoController.GetMoto | Controllers/MotoController.cs:67-73 | NotFound for an absent id, otherwise the motorcycle with its links |
| MotoController.MotoController.CreateMoto | Controllers/MotoController.cs:85-91 | answer and tables those of Create, the body a fresh envelope with the motorcycle's links |
| MotoController.MotoController.UpdateMoto | Controllers/MotoController.cs:105-113 | answer and tables those of Update |
| MotoController.MotoController.DeleteMoto | Controllers/MotoController.cs:125-132 | answer and tables those of Delete |
| MotoController.MotoController.AddCollectionLinks | Controllers/MotoController.cs:137-151 | appends exactly the collection links of the page |
| MotoController.MotoController.CreateResourceResponse | Controllers/MotoController.cs:156-163 | a fresh envelope with the motorcycle and its self, update and delete links |
| VersionedMotoController.CurrentApiVersion | NextParkAPI/Controllers/MotoController.cs:156-159 | the requested version, or "1.0" when none was requested |
| VersionedMotoController.WithVersion | NextParkAPI/Controllers/MotoController.cs:117-138 | the route values carry the version and otherwise exactly the action's own values |
| VersionedMotoController.MotoController.GetMotos | NextParkAPI/Controllers/MotoController.cs:34-49 | BadRequest for a non-positive page number or size; otherwise the page, table size, page metadata and versioned collection links |
| VersionedMotoController.MotoController.GetMoto | NextParkAPI/Controllers/MotoController.cs:57-63 | NotFound for an absent id, otherwise the motorcycle with its versioned links |
| VersionedMotoController.MotoController.CreateMoto | NextParkAPI/Controllers/MotoController.cs:71-80 | the tables of the shared Create; the location names GetMoto with the current version and the new id |
| VersionedMotoController.MotoController.UpdateMoto | NextParkAPI/Controllers/MotoController.cs:89-97 | answer and tables those of the shared Update, existence decided by a count of the id greater than zero |
| VersionedMotoController.MotoController.DeleteMoto | NextParkAPI/Controllers/MotoController.cs:105-112 | answer and tables those of the shared Delete |
| VersionedMotoController.MotoController.AddCollectionLinks | NextParkAPI/Controllers/MotoController.cs:114-129 | appends exactly the collection links, every URL carrying the version |
| VersionedMotoController.MotoController.CreateResourceResponse | NextParkAPI/Controllers/MotoController.cs:132-140 | a fresh envelope with the motorcycle and its versioned links |
| VagaController.CreateContract | Controllers/VagaController.cs:34-39 | creation always succeeds and changes only the space table, by exactly the new row |
| VagaController.UpdateContract | Controllers/VagaController.cs:42-48 | BadRequest exactly on an id mismatch; an absent space makes the save throw a concurrency exception and nothing changes; otherwise only that row changes |
| VagaController.DeleteContract | Controllers/VagaController.cs:51-58 | NotFound exactly for an absent space; otherwise only that row is gone |
| VagaController.VagaController.GetVagas | Controllers/VagaController.cs:20-23 | every stored space |
| VagaController.VagaController.GetVaga | Controllers/VagaController.cs:26-31 | NotFound for an absent id, otherwise the stored space with that id |
| VagaController.VagaController.CreateVaga | Controllers/VagaController.cs:34-39 | answer and tables those of Create |
| VagaController.VagaController.UpdateVaga | Controllers/VagaController.cs:42-48 | answer and tables those of Update |
| VagaController.VagaController.DeleteVaga | Controllers/VagaController.cs:51-58 | answer and tables those of Delete |
| AuthController.RegisterContract | Controllers/AuthController.cs:25-67 | with fresh keys: Conflict exactly for a taken address; the exception exactly for a blank password, with the tables rolled back; otherwise one user and one credential with that user's id, the address and the password hash, and nothing else; tables stay consistent |
| AuthController.RegisterOutcome | Controllers/AuthController.cs:25-67 | Conflict exactly for a taken address; then the first SaveChanges throws for a taken user key, HashPassword throws for a blank password and the second SaveChanges throws for a taken credential key or address, each leaving the tables as they were; CreatedAt exactly when none of these applies, and then exactly the user and its credential with the password hash are inserted |
| AuthController.TakenUserIdRefused | Controllers/AuthController.cs:40-41 | a user key already present makes the first SaveChanges throw for a new address, never yields CreatedAt, and changes no table |
| AuthController.AuthController.Register | Controllers/AuthController.cs:25-67 | answer and tables those of RegisterOutcome, including the duplicate-key exception for a taken user key, with the credential key the store assigns |
| AuthController.RegisterAsWritten | Controllers/AuthController.cs:43-48 | registration with the credential key left at its default 0 |
| AuthController.SecondRegistrationFails | Controllers/AuthController.cs:43-51 | once a credential has key 0, registering a new address throws on the duplicate key and changes nothing |
| AuthController.OnlyOneUserCanRegister | Controllers/AuthController.cs:43-66 | as written, the first registration succeeds and a second, different one is refused and rolled back |
| AuthController.LoginEmailIsUserEmail | Controllers/AuthController.cs:43-47 | in a consistent store every credential address is a user address |
| AuthController.UserEmailTakenInsert | Controllers/AuthController.cs:27 | after adding a user an address is taken exactly when it was before or is the new one |
| AuthController.AddUserKeepsConsistent | Controllers/AuthController.cs:40-51 | adding a user with a fresh key and address and its credential keeps the tables consistent |
| AuthController.FindByEmail | Controllers/AuthController.cs:75-77 | nothing exactly when no credential has the address; otherwise a stored credential with it |
| AuthController.FindByEmailUnique | Controllers/AuthController.cs:75-77 | with unique addresses the lookup finds the one credential with the address |
| AuthController.SignIn | Controllers/AuthController.cs:73-96 | every failure is Unauthorized with the one message; success exactly when the address is known and the password verifies, answering with that credential's user and address |
| AuthController.AuthController.Login | Controllers/AuthController.cs:73-96 | the answer is SignIn on the current tables |
| AuthController.RegisterThenLogin | Controllers/AuthController.cs:43-47 | after a successful registration, logging in with the same address and password answers with the new user's id |
| AuthController.RegisterThenWrongPassword | Controllers/AuthController.cs:84-88 | after registration, a password deriving a different key is refused |

## Left out

- Asynchrony and real I/O are not modelled. EF Core, Oracle connections, `ExecuteScalarAsync`, `SaveChangesAsync` and the transaction calls become explicit state and outcome datatypes.
- SQL text built by string interpolation (`SELECT {name}.NEXTVAL`, the fallback query) is modelled by its effect only. Injection and quoting are out of scope.
- `Convert.ToInt32` overflow of a sequence value or of the fallback key is not modelled: integers are unbounded.
- The 32-bit product `(pageNumber - 1) * pageSize` in the listings is taken as unbounded. Its wrap-around for huge page numbers is not modelled.
- Concurrency is not modelled, because it needs several processes:
  - the race between two `MAX + 1` fallbacks;
  - the e-mail check at Controllers/AuthController.cs:27, which runs before the transaction.
- PBKDF2-HMAC-SHA256 is a parameter: any function that yields 32 bytes. The random salt is an input of 16 bytes. The constant-time behaviour of `FixedTimeEquals` is not modelled, only its result.
- `Url.Action` is a parameter that may return no URL or a blank one. The `CreatedAtAction` location header is represented by the action name and route values.
- Ids of new rows come from a key parameter (`newId`, `userId`, `loginId`) instead of the store's identity columns. The controllers require `newId` to be fresh. For registration, a taken `userId` or `loginId` is modelled as the duplicate-key exception of `SaveChanges`. This covers:
  - explicit non-zero keys posted to identity columns;
  - the users table being declared identity in Models/Usuario.cs:12 but not in MigrationsSqlServer/20250930190053_InitialSqlServer.cs:34.
- E-mail comparison is exact string equality. Database collation and non-ASCII case folding are not modelled; the .NET string operations are modelled over ASCII.
- Column length limits (`MaxLength`) are not modelled.
- VagaController.VagaController.GetVagas: returns the rows in key order, while `ToListAsync` without `OrderBy` leaves the order to the database.
- The Oracle catalog rows are taken to be in the order `ORDER BY SEQUENCE_NAME` gives. The fallback query uses the table and column names as given, with no case folding.
- A DbSet is modelled as a sequence of rows in ascending key order rather than a map. Lookups, inserts, replacements and removals are proved to act on keys as a map would.
- The model of the SQL Server generator's `GenerateAsync` is a function, since it performs no update. The context's provider name is a constant of the context class.
- Models/Moto.cs, Models/Vaga.cs and Models/Link.cs are not part of this model. Their fields are taken from the migrations and from the controllers' use of them.
- Out of scope:
  - application bootstrap (Program.cs, NextParkAPI/Program.cs);
  - token issuing (NextParkAPI/Utils/TokenService.cs);
  - Swagger configuration, the health check and the raw Oracle service;
  - the ML.NET maintenance predictor, which works on floating point;
  - the test projects.

## Findings

| source | as written | input that shows it | evidently intended | confidence | as-written member | corrected member |
|---|---|---|---|---|---|---|
| Controllers/AuthController.cs:43-48 | the new Login never gets an IdLogin. NextParkAPI/Models/Login.cs:9-12 declares the key not database-generated, and MigrationsSqlServer/20250930190053_InitialSqlServer.cs:83 gives ID_LOGIN no identity, so every credential is saved under key 0 | on a store with no credentials, register a@x with password "p", then b@x with password "q": the second SaveChanges violates the primary key of TB_NEXTPARK_LOGIN, the transaction rolls back and the exception escapes | every registration gets its own credential key, so any number of users can register and then log in | medium, not executed (a database-side trigger outside these files could still assign the key) | AuthController.OnlyOneUserCanRegister | AuthController.RegisterContract |
