/**
 * The NextPark data store: the five tables of the relational schema (motorcycles, parking
 * spaces, maintenance records, users and logins), each the sequence of its rows in primary-key
 * order, and the constraints the schema declares on them.
 */
module Store {
  import opened Wrappers
  import opened Rows

  /** A point in time, as the ticks of a C# DateTime. */
  type DateTime = int

  /** A row of TB_NEXTPARK_MOTO. */
  datatype Moto = Moto(idMoto: int, nrPlaca: string, nmModelo: string, stMoto: char, idVaga: int)

  /** A row of TB_NEXTPARK_VAGA. */
  datatype Vaga = Vaga(idVaga: int, areaVaga: string, stVaga: string, idPatio: int)

  /** A row of TB_NEXTPARK_MANUTENCAO: a maintenance record of one motorcycle. */
  datatype Manutencao = Manutencao(
    idManutencao: int,
    dsManutencao: Option<string>,
    dtInicio: Option<DateTime>,
    dtFim: Option<DateTime>,
    idMoto: int)

  /** A row of TB_NEXTPARK_USUARIO. */
  datatype Usuario = Usuario(idUsuario: int, nrEmail: string)

  /** A row of TB_NEXTPARK_LOGIN: the stored credential of a user. */
  datatype Login = Login(idLogin: int, idUsuario: int, nrEmail: string, dsSenha: string)

  /** The exception an action lets escape; the host turns it into a server error. */
  datatype Error =
    | ForeignKeyViolation   // DbUpdateException: a row another table refers to with ON DELETE RESTRICT
    | ConcurrencyFailure    // DbUpdateConcurrencyException: an update that matched no row
    | DuplicateKey          // DbUpdateException: a primary-key or unique-index violation
    | InvalidPassword       // ArgumentException from PasswordHasher.HashPassword

  function MotoKey(m: Moto): int { m.idMoto }
  function VagaKey(v: Vaga): int { v.idVaga }
  function ManutencaoKey(m: Manutencao): int { m.idManutencao }
  function UsuarioKey(u: Usuario): int { u.idUsuario }
  function LoginKey(l: Login): int { l.idLogin }

  /** The contents of every table at one moment, each in primary-key order. */
  datatype Tables = Tables(
    motos: seq<Moto>,
    vagas: seq<Vaga>,
    manutencoes: seq<Manutencao>,
    usuarios: seq<Usuario>,
    logins: seq<Login>)

  /** Every table is in strictly ascending primary-key order, so no key occurs twice. */
  predicate KeysOrdered(t: Tables) {
    && Ordered(t.motos, MotoKey)
    && Ordered(t.vagas, VagaKey)
    && Ordered(t.manutencoes, ManutencaoKey)
    && Ordered(t.usuarios, UsuarioKey)
    && Ordered(t.logins, LoginKey)
  }

  /** The foreign key MANUTENCAO.ID_MOTO -> MOTO. */
  predicate MaintenanceOfKnownMotos(t: Tables) {
    forall i | 0 <= i < |t.manutencoes| :: HasKey(t.motos, MotoKey, t.manutencoes[i].idMoto)
  }

  /**
   * The foreign key LOGIN.ID_USUARIO -> USUARIO, with the agreement registration establishes:
   * a login carries the e-mail address of its user.
   */
  predicate LoginsOfKnownUsers(t: Tables) {
    forall i | 0 <= i < |t.logins| ::
      Find(t.usuarios, UsuarioKey, t.logins[i].idUsuario) == Some(Usuario(t.logins[i].idUsuario, t.logins[i].nrEmail))
  }

  /** The unique indexes on USUARIO.NR_EMAIL and LOGIN.NR_EMAIL. */
  predicate EmailsUnique(t: Tables) {
    && (forall i, j | 0 <= i < j < |t.usuarios| :: t.usuarios[i].nrEmail != t.usuarios[j].nrEmail)
    && (forall i, j | 0 <= i < j < |t.logins| :: t.logins[i].nrEmail != t.logins[j].nrEmail)
  }

  /** The invariant every action of the API keeps. */
  predicate Consistent(t: Tables) {
    KeysOrdered(t) && MaintenanceOfKnownMotos(t) && LoginsOfKnownUsers(t) && EmailsUnique(t)
  }

  /** Some user has this e-mail address. */
  predicate UserEmailTaken(usuarios: seq<Usuario>, email: string) {
    exists i | 0 <= i < |usuarios| :: usuarios[i].nrEmail == email
  }

  /** Some login has this e-mail address. */
  predicate LoginEmailTaken(logins: seq<Login>, email: string) {
    exists i | 0 <= i < |logins| :: logins[i].nrEmail == email
  }

  /** Some maintenance record refers to motorcycle id. */
  predicate MotoReferenced(manutencoes: seq<Manutencao>, id: int) {
    exists i | 0 <= i < |manutencoes| :: manutencoes[i].idMoto == id
  }

  /**
   * NextParkContext: the EF Core unit of work. The provider name is fixed when the context is
   * configured; the tables are what the database holds.
   */
  class NextParkContext {
    const providerName: Option<string>
    var motos: seq<Moto>
    var vagas: seq<Vaga>
    var manutencoes: seq<Manutencao>
    var usuarios: seq<Usuario>
    var logins: seq<Login>

    constructor(providerName: Option<string>, t: Tables)
      ensures this.providerName == providerName
      ensures State() == t
    {
      this.providerName := providerName;
      motos, vagas, manutencoes, usuarios, logins := t.motos, t.vagas, t.manutencoes, t.usuarios, t.logins;
    }

    /** Rolls the tables back to what they held when the transaction began. */
    method Rollback(snapshot: Tables)
      modifies this
      ensures State() == snapshot
    {
      motos, vagas, manutencoes, usuarios, logins :=
        snapshot.motos, snapshot.vagas, snapshot.manutencoes, snapshot.usuarios, snapshot.logins;
    }

    /** All tables at once. */
    function State(): Tables
      reads this
    {
      Tables(motos, vagas, manutencoes, usuarios, logins)
    }
  }
}
