/**
 * Registration and login. Registering stores a user and its credential (the salted password
 * hash) in one transaction; logging in looks the credential up by e-mail address and verifies
 * the password against it.
 *
 * The login row's key is never assigned by the code and the column is not generated by the
 * database, so as written every credential is stored under key 0: RegisterAsWritten and
 * SecondRegistrationFails show the consequence. The controller below takes the key from the
 * store, as a generated column would.
 */
module AuthController {
  import opened Wrappers
  import opened Rows
  import opened Store
  import opened ActionResults
  import Text
  import opened PasswordHasher

  /** The body of a registration or a login request. */
  datatype Credentials = Credentials(email: string, password: string)

  /** The body of a successful answer: message, usuarioId and email. */
  datatype UserReply = UserReply(message: string, usuarioId: int, email: string)

  const ConflictMessage: string := "E-mail já cadastrado."
  const InvalidCredentialsMessage: string := "E-mail ou senha inválidos."
  const RegisteredMessage: string := "Usuário registrado com sucesso."
  const LoggedInMessage: string := "Login realizado com sucesso."

  /** The key a new Login object carries: the default of an int, since Register never sets it. */
  const UnsetLoginId: int := 0

  /**
   * Register, with the user stored under key userId and the credential under key loginId. A
   * taken e-mail address is a conflict. Otherwise, inside the transaction: a user key already
   * present makes the first SaveChanges throw; a blank password makes HashPassword throw; a
   * credential key or e-mail address already present makes the second SaveChanges throw.
   * Each exception rolls the user back and escapes. Otherwise both rows are committed.
   */
  function RegisterOutcome(t: Tables, request: Credentials, userId: int, loginId: int,
                           salt: seq<byte>, deriveKey: KeyDerivation): (o: Outcome<UserReply>)
    requires |salt| == SaltSize
    ensures o.result == Conflict(ConflictMessage) <==> UserEmailTaken(t.usuarios, request.email)
    ensures o.result.CreatedAt? <==>
      && !UserEmailTaken(t.usuarios, request.email) && !HasKey(t.usuarios, UsuarioKey, userId)
      && !Text.IsBlank(request.password)
      && !HasKey(t.logins, LoginKey, loginId) && !LoginEmailTaken(t.logins, request.email)
    ensures !o.result.CreatedAt? ==> o.after == t
    ensures o.result.CreatedAt? ==>
      && o.result.value == UserReply(RegisteredMessage, userId, request.email)
      && o.after == t.(usuarios := Insert(t.usuarios, UsuarioKey, Usuario(userId, request.email)),
                       logins := Insert(t.logins, LoginKey,
                                        Login(loginId, userId, request.email, HashPassword(request.password, salt, deriveKey).value)))
  {
    if UserEmailTaken(t.usuarios, request.email) then Outcome(Conflict(ConflictMessage), t)
    else if HasKey(t.usuarios, UsuarioKey, userId) then Outcome(Thrown(DuplicateKey), t)
    else
      var hashed := HashPassword(request.password, salt, deriveKey);
      if hashed.Failure? then Outcome(Thrown(InvalidPassword), t)
      else if HasKey(t.logins, LoginKey, loginId) || LoginEmailTaken(t.logins, request.email) then
        Outcome(Thrown(DuplicateKey), t)
      else
        Outcome(CreatedAt("Register", map[], UserReply(RegisteredMessage, userId, request.email)),
                t.(usuarios := Insert(t.usuarios, UsuarioKey, Usuario(userId, request.email)),
                   logins := Insert(t.logins, LoginKey, Login(loginId, userId, request.email, hashed.value))))
  }

  /** Register as written: every credential goes under key 0. */
  function RegisterAsWritten(t: Tables, request: Credentials, userId: int,
                             salt: seq<byte>, deriveKey: KeyDerivation): Outcome<UserReply>
    requires |salt| == SaltSize
  {
    RegisterOutcome(t, request, userId, UnsetLoginId, salt, deriveKey)
  }

  /**
   * A user key already in the table makes the first SaveChanges throw: for a new address the
   * answer is the duplicate-key exception, and the tables are as they were.
   */
  lemma TakenUserIdRefused(t: Tables, request: Credentials, userId: int, loginId: int,
                           salt: seq<byte>, deriveKey: KeyDerivation)
    requires |salt| == SaltSize
    requires HasKey(t.usuarios, UsuarioKey, userId)
    ensures var o := RegisterOutcome(t, request, userId, loginId, salt, deriveKey);
      && (o.result == Thrown(DuplicateKey) <==> !UserEmailTaken(t.usuarios, request.email))
      && !o.result.CreatedAt?
      && o.after == t
  {
  }

  /** A login always carries the e-mail address of its user, so a login address is a user address. */
  lemma LoginEmailIsUserEmail(t: Tables, email: string)
    requires Consistent(t)
    ensures LoginEmailTaken(t.logins, email) ==> UserEmailTaken(t.usuarios, email)
  {
    forall i | 0 <= i < |t.logins| && t.logins[i].nrEmail == email
      ensures UserEmailTaken(t.usuarios, email)
    {
      var u := Find(t.usuarios, UsuarioKey, t.logins[i].idUsuario);
      var k :| 0 <= k < |t.usuarios| && t.usuarios[k] == u.value;
      assert t.usuarios[k].nrEmail == email;
    }
  }

  /** After adding a user, an address is taken exactly when it was taken before or is the new user's. */
  lemma UserEmailTakenInsert(usuarios: seq<Usuario>, u: Usuario, email: string)
    ensures UserEmailTaken(Insert(usuarios, UsuarioKey, u), email) <==> UserEmailTaken(usuarios, email) || u.nrEmail == email
  {
    var rows := Insert(usuarios, UsuarioKey, u);
    if UserEmailTaken(rows, email) {
      var i :| 0 <= i < |rows| && rows[i].nrEmail == email;
      assert rows[i] in multiset(rows);
      if rows[i] != u {
        assert rows[i] in multiset(usuarios);
        var k :| 0 <= k < |usuarios| && usuarios[k] == rows[i];
      }
    }
    if u.nrEmail == email {
      assert u in multiset(rows);
      var i :| 0 <= i < |rows| && rows[i] == u;
    }
    if UserEmailTaken(usuarios, email) {
      var k :| 0 <= k < |usuarios| && usuarios[k].nrEmail == email;
      assert usuarios[k] in multiset(rows);
      var i :| 0 <= i < |rows| && rows[i] == usuarios[k];
    }
  }

  /**
   * With fresh keys, registration answers Conflict exactly for a taken address, throws
   * exactly for a blank password (leaving the tables as they were), and otherwise stores the
   * user and its credential and nothing else; a duplicate-key failure cannot happen. The
   * tables stay consistent.
   */
  lemma RegisterContract(t: Tables, request: Credentials, userId: int, loginId: int,
                         salt: seq<byte>, deriveKey: KeyDerivation)
    requires Consistent(t) && |salt| == SaltSize
    requires !HasKey(t.usuarios, UsuarioKey, userId) && !HasKey(t.logins, LoginKey, loginId)
    ensures var o := RegisterOutcome(t, request, userId, loginId, salt, deriveKey);
      && (o.result == Conflict(ConflictMessage) <==> UserEmailTaken(t.usuarios, request.email))
      && (o.result == Thrown(InvalidPassword) <==>
            !UserEmailTaken(t.usuarios, request.email) && Text.IsBlank(request.password))
      && (o.result.CreatedAt? <==>
            !UserEmailTaken(t.usuarios, request.email) && !Text.IsBlank(request.password))
      && (!o.result.CreatedAt? ==> o.after == t)
      && (o.result.CreatedAt? ==>
            && o.result.value == UserReply(RegisteredMessage, userId, request.email)
            && o.after.motos == t.motos && o.after.vagas == t.vagas && o.after.manutencoes == t.manutencoes
            && |o.after.usuarios| == |t.usuarios| + 1 && |o.after.logins| == |t.logins| + 1
            && Find(o.after.usuarios, UsuarioKey, userId) == Some(Usuario(userId, request.email))
            && Find(o.after.logins, LoginKey, loginId)
               == Some(Login(loginId, userId, request.email, HashPassword(request.password, salt, deriveKey).value)))
      && Consistent(o.after)
  {
    LoginEmailIsUserEmail(t, request.email);
    var o := RegisterOutcome(t, request, userId, loginId, salt, deriveKey);
    if o.result.CreatedAt? {
      var user := Usuario(userId, request.email);
      var login := Login(loginId, userId, request.email, HashPassword(request.password, salt, deriveKey).value);
      FindInsert(t.usuarios, UsuarioKey, user, userId);
      FindInsert(t.logins, LoginKey, login, loginId);
      AddUserKeepsConsistent(t, user, login);
    }
  }

  /** Adding a user with a fresh key and address, and its credential, keeps the tables consistent. */
  lemma AddUserKeepsConsistent(t: Tables, user: Usuario, login: Login)
    requires Consistent(t)
    requires !HasKey(t.usuarios, UsuarioKey, user.idUsuario) && !HasKey(t.logins, LoginKey, login.idLogin)
    requires !UserEmailTaken(t.usuarios, user.nrEmail) && !LoginEmailTaken(t.logins, user.nrEmail)
    requires login.idUsuario == user.idUsuario && login.nrEmail == user.nrEmail
    ensures Consistent(t.(usuarios := Insert(t.usuarios, UsuarioKey, user), logins := Insert(t.logins, LoginKey, login)))
  {
    var us, ls := Insert(t.usuarios, UsuarioKey, user), Insert(t.logins, LoginKey, login);
    InsertOrdered(t.usuarios, UsuarioKey, user);
    InsertOrdered(t.logins, LoginKey, login);
    AddUserKeepsEmailsUnique(t, user, login);
    AddUserKeepsLoginsOfKnownUsers(t, user, login);
  }

  lemma AddUserKeepsEmailsUnique(t: Tables, user: Usuario, login: Login)
    requires EmailsUnique(t)
    requires !UserEmailTaken(t.usuarios, user.nrEmail) && !LoginEmailTaken(t.logins, login.nrEmail)
    ensures EmailsUnique(t.(usuarios := Insert(t.usuarios, UsuarioKey, user), logins := Insert(t.logins, LoginKey, login)))
  {
    var userEmail := (u: Usuario) => u.nrEmail;
    var loginEmail := (l: Login) => l.nrEmail;
    assert DistinctBy(t.usuarios, userEmail);
    assert DistinctBy(t.logins, loginEmail);
    InsertKeepsDistinct(t.usuarios, UsuarioKey, user, userEmail);
    InsertKeepsDistinct(t.logins, LoginKey, login, loginEmail);
  }

  lemma AddUserKeepsLoginsOfKnownUsers(t: Tables, user: Usuario, login: Login)
    requires LoginsOfKnownUsers(t) && Ordered(t.usuarios, UsuarioKey)
    requires !HasKey(t.usuarios, UsuarioKey, user.idUsuario)
    requires login.idUsuario == user.idUsuario && login.nrEmail == user.nrEmail
    ensures LoginsOfKnownUsers(t.(usuarios := Insert(t.usuarios, UsuarioKey, user), logins := Insert(t.logins, LoginKey, login)))
  {
    var us, ls := Insert(t.usuarios, UsuarioKey, user), Insert(t.logins, LoginKey, login);
    forall i | 0 <= i < |ls|
      ensures Find(us, UsuarioKey, ls[i].idUsuario) == Some(Usuario(ls[i].idUsuario, ls[i].nrEmail))
    {
      FindInsert(t.usuarios, UsuarioKey, user, ls[i].idUsuario);
      assert ls[i] in multiset(ls);
      if ls[i] != login {
        assert ls[i] in multiset(t.logins);
        var k :| 0 <= k < |t.logins| && t.logins[k] == ls[i];
        assert HasKey(t.usuarios, UsuarioKey, ls[i].idUsuario);
      }
    }
  }

  /**
   * As written, a registration can only succeed while no credential has key 0; once one has,
   * every further registration of a new address with a valid password throws on the
   * duplicate key and is rolled back.
   */
  lemma SecondRegistrationFails(t: Tables, request: Credentials, userId: int,
                                salt: seq<byte>, deriveKey: KeyDerivation)
    requires |salt| == SaltSize && HasKey(t.logins, LoginKey, UnsetLoginId)
    requires !UserEmailTaken(t.usuarios, request.email) && !Text.IsBlank(request.password)
    ensures RegisterAsWritten(t, request, userId, salt, deriveKey) == Outcome(Thrown(DuplicateKey), t)
  {
  }

  /**
   * The first user to register in a consistent store without credentials takes key 0; the
   * next one, with a different and unused address and a valid password, is refused and not
   * stored.
   */
  lemma OnlyOneUserCanRegister(t: Tables, first: Credentials, second: Credentials,
                               firstId: int, secondId: int, salt1: seq<byte>, salt2: seq<byte>,
                               deriveKey: KeyDerivation)
    requires Consistent(t) && t.logins == [] && |salt1| == SaltSize && |salt2| == SaltSize
    requires !HasKey(t.usuarios, UsuarioKey, firstId)
    requires !UserEmailTaken(t.usuarios, first.email) && !Text.IsBlank(first.password)
    requires !UserEmailTaken(t.usuarios, second.email) && !Text.IsBlank(second.password)
    requires first.email != second.email
    ensures var o1 := RegisterAsWritten(t, first, firstId, salt1, deriveKey);
      && o1.result.CreatedAt?
      && RegisterAsWritten(o1.after, second, secondId, salt2, deriveKey) == Outcome(Thrown(DuplicateKey), o1.after)
  {
    RegisterContract(t, first, firstId, UnsetLoginId, salt1, deriveKey);
    var o1 := RegisterAsWritten(t, first, firstId, salt1, deriveKey);
    UserEmailTakenInsert(t.usuarios, Usuario(firstId, first.email), second.email);
    assert !UserEmailTaken(o1.after.usuarios, second.email);
    SecondRegistrationFails(o1.after, second, secondId, salt2, deriveKey);
  }

  /** FirstOrDefault(l => l.NrEmail == email) over the credentials. */
  function FindByEmail(logins: seq<Login>, email: string): (r: Option<Login>)
    ensures r.None? <==> !LoginEmailTaken(logins, email)
    ensures r.Some? ==> r.value in logins && r.value.nrEmail == email
  {
    if logins == [] then None
    else if logins[0].nrEmail == email then Some(logins[0])
    else
      var r := FindByEmail(logins[1..], email);
      assert LoginEmailTaken(logins, email) ==> LoginEmailTaken(logins[1..], email) by {
        if LoginEmailTaken(logins, email) {
          var i :| 0 <= i < |logins| && logins[i].nrEmail == email;
          assert logins[1..][i - 1].nrEmail == email;
        }
      }
      r
  }

  /** With unique addresses, the lookup finds the one credential with the address. */
  lemma {:induction false} FindByEmailUnique(logins: seq<Login>, email: string, i: int)
    requires forall a, b | 0 <= a < b < |logins| :: logins[a].nrEmail != logins[b].nrEmail
    requires 0 <= i < |logins| && logins[i].nrEmail == email
    ensures FindByEmail(logins, email) == Some(logins[i])
  {
    if i > 0 {
      assert logins[0].nrEmail != logins[i].nrEmail;
      var tail := logins[1..];
      assert tail[i - 1] == logins[i];
      forall a, b | 0 <= a < b < |tail|
        ensures tail[a].nrEmail != tail[b].nrEmail
      {
        assert tail[a] == logins[a + 1] && tail[b] == logins[b + 1];
      }
      FindByEmailUnique(tail, email, i - 1);
    }
  }

  /**
   * Login: an unknown address and a wrong password get the same Unauthorized answer; success
   * answers with the user and address of the credential the address names.
   */
  function SignIn(t: Tables, request: Credentials, deriveKey: KeyDerivation): (r: ActionResult<UserReply>)
    ensures !r.Ok? ==> r == Unauthorized(InvalidCredentialsMessage)
    ensures r.Ok? <==>
      LoginEmailTaken(t.logins, request.email)
      && VerifyPassword(request.password, FindByEmail(t.logins, request.email).value.dsSenha, deriveKey)
    ensures r.Ok? ==> exists i | 0 <= i < |t.logins| ::
      t.logins[i].nrEmail == request.email && r.value == UserReply(LoggedInMessage, t.logins[i].idUsuario, request.email)
  {
    var login := FindByEmail(t.logins, request.email);
    if login.None? then Unauthorized(InvalidCredentialsMessage)
    else if !VerifyPassword(request.password, login.value.dsSenha, deriveKey) then Unauthorized(InvalidCredentialsMessage)
    else Ok(UserReply(LoggedInMessage, login.value.idUsuario, login.value.nrEmail))
  }

  /** After a successful registration, logging in with the same address and password succeeds as that user. */
  lemma RegisterThenLogin(t: Tables, request: Credentials, userId: int, loginId: int,
                          salt: seq<byte>, deriveKey: KeyDerivation)
    requires Consistent(t) && |salt| == SaltSize
    requires !HasKey(t.usuarios, UsuarioKey, userId) && !HasKey(t.logins, LoginKey, loginId)
    requires !UserEmailTaken(t.usuarios, request.email) && !Text.IsBlank(request.password)
    ensures var o := RegisterOutcome(t, request, userId, loginId, salt, deriveKey);
      SignIn(o.after, request, deriveKey) == Ok(UserReply(LoggedInMessage, userId, request.email))
  {
    RegisterContract(t, request, userId, loginId, salt, deriveKey);
    var o := RegisterOutcome(t, request, userId, loginId, salt, deriveKey);
    var login := Login(loginId, userId, request.email, HashPassword(request.password, salt, deriveKey).value);
    var found := Find(o.after.logins, LoginKey, loginId);
    var i :| 0 <= i < |o.after.logins| && o.after.logins[i] == found.value;
    FindByEmailUnique(o.after.logins, request.email, i);
    VerifyOwnHash(request.password, salt, deriveKey);
  }

  /** A password other than the registered one, whose derived key differs, is refused. */
  lemma RegisterThenWrongPassword(t: Tables, request: Credentials, userId: int, loginId: int,
                                  salt: seq<byte>, deriveKey: KeyDerivation, other: string)
    requires Consistent(t) && |salt| == SaltSize
    requires !HasKey(t.usuarios, UsuarioKey, userId) && !HasKey(t.logins, LoginKey, loginId)
    requires !UserEmailTaken(t.usuarios, request.email) && !Text.IsBlank(request.password)
    requires deriveKey(other, salt) != deriveKey(request.password, salt)
    ensures var o := RegisterOutcome(t, request, userId, loginId, salt, deriveKey);
      SignIn(o.after, Credentials(request.email, other), deriveKey) == Unauthorized(InvalidCredentialsMessage)
  {
    RegisterContract(t, request, userId, loginId, salt, deriveKey);
    var o := RegisterOutcome(t, request, userId, loginId, salt, deriveKey);
    var found := Find(o.after.logins, LoginKey, loginId);
    var i :| 0 <= i < |o.after.logins| && o.after.logins[i] == found.value;
    FindByEmailUnique(o.after.logins, request.email, i);
    StoredForm(request.password, salt, deriveKey);
  }

  /** AuthController: the endpoints over the context. */
  class AuthController {
    const context: NextParkContext

    constructor(context: NextParkContext)
      ensures this.context == context
    {
      this.context := context;
    }

    /**
     * Register, with the credential key the store assigns and the salt the random generator
     * yields: answer and tables are those of the Register function.
     */
    method Register(request: Credentials, userId: int, loginId: int, salt: seq<byte>, deriveKey: KeyDerivation)
      returns (r: ActionResult<UserReply>)
      requires |salt| == SaltSize
      modifies context
      ensures Outcome(r, context.State()) == RegisterOutcome(old(context.State()), request, userId, loginId, salt, deriveKey)
    {
      if UserEmailTaken(context.usuarios, request.email) {
        return Conflict(ConflictMessage);
      }
      if HasKey(context.usuarios, UsuarioKey, userId) {
        // The first SaveChanges fails before anything is written; the rollback restores nothing.
        return Thrown(DuplicateKey);
      }
      var user := Usuario(userId, request.email);
      var snapshot := context.State();
      context.usuarios := Insert(context.usuarios, UsuarioKey, user);
      var hashed := HashPassword(request.password, salt, deriveKey);
      if hashed.Failure? {
        context.Rollback(snapshot);
        return Thrown(InvalidPassword);
      }
      var login := Store.Login(loginId, userId, request.email, hashed.value);
      if HasKey(context.logins, LoginKey, loginId) || LoginEmailTaken(context.logins, request.email) {
        context.Rollback(snapshot);
        return Thrown(DuplicateKey);
      }
      context.logins := Insert(context.logins, LoginKey, login);
      return CreatedAt("Register", map[], UserReply(RegisteredMessage, userId, request.email));
    }

    /** Login: the answer of SignIn; the tables are only read. */
    method Login(request: Credentials, deriveKey: KeyDerivation) returns (r: ActionResult<UserReply>)
      ensures r == SignIn(context.State(), request, deriveKey)
    {
      var login := FindByEmail(context.logins, request.email);
      if login.None? {
        return Unauthorized(InvalidCredentialsMessage);
      }
      var passwordValid := VerifyPassword(request.password, login.value.dsSenha, deriveKey);
      if !passwordValid {
        return Unauthorized(InvalidCredentialsMessage);
      }
      return Ok(UserReply(LoggedInMessage, login.value.idUsuario, login.value.nrEmail));
    }
  }
}
