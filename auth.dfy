/**
 * The small pure rules of the authentication router: the password
 * complexity validator, the sender identity of the verification mail, the
 * role of a newly registered user and the reset-token expiry test.
 */
module Auth {
  import opened Wrappers
  import opened Text

  /** Why `password_complexity` rejects a password, in the order it checks. */
  datatype PasswordError = TooShort | NoUppercase | NoDigit

  /** The message of the `ValueError` raised for each rejection. */
  function PasswordMessage(e: PasswordError): string {
    match e
    case TooShort => "La contraseña debe tener al menos 8 caracteres"
    case NoUppercase => "La contraseña debe contener al menos una letra mayúscula"
    case NoDigit => "La contraseña debe contener al menos un número"
  }

  const MinPasswordLength := 8

  predicate HasUpper(s: string) {
    exists i :: 0 <= i < |s| && IsUpper(s[i])
  }

  predicate HasDigit(s: string) {
    exists i :: 0 <= i < |s| && IsDigit(s[i])
  }

  /** `UserCreate.password_complexity`: the length check first, then an uppercase letter, then a digit. */
  function PasswordComplexity(v: string): (r: Result<string, PasswordError>)
    ensures r.Ok? <==> |v| >= MinPasswordLength && HasUpper(v) && HasDigit(v)
    ensures r.Ok? ==> r.value == v
    ensures |v| < MinPasswordLength ==> r == Err(TooShort)
    ensures r == Err(NoUppercase) <==> |v| >= MinPasswordLength && !HasUpper(v)
    ensures r == Err(NoDigit) <==> |v| >= MinPasswordLength && HasUpper(v) && !HasDigit(v)
  {
    if |v| < MinPasswordLength then Err(TooShort)
    else if !HasUpper(v) then Err(NoUppercase)
    else if !HasDigit(v) then Err(NoDigit)
    else Ok(v)
  }

  /** A password of eight characters with an uppercase letter and a digit is returned as it is. */
  lemma AcceptedPassword(v: string, u: nat, d: nat)
    requires |v| >= MinPasswordLength && u < |v| && d < |v| && IsUpper(v[u]) && IsDigit(v[d])
    ensures PasswordComplexity(v) == Ok(v)
  {
  }

  /** The domain of the user's address, `email.split('@')[-1]`: the text after its last `@`, or `app.com` without one. */
  function UserDomain(email: string): (d: string)
    ensures '@' !in d
    ensures '@' !in email ==> d == "app.com"
    ensures '@' in email ==>
      |d| < |email| && email[|email| - |d| - 1] == '@' && email[|email| - |d|..] == d
  {
    match LastIndexOf(email, '@')
    case Some(i) => email[i + 1..]
    case None => "app.com"
  }

  /** The sender address of the verification mail. */
  function SenderEmail(email: string): (s: string)
    ensures |s| >= 8 && s[..8] == "noreply@" && s[8..] == UserDomain(email)
  {
    "noreply@" + UserDomain(email)
  }

  /** The display name of the sender of the verification mail. */
  function DisplayName(firstName: string, email: string): (n: string)
    ensures firstName != "" ==> n == firstName + " desde " + UserDomain(email)
    ensures firstName == "" ==> n == "Soporte de " + UserDomain(email)
  {
    if firstName != "" then firstName + " desde " + UserDomain(email)
    else "Soporte de " + UserDomain(email)
  }

  /** Of `local@host` with no `@` in the host, the user's domain is the host. */
  lemma DomainOf(local: string, host: string)
    requires '@' !in host
    ensures UserDomain(local + "@" + host) == host
  {
    var email := local + "@" + host;
    assert email[|local|] == '@';
    assert email[|email| - |host|..] == host;
  }

  /** Of an address with an `@`, the sender keeps the host and nothing of the local part. */
  lemma SenderOf(local: string, host: string)
    requires '@' !in host
    ensures SenderEmail(local + "@" + host) == "noreply@" + host
  {
    DomainOf(local, host);
  }

  /** Of an address with an `@`, the display name names the host and nothing of the local part. */
  lemma DisplayNameOf(firstName: string, local: string, host: string)
    requires '@' !in host
    ensures firstName != "" ==> DisplayName(firstName, local + "@" + host) == firstName + " desde " + host
    ensures firstName == "" ==> DisplayName(firstName, local + "@" + host) == "Soporte de " + host
  {
    DomainOf(local, host);
  }

  datatype Role = Admin | Client

  function RoleName(r: Role): string {
    match r
    case Admin => "admin"
    case Client => "client"
  }

  /** The role `register` gives a new user: admin exactly when no admin row exists yet. */
  function NewUserRole(adminExists: bool): (r: Role)
    ensures r == Admin <==> !adminExists
  {
    if !adminExists then Admin else Client
  }

  /** The stored reset-token expiry: missing, a corrupt string, or a time in seconds. */
  datatype StoredExpiry = NoExpiry | Corrupt | ExpiresAt(time: int)

  /** Why `reset_password` refuses a token whose row was found. */
  datatype ResetError = CorruptExpiry | TokenExpired

  /** The expiry test of `reset_password`: a corrupt value is refused, a time strictly before now has expired, and a missing expiry passes. */
  function CheckReset(expiry: StoredExpiry, now: int): (r: Result<(), ResetError>)
    ensures r == Err(CorruptExpiry) <==> expiry.Corrupt?
    ensures r == Err(TokenExpired) <==> expiry.ExpiresAt? && expiry.time < now
    ensures r.Ok? <==> expiry.NoExpiry? || (expiry.ExpiresAt? && now <= expiry.time)
  {
    match expiry
    case Corrupt => Err(CorruptExpiry)
    case ExpiresAt(t) => if t < now then Err(TokenExpired) else Ok(())
    case NoExpiry => Ok(())
  }
}
