/** The request rules of the FastAPI server in sis_index.py: the simulated
    per-site statistics lookup (get_stats), user registration (register_user)
    and the credential check (login). Routing, the database session and the
    response serialisation are framework plumbing and are not modelled; the
    `users` table is a sequence of rows in insertion order. */
module SisServer {
  import opened Wrappers
  import opened Json

  // ---------------------------------------------------------------------
  // Case folding (Python's str.lower, restricted to ASCII letters)
  // ---------------------------------------------------------------------

  predicate IsUpper(c: char) {
    'A' <= c <= 'Z'
  }

  function LowerChar(c: char): (r: char)
    ensures !IsUpper(r)
    ensures IsUpper(c) ==> r as int == c as int + 32
    ensures !IsUpper(c) ==> r == c
  {
    if IsUpper(c) then (c as int + 32) as char else c
  }

  /** `s.lower()`: same length, no upper-case letter left, and every other
      character kept as it was. */
  function Lower(s: string): (r: string)
    ensures |r| == |s|
    ensures forall i :: 0 <= i < |r| ==> r[i] == LowerChar(s[i])
  {
    if s == [] then [] else [LowerChar(s[0])] + Lower(s[1..])
  }

  /** Lower-casing twice is lower-casing once. */
  lemma {:induction false} LowerIdempotent(s: string)
    ensures Lower(Lower(s)) == Lower(s)
  {
    if s != [] {
      LowerIdempotent(s[1..]);
      assert Lower(s) == [LowerChar(s[0])] + Lower(s[1..]);
    }
  }

  // ---------------------------------------------------------------------
  // GET /api/stats/{sede}
  // ---------------------------------------------------------------------

  const KnownSites: set<string> := {"lima", "arequipa", "trujillo"}

  function SiteRecord(inventariado: int, pendiente: int, totalActivos: int): Object {
    map["inventariado" := Num(inventariado),
        "pendiente" := Num(pendiente),
        "total_activos" := Num(totalActivos)]
  }

  /** The simulated statistics, keyed by lower-case site name. */
  const StatsTable: map<string, Object> :=
    map["lima" := SiteRecord(75, 25, 1500),
        "arequipa" := SiteRecord(60, 40, 800),
        "trujillo" := SiteRecord(85, 15, 600)]

  const NotFound: Object := map["error" := Text("Sede no encontrada")]

  /** A site record splits its assets into inventoried and pending
      percentages that add up to 100. */
  predicate PercentagesComplete(r: Object) {
    && "inventariado" in r && r["inventariado"].Num?
    && "pendiente" in r && r["pendiente"].Num?
    && r["inventariado"].n + r["pendiente"].n == 100
  }

  /** get_stats: the site record for a known site, in any letter case, and
      the error record for every other key. */
  function GetStats(sede: string): (r: Object)
    ensures "error" in r <==> Lower(sede) !in KnownSites
    ensures "error" in r ==> r == NotFound
    ensures "error" !in r ==> r.Keys == {"inventariado", "pendiente", "total_activos"}
    ensures "error" !in r ==> PercentagesComplete(r)
  {
    if Lower(sede) in StatsTable then StatsTable[Lower(sede)] else NotFound
  }

  /** The lookup ignores letter case: asking for the lower-cased key gives
      the same reply. */
  lemma GetStatsCaseInsensitive(sede: string)
    ensures GetStats(sede) == GetStats(Lower(sede))
  {
    LowerIdempotent(sede);
  }

  /** The three sites answer with their fixed records, whatever the case of
      the request path; any other site gets the error record. */
  lemma GetStatsLima()
    ensures GetStats("Lima") == SiteRecord(75, 25, 1500)
  {
    assert Lower("Lima") == "lima";
  }

  lemma GetStatsArequipa()
    ensures GetStats("AREQUIPA") == SiteRecord(60, 40, 800)
  {
    assert Lower("AREQUIPA") == "arequipa";
  }

  lemma GetStatsTrujillo()
    ensures GetStats("trujillo") == SiteRecord(85, 15, 600)
  {
    assert Lower("trujillo") == "trujillo";
  }

  lemma GetStatsUnknownSite(sede: string)
    requires Lower(sede) !in KnownSites
    ensures GetStats(sede) == NotFound
  {
  }

  // ---------------------------------------------------------------------
  // Users, POST /api/register and POST /api/login
  // ---------------------------------------------------------------------

  /** A row of the `users` table. The column is called hashed_password but
      the server stores the password as received. */
  datatype User = User(email: string, hashedPassword: string, fullName: string, dni: string, role: string)

  /** A JSON request body, a Python dict of string fields. */
  type Request = map<string, string>

  /** What an endpoint answers: a 200 message, an HTTPException with its
      status and detail, or an uncaught KeyError for a missing request
      field (which FastAPI turns into a 500). */
  datatype Reply = Ok(message: string) | HttpError(status: int, detail: string) | MissingField(key: string)

  const Registered := "Usuario registrado exitosamente"
  const PasswordIsDni := "La contraseña no puede ser igual al DNI"
  const LoggedIn := "Login exitoso"
  const BadCredentials := "Credenciales inválidas"

  /** The first key of `keys`, in order, that the request lacks: the key
      whose subscript raises KeyError first. */
  function FirstMissing(data: Request, keys: seq<string>): (r: Option<string>)
    ensures r.None? <==> forall k :: k in keys ==> k in data
    ensures r.Some? ==> r.value in keys && r.value !in data
    ensures r.Some? ==> exists i :: 0 <= i < |keys| && keys[i] == r.value
                                   && forall j :: 0 <= j < i ==> keys[j] in data
  {
    if keys == [] then None
    else if keys[0] !in data then Some(keys[0])
    else FirstMissing(data, keys[1..])
  }

  /** Fields read by the User(...) call, in order. */
  const UserFields: seq<string> := ["email", "password", "full_name", "dni", "role"]

  /** The row register_user builds from a complete request. */
  function NewUser(data: Request): (u: User)
    requires FirstMissing(data, UserFields).None?
    ensures u.email == data["email"] && u.hashedPassword == data["password"]
    ensures u.fullName == data["full_name"] && u.dni == data["dni"] && u.role == data["role"]
  {
    assert UserFields[0] == "email" && UserFields[1] == "password" && UserFields[2] == "full_name";
    assert UserFields[3] == "dni" && UserFields[4] == "role";
    User(data["email"], data["password"], data["full_name"], data["dni"], data["role"])
  }

  /** The index of the first row with this email (`.filter(...).first()`),
      or None when no row has it. */
  function FirstWithEmail(users: seq<User>, email: string): (r: Option<nat>)
    ensures r.Some? ==> r.value < |users| && users[r.value].email == email
    ensures r.Some? ==> forall j :: 0 <= j < r.value ==> users[j].email != email
    ensures r.None? <==> forall j :: 0 <= j < |users| ==> users[j].email != email
  {
    if users == [] then None
    else if users[0].email == email then Some(0)
    else match FirstWithEmail(users[1..], email)
      case None => None
      case Some(i) => Some(i + 1)
  }

  /** login: looks up the first row with the given email and compares its
      stored password verbatim with the supplied one. The password field is
      only read when such a row exists. */
  function Login(users: seq<User>, creds: Request): (r: Reply)
    ensures "email" !in creds ==> r == MissingField("email")
    ensures r == Ok(LoggedIn) <==>
      && "email" in creds && "password" in creds
      && exists i :: 0 <= i < |users| && users[i].email == creds["email"]
                   && (forall j :: 0 <= j < i ==> users[j].email != creds["email"])
                   && users[i].hashedPassword == creds["password"]
    ensures r.HttpError? ==> r == HttpError(401, BadCredentials)
    ensures "email" in creds && FirstWithEmail(users, creds["email"]).None? ==> r == HttpError(401, BadCredentials)
    ensures "email" in creds && "password" in creds && r != Ok(LoggedIn) ==> r == HttpError(401, BadCredentials)
    ensures r == MissingField("password") <==>
      "email" in creds && "password" !in creds && FirstWithEmail(users, creds["email"]).Some?
    ensures r.MissingField? ==> r.key in {"email", "password"}
  {
    if "email" !in creds then MissingField("email")
    else match FirstWithEmail(users, creds["email"])
      case None => HttpError(401, BadCredentials)
      case Some(i) =>
        if "password" !in creds then MissingField("password")
        else if users[i].hashedPassword != creds["password"] then HttpError(401, BadCredentials)
        else Ok(LoggedIn)
  }

  /** A login whose email is unknown fails with 401, whatever the password. */
  lemma LoginUnknownEmail(users: seq<User>, creds: Request)
    requires "email" in creds
    requires forall j :: 0 <= j < |users| ==> users[j].email != creds["email"]
    ensures Login(users, creds) == HttpError(401, BadCredentials)
  {
  }

  /** Rows appended later never change the outcome of a login for an email
      that already has a row: the first row wins. */
  lemma LoginIgnoresLaterRows(users: seq<User>, later: seq<User>, creds: Request)
    requires "email" in creds && FirstWithEmail(users, creds["email"]).Some?
    ensures Login(users + later, creds) == Login(users, creds)
  {
    FirstWithEmailPrefix(users, later, creds["email"]);
  }

  lemma {:induction false} FirstWithEmailPrefix(users: seq<User>, later: seq<User>, email: string)
    requires FirstWithEmail(users, email).Some?
    ensures FirstWithEmail(users + later, email) == FirstWithEmail(users, email)
  {
    if users[0].email != email {
      assert (users + later)[1..] == users[1..] + later;
      FirstWithEmailPrefix(users[1..], later, email);
    }
  }

  /** A new row is found by email when no earlier row has that email. */
  lemma {:induction false} FirstWithEmailAppended(users: seq<User>, u: User)
    requires forall j :: 0 <= j < |users| ==> users[j].email != u.email
    ensures FirstWithEmail(users + [u], u.email) == Some(|users|)
  {
    if users != [] {
      assert (users + [u])[1..] == users[1..] + [u];
      FirstWithEmailAppended(users[1..], u);
    }
  }

  /** The user table the register endpoint writes to (the database session
      reduced to its rows). */
  class UserTable {
    var users: seq<User>

    constructor ()
      ensures users == []
    {
      users := [];
    }

    /** register_user: refuses a password equal to the DNI with 400 and
        otherwise appends exactly one row that stores the password as
        given. A missing field raises KeyError before any write. */
    method Register(data: Request) returns (reply: Reply)
      modifies this
      ensures "password" !in data ==> reply == MissingField("password")
      ensures "password" in data && "dni" !in data ==> reply == MissingField("dni")
      ensures "password" in data && "dni" in data && data["password"] == data["dni"] ==>
                reply == HttpError(400, PasswordIsDni)
      ensures reply.HttpError? ==>
                && reply == HttpError(400, PasswordIsDni)
                && "password" in data && "dni" in data && data["password"] == data["dni"]
      ensures "password" in data && "dni" in data && data["password"] != data["dni"]
              && FirstMissing(data, UserFields).Some? ==>
                reply == MissingField(FirstMissing(data, UserFields).value)
      ensures reply.Ok? <==>
                FirstMissing(data, UserFields).None? && data["password"] != data["dni"]
      ensures reply.Ok? ==> reply == Ok(Registered) && users == old(users) + [NewUser(data)]
      ensures !reply.Ok? ==> users == old(users)
    {
      if "password" !in data {
        return MissingField("password");
      }
      if "dni" !in data {
        return MissingField("dni");
      }
      if data["password"] == data["dni"] {
        return HttpError(400, PasswordIsDni);
      }
      var missing := FirstMissing(data, UserFields);
      if missing.Some? {
        return MissingField(missing.value);
      }
      var row := NewUser(data);
      users := users + [row];
      reply := Ok(Registered);
    }
  }

  /** A user who has just registered with an email no earlier row uses can
      log in with the password they registered. */
  lemma LoginAfterRegister(users: seq<User>, data: Request)
    requires FirstMissing(data, UserFields).None? && data["password"] != data["dni"]
    requires forall j :: 0 <= j < |users| ==> users[j].email != data["email"]
    ensures Login(users + [NewUser(data)], map["email" := data["email"], "password" := data["password"]])
            == Ok(LoggedIn)
  {
    FirstWithEmailAppended(users, NewUser(data));
  }
}
