/** Login (handlers/hauth.go, IniciarSesion): reject blank fields, find the
    credential by its login name, verify the password, and issue a token whose
    claims name the credential and its role and expire a day later.

    Everything after the blank-field check is a read-only decision over the
    `usuarios` table and the clock, DecisionLogin. */
module Sesion {
  import opened Common
  import opened Text
  import opened Bcrypt
  import opened Jwt
  import opened Store
  import opened Middleware

  const CredencialesInvalidas := "Credenciales invalidas"
  const CamposVaciosPrefijo := "Campos vacíos: "
  const ErrorBuscarUsuario := "Error al buscar usuario:"
  const ErrorGenerarToken := "Error al generar token"

  /** The answer to a login request: an error status with its message, or 200
      with the signed token and the credential's role. */
  datatype Respuesta = Falla(status: int, message: string) | Exito(token: string, tipo: string)

  /** `SELECT rif_cedula, contrasena, tipo FROM usuarios WHERE usuario = $1`:
      the key of the one credential with this login name (the unique
      constraint on `usuario` makes it unique), or None for no rows. */
  function BuscarPorUsuario(usuarios: map<string, Usuario>, login: string): (r: Option<string>)
    requires LoginsUnique(usuarios)
    ensures r.None? <==> LoginFree(usuarios, login)
    ensures r.Some? ==> r.value in usuarios && usuarios[r.value].usuario == login
  {
    if LoginFree(usuarios, login) then None
    else
      var k :| k in usuarios && usuarios[k].usuario == login;
      Some(k)
  }

  /** Some credential has this login name and this password. */
  ghost predicate Autentica(usuarios: map<string, Usuario>, login: string, contrasena: string) {
    exists k :: k in usuarios && usuarios[k].usuario == login && Verify(usuarios[k].contrasena, contrasena)
  }

  /** The decision IniciarSesion takes once both fields are present.
      `queryFails` is a lookup failure other than "no rows".
      - A failed lookup is answered 500.
      - Otherwise the answer is 401 "Credenciales invalidas" exactly when no
        credential has this login name and password: an unknown login name
        and a wrong password get the same answer.
      - A success carries a token signed over the claims issued for the
        matching credential (its `rif_cedula` and `tipo`, expiring
        TokenLifetime seconds after `now`) and echoes its `tipo`.
      - When the lookup works, the login name and password match a
        credential and the signer signs its claims, the answer is a success.
      The `estado` column is never read. */
  function DecisionLogin(usuarios: map<string, Usuario>, login: string, contrasena: string,
                         now: int, signer: Signer, queryFails: bool): (r: Respuesta)
    requires LoginsUnique(usuarios)
    ensures queryFails ==> r.Falla? && r.status == StatusInternalServerError
    ensures r == Falla(StatusUnauthorized, CredencialesInvalidas) <==>
      !queryFails && !Autentica(usuarios, login, contrasena)
    ensures r.Exito? ==> exists k :: && k in usuarios && usuarios[k].usuario == login
                                     && Verify(usuarios[k].contrasena, contrasena)
                                     && r.tipo == usuarios[k].tipo
                                     && signer.sign(IssuedClaims(usuarios[k].rifCedula, usuarios[k].tipo, now)) == Some(r.token)
    ensures r.Falla? ==> r.status in {StatusUnauthorized, StatusInternalServerError}
    ensures (&& !queryFails
             && exists k :: && k in usuarios && usuarios[k].usuario == login
                            && Verify(usuarios[k].contrasena, contrasena)
                            && signer.sign(IssuedClaims(usuarios[k].rifCedula, usuarios[k].tipo, now)).Some?)
            ==> r.Exito?
  {
    if queryFails then Falla(StatusInternalServerError, ErrorBuscarUsuario)
    else match BuscarPorUsuario(usuarios, login)
      case None => Falla(StatusUnauthorized, CredencialesInvalidas)
      case Some(k) =>
        var fila := usuarios[k];
        if !Verify(fila.contrasena, contrasena) then Falla(StatusUnauthorized, CredencialesInvalidas)
        else match signer.sign(IssuedClaims(fila.rifCedula, fila.tipo, now))
          case None => Falla(StatusInternalServerError, ErrorGenerarToken)
          case Some(token) => Exito(token, fila.tipo)
  }

  /** A credential with the right login name and password logs in whenever
      the lookup and the signer work: deactivating it does not stop it. */
  lemma LoginIgnoraEstado(usuarios: map<string, Usuario>, k: string, estado: bool,
                          login: string, contrasena: string, now: int, signer: Signer, queryFails: bool)
    requires LoginsUnique(usuarios)
    requires k in usuarios
    ensures LoginsUnique(usuarios[k := usuarios[k].(estado := estado)])
    ensures DecisionLogin(usuarios[k := usuarios[k].(estado := estado)], login, contrasena, now, signer, queryFails)
         == DecisionLogin(usuarios, login, contrasena, now, signer, queryFails)
  {
    var cambiado := usuarios[k := usuarios[k].(estado := estado)];
    assert forall j :: j in cambiado <==> j in usuarios;
    assert forall j :: j in usuarios ==>
      (&& cambiado[j].usuario == usuarios[j].usuario
       && cambiado[j].contrasena == usuarios[j].contrasena
       && cambiado[j].rifCedula == usuarios[j].rifCedula
       && cambiado[j].tipo == usuarios[j].tipo);
    assert LoginFree(cambiado, login) <==> LoginFree(usuarios, login);
    var antes := BuscarPorUsuario(usuarios, login);
    var despues := BuscarPorUsuario(cambiado, login);
    if antes.Some? {
      assert despues.Some?;
      assert despues == antes;
    }
  }

  /** A token issued at `now` is accepted by AutenticacionJWT at `later` exactly
      while `later < now + TokenLifetime`, and the next handler then finds the
      issued claims in its context. */
  lemma TokenEmitidoAutentica(usuarios: map<string, Usuario>, login: string, contrasena: string,
                              now: int, signer: Signer, ctx: Context, later: int)
    requires Sound(signer)
    requires LoginsUnique(usuarios)
    requires DecisionLogin(usuarios, login, contrasena, now, signer, false).Exito?
    ensures var r := DecisionLogin(usuarios, login, contrasena, now, signer, false);
            var g := AutenticacionJWT(Request("Bearer " + r.token, ctx), signer, later);
            && (g.Next? <==> later < now + TokenLifetime)
            && (g.Next? ==> exists k :: && k in usuarios && usuarios[k].usuario == login
                                       && UsuarioDesdeContexto(g.request.ctx) == Some(IssuedClaims(usuarios[k].rifCedula, usuarios[k].tipo, now)))
  {
    var r := DecisionLogin(usuarios, login, contrasena, now, signer, false);
    var k :| && k in usuarios && usuarios[k].usuario == login
             && signer.sign(IssuedClaims(usuarios[k].rifCedula, usuarios[k].tipo, now)) == Some(r.token);
    var claims := IssuedClaims(usuarios[k].rifCedula, usuarios[k].tipo, now);
    var h := "Bearer " + r.token;
    assert h[7..] == r.token;
    assert signer.parse(r.token) == Some(claims);
    assert IsBearer(h);
  }

  /** A credential stored by a registration (a new key, a login name no
      other credential uses, the hash of the password) logs in with exactly
      that password: any other password is 401, and when the signer works
      the answer is 200 with the credential's role. */
  lemma LoginTrasRegistro(usuarios: map<string, Usuario>, nuevo: Usuario, salt: nat, contrasena: string,
                          intento: string, now: int, signer: Signer)
    requires LoginsUnique(usuarios)
    requires nuevo.rifCedula !in usuarios && LoginFree(usuarios, nuevo.usuario)
    requires nuevo.contrasena == Hash(salt, contrasena)
    ensures LoginsUnique(usuarios[nuevo.rifCedula := nuevo])
    ensures Autentica(usuarios[nuevo.rifCedula := nuevo], nuevo.usuario, intento) <==> intento == contrasena
    ensures signer.sign(IssuedClaims(nuevo.rifCedula, nuevo.tipo, now)).Some? ==>
      DecisionLogin(usuarios[nuevo.rifCedula := nuevo], nuevo.usuario, contrasena, now, signer, false)
        == Exito(signer.sign(IssuedClaims(nuevo.rifCedula, nuevo.tipo, now)).value, nuevo.tipo)
  {
    var k := nuevo.rifCedula;
    var u := usuarios[k := nuevo];
    forall k1, k2 | k1 in u && k2 in u && u[k1].usuario == u[k2].usuario
      ensures k1 == k2
    {
      if k1 != k && k2 != k {
        assert usuarios[k1].usuario == usuarios[k2].usuario;
      }
    }
    assert forall j :: j in u && u[j].usuario == nuevo.usuario ==> j == k;
    VerifyHash(salt, contrasena, intento);
    assert k in u && u[k].usuario == nuevo.usuario;
    assert BuscarPorUsuario(u, nuevo.usuario) == Some(k);
  }

  /** After a password change, the credential's login name logs in with the
      new password and no other; a password that no longer verifies is
      refused. */
  lemma LoginTrasCambioContrasena(usuarios: map<string, Usuario>, key: string, salt: nat, nueva: string, intento: string)
    requires LoginsUnique(usuarios)
    requires key in usuarios
    ensures LoginsUnique(usuarios[key := usuarios[key].(contrasena := Hash(salt, nueva))])
    ensures Autentica(usuarios[key := usuarios[key].(contrasena := Hash(salt, nueva))], usuarios[key].usuario, intento)
        <==> intento == nueva
  {
    var u := usuarios[key := usuarios[key].(contrasena := Hash(salt, nueva))];
    assert forall j :: j in u ==> u[j].usuario == usuarios[j].usuario;
    VerifyHash(salt, nueva, intento);
    if Autentica(u, usuarios[key].usuario, intento) {
      var k :| k in u && u[k].usuario == usuarios[key].usuario && Verify(u[k].contrasena, intento);
      assert k == key;
    }
  }

  /** The login fields CamposRequeridos holds. */
  const CamposLogin: set<string> := {"usuario", "contrasena"}

  /** The names of the login fields that are blank after TrimSpace. */
  function VaciosLogin(body: UsuarioBody): (vacios: set<string>)
    ensures vacios <= CamposLogin
    ensures vacios == {} <==> !IsBlank(body.usuario) && !IsBlank(body.contrasena)
  {
    (if IsBlank(body.usuario) then {"usuario"} else {}) + (if IsBlank(body.contrasena) then {"contrasena"} else {})
  }

  /** The CamposRequeridos map of IniciarSesion. */
  function CamposRequeridos(body: UsuarioBody): (campos: map<string, string>)
    ensures campos.Keys == CamposLogin
  {
    map["usuario" := body.usuario, "contrasena" := body.contrasena]
  }

  lemma CamposRequeridosVacios(body: UsuarioBody)
    ensures forall f :: f in CamposRequeridos(body) && IsBlank(CamposRequeridos(body)[f]) <==> f in VaciosLogin(body)
  {
    var campos := CamposRequeridos(body);
    forall f ensures f in campos && IsBlank(campos[f]) <==> f in VaciosLogin(body) {
      if f == "usuario" {
      } else if f == "contrasena" {
      } else {
        assert f !in campos;
      }
    }
  }

  /** `message` is the 400 answer listing the field names in `vacios`, in
      some order, each once. */
  ghost predicate ListaVacios(message: string, vacios: set<string>) {
    exists nombres :: IsEnumeration(nombres, vacios) && message == CamposVaciosPrefijo + Join(nombres, ", ")
  }

  /** IniciarSesion. `order` is the order in which the range loop visits the
      two required fields. With a blank field the answer is 400, listing
      exactly the blank field names, each once; otherwise it is DecisionLogin
      over the committed credentials. */
  method IniciarSesion(db: Database, body: UsuarioBody, order: seq<string>, now: int, signer: Signer, faults: Faults)
    returns (r: Respuesta)
    requires db.Valid()
    requires IsEnumeration(order, CamposLogin)
    ensures VaciosLogin(body) != {} ==>
      && r.Falla? && r.status == StatusBadRequest
      && ListaVacios(r.message, VaciosLogin(body))
    ensures VaciosLogin(body) == {} ==>
      r == DecisionLogin(db.tables.usuarios, body.usuario, body.contrasena, now, signer, faults.query)
  {
    var campos := CamposRequeridos(body);
    var vacios := CamposVacios(campos, order);
    ghost var esperado := VaciosLogin(body);
    CamposRequeridosVacios(body);
    if |vacios| > 0 {
      r := Falla(StatusBadRequest, CamposVaciosPrefijo + Join(vacios, ", "));
      assert IsEnumeration(vacios, esperado);
      assert ListaVacios(r.message, esperado);
      assert esperado != {} by { assert vacios[0] in esperado; }
      return;
    }
    assert vacios == [];
    assert esperado == {};
    r := DecisionLogin(db.tables.usuarios, body.usuario, body.contrasena, now, signer, faults.query);
  }
}
