/** The credential handlers of handlers/usuario.go: registration of a
    credential on its own, edition of its login name and password through a
    dynamically built UPDATE, activation and deactivation, and the two
    password changes.

    Each handler is a method on the shared Database. A handler that opens a
    transaction works on a copy of the tables and stores it back only at
    COMMIT; returning earlier leaves the committed tables as they were. */
module Usuarios {
  import opened Common
  import opened Text
  import opened Bcrypt
  import opened Jwt
  import opened Store
  import opened Middleware

  // ---------------------------------------------------------------------
  // Registration

  /** RegistrarUsuarioTx: inserts the credential in its own transaction.
      None is Go's nil error; Some(code) is the status of the HandlerError.
      A unique violation on `rif_cedula` or `usuario` is 409, any other
      failure 500; only a committed insert changes the tables. */
  method RegistrarUsuarioTx(db: Database, usuario: Usuario, faults: Faults) returns (err: Option<int>)
    requires db.Valid()
    modifies db
    ensures db.Valid() && db.nextFacturaId == old(db.nextFacturaId)
    ensures var t := old(db.tables);
      err == (if faults.begin then Some(StatusInternalServerError)
              else if 0 !in faults.exec && !(usuario.rifCedula !in t.usuarios && LoginFree(t.usuarios, usuario.usuario))
              then Some(StatusConflict)
              else if 0 in faults.exec || faults.commit then Some(StatusInternalServerError)
              else None)
    ensures err.None? ==>
      && db.tables == old(db.tables).(usuarios := old(db.tables.usuarios)[usuario.rifCedula := usuario])
      && db.standalone == old(db.standalone) + {usuario.rifCedula}
    ensures err.Some? ==> db.tables == old(db.tables) && db.standalone == old(db.standalone)
  {
    if faults.begin {
      return Some(StatusInternalServerError);
    }
    var tx := db.tables;
    var insert := InsertUsuario(tx, usuario, 0 in faults.exec);
    if insert.0 != Ok {
      if insert.0 == UniqueViolation {
        return Some(StatusConflict);
      }
      return Some(StatusInternalServerError);
    }
    tx := insert.1;
    if faults.commit {
      return Some(StatusInternalServerError);
    }
    db.tables := tx;
    db.standalone := db.standalone + {usuario.rifCedula};
    return None;
  }

  /** RegistrarUsuario. Any empty field is 400 and bcrypt failing is 500, with
      nothing written; otherwise the credential is stored with `estado` true
      and the bcrypt hash of the password, never the plaintext, and the answer
      is 201 or RegistrarUsuarioTx's error status. */
  method RegistrarUsuario(db: Database, req: UsuarioBody, salt: nat, faults: Faults) returns (status: int)
    requires db.Valid()
    modifies db
    ensures db.Valid() && db.nextFacturaId == old(db.nextFacturaId)
    ensures var t := old(db.tables);
      status == (if req.rifCedula == "" || req.usuario == "" || req.contrasena == "" || req.tipo == ""
                 then StatusBadRequest
                 else if faults.hash || faults.begin then StatusInternalServerError
                 else if 0 !in faults.exec && !(req.rifCedula !in t.usuarios && LoginFree(t.usuarios, req.usuario))
                 then StatusConflict
                 else if 0 in faults.exec || faults.commit then StatusInternalServerError
                 else StatusCreated)
    ensures status == StatusCreated ==>
      db.tables == old(db.tables).(usuarios := old(db.tables.usuarios)[req.rifCedula :=
        Usuario(req.rifCedula, req.usuario, Hash(salt, req.contrasena), req.tipo, true)])
    ensures status != StatusCreated ==> db.tables == old(db.tables)
  {
    if req.rifCedula == "" || req.usuario == "" || req.contrasena == "" || req.tipo == "" {
      return StatusBadRequest;
    }
    if faults.hash {
      return StatusInternalServerError;
    }
    var hashed := Hash(salt, req.contrasena);
    var usuario := Usuario(req.rifCedula, req.usuario, hashed, req.tipo, true);
    var err := RegistrarUsuarioTx(db, usuario, faults);
    if err.Some? {
      return err.value;
    }
    return StatusCreated;
  }

  // ---------------------------------------------------------------------
  // Edition: the dynamic UPDATE of EditarUsuarioTx

  /** A value bound to a placeholder: a text, or a bcrypt hash for the
      `contrasena` column. */
  datatype Param = TextParam(text: string) | HashParam(hash: PasswordHash)

  /** `column = $placeholder` in a SET list. */
  datatype Assignment = Assignment(column: string, placeholder: nat)

  /** `UPDATE usuarios SET <sets> WHERE rif_cedula = $<where>`. */
  datatype Update = Update(sets: seq<Assignment>, where: nat)

  /** A statement ready for tx.Exec: its structure, its SQL text and the
      arguments bound to $1, $2, ... */
  datatype Sentencia = Sentencia(update: Update, query: string, params: seq<Param>)

  function AssignmentSql(a: Assignment): string {
    a.column + " = $" + Decimal(a.placeholder)
  }

  function SetList(sets: seq<Assignment>): (r: seq<string>)
    ensures |r| == |sets|
    ensures forall i :: 0 <= i < |sets| ==> r[i] == AssignmentSql(sets[i])
  {
    if sets == [] then [] else [AssignmentSql(sets[0])] + SetList(sets[1..])
  }

  /** The SQL text of an UPDATE. */
  function UpdateSql(u: Update): string {
    "UPDATE usuarios SET " + Join(SetList(u.sets), ", ") + " WHERE rif_cedula = $" + Decimal(u.where)
  }

  /** The columns to change and their new values, in the order the handler
      considers them: `usuario` if a new login name was given, then
      `contrasena` if a new password was given. */
  function Cambios(nuevoUsuario: string, nuevaContrasena: Option<PasswordHash>): (c: seq<(string, Param)>)
    ensures |c| == (if nuevoUsuario != "" then 1 else 0) + (if nuevaContrasena.Some? then 1 else 0)
  {
    (if nuevoUsuario != "" then [("usuario", TextParam(nuevoUsuario))] else [])
    + (if nuevaContrasena.Some? then [("contrasena", HashParam(nuevaContrasena.value))] else [])
  }

  /** The statement EditarUsuarioTx should run: one assignment per change,
      numbered $1..$k in order, the key bound to $(k+1), and k+1 arguments
      ending with the key. */
  function UpdatePrevisto(rifCedula: string, nuevoUsuario: string, nuevaContrasena: Option<PasswordHash>): (s: Sentencia)
    ensures var k := |Cambios(nuevoUsuario, nuevaContrasena)|;
      && |s.update.sets| == k && |s.params| == k + 1
      && (forall i :: 0 <= i < k ==>
            && s.update.sets[i].column == Cambios(nuevoUsuario, nuevaContrasena)[i].0
            && s.update.sets[i].placeholder == i + 1
            && s.params[i] == Cambios(nuevoUsuario, nuevaContrasena)[i].1)
      && s.update.where == k + 1
      && s.params[k] == TextParam(rifCedula)
    ensures s.query == UpdateSql(s.update)
  {
    var cambios := Cambios(nuevoUsuario, nuevaContrasena);
    var update := Update(seq(|cambios|, i requires 0 <= i < |cambios| => Assignment(cambios[i].0, i + 1)), |cambios| + 1);
    Sentencia(update, UpdateSql(update), seq(|cambios|, i requires 0 <= i < |cambios| => cambios[i].1) + [TextParam(rifCedula)])
  }

  /** The query builder of EditarUsuarioTx: grows the SET list and the
      argument list one supplied field at a time, numbering placeholders with
      a running index. None when no field was supplied (Go's 400). */
  method ConstruirUpdate(rifCedula: string, nuevoUsuario: string, nuevaContrasena: Option<PasswordHash>)
    returns (r: Option<Sentencia>)
    ensures r.None? <==> nuevoUsuario == "" && nuevaContrasena.None?
    ensures r.Some? ==> r.value == UpdatePrevisto(rifCedula, nuevoUsuario, nuevaContrasena)
  {
    var params: seq<Param> := [];
    var paramIndex: nat := 1;
    var updates: seq<Assignment> := [];
    if nuevoUsuario != "" {
      updates := updates + [Assignment("usuario", paramIndex)];
      params := params + [TextParam(nuevoUsuario)];
      paramIndex := paramIndex + 1;
    }
    if nuevaContrasena.Some? {
      updates := updates + [Assignment("contrasena", paramIndex)];
      params := params + [HashParam(nuevaContrasena.value)];
      paramIndex := paramIndex + 1;
    }
    if |updates| == 0 {
      return None;
    }
    var update := Update(updates, paramIndex);
    ghost var previsto := UpdatePrevisto(rifCedula, nuevoUsuario, nuevaContrasena);
    assert update == previsto.update;
    var query := "UPDATE usuarios SET " + Join(SetList(updates), ", ") + " WHERE rif_cedula = $" + Decimal(paramIndex);
    params := params + [TextParam(rifCedula)];
    assert params == previsto.params;
    r := Some(Sentencia(update, query, params));
  }

  /** The argument bound to placeholder $n, if any. */
  function Bound(params: seq<Param>, n: nat): Option<Param> {
    if 1 <= n <= |params| then Some(params[n - 1]) else None
  }

  /** An assignment PostgreSQL accepts: a known column and a bound argument of
      that column's type. */
  predicate AssignmentOk(a: Assignment, params: seq<Param>) {
    && Bound(params, a.placeholder).Some?
    && ((a.column == "usuario" && Bound(params, a.placeholder).value.TextParam?)
        || (a.column == "contrasena" && Bound(params, a.placeholder).value.HashParam?))
  }

  /** A statement PostgreSQL accepts with these arguments. */
  predicate UpdateOk(u: Update, params: seq<Param>) {
    && (forall i :: 0 <= i < |u.sets| ==> AssignmentOk(u.sets[i], params))
    && Bound(params, u.where).Some? && Bound(params, u.where).value.TextParam?
  }

  /** The row after the SET list. */
  function Apply(row: Usuario, sets: seq<Assignment>, params: seq<Param>): Usuario
    requires forall i :: 0 <= i < |sets| ==> AssignmentOk(sets[i], params)
    decreases |sets|
  {
    if |sets| == 0 then row
    else
      assert AssignmentOk(sets[0], params);
      var v := Bound(params, sets[0].placeholder).value;
      var row' := if sets[0].column == "usuario" then row.(usuario := v.text) else row.(contrasena := v.hash);
      Apply(row', sets[1..], params)
  }

  /** tx.Exec of an UPDATE on `usuarios`: the outcome, the number of rows
      affected and the new table. A statement that does not bind, or fails
      for an outside reason, is an error; no matching row affects nothing; a
      new login name another credential holds violates the unique constraint. */
  function ExecUpdate(usuarios: map<string, Usuario>, u: Update, params: seq<Param>, fails: bool)
    : (r: (ExecOutcome, nat, map<string, Usuario>))
    ensures r.0 != Ok ==> r.1 == 0 && r.2 == usuarios
    ensures r.1 <= 1
    ensures r.1 == 0 ==> r.2 == usuarios
    ensures r.2.Keys == usuarios.Keys
  {
    if fails || !UpdateOk(u, params) then (Other, 0, usuarios)
    else
      var key := Bound(params, u.where).value.text;
      if key !in usuarios then (Ok, 0, usuarios)
      else
        var row := Apply(usuarios[key], u.sets, params);
        if !LoginFreeFor(usuarios, key, row.usuario) then (UniqueViolation, 0, usuarios)
        else (Ok, 1, usuarios[key := row])
  }

  /** Whatever statement runs, the UPDATE keeps the login names unique: it
      writes a row only when no other credential holds its new login name. */
  lemma ExecUpdateLoginsUnique(usuarios: map<string, Usuario>, u: Update, params: seq<Param>, fails: bool)
    requires LoginsUnique(usuarios)
    ensures LoginsUnique(ExecUpdate(usuarios, u, params, fails).2)
  {
    if !fails && UpdateOk(u, params) {
      var key := Bound(params, u.where).value.text;
      if key in usuarios {
        var row := Apply(usuarios[key], u.sets, params);
        if LoginFreeFor(usuarios, key, row.usuario) {
          LoginsUniqueTrasReemplazo(usuarios, key, row);
        }
      }
    }
  }

  /** The credential with the supplied fields replaced and every other column
      (`rif_cedula`, `tipo`, `estado`) kept. */
  function Editado(row: Usuario, nuevoUsuario: string, nuevaContrasena: Option<PasswordHash>): (r: Usuario)
    ensures r.rifCedula == row.rifCedula && r.tipo == row.tipo && r.estado == row.estado
    ensures r.usuario == (if nuevoUsuario != "" then nuevoUsuario else row.usuario)
    ensures r.contrasena == (if nuevaContrasena.Some? then nuevaContrasena.value else row.contrasena)
  {
    row.(usuario := if nuevoUsuario != "" then nuevoUsuario else row.usuario,
         contrasena := if nuevaContrasena.Some? then nuevaContrasena.value else row.contrasena)
  }

  /** Running the built statement changes exactly the supplied columns of the
      credential under `rifCedula`, affects no row when there is none, and is
      refused when the new login name belongs to another credential. */
  lemma {:induction false} EjecutarUpdatePrevisto(usuarios: map<string, Usuario>, rifCedula: string,
                                                  nuevoUsuario: string, nuevaContrasena: Option<PasswordHash>, fails: bool)
    requires LoginsUnique(usuarios)
    requires nuevoUsuario != "" || nuevaContrasena.Some?
    ensures var s := UpdatePrevisto(rifCedula, nuevoUsuario, nuevaContrasena);
      ExecUpdate(usuarios, s.update, s.params, fails) ==
        if fails then (Other, 0, usuarios)
        else if rifCedula !in usuarios then (Ok, 0, usuarios)
        else if nuevoUsuario != "" && !LoginFreeFor(usuarios, rifCedula, nuevoUsuario) then (UniqueViolation, 0, usuarios)
        else (Ok, 1, usuarios[rifCedula := Editado(usuarios[rifCedula], nuevoUsuario, nuevaContrasena)])
  {
    var s := UpdatePrevisto(rifCedula, nuevoUsuario, nuevaContrasena);
    var sets := s.update.sets;
    assert UpdateOk(s.update, s.params);
    if rifCedula in usuarios {
      var row := usuarios[rifCedula];
      var nuevo := Apply(row, sets, s.params);
      if nuevoUsuario != "" && nuevaContrasena.Some? {
        assert sets[0] == Assignment("usuario", 1) && sets[1] == Assignment("contrasena", 2);
        assert Bound(s.params, 1) == Some(TextParam(nuevoUsuario));
        assert Bound(s.params, 2) == Some(HashParam(nuevaContrasena.value));
        var r1 := row.(usuario := nuevoUsuario);
        assert nuevo == Apply(r1, sets[1..], s.params);
        assert sets[1..][0] == sets[1] && |sets[1..][1..]| == 0;
        assert Apply(r1, sets[1..], s.params) == Apply(r1.(contrasena := nuevaContrasena.value), sets[1..][1..], s.params);
      } else if nuevoUsuario != "" {
        assert sets[0] == Assignment("usuario", 1) && |sets[1..]| == 0;
        assert Bound(s.params, 1) == Some(TextParam(nuevoUsuario));
        assert nuevo == Apply(row.(usuario := nuevoUsuario), sets[1..], s.params);
      } else {
        assert sets[0] == Assignment("contrasena", 1) && |sets[1..]| == 0;
        assert Bound(s.params, 1) == Some(HashParam(nuevaContrasena.value));
        assert nuevo == Apply(row.(contrasena := nuevaContrasena.value), sets[1..], s.params);
      }
      assert nuevo == Editado(row, nuevoUsuario, nuevaContrasena);
      if nuevoUsuario == "" {
        assert LoginFreeFor(usuarios, rifCedula, row.usuario);
      }
    }
  }

  /** The error EditarUsuarioTx returns (None for success): 500 when BEGIN or
      the UPDATE fails (a login name another credential holds included), 400
      with nothing to set, 404 when no row has the key, 500 when COMMIT fails. */
  function ErrorEdicion(usuarios: map<string, Usuario>, rifCedula: string, nuevoUsuario: string,
                        nuevaContrasena: Option<PasswordHash>, faults: Faults): (err: Option<int>)
    ensures err.Some? ==> err.value in {StatusBadRequest, StatusNotFound, StatusInternalServerError}
    ensures err.None? ==> rifCedula in usuarios && (nuevoUsuario != "" || nuevaContrasena.Some?)
  {
    if faults.begin then Some(StatusInternalServerError)
    else if nuevoUsuario == "" && nuevaContrasena.None? then Some(StatusBadRequest)
    else if 0 in faults.exec || (rifCedula in usuarios && nuevoUsuario != "" && !LoginFreeFor(usuarios, rifCedula, nuevoUsuario))
    then Some(StatusInternalServerError)
    else if rifCedula !in usuarios then Some(StatusNotFound)
    else if faults.commit then Some(StatusInternalServerError)
    else None
  }

  /** EditarUsuarioTx: builds the UPDATE, runs it in a transaction and
      commits only when it changed a row. On success the credential has
      exactly the supplied columns replaced; on any error nothing changes. */
  method EditarUsuarioTx(db: Database, rifCedula: string, nuevoUsuario: string,
                         nuevaContrasena: Option<PasswordHash>, faults: Faults) returns (err: Option<int>)
    requires db.Valid()
    modifies db
    ensures db.Valid() && db.nextFacturaId == old(db.nextFacturaId) && db.standalone == old(db.standalone)
    ensures err == ErrorEdicion(old(db.tables.usuarios), rifCedula, nuevoUsuario, nuevaContrasena, faults)
    ensures err.None? ==>
      db.tables == old(db.tables).(usuarios := old(db.tables.usuarios)[rifCedula :=
        Editado(old(db.tables.usuarios)[rifCedula], nuevoUsuario, nuevaContrasena)])
    ensures err.Some? ==> db.tables == old(db.tables)
  {
    if faults.begin {
      return Some(StatusInternalServerError);
    }
    var tx := db.tables;
    var sentencia := ConstruirUpdate(rifCedula, nuevoUsuario, nuevaContrasena);
    if sentencia.None? {
      return Some(StatusBadRequest);
    }
    var s := sentencia.value;
    EjecutarUpdatePrevisto(tx.usuarios, rifCedula, nuevoUsuario, nuevaContrasena, 0 in faults.exec);
    var result := ExecUpdate(tx.usuarios, s.update, s.params, 0 in faults.exec);
    if result.0 != Ok {
      return Some(StatusInternalServerError);
    }
    if result.1 == 0 {
      return Some(StatusNotFound);
    }
    ReemplazarUsuario(tx, db.standalone, Editado(tx.usuarios[rifCedula], nuevoUsuario, nuevaContrasena));
    tx := tx.(usuarios := result.2);
    if faults.commit {
      return Some(StatusInternalServerError);
    }
    db.tables := tx;
    return None;
  }

  /** The validation guards of EditarUsuario, on Go byte lengths: at least
      one field; a new login name of 4 to 120 bytes; a new password of at
      least 8 bytes. */
  predicate EdicionValida(usuario: string, contrasena: string) {
    && (usuario != "" || contrasena != "")
    && (usuario == "" || 4 <= Utf8Len(usuario) <= 120)
    && (contrasena == "" || Utf8Len(contrasena) >= 8)
  }

  /** On ASCII input the guards are the character counts the messages state:
      at least one field, a login name of 4 to 120 characters, a password of
      at least 8. */
  lemma EdicionValidaAscii(usuario: string, contrasena: string)
    requires IsAscii(usuario) && IsAscii(contrasena)
    ensures EdicionValida(usuario, contrasena) <==>
      && (usuario != "" || contrasena != "")
      && (usuario == "" || 4 <= |usuario| <= 120)
      && (contrasena == "" || |contrasena| >= 8)
  {
    Utf8LenAscii(usuario);
    Utf8LenAscii(contrasena);
  }

  /** The byte count lets shorter names through: a two-letter login name
      passes when its letters take two bytes each. */
  lemma LongitudEnBytes()
    ensures EdicionValida("ñu", "") == false && EdicionValida("ññ", "")
  {
    assert Utf8Len("ñu") == 3;
    assert Utf8Len("ññ") == 4;
  }

  /** EditarUsuario. Invalid input is 400 and bcrypt failing is 500, with
      nothing changed; otherwise the new password is hashed and the answer
      is 200 or EditarUsuarioTx's error status. */
  method EditarUsuario(db: Database, rifCedula: string, usuario: string, contrasena: string, salt: nat, faults: Faults)
    returns (status: int)
    requires db.Valid()
    modifies db
    ensures db.Valid() && db.nextFacturaId == old(db.nextFacturaId)
    ensures var nueva := if contrasena != "" then Some(Hash(salt, contrasena)) else None;
      status == (if !EdicionValida(usuario, contrasena) then StatusBadRequest
                 else if contrasena != "" && faults.hash then StatusInternalServerError
                 else match ErrorEdicion(old(db.tables.usuarios), rifCedula, usuario, nueva, faults)
                   case None => StatusOK
                   case Some(code) => code)
    ensures status == StatusOK ==>
      db.tables == old(db.tables).(usuarios := old(db.tables.usuarios)[rifCedula :=
        Editado(old(db.tables.usuarios)[rifCedula], usuario, if contrasena != "" then Some(Hash(salt, contrasena)) else None)])
    ensures status != StatusOK ==> db.tables == old(db.tables)
  {
    if usuario == "" && contrasena == "" {
      return StatusBadRequest;
    }
    if usuario != "" && (Utf8Len(usuario) < 4 || Utf8Len(usuario) > 120) {
      return StatusBadRequest;
    }
    var nueva: Option<PasswordHash> := None;
    if contrasena != "" {
      if Utf8Len(contrasena) < 8 {
        return StatusBadRequest;
      }
      if faults.hash {
        return StatusInternalServerError;
      }
      nueva := Some(Hash(salt, contrasena));
    }
    var err := EditarUsuarioTx(db, rifCedula, usuario, nueva, faults);
    if err.Some? {
      return err.value;
    }
    return StatusOK;
  }

  // ---------------------------------------------------------------------
  // State and passwords

  /** EstadoUsuario. `activar` sets `estado` true and `desactivar` false; any
      other action is 400. A failed existence query is 500, an unknown key
      404, a failed BEGIN, UPDATE or COMMIT 500. On 200 only that row's
      `estado` has changed; otherwise nothing has. */
  method EstadoUsuario(db: Database, rifCedula: string, accion: string, faults: Faults) returns (status: int)
    requires db.Valid()
    modifies db
    ensures db.Valid() && db.nextFacturaId == old(db.nextFacturaId) && db.standalone == old(db.standalone)
    ensures var t := old(db.tables);
      status == (if Accion(accion).None? then StatusBadRequest
                 else if faults.query then StatusInternalServerError
                 else if rifCedula !in t.usuarios then StatusNotFound
                 else if faults.begin || 0 in faults.exec || faults.commit then StatusInternalServerError
                 else StatusOK)
    ensures status == StatusOK ==>
      db.tables == old(db.tables).(usuarios := old(db.tables.usuarios)[rifCedula :=
        old(db.tables.usuarios)[rifCedula].(estado := accion == "activar")])
    ensures status != StatusOK ==> db.tables == old(db.tables)
  {
    var estado := Accion(accion);
    if estado.None? {
      return StatusBadRequest;
    }
    if faults.query {
      return StatusInternalServerError;
    }
    var existe := rifCedula in db.tables.usuarios;
    if !existe {
      return StatusNotFound;
    }
    if faults.begin {
      return StatusInternalServerError;
    }
    var tx := db.tables;
    if 0 in faults.exec {
      return StatusInternalServerError;
    }
    var row := tx.usuarios[rifCedula].(estado := estado.value);
    ReemplazarUsuario(tx, db.standalone, row);
    tx := tx.(usuarios := tx.usuarios[rifCedula := row]);
    if faults.commit {
      return StatusInternalServerError;
    }
    db.tables := tx;
    return StatusOK;
  }

  /** `UPDATE usuarios SET contrasena = $1 WHERE rif_cedula = $2`: replaces
      the hash of the credential under `key`, if there is one, and nothing
      else. */
  function SetContrasena(usuarios: map<string, Usuario>, key: string, h: PasswordHash): (r: map<string, Usuario>)
    ensures r.Keys == usuarios.Keys
    ensures forall k :: k in r && k != key ==> r[k] == usuarios[k]
    ensures key in usuarios ==> r[key] == usuarios[key].(contrasena := h)
  {
    if key in usuarios then usuarios[key := usuarios[key].(contrasena := h)] else usuarios
  }

  /** The administrator's password change, CambiarContrasena. A new password
      under 8 bytes is 400 before anything else; bcrypt or the UPDATE failing
      is 500. Otherwise the answer is 200 whether or not a credential has the
      key, and only that credential's hash has changed. */
  method CambiarContrasena(db: Database, rifCedula: string, nueva: string, salt: nat, faults: Faults) returns (status: int)
    requires db.Valid()
    modifies db
    ensures db.Valid() && db.nextFacturaId == old(db.nextFacturaId) && db.standalone == old(db.standalone)
    ensures status == (if Utf8Len(nueva) < 8 then StatusBadRequest
                       else if faults.hash || 0 in faults.exec then StatusInternalServerError
                       else StatusOK)
    ensures status == StatusOK ==>
      db.tables == old(db.tables).(usuarios := SetContrasena(old(db.tables.usuarios), rifCedula, Hash(salt, nueva)))
    ensures status != StatusOK ==> db.tables == old(db.tables)
  {
    if Utf8Len(nueva) < 8 {
      return StatusBadRequest;
    }
    if faults.hash {
      return StatusInternalServerError;
    }
    var hashed := Hash(salt, nueva);
    if 0 in faults.exec {
      return StatusInternalServerError;
    }
    if rifCedula in db.tables.usuarios {
      ReemplazarUsuario(db.tables, db.standalone, db.tables.usuarios[rifCedula].(contrasena := hashed));
    }
    db.tables := db.tables.(usuarios := SetContrasena(db.tables.usuarios, rifCedula, hashed));
    return StatusOK;
  }

  /** The personal password change, CambiarContrasenaPersonal. The identity
      is the one named by the token's claims in the request context: without
      claims the answer is 401. A new password under 8 bytes is 400; a failed
      lookup 500; no credential 404; a current password that does not verify
      401; bcrypt or the UPDATE failing 500. On 200 only the hash of that
      identity's credential has changed; otherwise nothing has. */
  method CambiarContrasenaPersonal(db: Database, ctx: Context, actual: string, nueva: string, salt: nat, faults: Faults)
    returns (status: int)
    requires db.Valid()
    modifies db
    ensures db.Valid() && db.nextFacturaId == old(db.nextFacturaId) && db.standalone == old(db.standalone)
    ensures var t := old(db.tables.usuarios);
            var claims := UsuarioDesdeContexto(ctx);
      status == (if claims.None? then StatusUnauthorized
                 else if Utf8Len(nueva) < 8 then StatusBadRequest
                 else if faults.query then StatusInternalServerError
                 else if claims.value.usuarioId !in t then StatusNotFound
                 else if !Verify(t[claims.value.usuarioId].contrasena, actual) then StatusUnauthorized
                 else if faults.hash || 0 in faults.exec then StatusInternalServerError
                 else StatusOK)
    ensures status == StatusOK ==>
      && UsuarioDesdeContexto(ctx).Some?
      && db.tables == old(db.tables).(usuarios := old(db.tables.usuarios)[UsuarioDesdeContexto(ctx).value.usuarioId :=
           old(db.tables.usuarios)[UsuarioDesdeContexto(ctx).value.usuarioId].(contrasena := Hash(salt, nueva))])
    ensures status != StatusOK ==> db.tables == old(db.tables)
  {
    var claims := UsuarioDesdeContexto(ctx);
    if claims.None? {
      return StatusUnauthorized;
    }
    var userId := claims.value.usuarioId;
    if Utf8Len(nueva) < 8 {
      return StatusBadRequest;
    }
    if faults.query {
      return StatusInternalServerError;
    }
    if userId !in db.tables.usuarios {
      return StatusNotFound;
    }
    var contrasenaActual := db.tables.usuarios[userId].contrasena;
    if !Verify(contrasenaActual, actual) {
      return StatusUnauthorized;
    }
    if faults.hash {
      return StatusInternalServerError;
    }
    var hashed := Hash(salt, nueva);
    if 0 in faults.exec {
      return StatusInternalServerError;
    }
    var row := db.tables.usuarios[userId].(contrasena := hashed);
    ReemplazarUsuario(db.tables, db.standalone, row);
    db.tables := db.tables.(usuarios := db.tables.usuarios[userId := row]);
    return StatusOK;
  }
}
