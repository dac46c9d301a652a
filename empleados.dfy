/** The employee handlers of handlers/empleado.go: registration of an
    employee together with its credential in one transaction, edition of its
    personal fields, and activation or deactivation with the action read from
    the request path. */
module Empleados {
  import opened Common
  import opened Text
  import opened Bcrypt
  import opened Store

  /** The names of the nine required fields. */
  const CamposEmpleado: set<string> :=
    {"rif_empresa", "nombres", "cargo", "apellidos", "email", "numero_tlf", "usuario", "contrasena", "cedula"}

  /** The CamposRequeridos map of RegistrarEmpleado. */
  function CamposRequeridos(e: Empleado, u: UsuarioBody): (campos: map<string, string>)
    ensures campos.Keys == CamposEmpleado
  {
    map f | f in CamposEmpleado :: Valor(e, u, f)
  }

  /** The request value stored under each field name. */
  function Valor(e: Empleado, u: UsuarioBody, f: string): string {
    if f == "rif_empresa" then e.rifEmpresa else if f == "nombres" then e.nombres
    else if f == "cargo" then e.cargo else if f == "apellidos" then e.apellidos
    else if f == "email" then e.email else if f == "numero_tlf" then e.numeroTlf
    else if f == "usuario" then u.usuario else if f == "contrasena" then u.contrasena
    else e.cedula
  }

  /** Some required field is blank after TrimSpace. */
  predicate AlgunVacio(e: Empleado, u: UsuarioBody) {
    exists i :: 0 <= i < |Valores(e, u)| && IsBlank(Valores(e, u)[i])
  }

  /** The values of the required fields, in the order of Nombres. */
  function Valores(e: Empleado, u: UsuarioBody): (vs: seq<string>)
    ensures |vs| == |Nombres|
  {
    [e.rifEmpresa, e.nombres, e.cargo, e.apellidos, e.email, e.numeroTlf, u.usuario, u.contrasena, e.cedula]
  }

  /** The names of the required fields. */
  const Nombres: seq<string> :=
    ["rif_empresa", "nombres", "cargo", "apellidos", "email", "numero_tlf", "usuario", "contrasena", "cedula"]

  /** The position in Valores of the value stored under a name. */
  lemma PosicionDe(e: Empleado, u: UsuarioBody, f: string) returns (i: int)
    ensures 0 <= i < |Valores(e, u)| && Valores(e, u)[i] == Valor(e, u, f)
  {
    i := if f == "rif_empresa" then 0 else if f == "nombres" then 1 else if f == "cargo" then 2
         else if f == "apellidos" then 3 else if f == "email" then 4 else if f == "numero_tlf" then 5
         else if f == "usuario" then 6 else if f == "contrasena" then 7 else 8;
  }

  /** Each value is the one stored under its name. */
  lemma ValorEnCampos(e: Empleado, u: UsuarioBody, i: int)
    requires 0 <= i < |Nombres|
    ensures Nombres[i] in CamposEmpleado && Valor(e, u, Nombres[i]) == Valores(e, u)[i]
  {
  }

  /** The blank-field check of RegistrarEmpleado: the CamposRequeridos map is
      built, its blank entries are collected in `order`, and the request is
      refused when the list is not empty. It is refused exactly when some
      required field is blank. */
  method HayVacios(e: Empleado, u: UsuarioBody, order: seq<string>) returns (hay: bool)
    requires IsEnumeration(order, CamposEmpleado)
    ensures hay <==> AlgunVacio(e, u)
  {
    var campos := CamposRequeridos(e, u);
    var vacios := CamposVacios(campos, order);
    if |vacios| > 0 {
      assert campos[vacios[0]] == Valor(e, u, vacios[0]);
      var i := PosicionDe(e, u, vacios[0]);
      assert IsBlank(Valores(e, u)[i]);
    } else {
      forall i | 0 <= i < |Valores(e, u)| ensures !IsBlank(Valores(e, u)[i]) {
        var f := Nombres[i];
        ValorEnCampos(e, u, i);
        assert campos[f] == Valor(e, u, f);
        assert f !in vacios;
      }
    }
    hay := |vacios| > 0;
  }

  /** RegistrarEmpleado. `order` is the order in which the range loop visits
      the required fields. The employee and its credential are inserted in
      one transaction, so either both rows are committed or neither is.
      - A required field blank after TrimSpace is 400.
      - A failed BEGIN is 500.
      - A cedula already registered is 500, not 409: the conflict branch of
        the existence check cannot be reached.
      - bcrypt failing is 500.
      - Either insert failing is 409, whatever the cause. When the existence
        query failed, the transaction is aborted and the first insert fails.
      - A failed COMMIT is 500.
      - Otherwise 201: one new employee row with `estado` true, and one new
        credential under the cedula with `tipo` "empleado", `estado` true and
        the hash of the password. */
  method RegistrarEmpleado(db: Database, empleado: Empleado, usuario: UsuarioBody, order: seq<string>, salt: nat, faults: Faults)
    returns (status: int)
    requires db.Valid()
    requires IsEnumeration(order, CamposEmpleado)
    modifies db
    ensures db.Valid() && db.nextFacturaId == old(db.nextFacturaId) && db.standalone == old(db.standalone)
    ensures var t := old(db.tables);
      status == (if AlgunVacio(empleado, usuario) then StatusBadRequest
                 else if faults.begin then StatusInternalServerError
                 else if !faults.query && empleado.cedula in t.empleados then StatusInternalServerError
                 else if faults.hash then StatusInternalServerError
                 else if faults.query || 0 in faults.exec then StatusConflict
                 else if 1 in faults.exec || empleado.cedula in t.usuarios || !LoginFree(t.usuarios, usuario.usuario)
                 then StatusConflict
                 else if faults.commit then StatusInternalServerError
                 else StatusCreated)
    ensures status == StatusCreated ==>
      db.tables == old(db.tables).(
        empleados := old(db.tables.empleados)[empleado.cedula := empleado.(estado := true)],
        usuarios := old(db.tables.usuarios)[empleado.cedula :=
          Usuario(empleado.cedula, usuario.usuario, Hash(salt, usuario.contrasena), TipoEmpleado, true)])
    ensures status != StatusCreated ==> db.tables == old(db.tables)
  {
    var hay := HayVacios(empleado, usuario, order);
    if hay {
      return StatusBadRequest;
    }
    if faults.begin {
      return StatusInternalServerError;
    }
    var tx := db.tables;
    var existe := !faults.query && empleado.cedula in tx.empleados;
    if existe {
      return StatusInternalServerError;
    }
    // After a failed statement PostgreSQL refuses every later one in the
    // same transaction.
    var aborted := faults.query;
    if faults.hash {
      return StatusInternalServerError;
    }
    var hashed := Hash(salt, usuario.contrasena);
    var row := empleado.(estado := true);
    var insertEmpleado := InsertEmpleado(tx, row, aborted || 0 in faults.exec);
    if insertEmpleado.0 != Ok {
      return StatusConflict;
    }
    tx := insertEmpleado.1;
    var credencial := Usuario(empleado.cedula, usuario.usuario, hashed, TipoEmpleado, true);
    var insertUsuario := InsertUsuario(tx, credencial, 1 in faults.exec);
    if insertUsuario.0 != Ok {
      return StatusConflict;
    }
    tx := insertUsuario.1;
    if faults.commit {
      return StatusInternalServerError;
    }
    db.tables := tx;
    return StatusCreated;
  }

  /** EditarEmpleado. The UPDATE overwrites `nombres`, `apellidos`, `email`,
      `cargo` and `numero_tlf` with the body's values and keeps `cedula`,
      `rif_empresa` and `estado`. The answer is 200 even when no employee has
      the cedula, and 500 with nothing changed when the UPDATE fails. */
  method EditarEmpleado(db: Database, cedula: string, body: Empleado, faults: Faults) returns (status: int)
    requires db.Valid()
    modifies db
    ensures db.Valid() && db.nextFacturaId == old(db.nextFacturaId) && db.standalone == old(db.standalone)
    ensures status == (if 0 in faults.exec then StatusInternalServerError else StatusOK)
    ensures status == StatusOK && cedula in old(db.tables.empleados) ==>
      db.tables == old(db.tables).(empleados := old(db.tables.empleados)[cedula :=
        old(db.tables.empleados)[cedula].(nombres := body.nombres, apellidos := body.apellidos, email := body.email,
                                          cargo := body.cargo, numeroTlf := body.numeroTlf)])
    ensures status != StatusOK || cedula !in old(db.tables.empleados) ==> db.tables == old(db.tables)
  {
    if 0 in faults.exec {
      return StatusInternalServerError;
    }
    if cedula in db.tables.empleados {
      var row := db.tables.empleados[cedula].(nombres := body.nombres, apellidos := body.apellidos, email := body.email,
                                              cargo := body.cargo, numeroTlf := body.numeroTlf);
      ReemplazarEmpleado(db.tables, db.standalone, row);
      db.tables := db.tables.(empleados := db.tables.empleados[cedula := row]);
    }
    return StatusOK;
  }

  /** The action EstadoEmpleado reads: element 3 of the path split on "/". */
  function AccionDeRuta(path: string): (accion: string)
    requires |Split(path, '/')| > 3
    ensures '/' !in accion
  {
    Split(path, '/')[3]
  }

  /** The path of an employee status route, as the pieces Split returns. */
  lemma RutaEmpleado(accion: string, cedula: string)
    ensures Join(["", "api", "empleado", accion, cedula], "/") == "/api/empleado/" + accion + "/" + cedula
  {
    JoinCons(accion, [cedula], "/");
    JoinCons("empleado", [accion, cedula], "/");
    JoinCons("api", ["empleado", accion, cedula], "/");
    JoinCons("", ["api", "empleado", accion, cedula], "/");
    assert "" + "/" + "api" + "/" + "empleado" + "/" == "/api/empleado/";
  }

  /** On the routes /api/empleado/activar/{cedula} and
      /api/empleado/desactivar/{cedula}, element 3 of the path is the action
      in the route. */
  lemma AccionDeRutaEmpleado(accion: string, cedula: string)
    requires '/' !in accion && '/' !in cedula
    ensures var path := "/api/empleado/" + accion + "/" + cedula;
      |Split(path, '/')| == 5 && AccionDeRuta(path) == accion
  {
    var parts := ["", "api", "empleado", accion, cedula];
    RutaEmpleado(accion, cedula);
    assert forall i :: 0 <= i < |parts| ==> '/' !in parts[i];
    SplitJoin(parts, '/');
  }

  /** EstadoEmpleado. Only `activar` and `desactivar` are accepted (400
      otherwise); a failed lookup is 500, an unknown cedula 404, a failed
      UPDATE 500. On 200 only the employee's `estado` has changed. The path
      has more than three segments on every route that reaches the handler. */
  method EstadoEmpleado(db: Database, cedula: string, path: string, faults: Faults) returns (status: int)
    requires db.Valid()
    requires |Split(path, '/')| > 3
    modifies db
    ensures db.Valid() && db.nextFacturaId == old(db.nextFacturaId) && db.standalone == old(db.standalone)
    ensures status == (if Accion(AccionDeRuta(path)).None? then StatusBadRequest
                       else if faults.query then StatusInternalServerError
                       else if cedula !in old(db.tables.empleados) then StatusNotFound
                       else if 0 in faults.exec then StatusInternalServerError
                       else StatusOK)
    ensures status == StatusOK ==>
      db.tables == old(db.tables).(empleados := old(db.tables.empleados)[cedula :=
        old(db.tables.empleados)[cedula].(estado := AccionDeRuta(path) == "activar")])
    ensures status != StatusOK ==> db.tables == old(db.tables)
  {
    var accion := Split(path, '/')[3];
    var estado := Accion(accion);
    if estado.None? {
      return StatusBadRequest;
    }
    if faults.query {
      return StatusInternalServerError;
    }
    if cedula !in db.tables.empleados {
      return StatusNotFound;
    }
    if 0 in faults.exec {
      return StatusInternalServerError;
    }
    var row := db.tables.empleados[cedula].(estado := estado.value);
    ReemplazarEmpleado(db.tables, db.standalone, row);
    db.tables := db.tables.(empleados := db.tables.empleados[cedula := row]);
    return StatusOK;
  }
}
