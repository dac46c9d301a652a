/** The company handlers of handlers/empresa.go: registration of a company
    together with its credential in one transaction, edition of its contact
    fields, and activation or deactivation. */
module Empresas {
  import opened Common
  import opened Bcrypt
  import opened Store

  /** RegistrarEmpresa. The company and its credential are inserted in one
      transaction, so either both rows are committed or neither is.
      - An empty RIF, name, email, login name or password is 400 (the
        address is optional; nothing is trimmed).
      - A failed BEGIN is 500.
      - A RIF already registered is 409.
      - bcrypt failing is 500.
      - Either insert failing is 409, whatever the cause. When the existence
        query failed, the transaction is aborted and the first insert fails.
      - A failed COMMIT is 500.
      - Otherwise 201: one new company row with `estado` true, and one new
        credential under the RIF with `tipo` "empresa", `estado` true and the
        hash of the password. */
  method RegistrarEmpresa(db: Database, empresa: Empresa, usuario: UsuarioBody, salt: nat, faults: Faults)
    returns (status: int)
    requires db.Valid()
    modifies db
    ensures db.Valid() && db.nextFacturaId == old(db.nextFacturaId) && db.standalone == old(db.standalone)
    ensures var t := old(db.tables);
      status == (if empresa.rif == "" || empresa.nombre == "" || empresa.email == "" || usuario.usuario == "" || usuario.contrasena == ""
                 then StatusBadRequest
                 else if faults.begin then StatusInternalServerError
                 else if !faults.query && empresa.rif in t.empresa then StatusConflict
                 else if faults.hash then StatusInternalServerError
                 else if faults.query || 0 in faults.exec then StatusConflict
                 else if 1 in faults.exec || empresa.rif in t.usuarios || !LoginFree(t.usuarios, usuario.usuario)
                 then StatusConflict
                 else if faults.commit then StatusInternalServerError
                 else StatusCreated)
    ensures status == StatusCreated ==>
      db.tables == old(db.tables).(
        empresa := old(db.tables.empresa)[empresa.rif := empresa.(estado := true)],
        usuarios := old(db.tables.usuarios)[empresa.rif :=
          Usuario(empresa.rif, usuario.usuario, Hash(salt, usuario.contrasena), TipoEmpresa, true)])
    ensures status != StatusCreated ==> db.tables == old(db.tables)
  {
    if empresa.rif == "" || empresa.nombre == "" || empresa.email == "" || usuario.usuario == "" || usuario.contrasena == "" {
      return StatusBadRequest;
    }
    if faults.begin {
      return StatusInternalServerError;
    }
    var tx := db.tables;
    if !faults.query && empresa.rif in tx.empresa {
      return StatusConflict;
    }
    // After a failed statement PostgreSQL refuses every later one in the
    // same transaction.
    var aborted := faults.query;
    if faults.hash {
      return StatusInternalServerError;
    }
    var hashed := Hash(salt, usuario.contrasena);
    var row := empresa.(estado := true);
    var insertEmpresa := InsertEmpresa(tx, row, aborted || 0 in faults.exec);
    if insertEmpresa.0 != Ok {
      return StatusConflict;
    }
    tx := insertEmpresa.1;
    var credencial := Usuario(empresa.rif, usuario.usuario, hashed, TipoEmpresa, true);
    var insertUsuario := InsertUsuario(tx, credencial, 1 in faults.exec);
    if insertUsuario.0 != Ok {
      return StatusConflict;
    }
    tx := insertUsuario.1;
    if faults.commit {
      return StatusInternalServerError;
    }
    db.tables := tx;
    return StatusCreated;
  }

  /** EditarEmpresas. A failed lookup is 500 and an unknown RIF 404. Otherwise
      `nombre`, `email` and `direccion` are replaced by the body's values,
      empty strings included, `rif` and `estado` are kept, and the answer is
      200, or 500 with nothing changed when the UPDATE fails. */
  method EditarEmpresas(db: Database, rif: string, body: Empresa, faults: Faults) returns (status: int)
    requires db.Valid()
    modifies db
    ensures db.Valid() && db.nextFacturaId == old(db.nextFacturaId) && db.standalone == old(db.standalone)
    ensures status == (if faults.query then StatusInternalServerError
                       else if rif !in old(db.tables.empresa) then StatusNotFound
                       else if 0 in faults.exec then StatusInternalServerError
                       else StatusOK)
    ensures status == StatusOK ==>
      db.tables == old(db.tables).(empresa := old(db.tables.empresa)[rif :=
        old(db.tables.empresa)[rif].(nombre := body.nombre, email := body.email, direccion := body.direccion)])
    ensures status != StatusOK ==> db.tables == old(db.tables)
  {
    if faults.query {
      return StatusInternalServerError;
    }
    if rif !in db.tables.empresa {
      return StatusNotFound;
    }
    if 0 in faults.exec {
      return StatusInternalServerError;
    }
    var row := db.tables.empresa[rif].(nombre := body.nombre, email := body.email, direccion := body.direccion);
    ReemplazarEmpresa(db.tables, db.standalone, row);
    db.tables := db.tables.(empresa := db.tables.empresa[rif := row]);
    return StatusOK;
  }

  /** EstadoEmpresa. Only `activar` and `desactivar` are accepted (400
      otherwise); a failed lookup is 500, an unknown RIF 404, a failed UPDATE
      500. On 200 only the company's `estado` has changed. */
  method EstadoEmpresa(db: Database, rif: string, accion: string, faults: Faults) returns (status: int)
    requires db.Valid()
    modifies db
    ensures db.Valid() && db.nextFacturaId == old(db.nextFacturaId) && db.standalone == old(db.standalone)
    ensures status == (if Accion(accion).None? then StatusBadRequest
                       else if faults.query then StatusInternalServerError
                       else if rif !in old(db.tables.empresa) then StatusNotFound
                       else if 0 in faults.exec then StatusInternalServerError
                       else StatusOK)
    ensures status == StatusOK ==>
      db.tables == old(db.tables).(empresa := old(db.tables.empresa)[rif :=
        old(db.tables.empresa)[rif].(estado := accion == "activar")])
    ensures status != StatusOK ==> db.tables == old(db.tables)
  {
    var estado := Accion(accion);
    if estado.None? {
      return StatusBadRequest;
    }
    if faults.query {
      return StatusInternalServerError;
    }
    if rif !in db.tables.empresa {
      return StatusNotFound;
    }
    if 0 in faults.exec {
      return StatusInternalServerError;
    }
    var row := db.tables.empresa[rif].(estado := estado.value);
    ReemplazarEmpresa(db.tables, db.standalone, row);
    db.tables := db.tables.(empresa := db.tables.empresa[rif := row]);
    return StatusOK;
  }
}
