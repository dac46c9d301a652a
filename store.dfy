/** The PostgreSQL database the handlers share, as an in-memory relational
    store: one map per table from primary key to row, the constraints the
    schema enforces, the pairing between a company or employee row and its
    credential that the registration handlers maintain, and the outcomes of
    executing an INSERT.

    Failures that come from outside the data (a lost connection, a failed
    BEGIN or COMMIT, an exhausted entropy source) are not decided by the
    tables: every handler takes them as a Faults value. */
module Store {
  import opened Common
  import opened Bcrypt

  /** A row of `usuarios`: a credential. */
  datatype Usuario = Usuario(
    rifCedula: string,
    usuario: string,
    contrasena: PasswordHash,
    tipo: string,
    estado: bool)

  /** A credential as a request body carries it (models.Usuario decoded from
      JSON): the password is still the plaintext. */
  datatype UsuarioBody = UsuarioBody(
    rifCedula: string,
    usuario: string,
    contrasena: string,
    tipo: string,
    estado: bool)

  /** A row of `empresa` (models.Empresa). */
  datatype Empresa = Empresa(
    rif: string,
    nombre: string,
    email: string,
    direccion: string,
    estado: bool)

  /** A row of `empleados` (models.Empleados). */
  datatype Empleado = Empleado(
    cedula: string,
    nombres: string,
    apellidos: string,
    rifEmpresa: string,
    email: string,
    cargo: string,
    estado: bool,
    numeroTlf: string)

  /** A row of `ferrys` (models.Ferry). */
  datatype Ferry = Ferry(
    matricula: string,
    rifEmpresa: string,
    nombre: string,
    modelo: string,
    capacidadEconomica: int,
    capacidadVip: int,
    estado: bool)

  /** A row of `facturas` (models.Factura). `emision` counts seconds from Go's
      zero time.Time, so 0 is the zero value. */
  datatype Factura = Factura(
    idFactura: int,
    nombresViajero: string,
    apellidosViajero: string,
    rifEmpresa: string,
    cedulaEmpleado: string,
    nombreEmpleado: string,
    idViaje: string,
    tipo: string,
    estado: bool,
    nota: string,
    emision: int,
    matriculaFerry: string)

  /** Every table, keyed by its primary key. */
  datatype Tables = Tables(
    usuarios: map<string, Usuario>,
    empresa: map<string, Empresa>,
    empleados: map<string, Empleado>,
    ferrys: map<string, Ferry>,
    facturas: map<int, Factura>)

  /** The `tipo` of the credential created with a company or an employee. */
  const TipoEmpresa := "empresa"
  const TipoEmpleado := "empleado"

  /** The environment's failures for one request: BEGIN fails, the existence
      query fails with an error other than "no rows", bcrypt fails, the
      statements whose ordinals (0 for the handler's first statement) are in
      `exec` fail for a reason other than a constraint, COMMIT fails. */
  datatype Faults = Faults(begin: bool, query: bool, hash: bool, exec: set<nat>, commit: bool)

  /** The result of executing a statement: success, a unique or primary key
      violation (SQLSTATE 23505), a foreign key violation (23503), or any other
      error. */
  datatype ExecOutcome = Ok | UniqueViolation | FkViolation | Other

  /** Each row sits under its own primary key. */
  ghost predicate KeysMatch(t: Tables) {
    && (forall k :: k in t.usuarios ==> t.usuarios[k].rifCedula == k)
    && (forall k :: k in t.empresa ==> t.empresa[k].rif == k)
    && (forall k :: k in t.empleados ==> t.empleados[k].cedula == k)
    && (forall k :: k in t.ferrys ==> t.ferrys[k].matricula == k)
    && (forall k :: k in t.facturas ==> t.facturas[k].idFactura == k)
  }

  /** The unique constraint on `usuarios.usuario`. */
  ghost predicate LoginsUnique(usuarios: map<string, Usuario>) {
    forall k1, k2 :: k1 in usuarios && k2 in usuarios && usuarios[k1].usuario == usuarios[k2].usuario ==> k1 == k2
  }

  /** No credential other than the one under `key` uses `login`. */
  predicate LoginFreeFor(usuarios: map<string, Usuario>, key: string, login: string) {
    forall k :: k in usuarios && k != key ==> usuarios[k].usuario != login
  }

  /** No credential uses `login`. */
  predicate LoginFree(usuarios: map<string, Usuario>, login: string) {
    forall k :: k in usuarios ==> usuarios[k].usuario != login
  }

  /** The foreign key from `ferrys.rif_empresa` to `empresa.rif`. */
  ghost predicate FerrysReferenceEmpresa(t: Tables) {
    forall m :: m in t.ferrys ==> t.ferrys[m].rifEmpresa in t.empresa
  }

  /** The constraints the schema enforces. */
  ghost predicate Schema(t: Tables) {
    KeysMatch(t) && LoginsUnique(t.usuarios) && FerrysReferenceEmpresa(t)
  }

  /** The pairing of credentials with companies and employees. Every company
      and every employee has a credential under the same key, of the matching
      `tipo`; every credential belongs to a company or an employee unless it
      was created on its own by RegistrarUsuario (the keys in `standalone`),
      and those have no company or employee row. */
  ghost predicate Paired(t: Tables, standalone: set<string>) {
    && (forall k :: k in t.empresa ==> k in t.usuarios && t.usuarios[k].tipo == TipoEmpresa)
    && (forall k :: k in t.empleados ==> k in t.usuarios && t.usuarios[k].tipo == TipoEmpleado)
    && (forall k :: k in t.usuarios ==> k in standalone || k in t.empresa || k in t.empleados)
    && (forall k :: k in standalone ==> k in t.usuarios && k !in t.empresa && k !in t.empleados)
  }

  /** Under the pairing every credential belongs to exactly one of a company,
      an employee or a standalone registration, and its `tipo` says which of
      the first two it is. */
  lemma PairedParticion(t: Tables, standalone: set<string>, k: string)
    requires Paired(t, standalone)
    requires k in t.usuarios
    ensures k in t.empresa || k in t.empleados || k in standalone
    ensures !(k in t.empresa && k in t.empleados)
    ensures k in t.empresa <==> !(k in standalone) && t.usuarios[k].tipo == TipoEmpresa
    ensures k in t.empleados <==> !(k in standalone) && t.usuarios[k].tipo == TipoEmpleado
  {
    assert TipoEmpresa != TipoEmpleado;
  }

  /** INSERT INTO usuarios: refused by the primary key on `rif_cedula` and by
      the unique constraint on `usuario`. A refused or failed insert leaves the
      tables as they were. */
  function InsertUsuario(t: Tables, u: Usuario, fails: bool): (r: (ExecOutcome, Tables))
    ensures r.0 in {Ok, UniqueViolation, Other}
    ensures r.0 == Ok <==> !fails && u.rifCedula !in t.usuarios && LoginFree(t.usuarios, u.usuario)
    ensures r.0 == UniqueViolation <==> !fails && !(u.rifCedula !in t.usuarios && LoginFree(t.usuarios, u.usuario))
    ensures r.0 == Ok ==> r.1 == t.(usuarios := t.usuarios[u.rifCedula := u])
    ensures r.0 != Ok ==> r.1 == t
    ensures Schema(t) ==> Schema(r.1)
  {
    if fails then (Other, t)
    else if u.rifCedula in t.usuarios || !LoginFree(t.usuarios, u.usuario) then (UniqueViolation, t)
    else (Ok, t.(usuarios := t.usuarios[u.rifCedula := u]))
  }

  /** INSERT INTO empresa: refused by the primary key on `rif`. */
  function InsertEmpresa(t: Tables, e: Empresa, fails: bool): (r: (ExecOutcome, Tables))
    ensures r.0 in {Ok, UniqueViolation, Other}
    ensures r.0 == Ok <==> !fails && e.rif !in t.empresa
    ensures r.0 == Ok ==> r.1 == t.(empresa := t.empresa[e.rif := e])
    ensures r.0 != Ok ==> r.1 == t
    ensures Schema(t) ==> Schema(r.1)
  {
    if fails then (Other, t)
    else if e.rif in t.empresa then (UniqueViolation, t)
    else (Ok, t.(empresa := t.empresa[e.rif := e]))
  }

  /** INSERT INTO empleados: refused by the primary key on `cedula`. */
  function InsertEmpleado(t: Tables, e: Empleado, fails: bool): (r: (ExecOutcome, Tables))
    ensures r.0 in {Ok, UniqueViolation, Other}
    ensures r.0 == Ok <==> !fails && e.cedula !in t.empleados
    ensures r.0 == Ok ==> r.1 == t.(empleados := t.empleados[e.cedula := e])
    ensures r.0 != Ok ==> r.1 == t
    ensures Schema(t) ==> Schema(r.1)
  {
    if fails then (Other, t)
    else if e.cedula in t.empleados then (UniqueViolation, t)
    else (Ok, t.(empleados := t.empleados[e.cedula := e]))
  }

  /** INSERT INTO ferrys: refused by the primary key on `matricula`, then by the
      foreign key on `rif_empresa`. */
  function InsertFerry(t: Tables, f: Ferry, fails: bool): (r: (ExecOutcome, Tables))
    ensures r.0 == Ok <==> !fails && f.matricula !in t.ferrys && f.rifEmpresa in t.empresa
    ensures r.0 == UniqueViolation <==> !fails && f.matricula in t.ferrys
    ensures r.0 == FkViolation <==> !fails && f.matricula !in t.ferrys && f.rifEmpresa !in t.empresa
    ensures r.0 == Ok ==> r.1 == t.(ferrys := t.ferrys[f.matricula := f])
    ensures r.0 != Ok ==> r.1 == t
    ensures Schema(t) ==> Schema(r.1)
  {
    if fails then (Other, t)
    else if f.matricula in t.ferrys then (UniqueViolation, t)
    else if f.rifEmpresa !in t.empresa then (FkViolation, t)
    else (Ok, t.(ferrys := t.ferrys[f.matricula := f]))
  }

  /** Replacing a credential by one whose login name no other credential uses
      keeps the logins unique. */
  lemma LoginsUniqueTrasReemplazo(usuarios: map<string, Usuario>, key: string, row: Usuario)
    requires LoginsUnique(usuarios)
    requires LoginFreeFor(usuarios, key, row.usuario)
    ensures LoginsUnique(usuarios[key := row])
  {
    var u := usuarios[key := row];
    forall k1, k2 | k1 in u && k2 in u && u[k1].usuario == u[k2].usuario
      ensures k1 == k2
    {
      if k1 != key && k2 != key {
        assert usuarios[k1].usuario == usuarios[k2].usuario;
      }
    }
  }

  /** Replacing a credential by a row with the same key and `tipo` keeps the
      pairing. */
  lemma PairedTrasReemplazo(t: Tables, standalone: set<string>, row: Usuario)
    requires Paired(t, standalone)
    requires row.rifCedula in t.usuarios && t.usuarios[row.rifCedula].tipo == row.tipo
    ensures Paired(t.(usuarios := t.usuarios[row.rifCedula := row]), standalone)
  {
    var u := t.usuarios[row.rifCedula := row];
    assert u.Keys == t.usuarios.Keys;
    assert forall k :: k in u ==> u[k].tipo == t.usuarios[k].tipo;
  }

  /** Replacing a credential by a row with the same key and `tipo`, whose login
      name no other credential uses, keeps the constraints and the pairing. */
  lemma ReemplazarUsuario(t: Tables, standalone: set<string>, row: Usuario)
    requires Schema(t) && Paired(t, standalone)
    requires row.rifCedula in t.usuarios && t.usuarios[row.rifCedula].tipo == row.tipo
    requires LoginFreeFor(t.usuarios, row.rifCedula, row.usuario)
    ensures Schema(t.(usuarios := t.usuarios[row.rifCedula := row]))
    ensures Paired(t.(usuarios := t.usuarios[row.rifCedula := row]), standalone)
  {
    LoginsUniqueTrasReemplazo(t.usuarios, row.rifCedula, row);
    PairedTrasReemplazo(t, standalone, row);
  }

  /** Replacing a company row under its own key keeps the constraints and the
      pairing. */
  lemma ReemplazarEmpresa(t: Tables, standalone: set<string>, row: Empresa)
    requires Schema(t) && Paired(t, standalone)
    requires row.rif in t.empresa
    ensures Schema(t.(empresa := t.empresa[row.rif := row]))
    ensures Paired(t.(empresa := t.empresa[row.rif := row]), standalone)
  {
  }

  /** Replacing an employee row under its own key keeps the constraints and
      the pairing. */
  lemma ReemplazarEmpleado(t: Tables, standalone: set<string>, row: Empleado)
    requires Schema(t) && Paired(t, standalone)
    requires row.cedula in t.empleados
    ensures Schema(t.(empleados := t.empleados[row.cedula := row]))
    ensures Paired(t.(empleados := t.empleados[row.cedula := row]), standalone)
  {
  }

  /** Replacing a ferry row under its own key, keeping its company, keeps the
      constraints and the pairing. */
  lemma ReemplazarFerry(t: Tables, standalone: set<string>, row: Ferry)
    requires Schema(t) && Paired(t, standalone)
    requires row.matricula in t.ferrys && row.rifEmpresa == t.ferrys[row.matricula].rifEmpresa
    ensures Schema(t.(ferrys := t.ferrys[row.matricula := row]))
    ensures Paired(t.(ferrys := t.ferrys[row.matricula := row]), standalone)
  {
  }

  /** The shared database connection. `tables` is the committed state; a
      transaction works on a copy that replaces it only at COMMIT, so every
      early return discards the copy as the deferred Rollback does. */
  class Database {
    var tables: Tables
    /** The next value of the serial sequence behind `facturas.id_factura`. */
    var nextFacturaId: int
    /** The keys of the credentials RegistrarUsuario created on their own. */
    ghost var standalone: set<string>

    ghost predicate Valid()
      reads this
    {
      && Schema(tables)
      && Paired(tables, standalone)
      && (forall id :: id in tables.facturas ==> id < nextFacturaId)
    }

    /** An empty database. */
    constructor ()
      ensures Valid()
      ensures tables == Tables(map[], map[], map[], map[], map[])
      ensures nextFacturaId == 1 && standalone == {}
    {
      tables := Tables(map[], map[], map[], map[], map[]);
      nextFacturaId := 1;
      standalone := {};
    }
  }

  /** The `activar`/`desactivar` switch of the state handlers: the new value
      of `estado`, or None for any other action. */
  function Accion(accion: string): (r: Option<bool>)
    ensures r.Some? <==> accion == "activar" || accion == "desactivar"
    ensures r.Some? ==> (r.value <==> accion == "activar")
  {
    if accion == "activar" then Some(true)
    else if accion == "desactivar" then Some(false)
    else None
  }
}
