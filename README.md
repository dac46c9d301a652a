# Ferry backend: accounts, identity and table handlers

A Dafny model of the account and identity layer of the ferry booking API
(a Go service on chi, pgx and PostgreSQL) and of its table handlers.

- The state is the committed content of the tables `usuarios`, `empresa`,
  `empleados`, `ferrys` and `facturas`. It is held by the class
  `Store.Database`.
- Each HTTP handler is a method on that database. It returns the status the
  handler answers with and states the new tables exactly.
- A transaction is a local copy of the tables, stored back only at COMMIT.
  An early return leaves the committed tables as they were, as the deferred
  Rollback does.
- Everything the environment can make fail (BEGIN, a lookup, bcrypt, a
  statement, COMMIT) is an explicit `Store.Faults` parameter. Constraint
  violations are computed from the tables.
- Every handler keeps `Database.Valid()`:
  - each row sits under its primary key;
  - login names are unique;
  - every ferry names an existing company;
  - every company and every employee has a credential under the same key,
    with `tipo` "empresa" or "empleado";
  - every other credential was created on its own by RegistrarUsuario;
  - every invoice id lies below the next value of the id sequence.
- Login is a read-only decision over the credentials.
  - Only the right login name with the right password gets a token.
  - The token carries the credential's key and role and is valid for 24
    hours.
  - The JWT middleware admits a request exactly when its bearer token parses
    and is valid at the current time.
- bcrypt is an ideal salted hash: a hash verifies the password it was made
  from and no other.
- The JWT library is a pair of signing and parsing functions. Two things
  are assumed of them (`Jwt.Sound`): a signed token parses back to its
  claims, and a signed token contains no space, as the base64url segments of
  a JWS compact token do not.

Behaviours of the code that the model keeps as written:

- RegistrarEmpleado answers 500, not 409, for a cedula that is already
  registered. The existence check returns 500 when the row is found (its 409
  branch is unreachable).
- Login never reads `estado`: a deactivated credential still logs in
  (`Sesion.LoginIgnoraEstado`).
- Length limits count UTF-8 bytes, as Go's `len` does, so "ññ" passes the
  four-character minimum (`Usuarios.LongitudEnBytes`).
- Company registration tests its fields for exactly "". Employee
  registration and login trim white space first.
- A failed existence query inside the company or employee transaction aborts
  that transaction, so the following insert fails and the answer is 409.
- The routes for EstadoEmpresa carry no `{accion}` parameter (main.go:55-56),
  so the action read is always "" and the routed handler always answers 400.
  The model states the handler for any action.
- EstadoEmpleado reads its action from element 3 of the path split on "/".
  On its two routes that is the action in the route
  (`Empleados.AccionDeRutaEmpleado`).
- CambiarContrasena answers 200 even when no credential has the key.
  EditarEmpleado does the same when no employee has the cedula.

## Model

| member | source | states |
|---|---|---|
| Text.TrimSpace | handlers/hauth.go:38-40 | the trimmed string is empty exactly when the input is all white space; otherwise it starts and ends with a non-space |
| Text.Utf8Len | handlers/usuario.go:167 | Go's `len` of a string counts between one and four bytes per character |
| Text.Utf8LenAscii | handlers/usuario.go:177 | the byte length equals the character count exactly for ASCII text |
| Text.Split | middlewares/auth.go:58 | strings.Split yields at least one part and no part contains the separator |
| Text.SplitJoin | middlewares/auth.go:58-64 | splitting the join of separator-free parts gives the parts back |
| Text.JoinSplit | middlewares/auth.go:58-64 | joining the parts of a split gives the string back |
| Text.SplitNoSeparator | middlewares/auth.go:58 | a string without the separator splits into itself alone |
| Text.SplitAfterPiece | middlewares/auth.go:58 | splitting `w + sep + t` gives `w` followed by the parts of `t` |
| Text.Decimal | handlers/usuario.go:231 | the `%d` rendering of a placeholder number is non-empty, all digits, with no leading zero except for 0 |
| Text.DecimalValor | handlers/usuario.go:231 | the digits `%d` writes spell the number (`ValorDecimal`) |
| Text.DecimalInyectiva | handlers/usuario.go:231 | two placeholder numbers render alike exactly when they are equal |
| Text.JoinLongitud | handlers/hauth.go:45 | strings.Join of no pieces is ""; otherwise its length is the pieces' total plus one separator between each two, and it starts with the first piece |
| Text.CamposVacios | handlers/hauth.go:38-42 | the range loop collects exactly the names whose value is blank after TrimSpace, each once |
| Text.BlancosEnumeracion | handlers/hauth.go:38-42 | over any iteration order of the map's keys, the collected names are exactly the blank fields, without repetition |
| Text.BlancosMiembros | handlers/hauth.go:38-42 | a name is collected exactly when it is visited, present and blank |
| Bcrypt.Hash | handlers/usuario.go:61 | a hash is made with the default cost and the given salt |
| Bcrypt.VerifyHash | handlers/hauth.go:67-70 | CompareHashAndPassword accepts exactly the password the hash was made from |
| Jwt.IssuedClaims | handlers/hauth.go:73-79 | the issued claims are valid at a time exactly when it is less than 24 hours after issue |
| Store.InsertUsuario | handlers/usuario.go:104-127 | the insert succeeds exactly when key and login name are free; a refused or failed insert changes nothing; the schema is kept |
| Store.InsertEmpresa | handlers/empresa.go:62-68 | the insert succeeds exactly when the RIF is free; otherwise nothing changes |
| Store.InsertEmpleado | handlers/empleado.go:88-94 | the insert succeeds exactly when the cedula is free; otherwise nothing changes |
| Store.InsertFerry | handlers/ferry.go:80-122 | a taken matricula is a unique violation, an unknown company a foreign key violation, success adds the row; the schema is kept |
| Store.LoginsUniqueTrasReemplazo | handlers/usuario.go:230-254 | giving a credential a login name no other credential holds keeps the unique constraint on `usuario` |
| Store.ReemplazarUsuario | handlers/usuario.go:334-337 | replacing a credential by one with the same key and role and an unused login name keeps schema and pairing |
| Store.ReemplazarEmpresa | handlers/empresa.go:126-128 | replacing a company row under its key keeps schema and pairing |
| Store.ReemplazarEmpleado | handlers/empleado.go:139-141 | replacing an employee row under its key keeps schema and pairing |
| Store.ReemplazarFerry | handlers/ferry.go:197-211 | replacing a ferry row, keeping its company, keeps schema and pairing |
| Store.PairedParticion | handlers/empresa.go:37-80 | under the invariant `Store.Database.Valid` keeps, every credential belongs to exactly one of a company, an employee or a standalone registration, and its `tipo` tells company from employee |
| Store.Accion | handlers/usuario.go:288-298 | only "activar" (true) and "desactivar" (false) are actions |
| Usuarios.RegistrarUsuarioTx | handlers/usuario.go:93-137 | 409 for a taken key or login name, 500 for other failures; only a committed insert adds the credential; the invariant is kept |
| Usuarios.RegistrarUsuario | handlers/usuario.go:34-89 | any empty field is 400; the stored credential holds the bcrypt hash, never the plaintext, and is active |
| Usuarios.UpdatePrevisto | handlers/usuario.go:224-251 | the SET list numbers its placeholders $1..$k in order, the WHERE clause uses $k+1, and the arguments end with the key |
| Usuarios.ConstruirUpdate | handlers/usuario.go:224-251 | the builder refuses an empty change and otherwise produces the statement UpdatePrevisto describes |
| Usuarios.ExecUpdate | handlers/usuario.go:253-268 | a failed or refused UPDATE changes nothing; it affects at most one row and never adds or removes a key |
| Usuarios.ExecUpdateLoginsUnique | handlers/usuario.go:253-268 | whatever statement runs, the UPDATE keeps login names unique |
| Usuarios.EjecutarUpdatePrevisto | handlers/usuario.go:254-268 | running the built UPDATE replaces exactly the supplied columns of the keyed row, fails on a taken login name, and touches one row or none |
| Usuarios.ErrorEdicion | handlers/usuario.go:207-279 | the transaction's error is one of 400, 404, 500; success means the key exists and something was supplied |
| Usuarios.EditarUsuarioTx | handlers/usuario.go:207-279 | the error is ErrorEdicion; on success only the supplied columns of that credential change; the invariant is kept |
| Usuarios.EdicionValidaAscii | handlers/usuario.go:158-183 | on ASCII input the edit guards are: some field given, a login name of 4 to 120 characters, a password of at least 8 |
| Usuarios.LongitudEnBytes | handlers/usuario.go:167 | the login length guard counts bytes: "ñu" is refused and "ññ" accepted |
| Usuarios.EditarUsuario | handlers/usuario.go:140-204 | the validation guards give 400 before any write; otherwise the answer and new state are those of EditarUsuarioTx over the hashed password |
| Usuarios.EstadoUsuario | handlers/usuario.go:282-360 | 400 for an unknown action, 404 for an unknown key; on 200 only that credential's `estado` changes |
| Usuarios.SetContrasena | handlers/usuario.go:434-437 | the UPDATE replaces the keyed credential's hash, if there is one, and nothing else |
| Usuarios.CambiarContrasena | handlers/usuario.go:398-450 | a new password under 8 bytes is 400; on 200 only the keyed hash changes, to the hash of the new password |
| Usuarios.CambiarContrasenaPersonal | handlers/usuario.go:453-547 | no claims is 401; the current password must verify (401 otherwise); on 200 only the caller's hash changes |
| Empresas.RegistrarEmpresa | handlers/empresa.go:16-96 | 400 for an empty field, 409 for a taken RIF or a refused insert; on 201 the company and its "empresa" credential are both added, otherwise neither |
| Empresas.EditarEmpresas | handlers/empresa.go:98-140 | 404 for an unknown RIF; on 200 name, email and address are the body's and RIF and `estado` are kept |
| Empresas.EstadoEmpresa | handlers/empresa.go:142-192 | 400 for an unknown action, 404 for an unknown RIF; on 200 only `estado` changes |
| Empleados.CamposRequeridos | handlers/empleado.go:33-43 | the required-field map has exactly the nine field names as keys |
| Empleados.PosicionDe | handlers/empleado.go:33-43 | every field name's value is one of the nine required values |
| Empleados.ValorEnCampos | handlers/empleado.go:33-43 | each of the nine values is the one stored under its name |
| Empleados.HayVacios | handlers/empleado.go:45-56 | the request is refused exactly when some required field is blank after TrimSpace |
| Empleados.RegistrarEmpleado | handlers/empleado.go:15-123 | a blank field is 400, an existing cedula 500, a refused insert 409; on 201 the employee and its "empleado" credential are both added, otherwise neither |
| Empleados.EditarEmpleado | handlers/empleado.go:125-152 | 200 unless the UPDATE fails; an existing employee gets the body's personal fields and keeps cedula, company and `estado` |
| Empleados.AccionDeRuta | handlers/empleado.go:158 | the action read is one piece of the path split on "/", so it holds no "/" |
| Empleados.AccionDeRutaEmpleado | handlers/empleado.go:158 | on /api/empleado/{accion}/{cedula}, element 3 of the split path is the action |
| Empleados.EstadoEmpleado | handlers/empleado.go:154-204 | 400 for an unknown action, 404 for an unknown cedula; on 200 only `estado` changes |
| Sesion.BuscarPorUsuario | handlers/hauth.go:54-63 | the lookup finds no row exactly when no credential has the login name, and otherwise the one that has it |
| Sesion.DecisionLogin | handlers/hauth.go:54-98 | 500 for a failed lookup; 401 exactly when no credential has both the login name and the password; a token is signed only over the issued claims of the matching credential; and a matching credential whose claims the signer signs always gets the token |
| Sesion.LoginIgnoraEstado | handlers/hauth.go:54-70 | changing a credential's `estado` changes no login answer |
| Sesion.TokenEmitidoAutentica | handlers/hauth.go:73-79 | a token login issues passes AutenticacionJWT exactly for 24 hours, and the handler then finds the issued claims |
| Sesion.LoginTrasRegistro | handlers/usuario.go:104-108 | a newly registered credential logs in with its password and no other |
| Sesion.LoginTrasCambioContrasena | handlers/usuario.go:434-437 | after a password change the login name logs in with the new password and no other |
| Sesion.VaciosLogin | handlers/hauth.go:38-42 | the set of blank login fields is empty exactly when both fields are non-blank |
| Sesion.CamposRequeridos | handlers/hauth.go:33-36 | the login field map has exactly the keys "usuario" and "contrasena" |
| Sesion.CamposRequeridosVacios | handlers/hauth.go:38-42 | the blank entries of the login map are exactly the blank login fields |
| Sesion.IniciarSesion | handlers/hauth.go:16-98 | a blank field is 400, listing exactly the blank field names; otherwise the answer is DecisionLogin over the committed credentials |
| Middleware.UsuarioDesdeContexto | middlewares/auth.go:42-47 | the claims under the middleware's key, or nil when there are none |
| Middleware.IsBearer | middlewares/auth.go:58-59 | a bearer header starts with "Bearer" and its only space is the seventh character |
| Middleware.BearerSplit | middlewares/auth.go:58-64 | the split test accepts exactly "Bearer", one space and a token without spaces, and the token is the second part |
| Middleware.AutenticacionJWT | middlewares/auth.go:50-79 | a request passes exactly when its bearer token parses and is valid now, with the claims stored in its context; otherwise 401 with the message for its case |
| Middleware.SoloAdmin | middlewares/auth.go:83-93 | a request passes unchanged exactly when its claims name the role "Administrador"; otherwise 403 |
| Middleware.RutaProtegida | main.go:47-79 | an administrator route admits exactly the valid tokens with role "Administrador", whatever the context held before |
| Ferrys.RegistrarFerry | handlers/ferry.go:16-137 | 400 for an empty field or a capacity not above zero, 409 for a taken matricula, 400 for an unknown company; on 201 the ferry is stored as supplied |
| Ferrys.EditarFerry | handlers/ferry.go:140-234 | 400 only for a negative capacity, 404 for an unknown matricula; on 200 name, model, capacities and `estado` are the body's and matricula and company are kept |
| Ferrys.DeEmpresa | handlers/ferry.go:286-288 | the query selects exactly the ferries whose company is the parameter |
| Ferrys.ListadoTrasRegistro | handlers/ferry.go:80-97 | a registered ferry joins the list of its own company and no other |
| Ferrys.ObtenerFerrysPorEmpresa | handlers/ferry.go:282-312 | the scan loop returns exactly the company's ferries, as stored, each once, in row order |
| Ferrys.EnumeracionDeFilas | handlers/ferry.go:296-303 | the rows of an enumeration of the selection are exactly the company's ferries, without repetition |
| Facturas.FaltaCampo | handlers/facturas.go:26-32 | a field is missing exactly when one of the eight required values is empty; `nota` never matters |
| Facturas.ConDefectos | handlers/facturas.go:34-38 | the inserted invoice is active, issued now unless an issue time was given, and otherwise the request's |
| Facturas.CrearFactura | handlers/facturas.go:15-96 | 400 for a missing required field; on 201 one new invoice under the next sequence value, which was unused |
| Facturas.CambiarEstadoFactura | handlers/facturas.go:206-251 | 400 for an unknown action, 404 for an unknown id or a failed lookup; on 200 only `estado` changes |

## Left out

- JSON decoding of request bodies and the text of the JSON answers. Malformed
  JSON answers 400 before anything else, except in CambiarContrasenaPersonal,
  which answers 401 for missing claims (handlers/usuario.go:456-463) before it
  decodes the body (handlers/usuario.go:472). Handlers take decoded values and
  return statuses, plus the login token, the listed ferries and the new
  invoice id.
- Error messages, except those of the middlewares and of login.
- bcrypt's cost and its 72-byte input limit. Hashing is ideal, and the salt
  is a parameter.
- The JWT secret's initialisation (middlewares/auth.go:16-26), HS256 and the
  token encoding. Signing and parsing are the abstract `Jwt.Signer`.
- The clock is a parameter in whole seconds.
- Concurrency. A row created between an existence check and the following
  insert is not modelled.
- The foreign keys of `empleados` and `facturas`. The schema is not part of
  the source, so a refused insert there is an environment failure in
  `Faults.exec`.
- ObtenerUsuario, ObtenerEmpresa, ObtenerFerry, ObtenerFactura and
  ObtenerFacturasPorEmpresa: read-only lookups outside the modelled core.
- database/database.go and helpers/helpers.go, and the routing in main.go
  except the middleware chain `Middleware.RutaProtegida`.
- Ferrys.ObtenerFerrysPorEmpresa: a failed row scan and a failed `rows.Err`
  are not modelled. With no rows Go encodes a nil slice as `null`; the model
  returns the empty sequence.
- Empleados.EstadoEmpleado: requires a path of more than three segments.
  Every route that reaches it has one; a shorter path would panic in Go.
- Facturas.CambiarEstadoFactura: the id is an integer. A non-numeric id in
  the path makes the lookup fail, which the model covers as a failed query
  (404).
- Facturas.CrearFactura: a failed INSERT leaves the id sequence unchanged.
  PostgreSQL may draw a value even for an INSERT that fails.
- Integer widths: capacities and ids are unbounded. JSON decoding already
  refuses values outside Go's `int`.
