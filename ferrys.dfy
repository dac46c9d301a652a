/** The ferry handlers of handlers/ferry.go: registration of a ferry of a
    company, edition of its descriptive fields, and the list of the ferries
    of one company. */
module Ferrys {
  import opened Common
  import opened Text
  import opened Store

  /** RegistrarFerry. The answer is a status and, on 201, the registered
      matricula.
      - An empty matricula, company RIF, name or model is 400.
      - A capacity that is not positive is 400.
      - A failed BEGIN or existence query is 500.
      - A matricula already registered is 409.
      - An insert refused by the foreign key on `rif_empresa` is 400, one
        refused by the primary key 409, one failing for another reason 500.
      - A failed COMMIT is 500.
      - Otherwise 201: the ferry is stored as supplied, with the `estado` the
        request carries. */
  method RegistrarFerry(db: Database, ferry: Ferry, faults: Faults) returns (status: int, matricula: Option<string>)
    requires db.Valid()
    modifies db
    ensures db.Valid() && db.nextFacturaId == old(db.nextFacturaId) && db.standalone == old(db.standalone)
    ensures var t := old(db.tables);
      status == (if ferry.matricula == "" || ferry.rifEmpresa == "" || ferry.nombre == "" || ferry.modelo == ""
                 then StatusBadRequest
                 else if ferry.capacidadEconomica <= 0 || ferry.capacidadVip <= 0 then StatusBadRequest
                 else if faults.begin || faults.query then StatusInternalServerError
                 else if ferry.matricula in t.ferrys then StatusConflict
                 else if 0 in faults.exec then StatusInternalServerError
                 else if ferry.rifEmpresa !in t.empresa then StatusBadRequest
                 else if faults.commit then StatusInternalServerError
                 else StatusCreated)
    ensures matricula.Some? <==> status == StatusCreated
    ensures matricula.Some? ==> matricula.value == ferry.matricula
    ensures status == StatusCreated ==>
      db.tables == old(db.tables).(ferrys := old(db.tables.ferrys)[ferry.matricula := ferry])
    ensures status != StatusCreated ==> db.tables == old(db.tables)
  {
    if ferry.matricula == "" || ferry.rifEmpresa == "" || ferry.nombre == "" || ferry.modelo == "" {
      return StatusBadRequest, None;
    }
    if ferry.capacidadEconomica <= 0 || ferry.capacidadVip <= 0 {
      return StatusBadRequest, None;
    }
    if faults.begin {
      return StatusInternalServerError, None;
    }
    var tx := db.tables;
    if faults.query {
      return StatusInternalServerError, None;
    }
    var existe := ferry.matricula in tx.ferrys;
    if existe {
      return StatusConflict, None;
    }
    var insert := InsertFerry(tx, ferry, 0 in faults.exec);
    match insert.0
    case FkViolation => return StatusBadRequest, None;
    case UniqueViolation => return StatusConflict, None;
    case Other => return StatusInternalServerError, None;
    case Ok =>
    tx := insert.1;
    if faults.commit {
      return StatusInternalServerError, None;
    }
    db.tables := tx;
    return StatusCreated, Some(ferry.matricula);
  }

  /** EditarFerry. A negative capacity is 400 (zero is accepted); a failed
      BEGIN or existence query is 500; an unknown matricula 404; a failed
      UPDATE or COMMIT 500. On 200 the ferry's name, model, both capacities
      and `estado` are the body's, and its matricula and company are kept. */
  method EditarFerry(db: Database, matricula: string, body: Ferry, faults: Faults) returns (status: int)
    requires db.Valid()
    modifies db
    ensures db.Valid() && db.nextFacturaId == old(db.nextFacturaId) && db.standalone == old(db.standalone)
    ensures status == (if body.capacidadEconomica < 0 || body.capacidadVip < 0 then StatusBadRequest
                       else if faults.begin || faults.query then StatusInternalServerError
                       else if matricula !in old(db.tables.ferrys) then StatusNotFound
                       else if 0 in faults.exec || faults.commit then StatusInternalServerError
                       else StatusOK)
    ensures status == StatusOK ==>
      db.tables == old(db.tables).(ferrys := old(db.tables.ferrys)[matricula :=
        old(db.tables.ferrys)[matricula].(nombre := body.nombre, modelo := body.modelo,
                                          capacidadEconomica := body.capacidadEconomica,
                                          capacidadVip := body.capacidadVip, estado := body.estado)])
    ensures status != StatusOK ==> db.tables == old(db.tables)
  {
    if body.capacidadEconomica < 0 || body.capacidadVip < 0 {
      return StatusBadRequest;
    }
    if faults.begin {
      return StatusInternalServerError;
    }
    var tx := db.tables;
    if faults.query {
      return StatusInternalServerError;
    }
    if matricula !in tx.ferrys {
      return StatusNotFound;
    }
    if 0 in faults.exec {
      return StatusInternalServerError;
    }
    var row := tx.ferrys[matricula].(nombre := body.nombre, modelo := body.modelo,
                                     capacidadEconomica := body.capacidadEconomica,
                                     capacidadVip := body.capacidadVip, estado := body.estado);
    ReemplazarFerry(tx, db.standalone, row);
    tx := tx.(ferrys := tx.ferrys[matricula := row]);
    if faults.commit {
      return StatusInternalServerError;
    }
    db.tables := tx;
    return StatusOK;
  }

  /** The matriculas of the ferries of one company: the rows the query
      `WHERE rif_empresa = $1` selects. */
  function DeEmpresa(ferrys: map<string, Ferry>, rif: string): (ms: set<string>)
    ensures forall m :: m in ms <==> m in ferrys && ferrys[m].rifEmpresa == rif
  {
    set m | m in ferrys && ferrys[m].rifEmpresa == rif
  }

  /** A registered ferry joins the list of its own company and no other. */
  lemma ListadoTrasRegistro(ferrys: map<string, Ferry>, ferry: Ferry, rif: string)
    requires ferry.matricula !in ferrys
    ensures DeEmpresa(ferrys[ferry.matricula := ferry], rif)
         == DeEmpresa(ferrys, rif) + (if ferry.rifEmpresa == rif then {ferry.matricula} else {})
  {
    var antes := DeEmpresa(ferrys, rif);
    var despues := DeEmpresa(ferrys[ferry.matricula := ferry], rif);
    forall m ensures m in despues <==> m in antes + (if ferry.rifEmpresa == rif then {ferry.matricula} else {}) {
      if m != ferry.matricula {
        assert m in despues <==> m in antes;
      }
    }
  }

  /** ObtenerFerrysPorEmpresa. `rows` is the order in which the query returns
      the selected rows. A failed query is 500. Otherwise the answer is 200
      with the list the scan loop builds: exactly the ferries of the company,
      as stored, each once, in the order of the rows. */
  method ObtenerFerrysPorEmpresa(db: Database, rif: string, rows: seq<string>, faults: Faults)
    returns (status: int, ferrys: seq<Ferry>)
    requires db.Valid()
    requires IsEnumeration(rows, DeEmpresa(db.tables.ferrys, rif))
    ensures status == (if faults.query then StatusInternalServerError else StatusOK)
    ensures status == StatusOK ==>
      && |ferrys| == |rows|
      && (forall i :: 0 <= i < |ferrys| ==> ferrys[i] == db.tables.ferrys[rows[i]])
      && (forall f :: f in ferrys <==> f in db.tables.ferrys.Values && f.rifEmpresa == rif)
      && NoDuplicates(ferrys)
    ensures status != StatusOK ==> ferrys == []
  {
    if faults.query {
      return StatusInternalServerError, [];
    }
    ferrys := [];
    for i := 0 to |rows|
      invariant |ferrys| == i
      invariant forall j :: 0 <= j < i ==> ferrys[j] == db.tables.ferrys[rows[j]]
    {
      ferrys := ferrys + [db.tables.ferrys[rows[i]]];
    }
    EnumeracionDeFilas(db.tables, rif, rows, ferrys);
    status := StatusOK;
  }

  /** The rows of the enumeration, read in order, are exactly the ferries of
      the company. */
  lemma EnumeracionDeFilas(t: Tables, rif: string, rows: seq<string>, ferrys: seq<Ferry>)
    requires KeysMatch(t)
    requires IsEnumeration(rows, DeEmpresa(t.ferrys, rif))
    requires |ferrys| == |rows|
    requires forall i :: 0 <= i < |ferrys| ==> ferrys[i] == t.ferrys[rows[i]]
    ensures forall f :: f in ferrys <==> f in t.ferrys.Values && f.rifEmpresa == rif
    ensures NoDuplicates(ferrys)
  {
    forall i, j | 0 <= i < j < |ferrys| ensures ferrys[i] != ferrys[j] {
      assert rows[i] in DeEmpresa(t.ferrys, rif) && rows[j] in DeEmpresa(t.ferrys, rif);
      assert ferrys[i].matricula == rows[i] && ferrys[j].matricula == rows[j];
    }
    forall f ensures f in ferrys <==> f in t.ferrys.Values && f.rifEmpresa == rif {
      if f in ferrys {
        var i :| 0 <= i < |ferrys| && ferrys[i] == f;
        assert rows[i] in DeEmpresa(t.ferrys, rif);
      }
      if f in t.ferrys.Values && f.rifEmpresa == rif {
        var m :| m in t.ferrys && t.ferrys[m] == f;
        assert m in DeEmpresa(t.ferrys, rif);
        var i :| 0 <= i < |rows| && rows[i] == m;
        assert ferrys[i] == f;
      }
    }
  }
}
