/** The invoice handlers of handlers/facturas.go: creation of an invoice, with
    its defaults, under an id drawn from the table's sequence, and activation
    or deactivation. */
module Facturas {
  import opened Common
  import opened Store

  /** The row CrearFactura inserts: the request's invoice, active, issued at
      `now` unless the request carries an issue time (a zero `emision` is
      Go's zero time), under the id `id`. */
  function ConDefectos(factura: Factura, id: int, now: int): (f: Factura)
    ensures f.estado
    ensures f.idFactura == id
    ensures f.emision == (if factura.emision == 0 then now else factura.emision)
    ensures f.(estado := factura.estado, idFactura := factura.idFactura, emision := factura.emision) == factura
  {
    factura.(idFactura := id, estado := true, emision := if factura.emision == 0 then now else factura.emision)
  }

  /** The values of the eight required fields, in the order the handler
      tests them; `nota`, `estado`, `emision` and the id are not among them. */
  function Requeridos(f: Factura): (vs: seq<string>)
    ensures |vs| == 8
  {
    [f.nombresViajero, f.apellidosViajero, f.rifEmpresa, f.cedulaEmpleado,
     f.nombreEmpleado, f.idViaje, f.tipo, f.matriculaFerry]
  }

  /** One of the eight required fields is empty (`nota` is optional). */
  predicate FaltaCampo(f: Factura): (falta: bool)
    ensures falta <==> "" in Requeridos(f)
    ensures forall nota :: falta <==> "" in Requeridos(f.(nota := nota))
  {
    || f.nombresViajero == "" || f.apellidosViajero == "" || f.rifEmpresa == ""
    || f.cedulaEmpleado == "" || f.nombreEmpleado == "" || f.idViaje == ""
    || f.tipo == "" || f.matriculaFerry == ""
  }

  /** CrearFactura. The answer is a status and, on 201, the new invoice's id.
      - A missing required field is 400.
      - A failed BEGIN, INSERT or COMMIT is 500.
      - Otherwise 201: one new row under the next value of the id sequence,
        the request's invoice with `estado` true and `emision` defaulted to
        `now`, and nothing else changed.
      The sequence is not transactional: a value drawn by a successful INSERT
      is used up even when the COMMIT then fails. */
  method CrearFactura(db: Database, factura: Factura, now: int, faults: Faults) returns (status: int, id: Option<int>)
    requires db.Valid()
    modifies db
    ensures db.Valid() && db.standalone == old(db.standalone)
    ensures status == (if FaltaCampo(factura) then StatusBadRequest
                       else if faults.begin || 0 in faults.exec || faults.commit then StatusInternalServerError
                       else StatusCreated)
    ensures id.Some? <==> status == StatusCreated
    ensures status == StatusCreated ==>
      && id.value == old(db.nextFacturaId)
      && id.value !in old(db.tables.facturas)
      && db.tables == old(db.tables).(facturas := old(db.tables.facturas)[id.value := ConDefectos(factura, id.value, now)])
    ensures status != StatusCreated ==> db.tables == old(db.tables)
    ensures db.nextFacturaId ==
      (if FaltaCampo(factura) || faults.begin || 0 in faults.exec then old(db.nextFacturaId) else old(db.nextFacturaId) + 1)
  {
    if FaltaCampo(factura) {
      return StatusBadRequest, None;
    }
    if faults.begin {
      return StatusInternalServerError, None;
    }
    var tx := db.tables;
    if 0 in faults.exec {
      return StatusInternalServerError, None;
    }
    var nuevo := db.nextFacturaId;
    db.nextFacturaId := db.nextFacturaId + 1;
    tx := tx.(facturas := tx.facturas[nuevo := ConDefectos(factura, nuevo, now)]);
    if faults.commit {
      return StatusInternalServerError, None;
    }
    db.tables := tx;
    return StatusCreated, Some(nuevo);
  }

  /** CambiarEstadoFactura. Only `activar` and `desactivar` are accepted (400
      otherwise). A failed existence query is answered like an unknown id,
      404; a failed UPDATE is 500. On 200 only the invoice's `estado` has
      changed. */
  method CambiarEstadoFactura(db: Database, id: int, accion: string, faults: Faults) returns (status: int)
    requires db.Valid()
    modifies db
    ensures db.Valid() && db.nextFacturaId == old(db.nextFacturaId) && db.standalone == old(db.standalone)
    ensures status == (if Accion(accion).None? then StatusBadRequest
                       else if faults.query || id !in old(db.tables.facturas) then StatusNotFound
                       else if 0 in faults.exec then StatusInternalServerError
                       else StatusOK)
    ensures status == StatusOK ==>
      db.tables == old(db.tables).(facturas := old(db.tables.facturas)[id :=
        old(db.tables.facturas)[id].(estado := accion == "activar")])
    ensures status != StatusOK ==> db.tables == old(db.tables)
  {
    var estado := Accion(accion);
    if estado.None? {
      return StatusBadRequest;
    }
    if faults.query || id !in db.tables.facturas {
      return StatusNotFound;
    }
    if 0 in faults.exec {
      return StatusInternalServerError;
    }
    var row := db.tables.facturas[id].(estado := estado.value);
    db.tables := db.tables.(facturas := db.tables.facturas[id := row]);
    return StatusOK;
  }
}
