/** The HTTP middlewares of the API: AutenticacionJWT, which admits a request
    carrying a valid bearer token (section 2.1 of RFC 6750, read more
    strictly: one single space, case-sensitive scheme) and stores its claims
    in the request context, and SoloAdmin, which admits only administrators.
    A middleware either answers the request itself or passes it on. */
module Middleware {
  import opened Common
  import opened Text
  import opened Jwt

  /** The values stored in a request context, by key. */
  type Context = map<string, Claims>

  /** The context key the claims are stored under. Its Go type is unexported,
      so nothing outside the middleware can store a value under it. */
  const UsuarioContextKey := "usuario"

  /** The part of an HTTP request the middlewares look at. */
  datatype Request = Request(authorization: string, ctx: Context)

  /** Reject: the middleware answers with this status and error message.
      Next: the next handler runs on `request`. */
  datatype Gate = Reject(status: int, message: string) | Next(request: Request)

  const TokenRequerido := "Token de autorizacion requerido"
  const FormatoInvalido := "Formato de token invalido"
  const TokenInvalido := "Token invalido o expirado"
  const AccesoRestringido := "Acceso restringido a administradores"

  /** The role that passes SoloAdmin. */
  const Administrador := "Administrador"

  /** UsuarioDesdeContexto: the claims AutenticacionJWT stored, or None (Go's nil). */
  function UsuarioDesdeContexto(ctx: Context): (c: Option<Claims>)
    ensures c.Some? <==> UsuarioContextKey in ctx
    ensures c.Some? ==> c.value == ctx[UsuarioContextKey]
  {
    if UsuarioContextKey in ctx then Some(ctx[UsuarioContextKey]) else None
  }

  /** A header of the form "Bearer <token>": the word Bearer, exactly one
      space, and a token with no space in it. */
  predicate IsBearer(h: string): (b: bool)
    ensures b <==> && |h| > 6 && h[..6] == "Bearer"
                   && forall i :: 0 <= i < |h| ==> (h[i] == ' ' <==> i == 6)
  {
    |h| >= 7 && h[..7] == "Bearer " && ' ' !in h[7..]
  }

  /** The test `len(strings.Split(h, " ")) == 2 && parts[0] == "Bearer"`
      accepts exactly the bearer headers, and the second part is the token. */
  lemma BearerSplit(h: string)
    ensures (|Split(h, ' ')| == 2 && Split(h, ' ')[0] == "Bearer") <==> IsBearer(h)
    ensures IsBearer(h) ==> Split(h, ' ') == ["Bearer", h[7..]]
  {
    var parts := Split(h, ' ');
    if IsBearer(h) {
      assert h == "Bearer" + [' '] + h[7..];
      SplitAfterPiece("Bearer", h[7..], ' ');
      SplitNoSeparator(h[7..], ' ');
    }
    if |parts| == 2 && parts[0] == "Bearer" {
      JoinSplit(h, ' ');
      assert parts[1..] == [parts[1]];
      assert h == "Bearer" + " " + parts[1];
      assert h[7..] == parts[1];
    }
  }

  /** AutenticacionJWT. The request passes exactly when its header is a
      bearer header whose token has a correct signature and claims valid at
      `now`; it then reaches the next handler with the token's claims stored in
      its context. Every other request is answered 401, with a message that
      tells a missing header, a malformed one and a bad token apart. */
  function AutenticacionJWT(r: Request, signer: Signer, now: int): (g: Gate)
    ensures g.Next? <==>
      && IsBearer(r.authorization)
      && signer.parse(r.authorization[7..]).Some?
      && ValidAt(signer.parse(r.authorization[7..]).value, now)
    ensures g.Next? ==>
      g.request == r.(ctx := r.ctx[UsuarioContextKey := signer.parse(r.authorization[7..]).value])
    ensures g.Reject? ==> g.status == StatusUnauthorized
    ensures g.Reject? ==>
      g.message == (if r.authorization == "" then TokenRequerido
                    else if !IsBearer(r.authorization) then FormatoInvalido
                    else TokenInvalido)
  {
    var h := r.authorization;
    if h == "" then Reject(StatusUnauthorized, TokenRequerido)
    else
      var parts := Split(h, ' ');
      BearerSplit(h);
      if |parts| != 2 || parts[0] != "Bearer" then Reject(StatusUnauthorized, FormatoInvalido)
      else match signer.parse(parts[1])
        case None => Reject(StatusUnauthorized, TokenInvalido)
        case Some(claims) =>
          if !ValidAt(claims, now) then Reject(StatusUnauthorized, TokenInvalido)
          else Next(r.(ctx := r.ctx[UsuarioContextKey := claims]))
  }

  /** SoloAdmin: passes the request on unchanged exactly when its context holds
      claims whose role is exactly "Administrador"; otherwise answers 403. */
  function SoloAdmin(r: Request): (g: Gate)
    ensures g.Next? <==>
      UsuarioDesdeContexto(r.ctx).Some? && UsuarioDesdeContexto(r.ctx).value.tipoUsuario == Administrador
    ensures g.Next? ==> g.request == r
    ensures g.Reject? ==> g.status == StatusForbidden && g.message == AccesoRestringido
  {
    var claims := UsuarioDesdeContexto(r.ctx);
    if claims.None? || claims.value.tipoUsuario != Administrador then
      Reject(StatusForbidden, AccesoRestringido)
    else Next(r)
  }

  /** The gate in front of a route of the protected group: AutenticacionJWT,
      then SoloAdmin on the administrator routes. An administrator route admits
      exactly the requests whose bearer token is correctly signed, valid at
      `now` and names the role "Administrador", whatever the context held
      before; the handler then finds those claims in the context. */
  function RutaProtegida(r: Request, signer: Signer, now: int, soloAdmin: bool): (g: Gate)
    ensures g.Next? <==>
      && IsBearer(r.authorization)
      && signer.parse(r.authorization[7..]).Some?
      && ValidAt(signer.parse(r.authorization[7..]).value, now)
      && (soloAdmin ==> signer.parse(r.authorization[7..]).value.tipoUsuario == Administrador)
    ensures g.Next? ==> UsuarioDesdeContexto(g.request.ctx) == signer.parse(r.authorization[7..])
    ensures g.Reject? ==> g.status in {StatusUnauthorized, StatusForbidden}
  {
    match AutenticacionJWT(r, signer, now)
      case Reject(status, message) => Reject(status, message)
      case Next(authenticated) => if soloAdmin then SoloAdmin(authenticated) else Next(authenticated)
  }
}
