/** The login lockout of `autenticar_usuario.py`: a failure counter and a lockout entry, both expiring. */
module Bloqueo {
  import opened Opciones
  import opened Conjuntos
  import opened Redis
  import opened Ventanas

  /** The account an e-mail leads to, as far as a login sees it. */
  datatype Cuenta = NoExiste | PendienteVerificacion | Inhabilitada | Activa

  /** One attempt: the normalised e-mail, the account found for it, and whether a stored hash exists and
      verifies the password. */
  datatype Intento = Intento(email: string, cuenta: Cuenta, claveCorrecta: bool, t: nat)

  datatype Respuesta = CuentaBloqueada(segundos: int) | CredencialesInvalidas | FaltaVerificar | UsuarioInactivo | Exito

  datatype Politica = Politica(maximo: int, ttl: nat)

  predicate PoliticaValida(p: Politica) {
    p.maximo >= 1 && p.ttl >= 1
  }

  datatype Estado = Estado(intentos: Almacen<int>, bloqueos: Almacen<string>)

  function RegistrarFallo(e: Estado, email: string, p: Politica, t: nat): Estado {
    var contados := TrasIncr(e.intentos, email, p.ttl, t);
    if contados[email].valor >= p.maximo
    then Estado(TrasDelete(contados, email), TrasSet(e.bloqueos, email, "1", p.ttl, t))
    else Estado(contados, e.bloqueos)
  }

  function Responder(e: Estado, i: Intento): Respuesta {
    if Vive(e.bloqueos, i.email, i.t) then
      CuentaBloqueada(if Restante(e.bloqueos, i.email, i.t) > 1 then Restante(e.bloqueos, i.email, i.t) else 1)
    else match i.cuenta
      case NoExiste => CredencialesInvalidas
      case PendienteVerificacion => FaltaVerificar
      case Inhabilitada => UsuarioInactivo
      case Activa => if i.claveCorrecta then Exito else CredencialesInvalidas
  }

  function Tras(e: Estado, i: Intento, p: Politica): Estado {
    match Responder(e, i)
    case CredencialesInvalidas => RegistrarFallo(e, i.email, p, i.t)
    case Exito => e.(intentos := TrasDelete(e.intentos, i.email))
    case _ => e
  }

  class AutenticarUsuario {
    const intentos: RedisService<int>
    const bloqueos: RedisService<string>
    const politica: Politica

    ghost predicate Valido()
      reads this, intentos, bloqueos
    {
      PoliticaValida(politica) && intentos.ahora == bloqueos.ahora
    }

    ghost function Vista(): Estado
      reads this, intentos, bloqueos
    {
      Estado(intentos.datos, bloqueos.datos)
    }

    constructor (intentos: RedisService<int>, bloqueos: RedisService<string>, politica: Politica)
      requires PoliticaValida(politica) && intentos.ahora == bloqueos.ahora
      ensures Valido() && this.intentos == intentos && this.bloqueos == bloqueos && this.politica == politica
    {
      this.intentos := intentos;
      this.bloqueos := bloqueos;
      this.politica := politica;
    }

    method RegistrarIntentoFallido(email: string)
      requires Valido()
      modifies intentos, bloqueos
      ensures Valido() && intentos.ahora == old(intentos.ahora)
      ensures Vista() == RegistrarFallo(old(Vista()), email, politica, intentos.ahora)
    {
      var n := EjecutarIncr(intentos, email, politica.ttl);
      if n >= politica.maximo {
        bloqueos.Set(email, "1", politica.ttl);
        intentos.Delete(email);
      }
    }

    /** `_autenticar`. `consultaHash` reports whether the stored password hash was asked for. */
    method Autenticar(email: string, cuenta: Cuenta, claveCorrecta: bool)
      returns (r: Respuesta, consultaHash: bool)
      requires Valido()
      modifies intentos, bloqueos
      ensures Valido() && intentos.ahora == old(intentos.ahora)
      ensures r == Responder(old(Vista()), Intento(email, cuenta, claveCorrecta, intentos.ahora))
      ensures Vista() == Tras(old(Vista()), Intento(email, cuenta, claveCorrecta, intentos.ahora), politica)
      ensures consultaHash <==> cuenta == Activa && !Vive(old(bloqueos.datos), email, intentos.ahora)
      ensures Vive(old(bloqueos.datos), email, intentos.ahora) ==> Vista() == old(Vista())
    {
      consultaHash := false;
      var bloqueado := bloqueos.Exists(email);
      if bloqueado {
        var segundos := bloqueos.Ttl(email);
        return CuentaBloqueada(if segundos > 1 then segundos else 1), false;
      }
      match cuenta
      case NoExiste =>
        RegistrarIntentoFallido(email);
        r := CredencialesInvalidas;
      case PendienteVerificacion =>
        r := FaltaVerificar;
      case Inhabilitada =>
        r := UsuarioInactivo;
      case Activa =>
        consultaHash := true;
        if claveCorrecta {
          intentos.Delete(email);
          r := Exito;
        } else {
          RegistrarIntentoFallido(email);
          r := CredencialesInvalidas;
        }
    }
  }

  // ---------------------------------------------------------------- serial runs

  predicate EnOrdenDeTiempo(xs: seq<Intento>) {
    forall i, j :: 0 <= i < j < |xs| ==> xs[i].t <= xs[j].t
  }

  function EstadoTras(xs: seq<Intento>, p: Politica): Estado {
    if xs == [] then Estado(map[], map[])
    else Tras(EstadoTras(xs[..|xs| - 1], p), xs[|xs| - 1], p)
  }

  /** The answer to attempt `i` of the run. */
  function RespuestaA(xs: seq<Intento>, i: int, p: Politica): Respuesta
    requires 0 <= i < |xs|
  {
    Responder(EstadoTras(xs[..i], p), xs[i])
  }

  predicate SinExito(xs: seq<Intento>, email: string, desde: nat, p: Politica) {
    forall i :: desde <= i < |xs| && xs[i].email == email ==> RespuestaA(xs, i, p) != Exito
  }

  /** The counted failures of `email` from attempt `desde` on, inside [t0, t0 + ttl). */
  ghost function FallosEn(xs: seq<Intento>, email: string, desde: nat, p: Politica, t0: nat): set<int> {
    set i | desde <= i < |xs| && xs[i].email == email && t0 <= xs[i].t < t0 + p.ttl
            && RespuestaA(xs, i, p) == CredencialesInvalidas
  }

  /** In every reachable state: a stored counter is below the maximum and no deadline lies further ahead
      than one ttl. */
  ghost predicate Coherente(e: Estado, email: string, p: Politica, ahora: nat) {
    && (email in e.intentos ==> !e.intentos[email].fija && 1 <= e.intentos[email].valor < p.maximo)
    && (email in e.intentos ==> p.ttl <= e.intentos[email].expira <= ahora + p.ttl)
    && (email in e.bloqueos ==> !e.bloqueos[email].fija && e.bloqueos[email].expira <= ahora + p.ttl)
  }

  lemma {:induction false} SiempreCoherente(xs: seq<Intento>, email: string, p: Politica, ahora: nat)
    requires PoliticaValida(p) && EnOrdenDeTiempo(xs) && (xs != [] ==> xs[|xs| - 1].t <= ahora)
    ensures Coherente(EstadoTras(xs, p), email, p, ahora)
  {
    if xs != [] {
      SiempreCoherente(xs[..|xs| - 1], email, p, xs[|xs| - 1].t);
    }
  }

  // ---------------------------------------------------------------- every attempt of every run

  /** The lockout of the e-mail is alive when attempt `i` comes. */
  predicate Bloqueada(xs: seq<Intento>, i: int, p: Politica)
    requires 0 <= i < |xs|
  {
    var b := EstadoTras(xs[..i], p).bloqueos;
    xs[i].email in b && (b[xs[i].email].fija || xs[i].t < b[xs[i].email].expira)
  }

  /** What each attempt of a run is told. Only the right password of an active account gets in; a wrong one and an
      unknown e-mail are answered alike. */
  lemma RespuestasSii(xs: seq<Intento>, i: nat, p: Politica)
    requires i < |xs|
    ensures var r, u, b := RespuestaA(xs, i, p), xs[i], Bloqueada(xs, i, p);
      && (r == Exito <==> !b && u.cuenta == Activa && u.claveCorrecta)
      && (r == CredencialesInvalidas <==> !b && (u.cuenta == NoExiste || (u.cuenta == Activa && !u.claveCorrecta)))
      && (r == FaltaVerificar <==> !b && u.cuenta == PendienteVerificacion)
      && (r == UsuarioInactivo <==> !b && u.cuenta == Inhabilitada)
      && (r.CuentaBloqueada? <==> b)
  {
  }

  /** And what it leaves. A success clears the counter of its e-mail; a failure counts, in the life of the counter or
      in a new one, and at the maximum locks instead; the other answers change nothing. */
  lemma EstadosSii(xs: seq<Intento>, i: nat, p: Politica)
    requires i < |xs|
    ensures var e, f, u, r := EstadoTras(xs[..i], p), EstadoTras(xs[..i + 1], p), xs[i], RespuestaA(xs, i, p);
      var vivo := u.email in e.intentos && (e.intentos[u.email].fija || u.t < e.intentos[u.email].expira);
      var n := (if vivo then e.intentos[u.email].valor else 0) + 1;
      && (r == Exito ==> f == Estado(e.intentos - {u.email}, e.bloqueos))
      && (r == CredencialesInvalidas && n < p.maximo ==>
            f == Estado(e.intentos[u.email := if vivo then e.intentos[u.email].(valor := n)
                                              else Entrada(1, u.t + p.ttl, false)], e.bloqueos))
      && (r == CredencialesInvalidas && n >= p.maximo ==>
            f == Estado(e.intentos - {u.email}, e.bloqueos[u.email := Entrada("1", u.t + p.ttl, false)]))
      && (r != Exito && r != CredencialesInvalidas ==> f == e)
  {
    assert xs[..i + 1][..i] == xs[..i];
    var e, u := EstadoTras(xs[..i], p), xs[i];
    FalloEnClaro(e, u.email, p, u.t);
  }

  lemma FalloEnClaro(e: Estado, email: string, p: Politica, t: nat)
    ensures var f := RegistrarFallo(e, email, p, t);
      var vivo := email in e.intentos && (e.intentos[email].fija || t < e.intentos[email].expira);
      var n := (if vivo then e.intentos[email].valor else 0) + 1;
      f == if n < p.maximo
           then Estado(e.intentos[email := if vivo then e.intentos[email].(valor := n)
                                           else Entrada(1, t + p.ttl, false)], e.bloqueos)
           else Estado(e.intentos - {email}, e.bloqueos[email := Entrada("1", t + p.ttl, false)])
  {
  }

  // ---------------------------------------------------------------- the failures as a window log

  ghost function MarcaDe(e: Estado, u: Intento, p: Politica): Marca {
    var c := TrasIncr(e.intentos, u.email, p.ttl, u.t)[u.email];
    Marca(u.t, if c.expira >= p.ttl then c.expira - p.ttl else 0, if c.valor >= 0 then c.valor else 0)
  }

  ghost function Fallos(xs: seq<Intento>, email: string, desde: nat, p: Politica): seq<Marca> {
    if |xs| <= desde then []
    else
      var n := |xs| - 1;
      var previos := Fallos(xs[..n], email, desde, p);
      if xs[n].email == email && RespuestaA(xs, n, p) == CredencialesInvalidas
      then previos + [MarcaDe(EstadoTras(xs[..n], p), xs[n], p)]
      else previos
  }

  ghost predicate Enlace(l: seq<Marca>, e: Estado, email: string, p: Politica) {
    |l| > 0 ==>
      var m := l[|l| - 1];
      if m.n < p.maximo then email in e.intentos && e.intentos[email] == Entrada(m.n, m.inicio + p.ttl)
      else email !in e.intentos && email in e.bloqueos && e.bloqueos[email].expira == m.t + p.ttl
  }

  lemma UnFalloMas(l: seq<Marca>, e: Estado, u: Intento, p: Politica)
    requires PoliticaValida(p) && Coherente(e, u.email, p, u.t) && Responder(e, u) == CredencialesInvalidas
    requires Bitacora(l, p.ttl, p.maximo) && ConPausa(l, p.ttl, p.maximo) && Enlace(l, e, u.email, p)
    requires forall k :: 0 <= k < |l| ==> l[k].t <= u.t
    ensures var l' := l + [MarcaDe(e, u, p)];
      && Bitacora(l', p.ttl, p.maximo) && ConPausa(l', p.ttl, p.maximo)
      && Enlace(l', RegistrarFallo(e, u.email, p, u.t), u.email, p)
  {
    var m := MarcaDe(e, u, p);
    assert MarcaBien(m, p.ttl, p.maximo);
    if |l| > 0 {
      var a := l[|l| - 1];
      assert MarcaBien(a, p.ttl, p.maximo);
      assert Sigue(a, m, p.ttl);
      assert a.n == p.maximo ==> a.t + p.ttl <= m.t;
    }
  }

  lemma {:induction false} FallosSonVentanas(xs: seq<Intento>, email: string, desde: nat, p: Politica)
    requires PoliticaValida(p) && EnOrdenDeTiempo(xs) && SinExito(xs, email, desde, p)
    ensures Bitacora(Fallos(xs, email, desde, p), p.ttl, p.maximo)
    ensures ConPausa(Fallos(xs, email, desde, p), p.ttl, p.maximo)
    ensures Enlace(Fallos(xs, email, desde, p), EstadoTras(xs, p), email, p)
    ensures forall k :: 0 <= k < |Fallos(xs, email, desde, p)| ==>
      xs != [] && Fallos(xs, email, desde, p)[k].t <= xs[|xs| - 1].t
  {
    if |xs| > desde {
      var n := |xs| - 1;
      var resto, u := xs[..n], xs[n];
      forall i | desde <= i < n && resto[i].email == email ensures RespuestaA(resto, i, p) != Exito {
        assert resto[..i] == xs[..i];
        assert RespuestaA(xs, i, p) != Exito;
      }
      FallosSonVentanas(resto, email, desde, p);
      SiempreCoherente(resto, email, p, u.t);
      assert RespuestaA(xs, n, p) == Responder(EstadoTras(resto, p), u);
      var l := Fallos(resto, email, desde, p);
      if u.email == email && RespuestaA(xs, n, p) == CredencialesInvalidas {
        UnFalloMas(l, EstadoTras(resto, p), u, p);
      } else {
        OtroIntento(l, EstadoTras(resto, p), u, email, p);
      }
    }
  }

  lemma OtroIntento(l: seq<Marca>, e: Estado, u: Intento, email: string, p: Politica)
    requires Enlace(l, e, email, p)
    requires u.email == email ==> Responder(e, u) != Exito && Responder(e, u) != CredencialesInvalidas
    ensures Enlace(l, Tras(e, u, p), email, p)
  {
  }

  lemma MismosFallosAnteriores(xs: seq<Intento>, email: string, desde: nat, p: Politica, t0: nat)
    requires |xs| > desde
    ensures var n := |xs| - 1;
      FallosEn(xs, email, desde, p, t0) - {n} == FallosEn(xs[..n], email, desde, p, t0)
  {
    var n := |xs| - 1;
    forall i | 0 <= i < n ensures RespuestaA(xs[..n], i, p) == RespuestaA(xs, i, p) {
      assert xs[..n][..i] == xs[..i];
    }
  }

  lemma UnFalloMasEnVentana(xs: seq<Intento>, email: string, desde: nat, p: Politica, t0: nat)
    requires |xs| > desde
    ensures var n := |xs| - 1;
      |FallosEn(xs, email, desde, p, t0)| == |FallosEn(xs[..n], email, desde, p, t0)|
        + (if xs[n].email == email && t0 <= xs[n].t < t0 + p.ttl && RespuestaA(xs, n, p) == CredencialesInvalidas
           then 1 else 0)
  {
    var n, todos := |xs| - 1, FallosEn(xs, email, desde, p, t0);
    MismosFallosAnteriores(xs, email, desde, p, t0);
    if n !in todos { assert todos - {n} == todos; }
  }

  lemma {:induction false} MismaCuenta(xs: seq<Intento>, email: string, desde: nat, p: Politica, t0: nat)
    ensures |FallosEn(xs, email, desde, p, t0)| == |EnIntervalo(Fallos(xs, email, desde, p), t0, p.ttl)|
  {
    if |xs| <= desde {
      assert FallosEn(xs, email, desde, p, t0) == {};
      assert EnIntervalo([], t0, p.ttl) == {};
    } else {
      var n := |xs| - 1;
      MismaCuenta(xs[..n], email, desde, p, t0);
      UnFalloMasEnVentana(xs, email, desde, p, t0);
      var l := Fallos(xs[..n], email, desde, p);
      if xs[n].email == email && RespuestaA(xs, n, p) == CredencialesInvalidas {
        var l' := Fallos(xs, email, desde, p);
        EnIntervaloCrece(l, l'[|l|], t0, p.ttl);
        assert l' == l + [l'[|l|]];
      }
    }
  }

  // ---------------------------------------------------------------- what the lockout bounds

  /** The most counted failures that any interval of one lockout's length can hold. */
  function Maximo(p: Politica): int {
    if p.maximo == 1 || p.ttl == 1 then p.maximo else 2 * p.maximo - 2
  }

  /** Whatever happened before attempt `desde`, while no login of the e-mail succeeds from there on, any
      interval of one lockout's length holds at most that many counted failures, and so fewer than 2*maximo. */
  lemma CotaDeFallos(xs: seq<Intento>, email: string, desde: nat, p: Politica, t0: nat)
    requires PoliticaValida(p) && EnOrdenDeTiempo(xs) && SinExito(xs, email, desde, p)
    ensures |FallosEn(xs, email, desde, p, t0)| <= Maximo(p) <= 2 * p.maximo - 1
  {
    MismaCuenta(xs, email, desde, p, t0);
    FallosSonVentanas(xs, email, desde, p);
    CotaDelIntervalo(Fallos(xs, email, desde, p), p.ttl, p.maximo, t0);
  }

  /** Wrong passwords for one e-mail: the first opens a counter, all it can take come in its last tick, and one
      lockout's worth in the first tick after it. */
  function Rafaga(email: string, p: Politica): seq<Intento>
    requires PoliticaValida(p)
  {
    seq(2 * p.maximo - 1, i => Intento(email, NoExiste, false,
                                       if i >= p.maximo - 1 then p.ttl else if i == 0 then 0 else p.ttl - 1))
  }

  function EstadoPrevisto(email: string, p: Politica, i: nat): Estado {
    if i == 0 then Estado(map[], map[])
    else Estado(map[email := if i < p.maximo then Entrada(i, p.ttl) else Entrada(i - p.maximo + 1, 2 * p.ttl)], map[])
  }

  lemma PasoPrevisto(email: string, p: Politica, i: nat)
    requires PoliticaValida(p) && i < 2 * p.maximo - 2
    ensures Tras(EstadoPrevisto(email, p, i), Rafaga(email, p)[i], p) == EstadoPrevisto(email, p, i + 1)
  {
  }

  lemma {:induction false} EstadoDeRafaga(email: string, p: Politica, i: nat)
    requires PoliticaValida(p) && i <= 2 * p.maximo - 2
    ensures EstadoTras(Rafaga(email, p)[..i], p) == EstadoPrevisto(email, p, i)
  {
    if i > 0 {
      var xs := Rafaga(email, p);
      assert xs[..i][..i - 1] == xs[..i - 1];
      EstadoDeRafaga(email, p, i - 1);
      PasoPrevisto(email, p, i - 1);
    }
  }

  predicate TodosIncorrectos(xs: seq<Intento>, p: Politica) {
    forall i :: 0 <= i < |xs| ==> RespuestaA(xs, i, p) == CredencialesInvalidas
  }

  lemma RafagaFalla(email: string, p: Politica)
    requires PoliticaValida(p)
    ensures TodosIncorrectos(Rafaga(email, p), p) && EnOrdenDeTiempo(Rafaga(email, p))
  {
    forall i | 0 <= i < |Rafaga(email, p)| ensures RespuestaA(Rafaga(email, p), i, p) == CredencialesInvalidas {
      EstadoDeRafaga(email, p, i);
    }
  }

  lemma TodosFallan(xs: seq<Intento>, email: string, p: Politica, t0: nat, desde: nat)
    requires TodosIncorrectos(xs, p) && desde <= |xs|
    requires forall i :: 0 <= i < |xs| ==> xs[i].email == email && (desde <= i <==> t0 <= xs[i].t < t0 + p.ttl)
    ensures FallosEn(xs, email, 0, p, t0) == Rango(desde, |xs|)
  {
  }

  /** The bound is attained, for every e-mail and every valid policy. */
  lemma CotaAlcanzada(email: string, p: Politica) returns (xs: seq<Intento>, t0: nat)
    requires PoliticaValida(p)
    ensures EnOrdenDeTiempo(xs) && SinExito(xs, email, 0, p)
    ensures |FallosEn(xs, email, 0, p, t0)| == Maximo(p)
  {
    xs, t0 := Rafaga(email, p), if p.ttl == 1 then 1 else p.ttl - 1;
    RafagaFalla(email, p);
    TodosFallan(xs, email, p, t0, if p.ttl == 1 then p.maximo - 1 else if p.maximo == 1 then 0 else 1);
  }

  /** A live counter is always below the maximum. */
  lemma ContadorBajoElMaximo(xs: seq<Intento>, email: string, p: Politica, ahora: nat)
    requires PoliticaValida(p) && EnOrdenDeTiempo(xs) && (xs != [] ==> xs[|xs| - 1].t <= ahora)
    ensures match Leer(EstadoTras(xs, p).intentos, email, ahora)
            case Algo(n) => 1 <= n < p.maximo
            case Nada => true
  {
    SiempreCoherente(xs, email, p, ahora);
  }

  /** Once a lockout is set, every later attempt of the e-mail is refused as blocked for a whole ttl, the
      right password included, and the refusal tells the seconds that remain. */
  lemma {:induction false} BloqueoDura(xs: seq<Intento>, email: string, i: nat, j: nat, p: Politica)
    requires PoliticaValida(p) && EnOrdenDeTiempo(xs) && i < j < |xs|
    requires xs[i].email == email && xs[j].email == email && xs[j].t < xs[i].t + p.ttl
    requires Vive(EstadoTras(xs[..i + 1], p).bloqueos, email, xs[i].t)
    requires !Vive(EstadoTras(xs[..i], p).bloqueos, email, xs[i].t)
    ensures RespuestaA(xs, j, p) == CuentaBloqueada(xs[i].t + p.ttl - xs[j].t)
  {
    assert xs[..i + 1][..i] == xs[..i];
    BloqueoSigue(xs, email, i, j, p);
  }

  lemma {:induction false} BloqueoSigue(xs: seq<Intento>, email: string, i: nat, j: nat, p: Politica)
    requires PoliticaValida(p) && EnOrdenDeTiempo(xs) && i < j < |xs| && xs[j].t < xs[i].t + p.ttl
    requires var b := EstadoTras(xs[..i + 1], p).bloqueos; email in b && b[email] == Entrada("1", xs[i].t + p.ttl)
    ensures var b := EstadoTras(xs[..j], p).bloqueos; email in b && b[email] == Entrada("1", xs[i].t + p.ttl)
    decreases j
  {
    if i + 1 < j {
      BloqueoSigue(xs, email, i, j - 1, p);
      assert xs[..j][..j - 1] == xs[..j - 1];
    }
  }

  /** The failure that brings a live counter to the maximum sets the lockout for a whole ttl and clears
      the counter. */
  lemma FalloQueBloquea(e: Estado, i: Intento, p: Politica)
    requires PoliticaValida(p) && Responder(e, i) == CredencialesInvalidas
    requires Leer(e.intentos, i.email, i.t) == (if p.maximo == 1 then Nada else Algo(p.maximo - 1))
    ensures Tras(e, i, p).bloqueos == e.bloqueos[i.email := Entrada("1", i.t + p.ttl)]
    ensures i.email !in Tras(e, i, p).intentos
  {
  }

  /** Attempts for one e-mail never touch the counter or the lockout of another. */
  lemma OtroEmailIntacto(e: Estado, i: Intento, p: Politica, otro: string)
    requires otro != i.email
    ensures var f := Tras(e, i, p);
      && (otro in f.intentos <==> otro in e.intentos) && (otro in e.intentos ==> f.intentos[otro] == e.intentos[otro])
      && (otro in f.bloqueos <==> otro in e.bloqueos) && (otro in e.bloqueos ==> f.bloqueos[otro] == e.bloqueos[otro])
  {
  }

  // ---------------------------------------------------------------- each e-mail on its own

  /** The attempts of one e-mail. */
  function Propios(xs: seq<Intento>, email: string): seq<Intento> {
    if xs == [] then []
    else
      var n := |xs| - 1;
      Propios(xs[..n], email) + (if xs[n].email == email then [xs[n]] else [])
  }

  /** Two states with the same counter and the same lockout of an e-mail. */
  predicate Coinciden(e: Estado, f: Estado, email: string) {
    && (email in e.intentos <==> email in f.intentos)
    && (email in e.intentos ==> e.intentos[email] == f.intentos[email])
    && (email in e.bloqueos <==> email in f.bloqueos)
    && (email in e.bloqueos ==> e.bloqueos[email] == f.bloqueos[email])
  }

  /** An attempt sees, and changes, nothing but what is kept for its own e-mail. */
  lemma MismoIntento(e: Estado, f: Estado, i: Intento, p: Politica)
    requires Coinciden(e, f, i.email)
    ensures Responder(e, i) == Responder(f, i) && Coinciden(Tras(e, i, p), Tras(f, i, p), i.email)
  {
  }

  /** Dropping from a run all attempts of other e-mails leaves the counter and the lockout of this one as they
      were... */
  lemma {:induction false} OtrosNoCuentan(xs: seq<Intento>, email: string, p: Politica)
    ensures Coinciden(EstadoTras(xs, p), EstadoTras(Propios(xs, email), p), email)
  {
    if xs != [] {
      var n := |xs| - 1;
      var e, propios := EstadoTras(xs[..n], p), Propios(xs[..n], email);
      OtrosNoCuentan(xs[..n], email, p);
      if xs[n].email == email {
        assert (propios + [xs[n]])[..|propios|] == propios;
        MismoIntento(e, EstadoTras(propios, p), xs[n], p);
      } else {
        assert propios + [] == propios;
        OtroEmailIntacto(e, xs[n], p, email);
      }
    }
  }

  lemma {:induction false} PropiosHasta(xs: seq<Intento>, email: string, i: nat)
    requires i < |xs| && xs[i].email == email
    ensures var a, t := Propios(xs[..i], email), Propios(xs, email); |a| < |t| && t[..|a|] == a && t[|a|] == xs[i]
  {
    var n := |xs| - 1;
    if i < n {
      assert xs[..n][..i] == xs[..i];
      PropiosHasta(xs[..n], email, i);
    }
  }

  /** ... and every answer to it. */
  lemma MismasRespuestas(xs: seq<Intento>, email: string, p: Politica, i: nat)
    requires i < |xs| && xs[i].email == email
    ensures var k := |Propios(xs[..i], email)|;
      k < |Propios(xs, email)| && RespuestaA(Propios(xs, email), k, p) == RespuestaA(xs, i, p)
  {
    OtrosNoCuentan(xs[..i], email, p);
    PropiosHasta(xs, email, i);
    MismoIntento(EstadoTras(xs[..i], p), EstadoTras(Propios(xs[..i], email), p), xs[i], p);
  }

  // ---------------------------------------------------------------- a lockout is earned

  /** How the counts of failures from an instant on grow with one more attempt. */
  ghost predicate UnoMas(e: Estado, u: Intento, email: string, p: Politica, antes: nat -> nat, despues: nat -> nat) {
    forall t0: nat :: despues(t0) == antes(t0)
      + (if u.email == email && t0 <= u.t < t0 + p.ttl && Responder(e, u) == CredencialesInvalidas then 1 else 0)
  }

  /** A stored counter never says more than the failures since it was created. */
  ghost predicate ContadorBien(e: Estado, email: string, p: Politica, cuantos: nat -> nat) {
    email in e.intentos ==>
      var c := e.intentos[email]; c.expira >= p.ttl && c.valor <= cuantos(c.expira - p.ttl)
  }

  /** After an attempt a counter is what it was, or one more because the attempt failed in its life, or a first one. */
  lemma ContadorTrasPaso(e: Estado, u: Intento, email: string, p: Politica)
    requires PoliticaValida(p) && Coherente(e, email, p, u.t) && email in Tras(e, u, p).intentos
    ensures var c := Tras(e, u, p).intentos[email];
      || (email in e.intentos && c == e.intentos[email])
      || (&& u.email == email && Responder(e, u) == CredencialesInvalidas
          && c.expira >= p.ttl && c.expira - p.ttl <= u.t < c.expira
          && (if Vive(e.intentos, email, u.t) then c == e.intentos[email].(valor := e.intentos[email].valor + 1)
              else c == Entrada(1, u.t + p.ttl)))
  {
  }

  lemma ContadorSigueBien(e: Estado, u: Intento, email: string, p: Politica, antes: nat -> nat, despues: nat -> nat)
    requires PoliticaValida(p) && Coherente(e, email, p, u.t) && UnoMas(e, u, email, p, antes, despues)
    requires ContadorBien(e, email, p, antes)
    ensures ContadorBien(Tras(e, u, p), email, p, despues)
  {
    if email in Tras(e, u, p).intentos {
      ContadorTrasPaso(e, u, email, p);
      var c := Tras(e, u, p).intentos[email];
      assert despues(c.expira - p.ttl) >= antes(c.expira - p.ttl);
    }
  }

  /** Who sets a lockout failed, and was the last failure the counter had room for. */
  lemma QuienBloquea(e: Estado, u: Intento, p: Politica)
    requires !Vive(e.bloqueos, u.email, u.t) && Vive(Tras(e, u, p).bloqueos, u.email, u.t)
    ensures Responder(e, u) == CredencialesInvalidas
    ensures (if Vive(e.intentos, u.email, u.t) then e.intentos[u.email].valor else 0) + 1 >= p.maximo
  {
  }

  lemma BloqueaConMaximo(e: Estado, u: Intento, p: Politica, antes: nat -> nat, despues: nat -> nat) returns (t0: nat)
    requires PoliticaValida(p) && Coherente(e, u.email, p, u.t) && UnoMas(e, u, u.email, p, antes, despues)
    requires ContadorBien(e, u.email, p, antes)
    requires !Vive(e.bloqueos, u.email, u.t) && Vive(Tras(e, u, p).bloqueos, u.email, u.t)
    ensures t0 <= u.t < t0 + p.ttl && despues(t0) >= p.maximo
  {
    QuienBloquea(e, u, p);
    t0 := if Vive(e.intentos, u.email, u.t) then e.intentos[u.email].expira - p.ttl else u.t;
    assert despues(t0) == antes(t0) + 1;
  }

  ghost function Cuantos(xs: seq<Intento>, email: string, p: Politica): nat -> nat {
    t0 => |FallosEn(xs, email, 0, p, t0)|
  }

  lemma UnIntentoMas(xs: seq<Intento>, email: string, p: Politica)
    requires xs != []
    ensures var n := |xs| - 1;
      UnoMas(EstadoTras(xs[..n], p), xs[n], email, p, Cuantos(xs[..n], email, p), Cuantos(xs, email, p))
  {
    forall t0: nat { UnFalloMasEnVentana(xs, email, 0, p, t0); }
  }

  lemma {:induction false} ContadorMerecido(xs: seq<Intento>, email: string, p: Politica)
    requires PoliticaValida(p) && EnOrdenDeTiempo(xs)
    ensures ContadorBien(EstadoTras(xs, p), email, p, Cuantos(xs, email, p))
  {
    if xs != [] {
      var n := |xs| - 1;
      ContadorMerecido(xs[..n], email, p);
      SiempreCoherente(xs[..n], email, p, xs[n].t);
      UnIntentoMas(xs, email, p);
      ContadorSigueBien(EstadoTras(xs[..n], p), xs[n], email, p, Cuantos(xs[..n], email, p), Cuantos(xs, email, p));
    }
  }

  /** A lockout is never unearned: whenever an attempt of a run sets it, `maximo` failures of the e-mail were counted
      within one lockout's length, that attempt the last of them. */
  lemma BloqueoMerecido(xs: seq<Intento>, p: Politica) returns (t0: nat)
    requires PoliticaValida(p) && EnOrdenDeTiempo(xs) && xs != []
    requires var n, u := |xs| - 1, xs[|xs| - 1];
      !Vive(EstadoTras(xs[..n], p).bloqueos, u.email, u.t) && Vive(EstadoTras(xs, p).bloqueos, u.email, u.t)
    ensures var u := xs[|xs| - 1];
      t0 <= u.t < t0 + p.ttl && |FallosEn(xs, u.email, 0, p, t0)| >= p.maximo
  {
    var n, u := |xs| - 1, xs[|xs| - 1];
    ContadorMerecido(xs[..n], u.email, p);
    SiempreCoherente(xs[..n], u.email, p, u.t);
    UnIntentoMas(xs, u.email, p);
    t0 := BloqueaConMaximo(EstadoTras(xs[..n], p), u, p, Cuantos(xs[..n], u.email, p), Cuantos(xs, u.email, p));
  }
}
