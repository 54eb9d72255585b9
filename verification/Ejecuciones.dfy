/** Whole runs of one vehicle account: what the creation guards, which compare completion dates, allow in the
    long run although processes complete long after they are created. */
module Ejecuciones {
  import opened Opciones
  import opened Procesos
  import opened Movilidad

  // ---------------------------------------------------------------- runs

  /** The tables after the events, refused ones included, over a set of accounts without processes. */
  ghost function Correr(cuentas: set<nat>, es: seq<Evento>, capa: Capa): Mundo {
    if es == [] then Mundo(cuentas, map[], map[], map[])
    else Tras(Correr(cuentas, es[..|es| - 1], capa), es[|es| - 1], capa)
  }

  predicate RelojEstricto(es: seq<Evento>) {
    forall i, j :: 0 <= i < j < |es| ==> es[i].ahora < es[j].ahora
  }

  /** What one request does to the two process tables: nothing, or one new row, or one changed row. */
  datatype Efecto = Ninguno | AltaT(id: nat) | AltaR(id: nat) | CambioT(id: nat) | CambioR(id: nat)

  ghost predicate Describe(m: Mundo, m': Mundo, ef: Efecto, ahora: nat) {
    && (ef.AltaT? || ef.CambioT? ==> ef.id in m'.traslados && m'.traslados == m.traslados[ef.id := m'.traslados[ef.id]])
    && (ef.AltaR? || ef.CambioR? ==>
        ef.id in m'.radicaciones && m'.radicaciones == m.radicaciones[ef.id := m'.radicaciones[ef.id]])
    && (!(ef.AltaT? || ef.CambioT?) ==> m'.traslados == m.traslados)
    && (!(ef.AltaR? || ef.CambioR?) ==> m'.radicaciones == m.radicaciones)
    && (ef.AltaT? ==> ef.id !in m.traslados && m'.traslados[ef.id].estado == EstadoTraslado.SinAsignar
                      && m'.traslados[ef.id].actualizadoEn == ahora)
    && (ef.AltaR? ==> ef.id !in m.radicaciones && m'.radicaciones[ef.id].estado == EstadoRadicacion.SinAsignar
                      && m'.radicaciones[ef.id].actualizadoEn == ahora)
    && (ef.CambioT? ==>
        && ef.id in m.traslados && m'.traslados[ef.id].cuenta == m.traslados[ef.id].cuenta
        && m'.traslados[ef.id].estado in TransicionesTraslado(m.traslados[ef.id].estado)
        && m'.traslados[ef.id].actualizadoEn == ahora)
    && (ef.CambioR? ==>
        && ef.id in m.radicaciones && m'.radicaciones[ef.id].cuenta == m.radicaciones[ef.id].cuenta
        && m'.radicaciones[ef.id].estado in TransicionesRadicacion(m.radicaciones[ef.id].estado)
        && m'.radicaciones[ef.id].vencimiento == m.radicaciones[ef.id].vencimiento
        && m'.radicaciones[ef.id].actualizadoEn == ahora)
  }

  /** The guards a new row has passed. */
  ghost predicate AltaJustificada(m: Mundo, m': Mundo, ef: Efecto)
    requires ef.AltaT? ==> ef.id in m'.traslados
    requires ef.AltaR? ==> ef.id in m'.radicaciones
  {
    && (ef.AltaT? ==> var c := m'.traslados[ef.id].cuenta;
        !TrasladoActivo(m, c) && !FaltaElOtro(Reciente(FechasTrasladado(m, c)), Reciente(FechasRadicado(m, c))))
    && (ef.AltaR? ==> var c := m'.radicaciones[ef.id].cuenta;
        && !RadicacionActiva(m, c) && TrasladoAprobado(m, c)
        && !FaltaElOtro(Reciente(FechasRadicado(m, c)), Reciente(FechasTrasladado(m, c))))
  }

  lemma EfectoDePasoTraslado(m: Mundo, id: nat, nuevo: EstadoTraslado, motivo: string, guia: string,
                             organismo: Opcion<nat>, empresa: Opcion<nat>, ahora: nat, hoy: int, capa: Capa)
    requires PasoTraslado(m, id, nuevo, motivo, guia, organismo, empresa, ahora, hoy, capa).Bien?
    ensures Describe(m, PasoTraslado(m, id, nuevo, motivo, guia, organismo, empresa, ahora, hoy, capa).valor,
                     CambioT(id), ahora)
  {
  }

  lemma EfectoDePasoRadicacion(m: Mundo, id: nat, nuevo: EstadoRadicacion, motivo: string, guia: string,
                               guiaDevolucion: string,
                               organismo: Opcion<nat>, empresa: Opcion<nat>, ahora: nat, capa: Capa)
    requires PasoRadicacion(m, id, nuevo, motivo, guia, guiaDevolucion, organismo, empresa, ahora, capa).Bien?
    ensures var r := PasoRadicacion(m, id, nuevo, motivo, guia, guiaDevolucion, organismo, empresa, ahora, capa);
      Describe(m, r.valor, CambioR(id), ahora)
  {
  }

  lemma EfectoDeIntentar(m: Mundo, tipo: TipoProceso, id: nat, conNovedades: bool, ahora: nat, hoy: int, capa: Capa)
    returns (ef: Efecto)
    requires Intentar(m, tipo, id, conNovedades, ahora, hoy, capa).Bien?
    ensures !ef.AltaT? && !ef.AltaR?
    ensures Describe(m, Intentar(m, tipo, id, conNovedades, ahora, hoy, capa).valor, ef, ahora)
  {
    match tipo {
      case EsTraslado =>
        var nuevo := if conNovedades then EstadoTraslado.ConNovedades else EstadoTraslado.Revisado;
        if PasoTraslado(m, id, nuevo, "", "", Nada, Nada, ahora, hoy, capa).Bien? {
          EfectoDePasoTraslado(m, id, nuevo, "", "", Nada, Nada, ahora, hoy, capa);
          ef := CambioT(id);
        } else {
          ef := Ninguno;
        }
      case EsRadicacion =>
        var nuevo := if conNovedades then EstadoRadicacion.ConNovedades else EstadoRadicacion.Revisado;
        if PasoRadicacion(m, id, nuevo, "", "", "", Nada, Nada, ahora, capa).Bien? {
          EfectoDePasoRadicacion(m, id, nuevo, "", "", "", Nada, Nada, ahora, capa);
          ef := CambioR(id);
        } else {
          ef := Ninguno;
        }
    }
  }

  /** Every request has one of the five effects. */
  lemma EfectoDe(m: Mundo, e: Evento, capa: Capa) returns (ef: Efecto)
    ensures Describe(m, Tras(m, e, capa), ef, e.ahora) && AltaJustificada(m, Tras(m, e, capa), ef)
    ensures ef.AltaT? ==> e.cmd.CrearTraslado? && PasoCrearTraslado(m, e.cmd, e.ahora, capa).Bien? && ef.id == e.cmd.id
    ensures ef.AltaR? ==>
      e.cmd.CrearRadicacion? && PasoCrearRadicacion(m, e.cmd, e.ahora, e.hoy, capa).Bien? && ef.id == e.cmd.id
  {
    ef := Ninguno;
    if Paso(m, e, capa).Bien? {
      match e.cmd {
        case CrearTraslado(id, _, _, _) => ef := AltaT(id);
        case CrearRadicacion(id, _, _, _) => ef := AltaR(id);
        case CambiarEstadoTraslado(id, nuevo, motivo, guia, organismo, empresa) =>
          EfectoDePasoTraslado(m, id, nuevo, motivo, guia, organismo, empresa, e.ahora, e.hoy, capa);
          ef := CambioT(id);
        case CambiarEstadoRadicacion(id, nuevo, motivo, guia, guiaDevolucion, organismo, empresa) =>
          EfectoDePasoRadicacion(m, id, nuevo, motivo, guia, guiaDevolucion, organismo, empresa, e.ahora, capa);
          ef := CambioR(id);
        case CrearNovedad(id, tipo, proceso) =>
          var m1 := m.(novedades := m.novedades[id := FilaNovedad(tipo, proceso, Pendiente, "")]);
          ef := EfectoDeIntentar(m1, tipo, proceso, true, e.ahora, e.hoy, capa);
        case ResolverNovedad(id, solucion) =>
          var n := Resolver(m.novedades[id], solucion).valor;
          var m1 := m.(novedades := m.novedades[id := n]);
          if !HayPendientes(m1, n.proceso) && EnNovedades(m1, n.tipo, n.proceso) {
            ef := EfectoDeIntentar(m1, n.tipo, n.proceso, false, e.ahora, e.hoy, capa);
          }
      }
    }
  }

  // ---------------------------------------------------------------- terminal processes

  /** A terminal process never changes again. */
  lemma TerminalNoCambia(m: Mundo, e: Evento, capa: Capa)
    ensures forall id :: id in m.traslados && TerminalTraslado(m.traslados[id].estado) ==>
      id in Tras(m, e, capa).traslados && Tras(m, e, capa).traslados[id] == m.traslados[id]
    ensures forall id :: id in m.radicaciones && TerminalRadicacion(m.radicaciones[id].estado) ==>
      id in Tras(m, e, capa).radicaciones && Tras(m, e, capa).radicaciones[id] == m.radicaciones[id]
  {
    var ef := EfectoDe(m, e, capa);
  }

  lemma {:induction false} TerminalesQuedan(cuentas: set<nat>, es: seq<Evento>, capa: Capa, i: nat, id: nat)
    requires i <= |es|
    ensures var m, m' := Correr(cuentas, es[..i], capa), Correr(cuentas, es, capa);
      && (id in m.traslados && TerminalTraslado(m.traslados[id].estado) ==>
            id in m'.traslados && m'.traslados[id] == m.traslados[id])
      && (id in m.radicaciones && TerminalRadicacion(m.radicaciones[id].estado) ==>
            id in m'.radicaciones && m'.radicaciones[id] == m.radicaciones[id])
    decreases |es|
  {
    if i == |es| {
      assert es[..i] == es;
    } else {
      var n := |es| - 1;
      assert es[..n][..i] == es[..i];
      TerminalesQuedan(cuentas, es[..n], capa, i, id);
      TerminalNoCambia(Correr(cuentas, es[..n], capa), es[n], capa);
    }
  }

  // ---------------------------------------------------------------- one account

  predicate ActivoT(m: Mundo, id: nat, c: nat) {
    id in m.traslados && m.traslados[id].cuenta == c && !TerminalTraslado(m.traslados[id].estado)
  }

  predicate HechoT(m: Mundo, id: nat, c: nat) {
    id in m.traslados && m.traslados[id].cuenta == c && m.traslados[id].estado == Trasladado
  }

  predicate ActivaR(m: Mundo, id: nat, c: nat) {
    id in m.radicaciones && m.radicaciones[id].cuenta == c && !TerminalRadicacion(m.radicaciones[id].estado)
  }

  predicate HechaR(m: Mundo, id: nat, c: nat) {
    id in m.radicaciones && m.radicaciones[id].cuenta == c && m.radicaciones[id].estado == Radicado
  }

  function FechaT(m: Mundo, id: nat): nat
    requires id in m.traslados
  {
    m.traslados[id].actualizadoEn
  }

  function FechaR(m: Mundo, id: nat): nat
    requires id in m.radicaciones
  {
    m.radicaciones[id].actualizadoEn
  }

  ghost predicate UnoActivo(m: Mundo, c: nat) {
    && (forall i, j :: ActivoT(m, i, c) && ActivoT(m, j, c) ==> i == j)
    && (forall i, j :: ActivaR(m, i, c) && ActivaR(m, j, c) ==> i == j)
  }

  ghost predicate Fechado(m: Mundo, c: nat, t: nat) {
    && (forall i :: HechoT(m, i, c) ==> FechaT(m, i) <= t)
    && (forall r :: HechaR(m, r, c) ==> FechaR(m, r) <= t)
  }

  ghost predicate FechasDistintas(m: Mundo, c: nat) {
    && (forall i, j :: HechoT(m, i, c) && HechoT(m, j, c) && i != j ==> FechaT(m, i) != FechaT(m, j))
    && (forall i, r :: HechoT(m, i, c) && HechaR(m, r, c) ==> FechaT(m, i) != FechaR(m, r))
  }

  /** While a traslado is active, every completed one is followed by a completed radicación. */
  ghost predicate Seguidos(m: Mundo, c: nat) {
    forall a, i :: ActivoT(m, a, c) && HechoT(m, i, c) ==> SeguidoPorRadicado(m, i, c)
  }

  ghost predicate SeguidoPorRadicado(m: Mundo, i: nat, c: nat)
    requires HechoT(m, i, c)
  {
    exists r :: HechaR(m, r, c) && FechaT(m, i) < FechaR(m, r)
  }

  /** A completed radicación is the only one, and none is active beside it. */
  ghost predicate UnSoloRadicado(m: Mundo, c: nat) {
    && (forall r, s :: HechaR(m, r, c) && HechaR(m, s, c) ==> r == s)
    && (forall r, a :: HechaR(m, r, c) ==> !ActivaR(m, a, c))
  }

  /** Between any two completed traslados lies a completed radicación. */
  ghost predicate Alternan(m: Mundo, c: nat) {
    forall i, j :: HechoT(m, i, c) && HechoT(m, j, c) && FechaT(m, i) < FechaT(m, j) ==> RadicadoEntre(m, i, j, c)
  }

  ghost predicate RadicadoEntre(m: Mundo, i: nat, j: nat, c: nat)
    requires HechoT(m, i, c) && HechoT(m, j, c)
  {
    exists r :: HechaR(m, r, c) && FechaT(m, i) < FechaR(m, r) < FechaT(m, j)
  }

  ghost predicate Invariante(m: Mundo, c: nat, t: nat) {
    && UnoActivo(m, c) && Fechado(m, c, t) && FechasDistintas(m, c) && Seguidos(m, c) && UnSoloRadicado(m, c)
    && Alternan(m, c)
  }

  // ---------------------------------------------------------------- each effect keeps it

  lemma FechaRecienteT(m: Mundo, c: nat, i: nat)
    requires HechoT(m, i, c)
    ensures FechaT(m, i) in FechasTrasladado(m, c)
  {
  }

  lemma FechaRecienteR(m: Mundo, c: nat, r: nat)
    requires HechaR(m, r, c)
    ensures FechaR(m, r) in FechasRadicado(m, c)
  {
  }

  lemma AltaTConserva(m: Mundo, m': Mundo, id: nat, c: nat, t: nat, ahora: nat)
    requires Describe(m, m', AltaT(id), ahora) && AltaJustificada(m, m', AltaT(id)) && Invariante(m, c, t) && t < ahora
    ensures Invariante(m', c, ahora)
  {
    assert forall i :: HechoT(m', i, c) ==> HechoT(m, i, c);
    MismasRadicaciones(m, m', c);
    assert forall a :: ActivoT(m', a, c) ==> a == id || ActivoT(m, a, c);
    assert m'.traslados[id].cuenta == c ==> forall a :: ActivoT(m', a, c) ==> a == id;
    forall a, i | ActivoT(m', a, c) && HechoT(m', i, c) ensures SeguidoPorRadicado(m', i, c) {
      if a == id {
        FechaRecienteT(m, c, i);
        var ft, fr := Reciente(FechasTrasladado(m, c)), Reciente(FechasRadicado(m, c));
        assert fr.Algo? && ft.valor <= fr.valor;
        var r :| r in m.radicaciones && HechaR(m, r, c) && FechaR(m, r) == fr.valor;
        assert HechaR(m', r, c) && FechaT(m', i) < FechaR(m', r);
      } else {
        assert ActivoT(m, a, c) && SeguidoPorRadicado(m, i, c);
        var r :| HechaR(m, r, c) && FechaT(m, i) < FechaR(m, r);
        assert HechaR(m', r, c);
      }
    }
    forall i, j | HechoT(m', i, c) && HechoT(m', j, c) && FechaT(m', i) < FechaT(m', j)
      ensures RadicadoEntre(m', i, j, c)
    {
      assert RadicadoEntre(m, i, j, c);
      var r :| HechaR(m, r, c) && FechaT(m, i) < FechaR(m, r) < FechaT(m, j);
      assert HechaR(m', r, c);
    }
  }

  lemma MismasRadicaciones(m: Mundo, m': Mundo, c: nat)
    requires m'.radicaciones == m.radicaciones
    ensures forall r :: HechaR(m', r, c) <==> HechaR(m, r, c)
    ensures forall r :: ActivaR(m', r, c) <==> ActivaR(m, r, c)
  {
  }

  /** The heart of the matter: once a radicación is completed the guards never admit another. */
  lemma ConRadicadoNoHayAlta(m: Mundo, c: nat, t: nat, r: nat)
    requires Invariante(m, c, t) && HechaR(m, r, c) && TrasladoAprobado(m, c)
    ensures FaltaElOtro(Reciente(FechasRadicado(m, c)), Reciente(FechasTrasladado(m, c)))
  {
    FechaRecienteR(m, c, r);
    var ft, fr := Reciente(FechasTrasladado(m, c)), Reciente(FechasRadicado(m, c));
    if ft.Algo? {
      var i :| i in m.traslados && HechoT(m, i, c) && FechaT(m, i) == ft.valor;
      var a :| a in m.traslados && m.traslados[a].cuenta == c && m.traslados[a].estado == Aprobado;
      assert ActivoT(m, a, c) && HechoT(m, i, c) && SeguidoPorRadicado(m, i, c);
      var s :| HechaR(m, s, c) && FechaT(m, i) < FechaR(m, s);
      FechaRecienteR(m, c, s);
    }
  }

  lemma AltaRConserva(m: Mundo, m': Mundo, id: nat, c: nat, t: nat, ahora: nat)
    requires Describe(m, m', AltaR(id), ahora) && AltaJustificada(m, m', AltaR(id)) && Invariante(m, c, t) && t < ahora
    ensures Invariante(m', c, ahora)
  {
    assert forall i :: HechaR(m', i, c) <==> HechaR(m, i, c);
    if m'.radicaciones[id].cuenta == c {
      forall r | HechaR(m, r, c) ensures false { ConRadicadoNoHayAlta(m, c, t, r); }
      assert forall a :: ActivaR(m', a, c) <==> a == id;
    } else {
      assert forall a :: ActivaR(m', a, c) <==> ActivaR(m, a, c);
    }
    MismosTraslados(m, m', c);
  }

  /** With the same traslados and no fewer completed radicaciones, what holds about traslados still holds. */
  lemma MismosTraslados(m: Mundo, m': Mundo, c: nat)
    requires m'.traslados == m.traslados && Seguidos(m, c) && Alternan(m, c)
    requires forall r :: HechaR(m, r, c) ==> HechaR(m', r, c) && FechaR(m', r) == FechaR(m, r)
    ensures Seguidos(m', c) && Alternan(m', c)
    ensures forall i :: HechoT(m', i, c) <==> HechoT(m, i, c)
    ensures forall i :: ActivoT(m', i, c) <==> ActivoT(m, i, c)
  {
    forall a, i | ActivoT(m', a, c) && HechoT(m', i, c) ensures SeguidoPorRadicado(m', i, c) {
      assert ActivoT(m, a, c) && HechoT(m, i, c) && SeguidoPorRadicado(m, i, c);
      var r :| HechaR(m, r, c) && FechaT(m, i) < FechaR(m, r);
      assert HechaR(m', r, c);
    }
    forall i, j | HechoT(m', i, c) && HechoT(m', j, c) && FechaT(m', i) < FechaT(m', j)
      ensures RadicadoEntre(m', i, j, c)
    {
      assert HechoT(m, i, c) && HechoT(m, j, c) && RadicadoEntre(m, i, j, c);
      var r :| HechaR(m, r, c) && FechaT(m, i) < FechaR(m, r) < FechaT(m, j);
      assert HechaR(m', r, c);
    }
  }

  lemma CambioRConserva(m: Mundo, m': Mundo, id: nat, c: nat, t: nat, ahora: nat)
    requires Describe(m, m', CambioR(id), ahora) && Invariante(m, c, t) && t < ahora
    ensures Invariante(m', c, ahora)
  {
    assert !TerminalRadicacion(m.radicaciones[id].estado);
    assert forall r :: HechaR(m, r, c) ==> HechaR(m', r, c) && FechaR(m', r) == FechaR(m, r);
    assert forall r :: HechaR(m', r, c) ==> HechaR(m, r, c) || (r == id && ActivaR(m, id, c) && FechaR(m', r) == ahora);
    assert forall a :: ActivaR(m', a, c) ==> ActivaR(m, a, c);
    assert HechaR(m', id, c) ==> !ActivaR(m', id, c);
    MismosTraslados(m, m', c);
  }

  lemma CambioTConserva(m: Mundo, m': Mundo, id: nat, c: nat, t: nat, ahora: nat)
    requires Describe(m, m', CambioT(id), ahora) && Invariante(m, c, t) && t < ahora
    ensures Invariante(m', c, ahora)
  {
    assert !TerminalTraslado(m.traslados[id].estado);
    assert forall i :: HechoT(m, i, c) ==> HechoT(m', i, c) && FechaT(m', i) == FechaT(m, i);
    assert forall i :: HechoT(m', i, c) ==> HechoT(m, i, c) || (i == id && ActivoT(m, id, c) && FechaT(m', i) == ahora);
    assert forall a :: ActivoT(m', a, c) ==> ActivoT(m, a, c);
    MismasRadicaciones(m, m', c);
    assert HechoT(m', id, c) ==> !ActivoT(m', id, c);
    forall a, i | ActivoT(m', a, c) && HechoT(m', i, c) ensures SeguidoPorRadicado(m', i, c) {
      assert HechoT(m, i, c) && SeguidoPorRadicado(m, i, c);
      var r :| HechaR(m, r, c) && FechaT(m, i) < FechaR(m, r);
      assert HechaR(m', r, c);
    }
    forall i, j | HechoT(m', i, c) && HechoT(m', j, c) && FechaT(m', i) < FechaT(m', j)
      ensures RadicadoEntre(m', i, j, c)
    {
      assert HechoT(m, i, c);
      if HechoT(m, j, c) {
        assert RadicadoEntre(m, i, j, c);
        var r :| HechaR(m, r, c) && FechaT(m, i) < FechaR(m, r) < FechaT(m, j);
        assert HechaR(m', r, c);
      } else {
        assert ActivoT(m, j, c) && SeguidoPorRadicado(m, i, c);
        var r :| HechaR(m, r, c) && FechaT(m, i) < FechaR(m, r);
        assert HechaR(m', r, c) && FechaR(m', r) <= t;
      }
    }
  }

  lemma PasoConserva(m: Mundo, e: Evento, capa: Capa, c: nat, t: nat)
    requires Invariante(m, c, t) && t < e.ahora
    ensures Invariante(Tras(m, e, capa), c, e.ahora)
  {
    var ef := EfectoDe(m, e, capa);
    var m' := Tras(m, e, capa);
    match ef {
      case Ninguno =>
        MismasRadicaciones(m, m', c);
        MismosTraslados(m, m', c);
      case AltaT(id) => AltaTConserva(m, m', id, c, t, e.ahora);
      case AltaR(id) => AltaRConserva(m, m', id, c, t, e.ahora);
      case CambioT(id) => CambioTConserva(m, m', id, c, t, e.ahora);
      case CambioR(id) => CambioRConserva(m, m', id, c, t, e.ahora);
    }
  }

  lemma {:induction false} SiempreInvariante(cuentas: set<nat>, es: seq<Evento>, capa: Capa, c: nat)
    requires RelojEstricto(es)
    ensures Invariante(Correr(cuentas, es, capa), c, if es == [] then 0 else es[|es| - 1].ahora)
  {
    if es != [] {
      var n := |es| - 1;
      SiempreInvariante(cuentas, es[..n], capa, c);
      if n == 0 {
        var m := Correr(cuentas, [], capa);
        assert es[..0] == [];
        PrimerPaso(m, es[0], capa, c);
      } else {
        PasoConserva(Correr(cuentas, es[..n], capa), es[n], capa, c, es[n - 1].ahora);
      }
    }
  }

  /** The first request may come at instant 0; nothing is completed yet. */
  lemma PrimerPaso(m: Mundo, e: Evento, capa: Capa, c: nat)
    requires m.traslados == map[] && m.radicaciones == map[]
    ensures Invariante(Tras(m, e, capa), c, e.ahora)
  {
    var ef := EfectoDe(m, e, capa);
  }

  // ---------------------------------------------------------------- whole-run results

  /** In every reachable state an account has at most one active traslado and at most one active radicación. */
  lemma UnProcesoActivo(cuentas: set<nat>, es: seq<Evento>, capa: Capa, c: nat)
    requires RelojEstricto(es)
    ensures UnoActivo(Correr(cuentas, es, capa), c)
  {
    SiempreInvariante(cuentas, es, capa, c);
  }

  /** Between two completed traslados there always lies a completed radicación. */
  lemma TrasladosAlternan(cuentas: set<nat>, es: seq<Evento>, capa: Capa, c: nat, i: nat, j: nat)
    requires RelojEstricto(es)
    requires var m := Correr(cuentas, es, capa); HechoT(m, i, c) && HechoT(m, j, c) && i != j
    ensures var m := Correr(cuentas, es, capa);
      if FechaT(m, i) < FechaT(m, j) then RadicadoEntre(m, i, j, c)
      else FechaT(m, j) < FechaT(m, i) && RadicadoEntre(m, j, i, c)
  {
    SiempreInvariante(cuentas, es, capa, c);
  }

  /** An account is radicado at most once in its life. */
  lemma ALoSumoUnRadicado(cuentas: set<nat>, es: seq<Evento>, capa: Capa, c: nat, r: nat, s: nat)
    requires RelojEstricto(es)
    requires var m := Correr(cuentas, es, capa); HechaR(m, r, c) && HechaR(m, s, c)
    ensures r == s
  {
    SiempreInvariante(cuentas, es, capa, c);
  }

  /** And trasladado at most twice: of any three completed traslados of an account two are the same. */
  lemma ALoSumoDosTrasladados(cuentas: set<nat>, es: seq<Evento>, capa: Capa, c: nat, i: nat, j: nat, k: nat)
    requires RelojEstricto(es)
    requires var m := Correr(cuentas, es, capa); HechoT(m, i, c) && HechoT(m, j, c) && HechoT(m, k, c)
    ensures i == j || j == k || i == k
  {
    SiempreInvariante(cuentas, es, capa, c);
    var m := Correr(cuentas, es, capa);
    if i != j && j != k && i != k {
      var r := EntreDos(m, c, i, j);
      var u := EntreDos(m, c, j, k);
      var v := EntreDos(m, c, i, k);
      assert false;
    }
  }

  lemma EntreDos(m: Mundo, c: nat, i: nat, j: nat) returns (r: nat)
    requires FechasDistintas(m, c) && Alternan(m, c) && HechoT(m, i, c) && HechoT(m, j, c) && i != j
    ensures HechaR(m, r, c)
    ensures FechaT(m, i) < FechaR(m, r) < FechaT(m, j) || FechaT(m, j) < FechaR(m, r) < FechaT(m, i)
  {
    if FechaT(m, i) < FechaT(m, j) {
      assert RadicadoEntre(m, i, j, c);
      r :| HechaR(m, r, c) && FechaT(m, i) < FechaR(m, r) < FechaT(m, j);
    } else {
      assert RadicadoEntre(m, j, i, c);
      r :| HechaR(m, r, c) && FechaT(m, j) < FechaR(m, r) < FechaT(m, i);
    }
  }

  /** The message "must be transferred first" can never be complied with: in every reachable state in which an
      account has a completed radicación, creating another is refused. */
  lemma SegundaRadicacionImposible(cuentas: set<nat>, es: seq<Evento>, capa: Capa, e: Evento, r: nat)
    requires RelojEstricto(es) && e.cmd.CrearRadicacion? && HechaR(Correr(cuentas, es, capa), r, e.cmd.cuenta)
    ensures Paso(Correr(cuentas, es, capa), e, capa).Mal?
  {
    SiempreInvariante(cuentas, es, capa, e.cmd.cuenta);
    var m := Correr(cuentas, es, capa);
    if TrasladoAprobado(m, e.cmd.cuenta) {
      ConRadicadoNoHayAlta(m, e.cmd.cuenta, if es == [] then 0 else es[|es| - 1].ahora, r);
    }
  }
}
