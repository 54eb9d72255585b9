/** The application over the database with the triggers of migration 002: whole runs of the composed system. */
module Disparadores {
  import opened Opciones
  import opened Procesos
  import opened Movilidad
  import opened Ejecuciones
  import DiasHabiles

  // ---------------------------------------------------------------- one process per account

  /** Identifiers are fresh UUIDs: no process of either kind has the one of a process to be created. */
  predicate IdNuevo(m: Mundo, e: Evento) {
    e.cmd.CrearTraslado? || e.cmd.CrearRadicacion? ==> e.cmd.id !in m.traslados && e.cmd.id !in m.radicaciones
  }

  ghost predicate IdsNuevos(cuentas: set<nat>, es: seq<Evento>, capa: Capa) {
    forall k :: 0 <= k < |es| ==> IdNuevo(Correr(cuentas, es[..k], capa), es[k])
  }

  lemma IdsNuevosPrefijo(cuentas: set<nat>, es: seq<Evento>, capa: Capa)
    requires es != [] && IdsNuevos(cuentas, es, capa)
    ensures IdsNuevos(cuentas, es[..|es| - 1], capa) && IdNuevo(Correr(cuentas, es[..|es| - 1], capa), es[|es| - 1])
  {
    var n := |es| - 1;
    forall k | 0 <= k < n ensures IdNuevo(Correr(cuentas, es[..n][..k], capa), es[..n][k]) {
      assert es[..n][..k] == es[..k];
    }
  }

  /** Open as the trigger sees it: unlike the domain, it does not take a returned process for a closed one. */
  predicate AbiertoT(m: Mundo, id: nat, c: nat) {
    id in m.traslados && m.traslados[id].cuenta == c && m.traslados[id].estado != Trasladado
  }

  predicate AbiertaR(m: Mundo, id: nat, c: nat) {
    id in m.radicaciones && m.radicaciones[id].cuenta == c && m.radicaciones[id].estado != Radicado
  }

  ghost predicate UnoAbierto(m: Mundo, c: nat) {
    && (forall i, j :: AbiertoT(m, i, c) && AbiertoT(m, j, c) ==> i == j)
    && (forall i, j :: AbiertaR(m, i, c) && AbiertaR(m, j, c) ==> i == j)
    && (forall i, j :: AbiertoT(m, i, c) ==> !AbiertaR(m, j, c))
  }

  /** From any state with at most one open process of either kind per account, every request leads to such a state. */
  lemma UnoAbiertoSeConserva(m: Mundo, e: Evento, festivos: set<int>, c: nat)
    requires UnoAbierto(m, c) && IdNuevo(m, e)
    ensures UnoAbierto(Tras(m, e, ConDisparadores(festivos)), c)
  {
    var capa := ConDisparadores(festivos);
    var ef := EfectoDe(m, e, capa);
    var m' := Tras(m, e, capa);
    assert forall i :: AbiertoT(m', i, c) ==> AbiertoT(m, i, c) || ef == AltaT(i);
    assert forall i :: AbiertaR(m', i, c) ==> AbiertaR(m, i, c) || ef == AltaR(i);
    if (ef.AltaT? || ef.AltaR?) && e.cmd.cuenta == c {
      assert !ProcesoAbierto(m, c, ef.id);
      assert forall i :: !AbiertoT(m, i, c) && !AbiertaR(m, i, c);
    }
  }

  lemma {:induction false} SiempreUnoAbierto(cuentas: set<nat>, es: seq<Evento>, festivos: set<int>, c: nat)
    requires IdsNuevos(cuentas, es, ConDisparadores(festivos))
    ensures UnoAbierto(Correr(cuentas, es, ConDisparadores(festivos)), c)
  {
    if es != [] {
      var n, capa := |es| - 1, ConDisparadores(festivos);
      IdsNuevosPrefijo(cuentas, es, capa);
      SiempreUnoAbierto(cuentas, es[..n], festivos, c);
      UnoAbiertoSeConserva(Correr(cuentas, es[..n], capa), es[n], festivos, c);
    }
  }

  /** Creating a radicación never commits, from any state: the approved traslado that the application demands is
      an open process to the trigger. A request that passes every guard of the application fails in the database. */
  lemma RadicacionNunca(m: Mundo, e: Evento, festivos: set<int>)
    requires e.cmd.CrearRadicacion? && e.cmd.id !in m.traslados
    ensures Paso(m, e, ConDisparadores(festivos)).Mal?
    ensures Paso(m, e, SoloAplicacion).Bien? ==> Paso(m, e, ConDisparadores(festivos)) == Mal(ErrorDeBase)
  {
    if TrasladoAprobado(m, e.cmd.cuenta) {
      var id :| id in m.traslados && m.traslados[id].cuenta == e.cmd.cuenta && m.traslados[id].estado == Aprobado;
      assert id != e.cmd.id;
    }
  }

  ghost predicate SinFilas(m: Mundo, c: nat) {
    forall i :: i in m.traslados ==> m.traslados[i].cuenta != c
  }

  ghost predicate UnaFila(m: Mundo, c: nat) {
    forall i, j :: i in m.traslados && j in m.traslados ==>
      m.traslados[i].cuenta == c && m.traslados[j].cuenta == c ==> i == j
  }

  /** Where there are no radicaciones, an account gets a traslado exactly when it never had one: a running one is
      refused by the application, a returned one by the trigger, a completed one by the sequence guard. */
  lemma AltaSii(m: Mundo, e: Evento, festivos: set<int>)
    requires e.cmd.CrearTraslado? && m.radicaciones == map[] && IdNuevo(m, e)
    ensures Paso(m, e, ConDisparadores(festivos)).Bien? <==> e.cmd.cuenta in m.cuentas && SinFilas(m, e.cmd.cuenta)
  {
    var c := e.cmd.cuenta;
    assert FechasRadicado(m, c) == {};
    if SinFilas(m, c) {
      assert FechasTrasladado(m, c) == {};
    } else {
      var i :| i in m.traslados && m.traslados[i].cuenta == c;
      if m.traslados[i].estado == Trasladado {
        assert FechaT(m, i) in FechasTrasladado(m, c);
      } else {
        assert i != e.cmd.id;
      }
    }
  }

  /** In every run of the composed system there is never a radicación, and never a second traslado of an account. */
  lemma {:induction false} UnTrasladoPorCuenta(cuentas: set<nat>, es: seq<Evento>, festivos: set<int>, c: nat)
    requires IdsNuevos(cuentas, es, ConDisparadores(festivos))
    ensures Correr(cuentas, es, ConDisparadores(festivos)).radicaciones == map[]
    ensures UnaFila(Correr(cuentas, es, ConDisparadores(festivos)), c)
  {
    if es != [] {
      var n, capa := |es| - 1, ConDisparadores(festivos);
      var m, e := Correr(cuentas, es[..n], capa), es[n];
      IdsNuevosPrefijo(cuentas, es, capa);
      UnTrasladoPorCuenta(cuentas, es[..n], festivos, c);
      var ef := EfectoDe(m, e, capa);
      if ef.AltaR? {
        RadicacionNunca(m, e, festivos);
      } else if ef.AltaT? {
        AltaSii(m, e, festivos);
      }
    }
  }

  // ---------------------------------------------------------------- what the triggers do to a row

  /** A traslado under one request: as it was, or moved along the transition table, with the deadline and the
      approval written on entering `aprobado` and the completion on entering `trasladado`. */
  ghost predicate Avanza(f: FilaTraslado, g: FilaTraslado, e: Evento, festivos: set<int>) {
    || g == f
    || (&& g.estado in TransicionesTraslado(f.estado) && g.cuenta == f.cuenta && g.actualizadoEn == e.ahora
        && g.aprobadoEn == (if g.estado == Aprobado then Algo(e.ahora) else f.aprobadoEn)
        && g.vencimiento == (if g.estado == Aprobado then Algo(DiasHabiles.Sumar(festivos, e.hoy, PLAZO))
                             else f.vencimiento)
        && g.completadoEn == (if g.estado == Trasladado && f.completadoEn.Nada? then Algo(e.ahora) else f.completadoEn))
  }

  lemma AvanzaPaso(m: Mundo, id: nat, nuevo: EstadoTraslado, motivo: string, guia: string, organismo: Opcion<nat>,
                   empresa: Opcion<nat>, e: Evento, festivos: set<int>)
    requires id in m.traslados
    ensures var r := PasoTraslado(m, id, nuevo, motivo, guia, organismo, empresa, e.ahora, e.hoy,
                                  ConDisparadores(festivos));
      r.Bien? ==> (id in r.valor.traslados && Avanza(m.traslados[id], r.valor.traslados[id], e, festivos)
                   && r.valor.traslados == m.traslados[id := r.valor.traslados[id]])
  {
  }

  lemma AvanzaIntento(m: Mundo, tipo: TipoProceso, p: nat, conNovedades: bool, e: Evento, festivos: set<int>)
    ensures var r := Intentar(m, tipo, p, conNovedades, e.ahora, e.hoy, ConDisparadores(festivos));
      r.Bien? ==> (r.valor.traslados.Keys == m.traslados.Keys
                   && forall id :: id in m.traslados ==> Avanza(m.traslados[id], r.valor.traslados[id], e, festivos))
  {
    if tipo == EsTraslado && p in m.traslados {
      var nuevo := if conNovedades then EstadoTraslado.ConNovedades else EstadoTraslado.Revisado;
      AvanzaPaso(m, p, nuevo, "", "", Nada, Nada, e, festivos);
    }
  }

  ghost predicate RecienCreada(f: FilaTraslado) {
    f.estado == EstadoTraslado.SinAsignar && f.aprobadoEn == Nada && f.vencimiento == Nada && f.completadoEn == Nada
  }

  /** Every row after a request is new or comes from one before it. */
  lemma FilasTras(m: Mundo, e: Evento, festivos: set<int>)
    ensures var m' := Tras(m, e, ConDisparadores(festivos));
      && (forall id :: id in m.traslados ==>
            id in m'.traslados && Avanza(m.traslados[id], m'.traslados[id], e, festivos))
      && (forall id :: id in m'.traslados && id !in m.traslados ==> RecienCreada(m'.traslados[id]))
  {
    var capa := ConDisparadores(festivos);
    match e.cmd {
      case CrearTraslado(_, _, _, _) =>
      case CrearRadicacion(_, _, _, _) =>
      case CambiarEstadoTraslado(id, nuevo, motivo, guia, organismo, empresa) =>
        if id in m.traslados { AvanzaPaso(m, id, nuevo, motivo, guia, organismo, empresa, e, festivos); }
      case CambiarEstadoRadicacion(_, _, _, _, _, _, _) =>
      case CrearNovedad(id, tipo, p) =>
        AvanzaIntento(m.(novedades := m.novedades[id := FilaNovedad(tipo, p, Pendiente, "")]), tipo, p, true, e,
                      festivos);
      case ResolverNovedad(id, solucion) =>
        if id in m.novedades && Resolver(m.novedades[id], solucion).Bien? {
          var n := Resolver(m.novedades[id], solucion).valor;
          AvanzaIntento(m.(novedades := m.novedades[id := n]), n.tipo, n.proceso, false, e, festivos);
        }
    }
  }

  // ---------------------------------------------------------------- the deadline of a traslado

  predicate Previo(e: EstadoTraslado) {
    e == EstadoTraslado.SinAsignar || e == EstadoTraslado.Revisado || e == EstadoTraslado.ConNovedades
  }

  /** The `k`-th request approves the traslado. */
  ghost predicate Aprueba(cuentas: set<nat>, es: seq<Evento>, capa: Capa, id: nat, k: int) {
    && 0 <= k < |es|
    && var m, m' := Correr(cuentas, es[..k], capa), Correr(cuentas, es[..k + 1], capa);
       && id in m.traslados && m.traslados[id].estado != Aprobado
       && id in m'.traslados && m'.traslados[id].estado == Aprobado
  }

  ghost function Aprobaciones(cuentas: set<nat>, es: seq<Evento>, festivos: set<int>, id: nat): set<int> {
    set k | 0 <= k < |es| && Aprueba(cuentas, es, ConDisparadores(festivos), id, k)
  }

  lemma AprobacionesUnaMas(cuentas: set<nat>, es: seq<Evento>, festivos: set<int>, id: nat)
    requires es != []
    ensures Aprobaciones(cuentas, es, festivos, id)
         == Aprobaciones(cuentas, es[..|es| - 1], festivos, id)
            + (if Aprueba(cuentas, es, ConDisparadores(festivos), id, |es| - 1) then {|es| - 1} else {})
  {
    var n, capa := |es| - 1, ConDisparadores(festivos);
    forall k | 0 <= k < n ensures Aprueba(cuentas, es[..n], capa, id, k) <==> Aprueba(cuentas, es, capa, id, k) {
      assert es[..n][..k] == es[..k];
      assert es[..n][..k + 1] == es[..k + 1];
    }
  }

  /** A row against its approvals: none and no deadline, or a single one that dated it. */
  ghost predicate Consta(aps: set<int>, es: seq<Evento>, festivos: set<int>, f: FilaTraslado) {
    if aps == {} then
      (Previo(f.estado) || f.estado == EstadoTraslado.Devuelto) && f.vencimiento == Nada && f.aprobadoEn == Nada
    else
      !Previo(f.estado) && exists k :: Unica(aps, es, festivos, f, k)
  }

  ghost predicate Unica(aps: set<int>, es: seq<Evento>, festivos: set<int>, f: FilaTraslado, k: int) {
    && 0 <= k < |es| && aps == {k} && f.aprobadoEn == Algo(es[k].ahora)
    && f.vencimiento == Algo(DiasHabiles.Sumar(festivos, es[k].hoy, PLAZO))
  }

  lemma ConstaTrasPaso(aps: set<int>, es: seq<Evento>, festivos: set<int>, f: FilaTraslado, g: FilaTraslado)
    requires es != [] && Consta(aps, es[..|es| - 1], festivos, f) && Avanza(f, g, es[|es| - 1], festivos)
    ensures Consta(aps + if f.estado != Aprobado && g.estado == Aprobado then {|es| - 1} else {}, es, festivos, g)
  {
    var n := |es| - 1;
    if f.estado != Aprobado && g.estado == Aprobado {
      assert Previo(f.estado);
      assert Unica(aps + {n}, es, festivos, g, n);
    } else {
      assert aps + {} == aps;
      if aps != {} {
        var k :| Unica(aps, es[..n], festivos, f, k);
        assert Unica(aps, es, festivos, g, k);
      }
    }
  }

  lemma {:induction false} SiempreConsta(cuentas: set<nat>, es: seq<Evento>, festivos: set<int>, id: nat)
    ensures var m, aps := Correr(cuentas, es, ConDisparadores(festivos)), Aprobaciones(cuentas, es, festivos, id);
      if id in m.traslados then Consta(aps, es, festivos, m.traslados[id]) else aps == {}
  {
    if es != [] {
      var n, capa := |es| - 1, ConDisparadores(festivos);
      var m := Correr(cuentas, es[..n], capa);
      SiempreConsta(cuentas, es[..n], festivos, id);
      FilasTras(m, es[n], festivos);
      AprobacionesUnaMas(cuentas, es, festivos, id);
      assert es[..n + 1] == es;
      if id in m.traslados {
        ConstaTrasPaso(Aprobaciones(cuentas, es[..n], festivos, id), es, festivos, m.traslados[id],
                       Correr(cuentas, es, capa).traslados[id]);
      }
    }
  }

  /** In every run a traslado has a deadline exactly when a request has approved it; only one ever does, and exactly
      sixty business days lie after its day up to the deadline, which is one of them. */
  lemma PlazoSiiAprobado(cuentas: set<nat>, es: seq<Evento>, festivos: set<int>, id: nat)
    requires id in Correr(cuentas, es, ConDisparadores(festivos)).traslados
    ensures var f, aps := Correr(cuentas, es, ConDisparadores(festivos)).traslados[id],
                          Aprobaciones(cuentas, es, festivos, id);
      && (f.vencimiento.Algo? <==> aps != {}) && (f.aprobadoEn.Algo? <==> aps != {})
      && (f.estado in [Aprobado, EnviadoOrganismo, Trasladado] ==> aps != {})
      && (Previo(f.estado) ==> aps == {})
      && (forall k :: k in aps ==>
            && aps == {k} && f.aprobadoEn == Algo(es[k].ahora) && es[k].hoy < f.vencimiento.valor
            && DiasHabiles.Contar(festivos, es[k].hoy, f.vencimiento.valor) == 60
            && DiasHabiles.EsDiaHabil(festivos, f.vencimiento.valor))
  {
    SiempreConsta(cuentas, es, festivos, id);
    if k :| k in Aprobaciones(cuentas, es, festivos, id) {
      DiasHabiles.ContarDeSumar(festivos, es[k].hoy, PLAZO);
    }
  }

  lemma PlazoTrasPaso(cuentas: set<nat>, es: seq<Evento>, festivos: set<int>, id: nat)
    requires es != []
    requires var m := Correr(cuentas, es[..|es| - 1], ConDisparadores(festivos));
      id in m.traslados && m.traslados[id].vencimiento.Algo?
    ensures var m, m' := Correr(cuentas, es[..|es| - 1], ConDisparadores(festivos)),
                         Correr(cuentas, es, ConDisparadores(festivos));
      && id in m'.traslados && m'.traslados[id].vencimiento == m.traslados[id].vencimiento
      && m'.traslados[id].aprobadoEn == m.traslados[id].aprobadoEn
  {
    var n := |es| - 1;
    SiempreConsta(cuentas, es[..n], festivos, id);
    FilasTras(Correr(cuentas, es[..n], ConDisparadores(festivos)), es[n], festivos);
  }

  /** Once set, the deadline and the approval instant never change again. */
  lemma {:induction false} PlazoNoCambia(cuentas: set<nat>, es: seq<Evento>, festivos: set<int>, i: nat, id: nat)
    requires i <= |es| && id in Correr(cuentas, es[..i], ConDisparadores(festivos)).traslados
    requires Correr(cuentas, es[..i], ConDisparadores(festivos)).traslados[id].vencimiento.Algo?
    ensures var m, m' := Correr(cuentas, es[..i], ConDisparadores(festivos)),
                         Correr(cuentas, es, ConDisparadores(festivos));
      && id in m'.traslados && m'.traslados[id].vencimiento == m.traslados[id].vencimiento
      && m'.traslados[id].aprobadoEn == m.traslados[id].aprobadoEn
    decreases |es|
  {
    if i == |es| {
      assert es[..i] == es;
    } else {
      var n := |es| - 1;
      assert es[..n][..i] == es[..i];
      PlazoNoCambia(cuentas, es[..n], festivos, i, id);
      PlazoTrasPaso(cuentas, es, festivos, id);
    }
  }

  /** In every run the completion instant is there exactly for the completed traslados and is that of their last
      change. */
  lemma {:induction false} CompletadoSii(cuentas: set<nat>, es: seq<Evento>, festivos: set<int>, id: nat)
    requires id in Correr(cuentas, es, ConDisparadores(festivos)).traslados
    ensures var f := Correr(cuentas, es, ConDisparadores(festivos)).traslados[id];
      f.completadoEn == if f.estado == Trasladado then Algo(f.actualizadoEn) else Nada
  {
    var n := |es| - 1;
    var m := Correr(cuentas, es[..n], ConDisparadores(festivos));
    FilasTras(m, es[n], festivos);
    if id in m.traslados {
      CompletadoSii(cuentas, es[..n], festivos, id);
    }
  }

  // ---------------------------------------------------------------- the deadline of a radicación

  /** What the insert trigger writes: a given deadline stays, a missing one is set sixty business days ahead. */
  lemma PlazoDeRadicacion(f: FilaRadicacion, festivos: set<int>, hoy: int)
    ensures var g := AntesDeInsertarRadicacion(f, ConDisparadores(festivos), hoy);
      && g.vencimiento.Algo? && g.(vencimiento := f.vencimiento) == f
      && (f.vencimiento.Algo? ==> g == f)
      && (f.vencimiento.Nada? ==> hoy < g.vencimiento.valor && DiasHabiles.EsDiaHabil(festivos, g.vencimiento.valor)
                                  && DiasHabiles.Contar(festivos, hoy, g.vencimiento.valor) == 60)
  {
    DiasHabiles.ContarDeSumar(festivos, hoy, PLAZO);
  }

  /** No request changes the deadline of a radicación that is there. */
  lemma PlazoDeRadicacionFijo(m: Mundo, e: Evento, capa: Capa)
    ensures forall id :: id in m.radicaciones ==>
      id in Tras(m, e, capa).radicaciones
        && Tras(m, e, capa).radicaciones[id].vencimiento == m.radicaciones[id].vencimiento
  {
    var ef := EfectoDe(m, e, capa);
  }
}
